/** `pb_field_iter_t` and the words in which the decoder keeps the required fields it has met. */
module NanopbFields {
  import opened NanopbTypes
  import opened NanopbDecode
  import opened Words64

  /** The place of a required field among the required fields. */
  function RequiredIndex(fields: seq<Field>, pos: nat): nat
    requires pos <= |fields|
  {
    RequiredCount(fields[..pos])
  }

  lemma {:induction false} RequiredIndexStep(fields: seq<Field>, pos: nat)
    requires pos < |fields|
    ensures RequiredIndex(fields, pos + 1) == RequiredIndex(fields, pos) + if fields[pos].rule.Required? then 1 else 0
    ensures RequiredIndex(fields, 0) == 0 && RequiredIndex(fields, |fields|) == RequiredCount(fields)
  {
    assert fields[..pos + 1][..pos] == fields[..pos];
    assert fields[..|fields|] == fields;
  }

  lemma {:induction false} RequiredIndexMonotone(fields: seq<Field>, a: nat, b: nat)
    requires a <= b <= |fields|
    ensures RequiredIndex(fields, a) <= RequiredIndex(fields, b)
    decreases b - a
  {
    if a < b {
      RequiredIndexStep(fields, b - 1);
      RequiredIndexMonotone(fields, a, b - 1);
    }
  }

  /** Every number below the count belongs to a required field. */
  lemma {:induction false} NthRequired(fields: seq<Field>, n: nat, end: nat) returns (pos: nat)
    requires end <= |fields| && n < RequiredIndex(fields, end)
    ensures pos < end && fields[pos].rule.Required? && RequiredIndex(fields, pos) == n
  {
    RequiredIndexStep(fields, end - 1);
    if n < RequiredIndex(fields, end - 1) {
      pos := NthRequired(fields, n, end - 1);
    } else {
      pos := end - 1;
    }
  }

  /** Exactly the bits below `k` are set. */
  ghost predicate Ones(w: nat, k: nat) {
    forall i: nat :: Bit(w, i) <==> i < k
  }

  lemma {:induction false} PowerBit(k: nat, i: nat)
    ensures Bit(Pow2(k) - 1, i) <==> i < k
  {
    if k == 0 {
      NoBits(i);
    } else {
      var half := Pow2(k - 1) - 1;
      assert Pow2(k) - 1 == 2 * half + 1;
      if i > 0 {
        PowerBit(k - 1, i - 1);
      }
    }
  }

  lemma {:induction false} PowerHasOnes(k: nat)
    ensures Ones(Pow2(k) - 1, k)
  {
    var w := Pow2(k) - 1;
    forall i: nat
      ensures Bit(w, i) <==> i < k
    {
      PowerBit(k, i);
    }
  }

  lemma {:induction false} OnesArePower(w: nat, k: nat)
    requires Ones(w, k)
    ensures w == Pow2(k) - 1
    decreases k
  {
    if k == 0 {
      if w > 0 {
        var _ := SomeBit(w);
      }
    } else {
      forall i: nat ensures Bit(w / 2, i) <==> i < k - 1 {
        assert Bit(w, i + 1) <==> i + 1 < k;
      }
      OnesArePower(w / 2, k - 1);
      assert Bit(w, 0) <==> 0 < k;
      assert w == 2 * (w / 2) + 1;
    }
  }

  lemma {:induction false} SomeBit(w: nat) returns (i: nat)
    requires w > 0
    ensures Bit(w, i)
  {
    if w % 2 == 1 {
      i := 0;
    } else {
      var j := SomeBit(w / 2);
      i := j + 1;
    }
  }

  // ---- The presence of required fields ----

  /** Bit `n` of `fields_seen`. */
  predicate SeenBit(words: seq<nat>, n: nat)
    requires |words| == 2
  {
    n < 64 && Bit(words[n / 32], n % 32)
  }

  /** The two words have 32 bits each, and hold the required fields among `seen`. */
  ghost predicate Tracks(fields: seq<Field>, words: seq<nat>, seen: set<nat>) {
    && |words| == 2
    && (forall n: nat, i: nat | n < 2 && i >= 32 :: !Bit(words[n], i))
    && (forall n: nat | n >= RequiredCount(fields) :: !SeenBit(words, n))
    && (forall p: nat | p < |fields| && fields[p].rule.Required? :: SeenBit(words, RequiredIndex(fields, p)) <==> p in seen)
  }

  lemma {:induction false} TracksNothing(fields: seq<Field>)
    ensures Tracks(fields, [0, 0], {})
  {
    forall i: nat ensures !Bit(0, i) {
      NoBits(i);
    }
  }

  lemma {:induction false} RequiredBelowCount(fields: seq<Field>, p: nat, q: nat)
    requires p < q <= |fields| && fields[p].rule.Required?
    ensures RequiredIndex(fields, p) < RequiredIndex(fields, q) <= RequiredCount(fields)
  {
    RequiredIndexStep(fields, p);
    RequiredIndexMonotone(fields, p + 1, q);
    RequiredIndexMonotone(fields, q, |fields|);
  }

  /** Meeting a field that is not required changes nothing. */
  lemma {:induction false} TracksOther(fields: seq<Field>, words: seq<nat>, seen: set<nat>, pos: nat)
    requires Tracks(fields, words, seen) && pos < |fields| && !fields[pos].rule.Required?
    ensures Tracks(fields, words, seen + {pos})
  {
  }

  /** Meeting a required field sets its bit. */
  lemma {:induction false} TracksRequired(fields: seq<Field>, words: seq<nat>, seen: set<nat>, pos: nat)
    requires CountOk(RequiredCount(fields)) && Tracks(fields, words, seen)
    requires pos < |fields| && fields[pos].rule.Required?
    ensures RequiredIndex(fields, pos) < 64
    ensures var n := RequiredIndex(fields, pos);
      Tracks(fields, words[n / 32 := SetBit(words[n / 32], n % 32)], seen + {pos})
  {
    RequiredBelowCount(fields, pos, |fields|);
    var n := RequiredIndex(fields, pos);
    var words' := words[n / 32 := SetBit(words[n / 32], n % 32)];
    forall i: nat ensures Bit(words'[n / 32], i) <==> i == n % 32 || Bit(words[n / 32], i) {
      SetBitBits(words[n / 32], n % 32, i);
    }
    assert forall m: nat :: SeenBit(words', m) <==> m == n || SeenBit(words, m);
    forall p: nat | p < |fields| && fields[p].rule.Required?
      ensures SeenBit(words', RequiredIndex(fields, p)) <==> p in seen + {pos}
    {
      if p < pos {
        RequiredBelowCount(fields, p, pos);
      } else if pos < p {
        RequiredBelowCount(fields, pos, p);
      }
    }
  }

  /** All required fields have been met exactly when the bits below their count are set. */
  lemma {:induction false} AllSeenBits(fields: seq<Field>, words: seq<nat>, seen: set<nat>)
    requires Tracks(fields, words, seen)
    ensures AllSeen(fields, seen) <==> AllBits(words, 0, RequiredCount(fields))
  {
    assert fields[..|fields|] == fields;
    if AllSeen(fields, seen) {
      forall n: nat | n < RequiredCount(fields)
        ensures SeenBit(words, n)
      {
        var p := NthRequired(fields, n, |fields|);
      }
    }
    if AllBits(words, 0, RequiredCount(fields)) {
      forall p | 0 <= p < |fields| && fields[p].rule.Required?
        ensures p in seen
      {
        RequiredBelowCount(fields, p, |fields|);
      }
    }
  }

  predicate AllBits(words: seq<nat>, from: nat, to: nat)
    requires |words| == 2
  {
    forall m: nat | from <= m < to :: SeenBit(words, m)
  }

  /** One word of `fields_seen` against the bits of `count` fields. */
  lemma {:induction false} WordFull(fields: seq<Field>, words: seq<nat>, seen: set<nat>, n: nat, count: nat)
    requires Tracks(fields, words, seen) && n < 2 && count <= 32
    requires count < 32 ==> 32 * n + count == RequiredCount(fields)
    ensures words[n] == Pow2(count) - 1 <==> AllBits(words, 32 * n, 32 * n + count)
  {
    if words[n] == Pow2(count) - 1 {
      PowerHasOnes(count);
      forall m: nat | 32 * n <= m < 32 * n + count
        ensures SeenBit(words, m)
      {
        assert m / 32 == n && m % 32 == m - 32 * n;
        assert Bit(words[n], m - 32 * n) <==> m - 32 * n < count;
      }
    }
    if AllBits(words, 32 * n, 32 * n + count) {
      forall i: nat ensures Bit(words[n], i) <==> i < count {
        if i < 32 {
          var m := 32 * n + i;
          assert m / 32 == n && m % 32 == i;
          assert SeenBit(words, m) <==> Bit(words[n], i);
        }
      }
      OnesArePower(words[n], count);
    }
  }

  /** The check at the end of `pb_decode_noinit`. `allbits >> (32 - k)` is `Pow2(k) - 1`. */
  method CheckRequired(fields: seq<Field>, words: seq<nat>, count: nat, ghost seen: set<nat>) returns (ok: bool)
    requires Tracks(fields, words, seen) && count == RequiredCount(fields) && CountOk(count)
    ensures ok == AllSeen(fields, seen)
  {
    AllSeenBits(fields, words, seen);
    if count > 0 {
      for i := 0 to count / 32
        invariant AllBits(words, 0, 32 * i)
      {
        WordFull(fields, words, seen, i, 32);
        if words[i] != Pow2(32) - 1 {
          return false;
        }
      }
      var whole := count / 32;
      WordFull(fields, words, seen, whole, count % 32);
      if words[whole] != Pow2(count % 32) - 1 {
        return false;
      }
    }
    return true;
  }

  /** `pb_field_iter_t`. */
  class FieldIter {
    const fields: seq<Field>
    var pos: nat
    var requiredIndex: nat

    ghost predicate Valid()
      reads this
    {
      && (if fields == [] then pos == 0 else pos < |fields|)
      && requiredIndex == RequiredIndex(fields, pos)
    }

    /** `pb_field_iter_begin`. */
    constructor (fields: seq<Field>)
      ensures Valid() && this.fields == fields && pos == 0
    {
      this.fields, pos, requiredIndex := fields, 0, 0;
    }

    /** `pb_field_iter_next`: false after the last field, when the iterator is back at the first one. */
    method Next() returns (more: bool)
      requires Valid()
      modifies this
      ensures Valid() && more == (old(pos) + 1 < |fields|) && pos == if more then old(pos) + 1 else 0
    {
      if fields == [] {
        return false;
      }
      RequiredIndexStep(fields, pos);
      if pos + 1 == |fields| {
        pos, requiredIndex := 0, 0;
        return false;
      }
      requiredIndex := requiredIndex + if fields[pos].rule.Required? then 1 else 0;
      pos := pos + 1;
      return true;
    }

    /** `pb_field_iter_find`: the search wraps around. The terminator of an empty descriptor has the tag 0. */
    method Find(tag: nat) returns (found: bool)
      requires Valid()
      modifies this
      ensures Valid() && found == ((fields == [] && tag == 0) || FieldIndex(fields, tag).Some?)
      ensures found && fields != [] ==> fields[pos].tag == tag
    {
      if fields == [] {
        return tag == 0;
      }
      var start := pos;
      ghost var wrapped := false;
      while true
        invariant Valid()
        invariant !wrapped ==> start <= pos && forall i | start <= i < pos :: fields[i].tag != tag
        invariant wrapped ==> pos < start && forall i | 0 <= i < pos || start <= i < |fields| :: fields[i].tag != tag
        decreases if wrapped then start - pos else |fields| - pos + start
      {
        if fields[pos].tag == tag {
          return true;
        }
        var more := Next();
        wrapped := wrapped || !more;
        if pos == start {
          return false;
        }
      }
    }

    /** The count that `pb_decode_noinit` makes by seeking to the last field. */
    method CountRequired() returns (count: nat)
      requires Valid()
      modifies this
      ensures Valid() && count == RequiredCount(fields)
    {
      var more, last := true, false;
      count := requiredIndex;
      while more
        invariant Valid()
        invariant more ==> count <= requiredIndex
        invariant !more ==> pos == 0 && count + (if last && fields != [] then 1 else 0) == RequiredCount(fields)
        decreases more, |fields| - pos
      {
        count, last := requiredIndex, fields != [] && fields[pos].rule.Required?;
        if fields != [] {
          RequiredIndexStep(fields, pos);
        }
        more := Next();
      }
      if last && fields != [] {
        count := count + 1;
      }
    }
  }
}
