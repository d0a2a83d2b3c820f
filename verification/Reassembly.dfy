/** Reassembly of one incoming DTLS handshake message: `hm_fragment` and its bitmask. */
module Reassembly {
  import opened Basics
  import opened Bits
  import opened Ranges
  import opened HandshakeWire

  /** Position `i` is marked in the bitmask `mask`. */
  predicate Marked(mask: seq<bv8>, i: nat)
    requires i < 8 * |mask|
  {
    Bit(mask[i / 8], i % 8)
  }

  /** The positions marked in `mask`. */
  ghost function MarkedSet(mask: seq<bv8>): set<nat> {
    set i: nat | i < 8 * |mask| && Marked(mask, i)
  }

  /** `got` holds bytes of `data`, by position. */
  ghost predicate Recorded(got: map<nat, byte>, data: seq<byte>) {
    forall i | i in got :: i < |data| && got[i] == data[i]
  }

  /** An incoming message. `data` holds the body; the header in front of it, which never changes, is
      given by the constant fields. `reassembly` is the bitmask of received body bytes, null once the
      body is complete. */
  class Fragment {
    const typ: byte
    const num: nat
    const msgLen: nat
    const data: array<byte>
    var reassembly: array?<bv8>
    /** The body bytes received so far, by position. */
    ghost var got: map<nat, byte>

    ghost predicate Valid()
      reads this, data, reassembly
    {
      && data.Length == msgLen
      && FitsHeader(msgLen, num)
      && (reassembly != null ==>
            && reassembly as object != data as object
            && reassembly.Length == (msgLen + 7) / 8
            && got.Keys == MarkedSet(reassembly[..])
            && got.Keys < Interval(0, msgLen))
      && (reassembly == null ==> got.Keys == Interval(0, msgLen))
      && Recorded(got, data[..])
    }

    /** `dtls1_hm_fragment_new`. The body buffer is uninitialised memory. */
    constructor (typ: byte, num: nat, msgLen: nat)
      requires FitsHeader(msgLen, num)
      ensures Valid() && this.typ == typ && this.num == num && this.msgLen == msgLen
      ensures fresh(data) && (reassembly != null ==> fresh(reassembly))
      ensures got == map[]
      ensures reassembly == null <==> msgLen == 0
    {
      this.typ, this.num, this.msgLen := typ, num, msgLen;
      data := new byte[msgLen];
      got := map[];
      if msgLen > 0 {
        var m := new bv8[(msgLen + 7) / 8](_ => 0);
        NoBitsInZeros(m[..]);
        reassembly := m;
        assert 0 in Interval(0, msgLen);
      } else {
        reassembly := null;
      }
    }

    /** The copy of a fragment body into the message buffer, followed by `dtls1_hm_fragment_mark`. A
        complete message is left alone. */
    method Store(off: nat, body: seq<byte>)
      requires Valid() && off + |body| <= msgLen
      modifies this`reassembly, this`got, data, reassembly
      ensures Valid()
      ensures reassembly == null || reassembly == old(reassembly)
      ensures got == if old(reassembly) == null then old(got) else old(got) + BytesAt(off, body)
    {
      if reassembly == null {
        return;
      }
      ghost var keys := got.Keys;
      CopyInto(data, off, body);
      ghost var bytes := data[..];
      var mask := reassembly;
      assert mask[..] == old(mask[..]);
      var full := Mark(mask, msgLen, off, off + |body|);
      ghost var marked := MarkedSet(mask[..]);
      BytesAtMerge(got, off, body, old(data[..]), bytes);
      got := got + BytesAt(off, body);
      assert got.Keys == marked == keys + Interval(off, off + |body|);
      WithinMessage(keys, off, off + |body|, msgLen);
      assert data[..] == bytes;
      if full {
        reassembly := null;
      }
    }
  }

  /** The bytes `body` at the positions from `off` on. */
  function BytesAt(off: nat, body: seq<byte>): (m: map<nat, byte>) {
    var end := off + |body|;
    map i: nat | i in Interval(off, end) :: body[i - off]
  }

  lemma {:induction false} WithinMessage(keys: set<nat>, start: nat, end: nat, msgLen: nat)
    requires keys <= Interval(0, msgLen) && end <= msgLen
    ensures keys + Interval(start, end) <= Interval(0, msgLen)
  {
  }

  /** Copying a fragment keeps the record of what was received. */
  lemma {:induction false} BytesAtMerge(got: map<nat, byte>, off: nat, body: seq<byte>, before: seq<byte>, after: seq<byte>)
    requires |before| == |after| && off + |body| <= |after|
    requires Recorded(got, before)
    requires forall i | 0 <= i < |after| :: after[i] == if off <= i < off + |body| then body[i - off] else before[i]
    ensures (got + BytesAt(off, body)).Keys == got.Keys + Interval(off, off + |body|)
    ensures Recorded(got + BytesAt(off, body), after)
  {
  }

  method CopyInto(data: array<byte>, off: nat, body: seq<byte>)
    requires off + |body| <= data.Length
    modifies data
    ensures forall i | 0 <= i < data.Length ::
              data[i] == if off <= i < off + |body| then body[i - off] else old(data[i])
  {
    for k := 0 to |body|
      invariant forall i | 0 <= i < data.Length ::
                  data[i] == if off <= i < off + k then body[i - off] else old(data[i])
    {
      data[off + k] := body[k];
    }
  }

  /** `dtls1_hm_fragment_mark` on the bitmask of a message of `msgLen` bytes: whether the message is now
      complete, in which case the caller drops the bitmask. */
  method Mark(mask: array<bv8>, msgLen: nat, start: nat, end: nat) returns (full: bool)
    requires start <= end <= msgLen && mask.Length == (msgLen + 7) / 8
    requires MarkedSet(mask[..]) < Interval(0, msgLen)
    modifies mask
    ensures MarkedSet(mask[..]) == old(MarkedSet(mask[..])) + Interval(start, end)
    ensures full <==> MarkedSet(mask[..]) == Interval(0, msgLen)
  {
    if start == end {
      return false;
    }
    WithRangeSet(mask[..], start, end);
    SetRange(mask, start, end);
    full := IsFull(mask, msgLen);
  }

  lemma {:induction false} NoBitsInZeros(mask: seq<bv8>)
    requires forall i | 0 <= i < |mask| :: mask[i] == 0
    ensures MarkedSet(mask) == {}
  {
    forall i: nat | i < 8 * |mask|
      ensures !Marked(mask, i)
    {
      assert mask[i / 8] == 0;
    }
  }

  /** The bits of byte `k` that lie in the range from `start` to `end`. */
  function RangeByte(k: nat, start: nat, end: nat): (b: bv8) {
    BitRange(Clamp(start - 8 * k), Clamp(end - 8 * k))
  }

  function Clamp(n: int): (c: nat)
    ensures c <= 8
  {
    if n < 0 then 0 else if n > 8 then 8 else n
  }

  lemma {:induction false} OrRangeByte(b: bv8, start: nat, end: nat, i: nat)
    ensures Bit(b | RangeByte(i / 8, start, end), i % 8) <==> Bit(b, i % 8) || start <= i < end
  {
    BitOr(b, RangeByte(i / 8, start, end), i % 8);
    BitRangeBits(Clamp(start - 8 * (i / 8)), Clamp(end - 8 * (i / 8)), i % 8);
  }

  /** Bytes outside the range are untouched by it, and bytes strictly inside it become 0xff. */
  lemma {:induction false} RangeByteOutside(b: bv8, k: nat, start: nat, end: nat)
    requires end <= 8 * k || 8 * k + 8 <= start
    ensures b | RangeByte(k, start, end) == b
  {
    forall i: nat | i < 8
      ensures Bit(b | RangeByte(k, start, end), i) == Bit(b, i)
    {
      BitOr(b, RangeByte(k, start, end), i);
      BitRangeBits(Clamp(start - 8 * k), Clamp(end - 8 * k), i);
    }
    BitsDetermineByte(b | RangeByte(k, start, end), b);
  }

  lemma {:induction false} RangeByteInside(b: bv8, k: nat, start: nat, end: nat)
    requires start <= 8 * k && 8 * k + 8 <= end
    ensures b | RangeByte(k, start, end) == 0xff
  {
    FullPrefix(b, 8);
  }

  /** `mask` with the bits from `start` to `end` set. */
  function WithRange(mask: seq<bv8>, start: nat, end: nat): (r: seq<bv8>)
    ensures |r| == |mask|
  {
    seq(|mask|, k requires 0 <= k < |mask| => mask[k] | RangeByte(k, start, end))
  }

  lemma {:induction false} WithRangeMarks(mask: seq<bv8>, start: nat, end: nat)
    ensures forall i: nat | i < 8 * |mask| ::
              Marked(WithRange(mask, start, end), i) <==> Marked(mask, i) || start <= i < end
  {
    forall i: nat | i < 8 * |mask|
      ensures Marked(WithRange(mask, start, end), i) <==> Marked(mask, i) || start <= i < end
    {
      OrRangeByte(mask[i / 8], start, end, i);
    }
  }

  lemma {:induction false} WithRangeSet(mask: seq<bv8>, start: nat, end: nat)
    requires end <= 8 * |mask|
    ensures MarkedSet(WithRange(mask, start, end)) == MarkedSet(mask) + Interval(start, end)
  {
    WithRangeMarks(mask, start, end);
  }

  /** Position `i` lies in one of `ranges`. */
  ghost predicate Covered(ranges: seq<(nat, nat)>, i: nat) {
    exists r :: r in ranges && r.0 <= i < r.1
  }

  /** The bitmask of an `n`-byte message after marking each of `ranges` in turn. */
  ghost function MaskAfter(n: nat, ranges: seq<(nat, nat)>): (mask: seq<bv8>)
    ensures |mask| == (n + 7) / 8
  {
    if ranges == [] then seq((n + 7) / 8, _ => 0)
    else
      var r := ranges[|ranges| - 1];
      WithRange(MaskAfter(n, ranges[..|ranges| - 1]), r.0, r.1)
  }

  ghost function Union(ranges: seq<(nat, nat)>): set<nat> {
    if ranges == [] then {}
    else
      var r := ranges[|ranges| - 1];
      Union(ranges[..|ranges| - 1]) + Interval(r.0, r.1)
  }

  lemma {:induction false} UnionMembers(ranges: seq<(nat, nat)>, i: nat)
    ensures i in Union(ranges) <==> Covered(ranges, i)
  {
    if ranges != [] {
      var k := |ranges| - 1;
      UnionMembers(ranges[..k], i);
      assert ranges == ranges[..k] + [ranges[k]];
      if Covered(ranges[..k], i) {
        var r :| r in ranges[..k] && r.0 <= i < r.1;
        assert r in ranges;
      }
    }
  }

  /** Whatever the ranges, their order and their overlaps, the mask holds exactly their union. */
  lemma {:induction false} MaskIsUnion(n: nat, ranges: seq<(nat, nat)>)
    requires forall r | r in ranges :: r.0 <= r.1 <= n
    ensures MarkedSet(MaskAfter(n, ranges)) == Union(ranges)
  {
    if ranges == [] {
      NoBitsInZeros(MaskAfter(n, ranges));
    } else {
      var k := |ranges| - 1;
      MaskIsUnion(n, ranges[..k]);
      WithRangeSet(MaskAfter(n, ranges[..k]), ranges[k].0, ranges[k].1);
    }
  }

  /** So no bit at or beyond the message length is ever set, and the mask is full exactly when the ranges
      cover the message. */
  lemma {:induction false} MaskCovers(n: nat, ranges: seq<(nat, nat)>)
    requires forall r | r in ranges :: r.0 <= r.1 <= n
    ensures MarkedSet(MaskAfter(n, ranges)) <= Interval(0, n)
    ensures MarkedSet(MaskAfter(n, ranges)) == Interval(0, n) <==> forall i: nat | i < n :: Covered(ranges, i)
  {
    var marked := MarkedSet(MaskAfter(n, ranges));
    assert forall i: nat :: i in marked <==> Covered(ranges, i) by {
      MaskIsUnion(n, ranges);
      forall i: nat {
        UnionMembers(ranges, i);
      }
    }
    assert forall i: nat :: i in Interval(0, n) <==> i < n;
  }

  /** What each byte of the result is, as the four branches of the marking code write it. */
  lemma {:induction false} WithRangeBytes(mask: seq<bv8>, start: nat, end: nat, k: nat)
    requires k < |mask| && start < end
    ensures k < start / 8 || end <= 8 * k ==> WithRange(mask, start, end)[k] == mask[k]
    ensures start / 8 < k < end / 8 ==> WithRange(mask, start, end)[k] == 0xff
    ensures k == start / 8 == end / 8 ==> WithRange(mask, start, end)[k] == mask[k] | BitRange(start % 8, end % 8)
    ensures k == start / 8 < end / 8 ==> WithRange(mask, start, end)[k] == mask[k] | BitRange(start % 8, 8)
    ensures start / 8 < k == end / 8 ==> WithRange(mask, start, end)[k] == mask[k] | BitRange(0, end % 8)
  {
    if k < start / 8 || end <= 8 * k {
      RangeByteOutside(mask[k], k, start, end);
    } else if start / 8 < k < end / 8 {
      RangeByteInside(mask[k], k, start, end);
    }
  }

  method FillBytes(mask: array<bv8>, from: nat, to: nat)
    requires from <= to <= mask.Length
    modifies mask
    ensures forall j | 0 <= j < mask.Length :: mask[j] == if from <= j < to then 0xff else old(mask[j])
  {
    for k := from to to
      invariant forall j | 0 <= j < mask.Length :: mask[j] == if from <= j < k then 0xff else old(mask[j])
    {
      mask[k] := 0xff;
    }
  }

  /** The marking half of `dtls1_hm_fragment_mark`: whole bytes in the middle, partial ones at the ends. */
  method SetRange(mask: array<bv8>, start: nat, end: nat)
    requires start < end <= 8 * mask.Length
    modifies mask
    ensures mask[..] == WithRange(old(mask[..]), start, end)
  {
    var first, last := start / 8, end / 8;
    ghost var before := mask[..];
    if first == last {
      mask[first] := mask[first] | BitRange(start % 8, end % 8);
    } else {
      mask[first] := mask[first] | BitRange(start % 8, 8);
      FillBytes(mask, first + 1, last);
      if end % 8 != 0 {
        mask[last] := mask[last] | BitRange(0, end % 8);
      }
    }
    forall k | 0 <= k < mask.Length
      ensures mask[k] == WithRange(before, start, end)[k]
    {
      WithRangeBytes(before, start, end, k);
    }
  }

  /** The completion test: every whole byte is 0xff and the last partial one is exactly full. */
  method IsFull(mask: array<bv8>, msgLen: nat) returns (full: bool)
    requires 0 < msgLen && mask.Length == (msgLen + 7) / 8
    requires MarkedSet(mask[..]) <= Interval(0, msgLen)
    ensures full <==> MarkedSet(mask[..]) == Interval(0, msgLen)
  {
    var k := 0;
    while k < msgLen / 8
      invariant k <= msgLen / 8
      invariant forall i: nat | i < 8 * k :: Marked(mask[..], i)
    {
      FullPrefix(mask[k], 8);
      if mask[k] != 0xff {
        ghost var j: nat :| j < 8 && !Bit(mask[k], j);
        assert !Marked(mask[..], 8 * k + j);
        assert 8 * k + j in Interval(0, msgLen) && 8 * k + j !in MarkedSet(mask[..]);
        return false;
      }
      assert forall i: nat | 8 * k <= i < 8 * k + 8 :: Bit(mask[k], i % 8);
      k := k + 1;
    }
    if msgLen % 8 == 0 {
      return true;
    }
    full := mask[k] == BitRange(0, msgLen % 8);
    LastByte(mask[..], msgLen, k);
  }

  /** The test of the last byte, when it is not full and the bytes before it are. */
  lemma {:induction false} LastByte(mask: seq<bv8>, msgLen: nat, k: nat)
    requires msgLen % 8 != 0 && k == msgLen / 8 && |mask| == k + 1
    requires MarkedSet(mask) <= Interval(0, msgLen) && forall i: nat | i < 8 * k :: Marked(mask, i)
    ensures mask[k] == BitRange(0, msgLen % 8) <==> MarkedSet(mask) == Interval(0, msgLen)
  {
    FullPrefix(mask[k], msgLen % 8);
    if mask[k] == BitRange(0, msgLen % 8) {
      forall i: nat | i < msgLen
        ensures Marked(mask, i)
      {
        assert 8 * k <= i ==> Bit(mask[k], i % 8);
      }
    } else {
      var j: nat :| j < 8 && (Bit(mask[k], j) != (j < msgLen % 8));
      var p := 8 * k + j;
      assert Marked(mask, p) == Bit(mask[k], j);
      assert p in MarkedSet(mask) <==> Bit(mask[k], j);
      assert p in Interval(0, msgLen) <==> j < msgLen % 8;
    }
  }
}
