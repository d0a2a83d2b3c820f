/** The decoder on its input streams. */
module NanopbReader {
  import opened Basics
  import opened NanopbTypes
  import opened NanopbDecode
  import opened NanopbFields
  import opened NanopbPrimitives
  import opened Words64

  /** `pb_istream_t` over a buffer, which it only reads. */
  class IStream {
    const buffer: seq<byte>
    var pos: nat
    var left: nat

    ghost predicate Valid()
      reads this
    {
      pos + left <= |buffer|
    }

    /** What may still be read. */
    ghost function Rest(): seq<byte>
      requires Valid()
      reads this
    {
      buffer[pos..pos + left]
    }

    /** `pb_istream_from_buffer`, and the substreams. */
    constructor (buffer: seq<byte>, start: nat, size: nat)
      requires start + size <= |buffer|
      ensures Valid() && this.buffer == buffer && pos == start && left == size
    {
      this.buffer, pos, left := buffer, start, size;
    }

    /** `pb_readbyte`. */
    method ReadByte() returns (ok: bool, b: byte)
      requires Valid()
      modifies this
      ensures Valid() && pos + left == old(pos + left) && ok == (old(Rest()) != [])
      ensures ok ==> b == old(Rest())[0] && Rest() == old(Rest())[1..]
      ensures !ok ==> pos == old(pos)
    {
      if left == 0 {
        return false, 0;
      }
      b := buffer[pos];
      pos, left := pos + 1, left - 1;
      return true, b;
    }

    /** `pb_read`. */
    method Read(count: nat) returns (ok: bool, data: seq<byte>)
      requires Valid()
      modifies this
      ensures Valid() && pos + left == old(pos + left) && ok == Take(old(Rest()), count).Done?
      ensures ok ==> Take(old(Rest()), count) == Done(data, Rest())
    {
      if left < count {
        return false, [];
      }
      data := buffer[pos..pos + count];
      assert Rest()[..count] == data && Rest()[count..] == buffer[pos + count..pos + left];
      pos, left := pos + count, left - count;
      return true, data;
    }
  }

  /** The outcome of reading a number. */
  ghost predicate IsNumber(r: Number, ok: bool, n: nat, rest: seq<byte>) {
    ok == r.Got? && rest == r.rest && (ok ==> n == r.n)
  }

  /** What a number is when its bytes so far stand for `low` and the next one counts for `scale`. */
  function Extended(low: nat, scale: nat, r: Number): Number {
    if r.Got? then Got(low + scale * r.n, r.rest) else r
  }

  /** The number so far with one more byte. */
  function Grown(low: nat, scale: nat, b: byte): nat {
    low + scale * (b % 128)
  }

  lemma {:induction false} NextByte(low: nat, scale: nat, s: seq<byte>, budget: nat)
    requires s != [] && budget > 0
    ensures
      var low' := Grown(low, scale, s[0]);
      Extended(low, scale, ReadVarint(s, budget))
        == if s[0] < 128 then Got(low', s[1..]) else Extended(low', 128 * scale, ReadVarint(s[1..], budget - 1))
  {
    if s[0] >= 128 {
      var r := ReadVarint(s[1..], budget - 1);
      if r.Got? {
        Distribute(scale, s[0] - 128, r.n);
      }
    }
  }

  lemma {:induction false} Distribute(scale: nat, a: nat, b: nat)
    ensures scale * (a + 128 * b) == scale * a + 128 * scale * b
  {
  }

  lemma {:induction false} AddModulo(a: nat, b: nat, m: nat)
    requires m > 0
    ensures (a % m + b) % m == (a + b) % m
  {
    var (q, r) := ((a % m + b) / m, (a % m + b) % m);
    assert a % m + b == m * q + r;
    assert a == m * (a / m) + a % m;
    assert a + b == m * (a / m + q) + r;
    DivModUnique(a + b, m, a / m + q, r);
  }

  /** The number of bytes that `pb_decode_varint32` and `pb_decode_varint` read at most, and what they cut to. */
  function Budget(width: nat): nat {
    if width == 32 then 5 else 10
  }

  function Modulus(width: nat): (m: nat)
    ensures m > 0
  {
    if width == 32 then TWO32 else TWO64
  }

  /** One turn of the loop: the bits of a byte fall beside those before, so adding stands for the bitwise or. */
  method AddByte(value: nat, bitpos: nat, b: byte, width: nat, ghost low: nat, ghost n: nat) returns (r: nat)
    requires value == low % Modulus(width) && bitpos == 7 * n
    ensures r == Grown(low, Power(128, n), b) % Modulus(width)
  {
    PowersAgree(n);
    AddModulo(low, Power(128, n) * (b % 128), Modulus(width));
    r := (value + Pow2(bitpos) * (b % 128)) % Modulus(width);
  }

  /** `pb_decode_varint32` and `pb_decode_varint`, which differ in their width. */
  method DecodeVarint(st: IStream, width: nat) returns (ok: bool, value: nat)
    requires st.Valid() && (width == 32 || width == 64)
    modifies st
    ensures st.Valid() && st.pos + st.left == old(st.pos + st.left)
    ensures IsNumber(if width == 32 then ReadVarint32(old(st.Rest())) else ReadVarint64(old(st.Rest())), ok, value, st.Rest())
  {
    var bitpos: nat := 0;
    var b: byte := 255;
    value := 0;
    ghost var low: nat, n: nat := 0, 0;
    ghost var whole := ReadVarint(st.Rest(), Budget(width));
    while b >= 128
      invariant st.Valid() && st.pos + st.left == old(st.pos + st.left)
      invariant bitpos == 7 * n && n <= Budget(width) && value == low % Modulus(width)
      invariant b >= 128 ==> whole == Extended(low, Power(128, n), ReadVarint(st.Rest(), Budget(width) - n))
      invariant b < 128 ==> whole == Got(low, st.Rest())
      decreases b >= 128, Budget(width) - n
    {
      if bitpos >= width {
        return false, 0;
      }
      ghost var rest := st.Rest();
      var got, byte := st.ReadByte();
      if !got {
        return false, 0;
      }
      NextByte(low, Power(128, n), rest, Budget(width) - n);
      value := AddByte(value, bitpos, byte, width, low, n);
      low, n := Grown(low, Power(128, n), byte), n + 1;
      bitpos, b := bitpos + 7, byte;
    }
    return true, value;
  }

  lemma {:induction false} PowersAgree(n: nat)
    ensures Pow2(7 * n) == Power(128, n)
  {
    if n > 0 {
      PowersAgree(n - 1);
      assert Pow2(7 * n) == 2 * Pow2(7 * n - 1) && Pow2(7 * n - 1) == 2 * Pow2(7 * n - 2);
      assert Pow2(7 * n - 2) == 2 * Pow2(7 * n - 3) && Pow2(7 * n - 3) == 2 * Pow2(7 * n - 4);
      assert Pow2(7 * n - 4) == 2 * Pow2(7 * n - 5) && Pow2(7 * n - 5) == 2 * Pow2(7 * n - 6);
    }
  }

  /** `pb_skip_varint`. */
  method SkipNumber(st: IStream) returns (ok: bool)
    requires st.Valid()
    modifies st
    ensures st.Valid() && st.pos + st.left == old(st.pos + st.left)
    ensures ok == SkipVarint(old(st.Rest())).Some? && (ok ==> Some(st.Rest()) == SkipVarint(old(st.Rest())))
  {
    var b: byte := 255;
    while b >= 128
      invariant st.Valid() && st.pos + st.left == old(st.pos + st.left)
      invariant SkipVarint(old(st.Rest())) == if b >= 128 then SkipVarint(st.Rest()) else Some(st.Rest())
      decreases b >= 128, st.left
    {
      ok, b := st.ReadByte();
      if !ok {
        return;
      }
    }
    return true;
  }

  /** `pb_skip_field`. */
  method SkipField(st: IStream, wire: nat) returns (ok: bool)
    requires st.Valid()
    modifies st
    ensures st.Valid() && st.pos + st.left == old(st.pos + st.left)
    ensures ok == Skip(wire, old(st.Rest())).Some? && (ok ==> Some(st.Rest()) == Skip(wire, old(st.Rest())))
  {
    var skipped;
    ok := false;
    if wire == 0 {
      ok := SkipNumber(st);
    } else if wire == 1 {
      ok, skipped := st.Read(8);
    } else if wire == 2 {
      var length;
      ok, length := DecodeVarint(st, 32);
      if ok {
        ok, skipped := st.Read(length);
      }
    } else if wire == 5 {
      ok, skipped := st.Read(4);
    }
  }

  /** `pb_decode_tag`. */
  method DecodeTag(st: IStream) returns (ok: bool, eof: bool, tag: nat, wire: nat)
    requires st.Valid()
    modifies st
    ensures st.Valid() && st.pos + st.left == old(st.pos + st.left)
    ensures match ReadTag(old(st.Rest()))
      case Tag(t, w, rest) => ok && tag == t && wire == w && st.Rest() == rest
      case End(rest) => !ok && eof && st.Rest() == rest
      case Bad => !ok && !eof
  {
    ok, eof, tag, wire := false, false, 0, 0;
    var got, temp := DecodeVarint(st, 32);
    if !got {
      eof := st.left == 0;
    } else if temp == 0 {
      eof := true;
    } else {
      ok, tag, wire := true, temp / 8, temp % 8;
    }
  }

  /** `pb_make_string_substream`. The substream is over the same buffer, and its bytes no longer belong to the parent. */
  method OpenSubstream(st: IStream) returns (ok: bool, sub: IStream)
    requires st.Valid()
    modifies st
    ensures st.Valid() && st.pos + st.left <= old(st.pos + st.left)
    ensures fresh(sub) && sub.Valid() && sub.buffer == st.buffer
    ensures ok == ReadPrefixed(old(st.Rest())).Done?
    ensures ok ==> sub.pos + sub.left + st.left == old(st.pos + st.left) && sub.left + st.left < old(st.left)
    ensures ok ==> ReadPrefixed(old(st.Rest())) == Done(sub.Rest(), st.buffer[sub.pos + sub.left..old(st.pos + st.left)])
  {
    var size;
    ok, size := DecodeVarint(st, 32);
    if !ok || st.left < size {
      sub := new IStream(st.buffer, st.pos, 0);
      return false, sub;
    }
    sub := new IStream(st.buffer, st.pos, size);
    assert st.Rest()[..size] == sub.Rest() && st.Rest()[size..] == st.buffer[st.pos + size..st.pos + st.left];
    st.left := st.left - size;
  }

  /** `pb_close_string_substream`: what is left of the substream is skipped. */
  method CloseSubstream(st: IStream, sub: IStream) returns (ok: bool)
    requires sub.Valid() && sub.buffer == st.buffer && st != sub
    requires sub.pos + sub.left + st.left <= |st.buffer|
    modifies st, sub
    ensures ok && st.Valid() && st.pos == old(sub.pos + sub.left) && st.left == old(st.left)
  {
    ok := true;
    if sub.left > 0 {
      var skipped;
      ok, skipped := sub.Read(sub.left);
    }
    st.pos := sub.pos;
  }

  /** `ok` and the result agree with the specification. */
  ghost predicate Agrees<T(!new)>(r: Decoded<T>, ok: bool, v: T, rest: seq<byte>) {
    ok == r.Done? && (ok ==> r == Done(v, rest))
  }

  /** `pb_dec_bytes`, `pb_dec_string` and `pb_dec_fixed_length_bytes`. */
  method ReadRaw(st: IStream, kind: Kind) returns (ok: bool, v: Value)
    requires st.Valid() && (kind.Bytes? || kind.String? || kind.FixedBytes?)
    modifies st
    ensures st.Valid() && st.pos + st.left == old(st.pos + st.left)
    ensures var r := ReadVarint32(old(st.Rest()));
      Agrees(if r.Broken? then Fail else DecodeRaw(kind, r.n, r.rest), ok, v, st.Rest())
  {
    v := Int(0);
    var size;
    ok, size := DecodeVarint(st, 32);
    if !ok {
      return;
    }
    if kind.Bytes? && size + BYTES_HEADER > kind.dataSize {
      return false, v;
    }
    if kind.String? && ((size + 1) % TWO32 < size || size + 1 > kind.dataSize) {
      return false, v;
    }
    if kind.FixedBytes? && size == 0 {
      return true, Raw(seq(kind.dataSize, _ => 0));
    }
    if kind.FixedBytes? && size != kind.dataSize {
      return false, v;
    }
    var data;
    ok, data := st.Read(size);
    v := Raw(data);
  }

  /** `pb_dec_varint`, `pb_dec_uvarint`, `pb_dec_svarint`, `pb_dec_fixed32` and `pb_dec_fixed64`. */
  method ReadNumber(st: IStream, kind: Kind) returns (ok: bool, v: Value)
    requires st.Valid() && Packable(kind)
    modifies st
    ensures st.Valid() && st.pos + st.left == old(st.pos + st.left)
    ensures Agrees(DecodeValue(kind, Int(0), old(st.Rest())), ok, v, st.Rest())
  {
    v := Int(0);
    if kind.Fixed32? || kind.Fixed64? {
      var data;
      ok, data := st.Read(FixedSize(kind));
      v := Int(FromLittleEndian(data));
      return;
    }
    var n;
    ok, n := DecodeVarint(st, 64);
    if !ok {
      return;
    }
    var i := NumberOf(kind, n);
    if i.None? {
      return false, v;
    }
    v := Int(i.value);
  }

  /** `pb_dec_submessage`, into a message that is already initialised. */
  method ReadSubmessage(st: IStream, fields: seq<Field>, slots: seq<Slot>) returns (ok: bool, slots': seq<Slot>)
    requires st.Valid() && ValidFields(fields) && Shaped(fields, slots)
    modifies st
    ensures st.Valid() && st.pos + st.left <= old(st.pos + st.left)
    ensures ok ==> st.pos + st.left == old(st.pos + st.left)
    ensures Agrees(DecodeMerged(fields, slots, ReadPrefixed(old(st.Rest()))), ok, slots', st.Rest())
    decreases st.left, 0
  {
    ghost var r := ReadPrefixed(st.Rest());
    var sub;
    ok, sub := OpenSubstream(st);
    if !ok {
      return false, slots;
    }
    var status;
    status, slots' := DecodeNoInit(sub, fields, slots);
    ok := CloseSubstream(st, sub);
    ok := ok && status;
    assert ok ==> st.Rest() == r.rest;
  }

  /** A submessage decoded from its delimited bytes. */
  ghost function DecodeMerged(fields: seq<Field>, slots: seq<Slot>, r: Decoded<seq<byte>>): Decoded<seq<Slot>>
    requires ValidFields(fields) && Shaped(fields, slots)
  {
    if r.Fail? then Fail
    else
      var body := DecodeFields(fields, slots, {}, r.v);
      if body.Fail? then Fail else Done(body.v, r.rest)
  }

  /** The decoders of `PB_DECODERS`. */
  method ReadValue(st: IStream, kind: Kind, was: Value) returns (ok: bool, v: Value)
    requires st.Valid() && ShapedValue(kind, was) && (kind.Submessage? ==> ValidFields(kind.fields))
    modifies st
    ensures st.Valid() && st.pos + st.left <= old(st.pos + st.left)
    ensures ok ==> st.pos + st.left == old(st.pos + st.left)
    ensures Agrees(DecodeValue(kind, was, old(st.Rest())), ok, v, st.Rest())
    decreases st.left, 1
  {
    if Packable(kind) {
      ok, v := ReadNumber(st, kind);
    } else if kind.Submessage? {
      var slots;
      ok, slots := ReadSubmessage(st, kind.fields, was.slots);
      v := Message(slots);
    } else {
      ok, v := ReadRaw(st, kind);
    }
  }

  /** The packed case of `decode_static_field`. */
  method ReadPacked(st: IStream, f: Field, max: nat, had: seq<Value>) returns (ok: bool, items: seq<Value>)
    requires st.Valid() && Packable(f.kind)
    requires forall i | 0 <= i < |had| :: ShapedValue(f.kind, had[i])
    modifies st
    ensures st.Valid() && st.pos + st.left <= old(st.pos + st.left)
    ensures ok ==> st.pos + st.left == old(st.pos + st.left)
    ensures var r := ReadPrefixed(old(st.Rest()));
      ok == (r.Done? && DecodePacked(f, max, had, r.v).Some?) &&
      (ok ==> DecodePacked(f, max, had, r.v) == Some(items) && st.Rest() == r.rest)
  {
    items := had;
    var sub;
    ok, sub := OpenSubstream(st);
    if !ok {
      return;
    }
    ghost var whole := DecodePacked(f, max, had, sub.Rest());
    ghost var end := sub.pos + sub.left;
    var status := true;
    while status && sub.left > 0 && |items| < max
      modifies sub
      invariant sub.Valid() && (forall i | 0 <= i < |items| :: ShapedValue(f.kind, items[i]))
      invariant sub.pos + sub.left == end
      invariant if status then whole == DecodePacked(f, max, items, sub.Rest()) else whole.None?
      decreases status, sub.left
    {
      var v;
      status, v := ReadNumber(sub, f.kind);
      if status {
        items := items + [v];
      }
    }
    if sub.left != 0 {
      return false, items;
    }
    ok := CloseSubstream(st, sub);
    ok := ok && status;
  }

  /** `decode_static_field`. */
  method ReadField(st: IStream, fields: seq<Field>, slots: seq<Slot>, k: nat, wire: nat) returns (ok: bool, slots': seq<Slot>)
    requires st.Valid() && ValidFields(fields) && Shaped(fields, slots) && k < |fields|
    modifies st
    ensures st.Valid() && st.pos + st.left <= old(st.pos + st.left)
    ensures ok ==> st.pos + st.left == old(st.pos + st.left)
    ensures Agrees(DecodeField(fields, slots, k, wire, old(st.Rest())), ok, slots', st.Rest())
    decreases st.left, 2
  {
    var f := fields[k];
    assert ValidField(f) && ShapedSlot(f, slots[k]);
    DefaultShaped(f);
    slots' := slots;
    var v;
    match f.rule {
      case Required =>
        ok, v := ReadValue(st, f.kind, slots[k].v);
        slots' := slots[k := One(v)];
      case Optional =>
        ok, v := ReadValue(st, f.kind, slots[k].v);
        slots' := slots[k := Maybe(true, v)];
      case Repeated(max) =>
        if wire == 2 && Packable(f.kind) {
          var items;
          ok, items := ReadPacked(st, f, max, slots[k].items);
          slots' := slots[k := Many(items)];
        } else if |slots[k].items| >= max {
          ok := false;
        } else {
          ok, v := ReadValue(st, f.kind, DefaultValue(f));
          slots' := slots[k := Many(slots[k].items + [v])];
        }
      case Oneof(group) =>
        ok, v := ReadValue(st, f.kind, DefaultValue(f));
        slots' := ClearGroup(fields, slots, group)[k := Chosen(v)];
    }
  }

  /** The bit of a required field that has been met. */
  method MarkSeen(iter: FieldIter, words: seq<nat>, ghost seen: set<nat>) returns (words': seq<nat>)
    requires iter.Valid() && iter.fields != [] && CountOk(RequiredCount(iter.fields)) && Tracks(iter.fields, words, seen)
    ensures Tracks(iter.fields, words', seen + {iter.pos})
  {
    words' := words;
    if iter.fields[iter.pos].rule.Required? && iter.requiredIndex < MAX_REQUIRED {
      var n := iter.requiredIndex;
      TracksRequired(iter.fields, words, seen, iter.pos);
      words' := words[n / 32 := SetBit(words[n / 32], n % 32)];
    } else {
      TracksRest(iter.fields, words, seen, iter.pos);
    }
  }

  /** One turn of the loop in `pb_decode_noinit`, after the tag. */
  method ReadTagged(st: IStream, iter: FieldIter, slots: seq<Slot>, words: seq<nat>, tag: nat, wire: nat, ghost seen: set<nat>)
      returns (ok: bool, slots': seq<Slot>, words': seq<nat>, ghost seen': set<nat>)
    requires st.Valid() && iter.Valid() && ValidFields(iter.fields)
    requires Shaped(iter.fields, slots) && Tracks(iter.fields, words, seen)
    modifies st, iter
    ensures st.Valid() && st.pos + st.left <= old(st.pos + st.left) && iter.Valid()
    ensures ok ==> st.pos + st.left == old(st.pos + st.left) && st.left <= old(st.left)
    ensures ok ==> Shaped(iter.fields, slots') && Tracks(iter.fields, words', seen')
    ensures
      var (k, s) := (FieldIndex(iter.fields, tag), old(st.Rest()));
      if k.Some? then
        && Agrees(DecodeField(iter.fields, slots, k.value, wire, s), ok, slots', st.Rest())
        && seen' == seen + {k.value}
      else
        && ok == (!(iter.fields == [] && tag == 0) && Skip(wire, s).Some?)
        && (ok ==> Some(st.Rest()) == Skip(wire, s) && slots' == slots && seen' == seen)
    decreases st.left, 3
  {
    slots', words', seen' := slots, words, seen;
    var found := iter.Find(tag);
    if !found {
      ok := SkipField(st, wire);
    } else if iter.fields == [] {
      ok := false;
    } else {
      assert FieldIndex(iter.fields, tag) == Some(iter.pos);
      seen' := seen + {iter.pos};
      words' := MarkSeen(iter, words, seen);
      ok, slots' := ReadField(st, iter.fields, slots, iter.pos, wire);
    }
  }

  /** `pb_decode_noinit`. */
  method DecodeNoInit(st: IStream, fields: seq<Field>, slots: seq<Slot>) returns (ok: bool, slots': seq<Slot>)
    requires st.Valid() && ValidFields(fields) && Shaped(fields, slots)
    modifies st
    ensures st.Valid() && st.pos + st.left <= old(st.pos + st.left)
    ensures ok ==> st.pos + st.left == old(st.pos + st.left)
    ensures Agrees(DecodeFields(fields, slots, {}, old(st.Rest())), ok, slots', st.Rest())
    decreases st.left, 4
  {
    slots' := slots;
    var iter := new FieldIter(fields);
    var words: seq<nat> := [0, 0];
    ghost var seen: set<nat> := {};
    ghost var whole := DecodeFields(fields, slots, {}, st.Rest());
    var ended := false;
    TracksNothing(fields);
    while !ended && st.left > 0
      invariant st.Valid() && st.pos + st.left == old(st.pos + st.left) && st.left <= old(st.left)
      invariant iter.Valid() && iter.fields == fields && fresh(iter)
      invariant Shaped(fields, slots') && Tracks(fields, words, seen)
      invariant !ended ==> whole == DecodeFields(fields, slots', seen, st.Rest())
      invariant ended ==> whole == if AllSeen(fields, seen) then Done(slots', st.Rest()) else Fail
      decreases !ended, st.left
    {
      var got, eof, tag, wire := DecodeTag(st);
      if !got {
        if !eof {
          return false, slots';
        }
        ended := true;
      } else {
        ok, slots', words, seen := ReadTagged(st, iter, slots', words, tag, wire, seen);
        if !ok {
          return;
        }
      }
    }
    var count := iter.CountRequired();
    ok := CheckRequired(fields, words, count, seen);
  }

  /** With a count that the presence check can handle, every required field has a bit. */
  lemma {:induction false} TracksRest(fields: seq<Field>, words: seq<nat>, seen: set<nat>, k: nat)
    requires CountOk(RequiredCount(fields)) && Tracks(fields, words, seen) && k < |fields|
    requires !(fields[k].rule.Required? && RequiredIndex(fields, k) < MAX_REQUIRED)
    ensures Tracks(fields, words, seen + {k})
  {
    if fields[k].rule.Required? {
      RequiredBelowCount(fields, k, |fields|);
    } else {
      TracksOther(fields, words, seen, k);
    }
  }

  /** `pb_decode`. */
  method DecodeMessage(st: IStream, fields: seq<Field>) returns (ok: bool, slots: seq<Slot>)
    requires st.Valid() && ValidFields(fields)
    modifies st
    ensures st.Valid() && st.pos + st.left <= old(st.pos + st.left)
    ensures ok ==> st.pos + st.left == old(st.pos + st.left)
    ensures Agrees(Decode(fields, old(st.Rest())), ok, slots, st.Rest())
  {
    DefaultsShaped(fields);
    ok, slots := DecodeNoInit(st, fields, Defaults(fields));
  }
}
