/** The encoder on its output streams: the sizing pass and the writing pass. */
module NanopbWriter {
  import opened Basics
  import opened NanopbTypes
  import opened NanopbEncode

  /** A stream as seen from outside: the bytes before its place, and those beyond its end. */
  datatype View = View(sizing: bool, maxSize: nat, written: nat, content: seq<byte>, beyond: seq<byte>)

  /** The outcome of writing `s`, if there is such a thing: it succeeds exactly when there is room, and then `s` is
      written; what is outside of the stream never changes. */
  ghost predicate Wrote(v: View, ok: bool, s: Option<seq<byte>>, w: View) {
    && v.sizing == w.sizing && v.maxSize == w.maxSize && v.beyond == w.beyond && v.content <= w.content
    && (ok <==> s.Some? && (v.sizing || v.written + |s.value| <= v.maxSize))
    && (ok ==> w.written == v.written + |s.value|)
    && (ok && !v.sizing ==> w.content == v.content + s.value)
  }

  /** Two writes are one write of what they join to. */
  lemma {:induction false} WroteBoth(v: View, s: seq<byte>, w: View, ok: bool, t: Option<seq<byte>>, x: View)
    requires Wrote(v, true, Some(s), w) && Wrote(w, ok, t, x)
    ensures Wrote(v, ok, Join(Some(s), t), x)
  {
    if ok && !v.sizing {
      assert v.content + s + t.value == v.content + (s + t.value);
    }
  }

  lemma {:induction false} FirstFailed(v: View, s: Option<seq<byte>>, w: View, t: Option<seq<byte>>)
    requires Wrote(v, false, s, w)
    ensures Wrote(v, false, Join(s, t), w)
  {
  }

  lemma {:induction false} JoinAssociative(s: Option<seq<byte>>, t: Option<seq<byte>>, u: Option<seq<byte>>)
    ensures Join(Join(s, t), u) == Join(s, Join(t, u))
    ensures Join(Some([]), s) == s && Join(s, Some([])) == s
  {
    if s.Some? {
      assert [] + s.value == s.value == s.value + [];
      if t.Some? && u.Some? {
        assert s.value + t.value + u.value == s.value + (t.value + u.value);
      }
    }
  }

  /** `pb_ostream_t`: over a buffer, or only counting when there is none. */
  class OStream {
    const buffer: array?<byte>
    const maxSize: nat
    /** Where in the buffer the stream must stop. */
    ghost const limit: nat
    /** The place in the buffer that `state` points to. */
    var pos: nat
    var written: nat

    ghost predicate Valid()
      reads this
    {
      buffer != null ==> pos + maxSize == limit + written && written <= maxSize && limit <= buffer.Length
    }

    ghost function Now(): View
      requires Valid()
      reads this, buffer
    {
      if buffer == null then View(true, maxSize, written, [], [])
      else View(false, maxSize, written, buffer[..pos], buffer[limit..])
    }

    /** `PB_OSTREAM_SIZING`. */
    constructor Sizing()
      ensures Valid() && buffer == null && written == 0
    {
      buffer, maxSize, limit, pos, written := null, 0, 0, 0, 0;
    }

    /** `pb_ostream_from_buffer`, and the substream of `pb_encode_submessage`: `size` bytes from `start`. */
    constructor Over(buffer: array<byte>, start: nat, size: nat)
      requires start + size <= buffer.Length
      ensures Valid() && this.buffer == buffer && maxSize == size && limit == start + size
      ensures written == 0 && pos == start
    {
      this.buffer, maxSize, limit, pos, written := buffer, size, start + size, start, 0;
    }

    /** `pb_write`. */
    method Write(data: seq<byte>) returns (ok: bool)
      requires Valid()
      modifies this, buffer
      ensures Valid() && Wrote(old(Now()), ok, Some(data), Now())
    {
      if buffer != null {
        if written + |data| > maxSize {
          return false;
        }
        var dest := pos;
        pos, written := pos + |data|, written + |data|;
        for i := 0 to |data|
          modifies buffer
          invariant buffer[..dest] == old(buffer[..pos]) && buffer[dest..dest + i] == data[..i]
          invariant buffer[limit..] == old(buffer[limit..])
        {
          buffer[dest + i] := data[i];
        }
        assert buffer[..pos] == buffer[..dest] + buffer[dest..dest + |data|];
      } else {
        written := written + |data|;
      }
      return true;
    }

    /** `pb_write` without data, when only sizing. */
    method WriteSize(count: nat)
      requires Valid() && buffer == null
      modifies this
      ensures Valid() && written == old(written) + count
    {
      written := written + count;
    }

    /** `pb_encode_varint`. */
    method WriteVarint(value: nat) returns (ok: bool)
      requires Valid()
      modifies this, buffer
      ensures Valid() && Wrote(old(Now()), ok, Some(EncodeVarint(value)), Now())
    {
      var bytes := VarintBytes(value);
      ok := Write(bytes);
    }

    /** `pb_encode_string`. */
    method WritePrefixed(body: seq<byte>) returns (ok: bool)
      requires Valid()
      modifies this, buffer
      ensures Valid() && Wrote(old(Now()), ok, Some(Prefixed(body)), Now())
    {
      ghost var start := Now();
      ok := WriteVarint(|body|);
      ghost var middle := Now();
      if ok {
        ok := Write(body);
        WroteBoth(start, EncodeVarint(|body|), middle, ok, Some(body), Now());
      } else {
        FirstFailed(start, Some(EncodeVarint(|body|)), middle, Some(body));
      }
    }

    /** `pb_encode_tag`. */
    method WriteTag(tag: nat, wire: nat) returns (ok: bool)
      requires Valid()
      modifies this, buffer
      ensures Valid() && Wrote(old(Now()), ok, Some(EncodeTag(tag, wire)), Now())
    {
      ok := WriteVarint(tag * 8 + wire);
    }
  }

  /** The varint of `value`, but for the top bit of its last byte. */
  ghost predicate EndsVarint(bytes: seq<byte>, value: nat) {
    && bytes != [] && bytes[|bytes| - 1] >= 128
    && EncodeVarint(value) == bytes[..|bytes| - 1] + [bytes[|bytes| - 1] - 128]
  }

  lemma {:induction false} VarintStep(bytes: seq<byte>, value: nat, v: nat)
    requires v > 0 && EncodeVarint(value) == bytes + EncodeVarint(v)
    ensures var bytes' := bytes + [v % 128 + 128];
      if v >= 128 then EncodeVarint(value) == bytes' + EncodeVarint(v / 128) else EndsVarint(bytes', value)
  {
    if v < 128 {
      var bytes' := bytes + [v % 128 + 128];
      assert bytes'[..|bytes|] == bytes;
    }
  }

  /** The bytes that `pb_encode_varint` puts together. */
  method VarintBytes(value: nat) returns (bytes: seq<byte>)
    ensures bytes == EncodeVarint(value)
  {
    if value <= 0x7f {
      return [value];
    }
    var v: nat := value;
    bytes := [];
    while v > 0
      invariant if v > 0 then EncodeVarint(value) == bytes + EncodeVarint(v) else EndsVarint(bytes, value)
    {
      VarintStep(bytes, value, v);
      bytes := bytes + [v % 128 + 128];
      v := v / 128;
    }
    bytes := bytes[..|bytes| - 1] + [bytes[|bytes| - 1] - 128];
  }

  lemma {:induction false} UpToNulStep(s: seq<byte>, max: nat, size: nat)
    requires size < max && size < |s| && s[size] != 0
    ensures |UpToNul(s[size..], max - size)| == 1 + |UpToNul(s[size + 1..], max - (size + 1))|
  {
    assert s[size..][1..] == s[size + 1..];
  }

  /** The loop of `pb_enc_string`. */
  method StringLength(s: seq<byte>, max: nat) returns (size: nat)
    ensures size <= |s| && s[..size] == UpToNul(s, max)
  {
    size := 0;
    ghost var part := UpToNul(s, max);
    assert s[0..] == s;
    while size < max && size < |s| && s[size] != 0
      invariant size <= |s| && size <= max && |part| == size + |UpToNul(s[size..], max - size)|
    {
      UpToNulStep(s, max, size);
      size := size + 1;
    }
    assert |part| == size && part <= s;
  }

  /** The encoders of `PB_ENCODERS`. */
  method WriteValue(st: OStream, kind: Kind, v: Value) returns (ok: bool)
    requires st.Valid() && ShapedValue(kind, v)
    modifies st, st.buffer
    ensures st.Valid() && Wrote(old(st.Now()), ok, EncodeValue(kind, v), st.Now())
    decreases kind, 0
  {
    match kind {
      case Varint(size) =>
        if ValidSize(size) { ok := st.WriteVarint(v.i % TWO64); } else { ok := false; }
      case UVarint(size) =>
        if ValidSize(size) { ok := st.WriteVarint(v.i % TWO64); } else { ok := false; }
      case SVarint(size) =>
        if ValidSize(size) { ok := st.WriteVarint(ZigZag(v.i)); } else { ok := false; }
      case Fixed32 => ok := st.Write(LittleEndian(v.i % TWO32, FixedSize(kind)));
      case Fixed64 => ok := st.Write(LittleEndian(v.i % TWO64, FixedSize(kind)));
      case Bytes(dataSize) =>
        if |v.bytes| + BYTES_HEADER > dataSize { ok := false; } else { ok := st.WritePrefixed(v.bytes); }
      case String(dataSize) =>
        var size := StringLength(v.bytes, dataSize);
        ok := st.WritePrefixed(v.bytes[..size]);
      case FixedBytes(_) => ok := st.WritePrefixed(v.bytes);
      case Submessage(fields) => ok := WriteSubmessage(st, fields, v.slots);
    }
  }

  /** `pb_encode_submessage`. */
  method WriteSubmessage(st: OStream, fields: seq<Field>, slots: seq<Slot>) returns (ok: bool)
    requires st.Valid() && Shaped(fields, slots)
    modifies st, st.buffer
    ensures st.Valid() && Wrote(old(st.Now()), ok, Delimited(EncodeFields(fields, slots)), st.Now())
    decreases fields, 2
  {
    var sizing := new OStream.Sizing();
    ok := EncodeMessage(sizing, fields, slots);
    if !ok {
      return;
    }
    var size := sizing.written;
    ghost var body := EncodeFields(fields, slots);
    ghost var start := st.Now();
    ok := st.WriteVarint(size);
    ghost var middle := st.Now();
    if !ok {
      FirstFailed(start, Some(EncodeVarint(size)), middle, body);
      return;
    }
    if st.buffer == null {
      st.WriteSize(size);
    } else {
      ok := WriteBody(st, fields, slots, size);
    }
    WroteBoth(start, EncodeVarint(size), middle, ok, body, st.Now());
  }

  /** The last part of `pb_encode_submessage`: a substream of the size found keeps the body to it. */
  method WriteBody(st: OStream, fields: seq<Field>, slots: seq<Slot>, size: nat) returns (ok: bool)
    requires st.Valid() && Shaped(fields, slots) && st.buffer != null
    requires EncodeFields(fields, slots).Some? && size == |EncodeFields(fields, slots).value|
    modifies st, st.buffer
    ensures st.Valid() && Wrote(old(st.Now()), ok, EncodeFields(fields, slots), st.Now())
    decreases fields, 1
  {
    if st.written + size > st.maxSize {
      return false;
    }
    var sub := new OStream.Over(st.buffer, st.pos, size);
    var status := EncodeMessage(sub, fields, slots);
    st.written := st.written + sub.written;
    st.pos := sub.pos;
    ok := status && sub.written == size;
  }

  /** `pb_encode_tag_for_field`, and the value. */
  method WriteTagged(st: OStream, f: Field, v: Value) returns (ok: bool)
    requires st.Valid() && ShapedValue(f.kind, v)
    modifies st, st.buffer
    ensures st.Valid() && Wrote(old(st.Now()), ok, EncodeTagged(f, v), st.Now())
    decreases f, 0
  {
    ghost var start := st.Now();
    ghost var tag := EncodeTag(f.tag, WireType(f.kind));
    ok := st.WriteTag(f.tag, WireType(f.kind));
    ghost var middle := st.Now();
    if ok {
      ok := WriteValue(st, f.kind, v);
      WroteBoth(start, tag, middle, ok, EncodeValue(f.kind, v), st.Now());
    } else {
      FirstFailed(start, Some(tag), middle, EncodeValue(f.kind, v));
    }
  }

  method WriteItem(st: OStream, f: Field, v: Value) returns (ok: bool)
    requires st.Valid() && ShapedValue(f.kind, v)
    modifies st, st.buffer
    ensures st.Valid() && Wrote(old(st.Now()), ok, EncodeItem(f, v), st.Now())
    decreases f, 1
  {
    if Packable(f.kind) {
      ok := WriteValue(st, f.kind, v);
    } else {
      ok := WriteTagged(st, f, v);
    }
  }

  /** The loops of `encode_array`, with tags or without. */
  method WriteItems(st: OStream, f: Field, items: seq<Value>) returns (ok: bool)
    requires st.Valid() && forall i | 0 <= i < |items| :: ShapedValue(f.kind, items[i])
    modifies st, st.buffer
    ensures st.Valid() && Wrote(old(st.Now()), ok, EncodeItems(f, items), st.Now())
    decreases f, 2
  {
    ghost var start := st.Now();
    ghost var done: seq<byte> := [];
    JoinAssociative(EncodeItems(f, items), None, None);
    assert items[0..] == items;
    for i := 0 to |items|
      invariant st.Valid() && Wrote(start, true, Some(done), st.Now())
      invariant EncodeItems(f, items) == Join(Some(done), EncodeItems(f, items[i..]))
    {
      ghost var next, middle := EncodeItem(f, items[i]), st.Now();
      ghost var rest := EncodeItems(f, items[i + 1..]);
      assert items[i..][0] == items[i] && items[i..][1..] == items[i + 1..];
      JoinAssociative(Some(done), next, rest);
      ok := WriteItem(st, f, items[i]);
      WroteBoth(start, done, middle, ok, next, st.Now());
      if !ok {
        FirstFailed(start, Join(Some(done), next), st.Now(), rest);
        return;
      }
      done := done + next.value;
    }
    JoinAssociative(Some(done), None, None);
    return true;
  }

  /** `encode_array`. */
  method WriteArray(st: OStream, f: Field, max: nat, items: seq<Value>) returns (ok: bool)
    requires st.Valid() && forall i | 0 <= i < |items| :: ShapedValue(f.kind, items[i])
    modifies st, st.buffer
    ensures st.Valid() && Wrote(old(st.Now()), ok, EncodeArray(f, max, items), st.Now())
    decreases f, 5
  {
    if |items| == 0 {
      return true;
    }
    if |items| > max {
      return false;
    }
    if !Packable(f.kind) {
      ok := WriteItems(st, f, items);
      return;
    }
    ok := WritePacked(st, f, items);
  }

  /** The packed case of `encode_array`: the size comes first, from the number of items or from a sizing pass. */
  method WritePacked(st: OStream, f: Field, items: seq<Value>) returns (ok: bool)
    requires st.Valid() && Packable(f.kind) && forall i | 0 <= i < |items| :: ShapedValue(f.kind, items[i])
    modifies st, st.buffer
    ensures st.Valid()
    ensures Wrote(old(st.Now()), ok, Join(Some(EncodeTag(f.tag, 2)), Delimited(EncodeItems(f, items))), st.Now())
    decreases f, 4
  {
    ghost var start, tag := st.Now(), EncodeTag(f.tag, 2);
    ghost var body := Delimited(EncodeItems(f, items));
    ok := st.WriteTag(f.tag, 2);
    ghost var middle := st.Now();
    if !ok {
      FirstFailed(start, Some(tag), middle, body);
      return;
    }
    ok := WritePackedItems(st, f, items);
    WroteBoth(start, tag, middle, ok, body, st.Now());
  }

  method WritePackedItems(st: OStream, f: Field, items: seq<Value>) returns (ok: bool)
    requires st.Valid() && Packable(f.kind) && forall i | 0 <= i < |items| :: ShapedValue(f.kind, items[i])
    modifies st, st.buffer
    ensures st.Valid() && Wrote(old(st.Now()), ok, Delimited(EncodeItems(f, items)), st.Now())
    decreases f, 3
  {
    ghost var start, body := st.Now(), EncodeItems(f, items);
    var size;
    if f.kind.Fixed32? || f.kind.Fixed64? {
      size := FixedSize(f.kind) * |items|;
      FixedItems(f, items);
    } else {
      var sizing := new OStream.Sizing();
      ok := WriteItems(sizing, f, items);
      if !ok {
        return;
      }
      size := sizing.written;
    }
    ok := st.WriteVarint(size);
    ghost var middle := st.Now();
    if !ok {
      FirstFailed(start, Some(EncodeVarint(size)), middle, body);
      return;
    }
    if st.buffer == null {
      st.WriteSize(size);
    } else {
      ok := WriteItems(st, f, items);
    }
    WroteBoth(start, EncodeVarint(size), middle, ok, body, st.Now());
  }

  lemma {:induction false} FixedItems(f: Field, items: seq<Value>)
    requires (f.kind.Fixed32? || f.kind.Fixed64?) && forall i | 0 <= i < |items| :: ShapedValue(f.kind, items[i])
    ensures EncodeItems(f, items).Some? && |EncodeItems(f, items).value| == FixedSize(f.kind) * |items|
    decreases |items|
  {
    if items != [] {
      assert EncodeItem(f, items[0]).Some? && |EncodeItem(f, items[0]).value| == FixedSize(f.kind);
      FixedItems(f, items[1..]);
    }
  }

  /** `encode_basic_field`. */
  method WriteSlot(st: OStream, f: Field, slot: Slot) returns (ok: bool)
    requires st.Valid() && ShapedSlot(f, slot)
    modifies st, st.buffer
    ensures st.Valid() && Wrote(old(st.Now()), ok, EncodeSlot(f, slot), st.Now())
    decreases f, 6
  {
    match slot {
      case One(v) => ok := WriteTagged(st, f, v);
      case Maybe(has, v) =>
        if has { ok := WriteTagged(st, f, v); } else { ok := true; }
      case Many(items) => ok := WriteArray(st, f, f.rule.max, items);
      case NotChosen => ok := true;
      case Chosen(v) => ok := WriteTagged(st, f, v);
    }
  }

  /** `pb_encode`. */
  method EncodeMessage(st: OStream, fields: seq<Field>, slots: seq<Slot>) returns (ok: bool)
    requires st.Valid() && Shaped(fields, slots)
    modifies st, st.buffer
    ensures st.Valid() && Wrote(old(st.Now()), ok, EncodeFields(fields, slots), st.Now())
    decreases fields, 0
  {
    ghost var start := st.Now();
    ghost var done: seq<byte> := [];
    JoinAssociative(EncodeFields(fields, slots), None, None);
    assert fields[0..] == fields && slots[0..] == slots;
    for i := 0 to |fields|
      invariant st.Valid() && Wrote(start, true, Some(done), st.Now())
      invariant Shaped(fields[i..], slots[i..])
      invariant EncodeFields(fields, slots) == Join(Some(done), EncodeFields(fields[i..], slots[i..]))
    {
      ghost var next, middle := EncodeSlot(fields[i], slots[i]), st.Now();
      assert fields[i..][1..] == fields[i + 1..] && slots[i..][1..] == slots[i + 1..];
      ghost var rest := EncodeFields(fields[i + 1..], slots[i + 1..]);
      JoinAssociative(Some(done), next, rest);
      ok := WriteSlot(st, fields[i], slots[i]);
      WroteBoth(start, done, middle, ok, next, st.Now());
      if !ok {
        FirstFailed(start, Join(Some(done), next), st.Now(), rest);
        return;
      }
      done := done + next.value;
    }
    JoinAssociative(Some(done), None, None);
    return true;
  }

  /** `pb_get_encoded_size`. */
  method EncodedSize(fields: seq<Field>, slots: seq<Slot>) returns (ok: bool, size: nat)
    requires Shaped(fields, slots)
    ensures ok <==> EncodeFields(fields, slots).Some?
    ensures ok ==> size == |EncodeFields(fields, slots).value|
  {
    var st := new OStream.Sizing();
    ok := EncodeMessage(st, fields, slots);
    size := st.written;
  }

  /** Encoding into a buffer whose size comes from the sizing pass always succeeds. */
  method EncodeExactly(fields: seq<Field>, slots: seq<Slot>) returns (ok: bool, out: seq<byte>)
    requires Shaped(fields, slots)
    ensures ok <==> EncodeFields(fields, slots).Some?
    ensures ok ==> Some(out) == EncodeFields(fields, slots)
  {
    var size;
    ok, size := EncodedSize(fields, slots);
    if !ok {
      return false, [];
    }
    var buffer := new byte[size];
    var st := new OStream.Over(buffer, 0, size);
    ok := EncodeMessage(st, fields, slots);
    JoinAssociative(EncodeFields(fields, slots), None, None);
    out := buffer[..st.pos];
  }
}
