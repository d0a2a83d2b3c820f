/** Some of the elements of a sequence, in order. */
module Subsequence {

  function Keep<T>(s: seq<T>, kept: seq<bool>): (r: seq<T>)
    requires |s| == |kept|
  {
    if s == [] then [] else (if kept[0] then [s[0]] else []) + Keep(s[1..], kept[1..])
  }

  /** The place in `Keep` of the element at `i`. */
  function Place(kept: seq<bool>, i: nat): nat
    requires i <= |kept|
  {
    if i == 0 then 0 else (if kept[0] then 1 else 0) + Place(kept[1..], i - 1)
  }

  lemma {:induction false} KeepAt<T>(s: seq<T>, kept: seq<bool>, i: nat)
    requires |s| == |kept| && i < |s| && kept[i]
    ensures Place(kept, i) < |Keep(s, kept)| && Keep(s, kept)[Place(kept, i)] == s[i]
  {
    if i > 0 {
      KeepAt(s[1..], kept[1..], i - 1);
    }
  }

  lemma {:induction false} KeepFrom<T>(s: seq<T>, kept: seq<bool>, k: nat) returns (i: nat)
    requires |s| == |kept| && k < |Keep(s, kept)|
    ensures i < |s| && kept[i] && Place(kept, i) == k && Keep(s, kept)[k] == s[i]
  {
    if kept[0] && k == 0 {
      i := 0;
    } else {
      var j := KeepFrom(s[1..], kept[1..], if kept[0] then k - 1 else k);
      i := j + 1;
    }
  }

  lemma {:induction false} KeepUpdate<T>(s: seq<T>, kept: seq<bool>, i: nat, x: T)
    requires |s| == |kept| && i < |s|
    ensures !kept[i] ==> Keep(s[i := x], kept) == Keep(s, kept)
    ensures kept[i] ==> Place(kept, i) < |Keep(s, kept)| && Keep(s[i := x], kept) == Keep(s, kept)[Place(kept, i) := x]
  {
    if i > 0 {
      KeepUpdate(s[1..], kept[1..], i - 1, x);
      assert s[i := x][1..] == s[1..][i - 1 := x];
    } else {
      assert s[i := x][1..] == s[1..];
    }
  }

  lemma {:induction false} KeepLength<S, T>(s: seq<S>, t: seq<T>, kept: seq<bool>)
    requires |s| == |t| == |kept|
    ensures |Keep(s, kept)| == |Keep(t, kept)|
  {
    if s != [] {
      KeepLength(s[1..], t[1..], kept[1..]);
    }
  }

  lemma {:induction false} KeepAll<T>(s: seq<T>)
    ensures Keep(s, seq(|s|, _ => true)) == s
  {
    if s != [] {
      KeepAll(s[1..]);
      assert seq(|s|, _ => true)[1..] == seq(|s| - 1, _ => true);
    }
  }
}

/** Messages come back from their encodings, whole or restricted to the fields that the reader knows. */
module NanopbRoundTrip {
  import opened Basics
  import opened NanopbTypes
  import opened NanopbEncode
  import opened NanopbDecode
  import opened NanopbPrimitives
  import opened Subsequence

  /** The values that survive: in the range of their C type, and with room for the terminator of a string. */
  predicate FitsValue(kind: Kind, v: Value)
    requires ShapedValue(kind, v)
    decreases kind
  {
    match kind
    case Varint(size) => ValidSize(size) && InSignedRange(size, v.i)
    case UVarint(size) => ValidSize(size) && 0 <= v.i < Range(size)
    case SVarint(size) => ValidSize(size) && InSignedRange(size, v.i)
    case Fixed32 => 0 <= v.i < TWO32
    case Fixed64 => 0 <= v.i < TWO64
    case Bytes(dataSize) => |v.bytes| + BYTES_HEADER <= dataSize
    case String(dataSize) => |v.bytes| < dataSize && 0 !in v.bytes
    case FixedBytes(_) => true
    case Submessage(fields) => Fits(fields, v.slots)
  }

  predicate FitsSlot(f: Field, slot: Slot)
    requires ShapedSlot(f, slot)
    decreases f
  {
    match slot
    case One(v) => FitsValue(f.kind, v)
    case Maybe(has, v) => has ==> FitsValue(f.kind, v)
    case Many(items) => |items| <= f.rule.max && forall i | 0 <= i < |items| :: FitsValue(f.kind, items[i])
    case NotChosen => true
    case Chosen(v) => FitsValue(f.kind, v)
  }

  /** A union holds at most one member. */
  predicate Exclusive(fields: seq<Field>, slots: seq<Slot>)
    requires |fields| == |slots|
  {
    forall i, j | 0 <= i < |fields| && 0 <= j < |fields| && i != j && slots[i].Chosen? && slots[j].Chosen? ::
      fields[i].rule != fields[j].rule
  }

  predicate Fits(fields: seq<Field>, slots: seq<Slot>)
    requires Shaped(fields, slots)
    decreases fields
  {
    && Exclusive(fields, slots)
    && forall i | 0 <= i < |fields| :: ShapedSlot(fields[i], slots[i]) && FitsSlot(fields[i], slots[i])
  }

  /** A message whose absent optional fields are at their defaults, at every level. */
  function CanonicalValue(kind: Kind, v: Value): Value
    requires ShapedValue(kind, v)
    decreases kind, 0
  {
    if kind.Submessage? then Message(Canonical(kind.fields, v.slots)) else v
  }

  function CanonicalItems(kind: Kind, items: seq<Value>): (r: seq<Value>)
    requires forall i | 0 <= i < |items| :: ShapedValue(kind, items[i])
    ensures |r| == |items|
    decreases kind, 1
  {
    seq(|items|, i requires 0 <= i < |items| => CanonicalValue(kind, items[i]))
  }

  function CanonicalSlot(f: Field, slot: Slot): Slot
    requires ShapedSlot(f, slot)
    decreases f
  {
    match slot
    case One(v) => One(CanonicalValue(f.kind, v))
    case Maybe(has, v) => Maybe(has, if has then CanonicalValue(f.kind, v) else DefaultValue(f))
    case Many(items) => Many(CanonicalItems(f.kind, items))
    case NotChosen => NotChosen
    case Chosen(v) => Chosen(CanonicalValue(f.kind, v))
  }

  function Canonical(fields: seq<Field>, slots: seq<Slot>): (r: seq<Slot>)
    requires Shaped(fields, slots)
    ensures |r| == |fields|
    decreases fields
  {
    seq(|fields|, i requires 0 <= i < |fields| =>
      assert ShapedSlot(fields[i], slots[i]);
      CanonicalSlot(fields[i], slots[i]))
  }

  // ---- One field of the reader ----

  /** A tag that the reader knows: its field is decoded. */
  lemma {:induction false} KnownTag(fields: seq<Field>, slots: seq<Slot>, seen: set<nat>, k: nat, wire: nat, body: seq<byte>)
    requires ValidFields(fields) && Shaped(fields, slots) && k < |fields| && wire < 8
    requires DecodeField(fields, slots, k, wire, body).Done?
    ensures
      var r := DecodeField(fields, slots, k, wire, body);
      DecodeFields(fields, slots, seen, EncodeTag(fields[k].tag, wire) + body)
        == DecodeFields(fields, r.v, seen + {k}, r.rest)
  {
    assert ValidField(fields[k]);
    var tag := fields[k].tag;
    TagRoundTrip(tag, wire, body);
    var found := FieldIndex(fields, tag);
    assert found.Some? && fields[found.value].tag == tag;
    assert found.value == k;
  }

  /** A tag that the reader does not know: its value is skipped. */
  lemma {:induction false} UnknownTag(fields: seq<Field>, slots: seq<Slot>, seen: set<nat>, tag: nat, wire: nat, body: seq<byte>)
    requires ValidFields(fields) && Shaped(fields, slots) && 0 < tag < MAX_TAG && wire < 8
    requires forall i | 0 <= i < |fields| :: fields[i].tag != tag
    requires Skip(wire, body).Some?
    ensures DecodeFields(fields, slots, seen, EncodeTag(tag, wire) + body)
         == DecodeFields(fields, slots, seen, Skip(wire, body).value)
  {
    TagRoundTrip(tag, wire, body);
  }

  lemma {:induction false} SkipValue(kind: Kind, v: Value, rest: seq<byte>)
    requires ShapedValue(kind, v) && EncodeValue(kind, v).Some? && |EncodeValue(kind, v).value| < TWO32
    ensures Skip(WireType(kind), EncodeValue(kind, v).value + rest) == Some(rest)
  {
    var e := EncodeValue(kind, v).value;
    if kind.Fixed32? || kind.Fixed64? {
      assert (e + rest)[|e|..] == rest;
    } else if Packable(kind) {
      SkipVarintExact(if kind.SVarint? then ZigZag(v.i) else v.i % TWO64, rest);
    } else if kind.Submessage? {
      PrefixedRoundTrip(EncodeFields(kind.fields, v.slots).value, rest);
    } else if kind.String? {
      PrefixedRoundTrip(UpToNul(v.bytes, kind.dataSize), rest);
    } else {
      PrefixedRoundTrip(v.bytes, rest);
    }
  }

  // ---- Values ----

  lemma {:induction false} IntRoundTrip(kind: Kind, v: Value, was: Value, rest: seq<byte>)
    requires kind.Varint? || kind.UVarint? || kind.SVarint?
    requires ShapedValue(kind, v) && FitsValue(kind, v) && ShapedValue(kind, was)
    ensures DecodeValue(kind, was, EncodeValue(kind, v).value + rest) == Done(v, rest)
  {
    if kind.SVarint? {
      Varint64RoundTrip(ZigZag(v.i), rest);
      SVarintValueRoundTrip(kind.size, v.i);
    } else {
      Varint64RoundTrip(v.i % TWO64, rest);
      if kind.Varint? {
        VarintValueRoundTrip(kind.size, v.i);
      } else {
        UVarintValueRoundTrip(kind.size, v.i);
      }
    }
  }

  lemma {:induction false} FixedDecodes(kind: Kind, was: Value, e: seq<byte>, rest: seq<byte>)
    requires (kind.Fixed32? || kind.Fixed64?) && ShapedValue(kind, was) && |e| == FixedSize(kind)
    ensures DecodeValue(kind, was, e + rest) == Done(Int(FromLittleEndian(e)), rest)
  {
    TakeWhole(e, rest);
  }

  lemma {:induction false} FixedEncodes(kind: Kind, v: Value)
    requires (kind.Fixed32? || kind.Fixed64?) && ShapedValue(kind, v) && FitsValue(kind, v)
    ensures EncodeValue(kind, v) == Some(LittleEndian(v.i, FixedSize(kind)))
  {
    if kind.Fixed32? {
      assert v.i % TWO32 == v.i;
    } else {
      assert v.i % TWO64 == v.i;
    }
  }

  lemma {:induction false} FixedValueRoundTrip(kind: Kind, v: Value, was: Value, rest: seq<byte>)
    requires kind.Fixed32? || kind.Fixed64?
    requires ShapedValue(kind, v) && FitsValue(kind, v) && ShapedValue(kind, was)
    ensures DecodeValue(kind, was, EncodeValue(kind, v).value + rest) == Done(v, rest)
  {
    FixedEncodes(kind, v);
    FixedRoundTrip(v.i, FixedSize(kind));
    FixedDecodes(kind, was, LittleEndian(v.i, FixedSize(kind)), rest);
  }

  lemma {:induction false} ScalarRoundTrip(kind: Kind, v: Value, was: Value, rest: seq<byte>)
    requires !kind.Submessage? && ShapedValue(kind, v) && FitsValue(kind, v) && ShapedValue(kind, was)
    requires EncodeValue(kind, v).Some? && |EncodeValue(kind, v).value| < TWO32
    ensures DecodeValue(kind, was, EncodeValue(kind, v).value + rest) == Done(v, rest)
  {
    if kind.Fixed32? || kind.Fixed64? {
      FixedValueRoundTrip(kind, v, was, rest);
    } else if Packable(kind) {
      IntRoundTrip(kind, v, was, rest);
    } else {
      RawRoundTrip(kind, v, was, rest);
    }
  }

  lemma {:induction false} FixedRoundTrip(i: int, n: nat)
    requires n == 4 || n == 8
    requires 0 <= i < if n == 4 then TWO32 else TWO64
    ensures FromLittleEndian(LittleEndian(i, n)) == i
  {
    assert Power(256, 8) == 256 * Power(256, 7) && Power(256, 6) == 256 * Power(256, 5);
    assert Power(256, 4) == 256 * Power(256, 3) && Power(256, 2) == 256 * Power(256, 1);
    LittleEndianRoundTrip(i, n);
  }

  lemma {:induction false} RawRoundTrip(kind: Kind, v: Value, was: Value, rest: seq<byte>)
    requires kind.Bytes? || kind.String? || kind.FixedBytes?
    requires ShapedValue(kind, v) && FitsValue(kind, v) && ShapedValue(kind, was)
    requires EncodeValue(kind, v).Some? && |EncodeValue(kind, v).value| < TWO32
    ensures DecodeValue(kind, was, EncodeValue(kind, v).value + rest) == Done(v, rest)
  {
    if kind.String? {
      UpToNulWhole(v.bytes, kind.dataSize);
    }
    var body := v.bytes;
    Associative(EncodeVarint(|body|), body, rest);
    Varint32RoundTrip(|body|, body + rest);
    TakeWhole(body, rest);
    if kind.FixedBytes? && |body| == 0 {
      assert body == seq(kind.dataSize, _ => 0);
    }
  }

  lemma {:induction false} ValueRoundTrip(kind: Kind, v: Value, was: Value, rest: seq<byte>)
    requires ShapedValue(kind, v) && FitsValue(kind, v) && ShapedValue(kind, was)
    requires kind.Submessage? ==> ValidFields(kind.fields) && was == Message(Defaults(kind.fields))
    requires EncodeValue(kind, v).Some? && |EncodeValue(kind, v).value| < TWO32
    ensures DecodeValue(kind, was, EncodeValue(kind, v).value + rest) == Done(CanonicalValue(kind, v), rest)
    decreases kind
  {
    if kind.Submessage? {
      var body := EncodeFields(kind.fields, v.slots).value;
      PrefixedRoundTrip(body, rest);
      var all := seq(|kind.fields|, _ => true);
      KeepAll(kind.fields);
      KeepAll(Canonical(kind.fields, v.slots));
      Projection(kind.fields, v.slots, all);
    } else {
      ScalarRoundTrip(kind, v, was, rest);
    }
  }

  lemma {:induction false} PackedRoundTrip(f: Field, max: nat, done: seq<Value>, items: seq<Value>)
    requires Packable(f.kind) && |done| + |items| <= max
    requires forall i | 0 <= i < |done| :: ShapedValue(f.kind, done[i])
    requires forall i | 0 <= i < |items| :: ShapedValue(f.kind, items[i]) && FitsValue(f.kind, items[i])
    requires EncodeItems(f, items).Some? && |EncodeItems(f, items).value| < TWO32
    ensures DecodePacked(f, max, done, EncodeItems(f, items).value) == Some(done + items)
    decreases |items|
  {
    if items != [] {
      var e := EncodeValue(f.kind, items[0]).value;
      var rest := EncodeItems(f, items[1..]).value;
      assert EncodeItems(f, items).value == e + rest;
      ScalarRoundTrip(f.kind, items[0], Int(0), rest);
      assert |e + rest| > 0;
      PackedRoundTrip(f, max, done + [items[0]], items[1..]);
      assert done + [items[0]] + items[1..] == done + items;
    } else {
      assert done + items == done;
    }
  }

  // ---- One field of the writer ----

  /** The field at `k` of the reader is still at its default, and no other member of its union is chosen. */
  predicate Untouched(fields: seq<Field>, slots: seq<Slot>, k: nat)
    requires k < |fields| == |slots|
  {
    && slots[k] == DefaultSlot(fields[k])
    && forall m | 0 <= m < |fields| && m != k && fields[m].rule.Oneof? && fields[m].rule == fields[k].rule ::
         slots[m] == NotChosen
  }

  /** Decoding the field at `k` once, when its value decodes. */
  lemma {:induction false} SingleField(fields: seq<Field>, slots: seq<Slot>, k: nat, wire: nat, s: seq<byte>, r: Decoded<Value>)
    requires ValidFields(fields) && Shaped(fields, slots) && k < |fields| && Untouched(fields, slots, k)
    requires !fields[k].rule.Repeated? && ShapedValue(fields[k].kind, DefaultValue(fields[k]))
    requires fields[k].kind.Submessage? ==> ValidFields(fields[k].kind.fields)
    requires r.Done? && DecodeValue(fields[k].kind, DefaultValue(fields[k]), s) == r
    ensures DecodeField(fields, slots, k, wire, s) == Done(slots[k := Present(fields[k], r.v)], r.rest)
  {
    var f := fields[k];
    if f.rule.Oneof? {
      assert ClearGroup(fields, slots, f.rule.group) == slots;
    }
  }

  function Present(f: Field, v: Value): Slot
    requires !f.rule.Repeated?
  {
    match f.rule
    case Required => One(v)
    case Optional => Maybe(true, v)
    case Oneof(_) => Chosen(v)
  }

  /** The value of a field that is not repeated arrives. */
  lemma {:induction false} SingleArrives(fields: seq<Field>, slots: seq<Slot>, seen: set<nat>, k: nat, s: seq<byte>, r: Decoded<Value>)
    requires ValidFields(fields) && Shaped(fields, slots) && k < |fields| && Untouched(fields, slots, k)
    requires !fields[k].rule.Repeated? && ShapedValue(fields[k].kind, DefaultValue(fields[k]))
    requires fields[k].kind.Submessage? ==> ValidFields(fields[k].kind.fields)
    requires r.Done? && DecodeValue(fields[k].kind, DefaultValue(fields[k]), s) == r
    ensures var slots' := slots[k := Present(fields[k], r.v)];
      && Shaped(fields, slots')
      && DecodeFields(fields, slots, seen, EncodeTag(fields[k].tag, WireType(fields[k].kind)) + s)
         == DecodeFields(fields, slots', seen + {k}, r.rest)
  {
    var wire := WireType(fields[k].kind);
    SingleField(fields, slots, k, wire, s, r);
    KnownTag(fields, slots, seen, k, wire, s);
  }

  /** One more item of an array whose items have their own tags arrives. */
  lemma {:induction false} ItemArrives(fields: seq<Field>, slots: seq<Slot>, seen: set<nat>, k: nat, s: seq<byte>, r: Decoded<Value>)
    requires ValidFields(fields) && Shaped(fields, slots) && k < |fields|
    requires fields[k].rule.Repeated? && !Packable(fields[k].kind)
    requires slots[k].Many? && |slots[k].items| < fields[k].rule.max
    requires ShapedValue(fields[k].kind, DefaultValue(fields[k]))
    requires fields[k].kind.Submessage? ==> ValidFields(fields[k].kind.fields)
    requires r.Done? && DecodeValue(fields[k].kind, DefaultValue(fields[k]), s) == r
    ensures var slots' := slots[k := Many(slots[k].items + [r.v])];
      && Shaped(fields, slots')
      && DecodeFields(fields, slots, seen, EncodeTag(fields[k].tag, WireType(fields[k].kind)) + s)
         == DecodeFields(fields, slots', seen + {k}, r.rest)
  {
    assert DecodeField(fields, slots, k, 2, s) == Done(slots[k := Many(slots[k].items + [r.v])], r.rest);
    KnownTag(fields, slots, seen, k, 2, s);
  }

  /** A value and its tag, ready to be decoded into its default. */
  lemma {:induction false} TaggedRoundTrip(f: Field, v: Value, tail: seq<byte>)
    requires ValidField(f) && ShapedValue(f.kind, v) && FitsValue(f.kind, v)
    requires EncodeTagged(f, v).Some? && |EncodeTagged(f, v).value| < TWO32
    ensures ShapedValue(f.kind, DefaultValue(f)) && (f.kind.Submessage? ==> ValidFields(f.kind.fields))
    ensures var e := EncodeValue(f.kind, v).value;
      && EncodeTagged(f, v).value + tail == EncodeTag(f.tag, WireType(f.kind)) + (e + tail)
      && DecodeValue(f.kind, DefaultValue(f), e + tail) == Done(CanonicalValue(f.kind, v), tail)
    decreases f, 0
  {
    var e := EncodeValue(f.kind, v).value;
    DefaultShaped(f);
    ValueRoundTrip(f.kind, v, DefaultValue(f), tail);
    Associative(EncodeTag(f.tag, WireType(f.kind)), e, tail);
  }

  lemma {:induction false} SingleStep(fields: seq<Field>, slots: seq<Slot>, seen: set<nat>, k: nat, v: Value, tail: seq<byte>)
    requires ValidFields(fields) && Shaped(fields, slots) && k < |fields| && Untouched(fields, slots, k)
    requires !fields[k].rule.Repeated? && ShapedValue(fields[k].kind, v) && FitsValue(fields[k].kind, v)
    requires EncodeTagged(fields[k], v).Some? && |EncodeTagged(fields[k], v).value| < TWO32
    ensures var slots' := slots[k := Present(fields[k], CanonicalValue(fields[k].kind, v))];
      && Shaped(fields, slots')
      && DecodeFields(fields, slots, seen, EncodeTagged(fields[k], v).value + tail)
         == DecodeFields(fields, slots', seen + {k}, tail)
    decreases fields[k], 1
  {
    var f := fields[k];
    assert ValidField(f);
    TaggedRoundTrip(f, v, tail);
    SingleArrives(fields, slots, seen, k, EncodeValue(f.kind, v).value + tail, Done(CanonicalValue(f.kind, v), tail));
  }

  predicate FitItems(kind: Kind, items: seq<Value>) {
    forall i | 0 <= i < |items| :: ShapedValue(kind, items[i]) && FitsValue(kind, items[i])
  }

  lemma {:induction false} ItemStep(fields: seq<Field>, slots: seq<Slot>, seen: set<nat>, k: nat, v: Value, tail: seq<byte>)
    requires ValidFields(fields) && Shaped(fields, slots) && k < |fields|
    requires fields[k].rule.Repeated? && !Packable(fields[k].kind)
    requires slots[k].Many? && |slots[k].items| < fields[k].rule.max
    requires ShapedValue(fields[k].kind, v) && FitsValue(fields[k].kind, v)
    requires EncodeTagged(fields[k], v).Some? && |EncodeTagged(fields[k], v).value| < TWO32
    ensures var slots' := slots[k := Many(slots[k].items + [CanonicalValue(fields[k].kind, v)])];
      && Shaped(fields, slots')
      && DecodeFields(fields, slots, seen, EncodeTagged(fields[k], v).value + tail)
         == DecodeFields(fields, slots', seen + {k}, tail)
    decreases fields[k], 1
  {
    var f := fields[k];
    assert ValidField(f);
    TaggedRoundTrip(f, v, tail);
    ItemArrives(fields, slots, seen, k, EncodeValue(f.kind, v).value + tail, Done(CanonicalValue(f.kind, v), tail));
  }

  lemma {:induction false} ItemsHead(f: Field, items: seq<Value>, tail: seq<byte>)
    requires !Packable(f.kind) && items != [] && FitItems(f.kind, items)
    requires EncodeItems(f, items).Some? && |EncodeItems(f, items).value| < TWO32
    ensures FitItems(f.kind, items[1..])
    ensures EncodeTagged(f, items[0]).Some? && |EncodeTagged(f, items[0]).value| < TWO32
    ensures EncodeItems(f, items[1..]).Some? && |EncodeItems(f, items[1..]).value| < TWO32
    ensures EncodeItems(f, items).value + tail
         == EncodeTagged(f, items[0]).value + (EncodeItems(f, items[1..]).value + tail)
  {
    assert EncodeItems(f, items) == Join(EncodeTagged(f, items[0]), EncodeItems(f, items[1..]));
    Associative(EncodeTagged(f, items[0]).value, EncodeItems(f, items[1..]).value, tail);
  }

  lemma {:induction false} CanonicalHead(kind: Kind, items: seq<Value>)
    requires items != [] && forall i | 0 <= i < |items| :: ShapedValue(kind, items[i])
    ensures CanonicalItems(kind, items) == [CanonicalValue(kind, items[0])] + CanonicalItems(kind, items[1..])
  {
    var (all, more) := (CanonicalItems(kind, items), CanonicalItems(kind, items[1..]));
    forall i | 0 <= i < |more|
      ensures all[i + 1] == more[i]
    {
      assert items[1..][i] == items[i + 1];
    }
  }

  lemma {:induction false} ItemsStep(fields: seq<Field>, slots: seq<Slot>, seen: set<nat>, k: nat, items: seq<Value>, tail: seq<byte>)
    requires ValidFields(fields) && Shaped(fields, slots) && k < |fields|
    requires fields[k].rule.Repeated? && !Packable(fields[k].kind)
    requires slots[k].Many? && |slots[k].items| + |items| <= fields[k].rule.max && FitItems(fields[k].kind, items)
    requires EncodeItems(fields[k], items).Some? && |EncodeItems(fields[k], items).value| < TWO32
    ensures var slots' := slots[k := Many(slots[k].items + CanonicalItems(fields[k].kind, items))];
      && Shaped(fields, slots')
      && DecodeFields(fields, slots, seen, EncodeItems(fields[k], items).value + tail)
         == DecodeFields(fields, slots', if items == [] then seen else seen + {k}, tail)
    decreases fields[k], 2, |items|
  {
    var f := fields[k];
    var had := slots[k].items;
    if items == [] {
      assert had + CanonicalItems(f.kind, items) == had;
      assert slots[k := Many(had)] == slots;
      assert EncodeItems(f, items).value + tail == tail;
    } else {
      ItemsHead(f, items, tail);
      CanonicalHead(f.kind, items);
      var c := CanonicalValue(f.kind, items[0]);
      ItemStep(fields, slots, seen, k, items[0], EncodeItems(f, items[1..]).value + tail);
      var slots1 := slots[k := Many(had + [c])];
      ItemsStep(fields, slots1, seen + {k}, k, items[1..], tail);
      var more := CanonicalItems(f.kind, items[1..]);
      assert had + ([c] + more) == had + [c] + more;
      assert slots1[k := Many(had + [c] + more)] == slots[k := Many(had + [c] + more)];
      assert seen + {k} + {k} == seen + {k};
    }
  }

  /** A packed array. */
  lemma {:induction false} PackedStep(fields: seq<Field>, slots: seq<Slot>, seen: set<nat>, k: nat, items: seq<Value>, tail: seq<byte>)
    requires ValidFields(fields) && Shaped(fields, slots) && k < |fields|
    requires fields[k].rule.Repeated? && Packable(fields[k].kind) && slots[k] == Many([])
    requires |items| <= fields[k].rule.max && FitItems(fields[k].kind, items)
    requires EncodeItems(fields[k], items).Some? && |EncodeItems(fields[k], items).value| < TWO32
    ensures var slots' := slots[k := Many(items)];
      && Shaped(fields, slots')
      && DecodeFields(fields, slots, seen, EncodeTag(fields[k].tag, 2) + Prefixed(EncodeItems(fields[k], items).value) + tail)
         == DecodeFields(fields, slots', seen + {k}, tail)
  {
    var f := fields[k];
    var body := EncodeItems(f, items).value;
    PrefixedRoundTrip(body, tail);
    PackedRoundTrip(f, f.rule.max, [], items);
    assert [] + items == items;
    assert EncodeTag(f.tag, 2) + Prefixed(body) + tail == EncodeTag(f.tag, 2) + (Prefixed(body) + tail);
    KnownTag(fields, slots, seen, k, 2, Prefixed(body) + tail);
  }

  /** What the writer wrote for a field that the reader knows: the field gets its value. */
  lemma {:induction false} KnownField(fields: seq<Field>, slots: seq<Slot>, seen: set<nat>, k: nat, slot: Slot, tail: seq<byte>)
      returns (seen': set<nat>)
    requires ValidFields(fields) && Shaped(fields, slots) && k < |fields|
    requires slots[k] == DefaultSlot(fields[k]) && (slot.Chosen? ==> Untouched(fields, slots, k))
    requires ShapedSlot(fields[k], slot) && FitsSlot(fields[k], slot)
    requires EncodeSlot(fields[k], slot).Some? && |EncodeSlot(fields[k], slot).value| < TWO32
    ensures seen <= seen' && (fields[k].rule.Required? ==> k in seen')
    ensures var slots' := slots[k := CanonicalSlot(fields[k], slot)];
      && Shaped(fields, slots')
      && DecodeFields(fields, slots, seen, EncodeSlot(fields[k], slot).value + tail)
         == DecodeFields(fields, slots', seen', tail)
    decreases fields[k], 3
  {
    var f := fields[k];
    if slot.Many? && slot.items != [] {
      seen' := seen + {k};
      if Packable(f.kind) {
        PackedStep(fields, slots, seen, k, slot.items, tail);
        assert CanonicalItems(f.kind, slot.items) == slot.items;
      } else {
        ItemsStep(fields, slots, seen, k, slot.items, tail);
        assert [] + CanonicalItems(f.kind, slot.items) == CanonicalItems(f.kind, slot.items);
      }
    } else if slot.One? || slot.Chosen? || (slot.Maybe? && slot.has) {
      seen' := seen + {k};
      SingleStep(fields, slots, seen, k, slot.v, tail);
    } else {
      seen' := seen;
      assert CanonicalSlot(f, slot) == slots[k];
      assert slots[k := slots[k]] == slots;
      assert EncodeSlot(f, slot).value + tail == tail;
    }
  }

  // ---- One field that the reader does not know ----

  predicate Unknown(fields: seq<Field>, tag: nat) {
    0 < tag < MAX_TAG && forall i | 0 <= i < |fields| :: fields[i].tag != tag
  }

  lemma {:induction false} SkipTagged(fields: seq<Field>, slots: seq<Slot>, seen: set<nat>, f: Field, v: Value, tail: seq<byte>)
    requires ValidFields(fields) && Shaped(fields, slots) && Unknown(fields, f.tag)
    requires ShapedValue(f.kind, v) && EncodeTagged(f, v).Some? && |EncodeTagged(f, v).value| < TWO32
    ensures DecodeFields(fields, slots, seen, EncodeTagged(f, v).value + tail) == DecodeFields(fields, slots, seen, tail)
  {
    var e := EncodeValue(f.kind, v).value;
    SkipValue(f.kind, v, tail);
    assert EncodeTagged(f, v).value + tail == EncodeTag(f.tag, WireType(f.kind)) + (e + tail);
    UnknownTag(fields, slots, seen, f.tag, WireType(f.kind), e + tail);
  }

  lemma {:induction false} SkipItems(fields: seq<Field>, slots: seq<Slot>, seen: set<nat>, f: Field, items: seq<Value>, tail: seq<byte>)
    requires ValidFields(fields) && Shaped(fields, slots) && Unknown(fields, f.tag) && !Packable(f.kind)
    requires forall i | 0 <= i < |items| :: ShapedValue(f.kind, items[i])
    requires EncodeItems(f, items).Some? && |EncodeItems(f, items).value| < TWO32
    ensures DecodeFields(fields, slots, seen, EncodeItems(f, items).value + tail) == DecodeFields(fields, slots, seen, tail)
    decreases |items|
  {
    if items == [] {
      assert EncodeItems(f, items).value + tail == tail;
    } else {
      var first := EncodeTagged(f, items[0]).value;
      var more := EncodeItems(f, items[1..]).value;
      assert EncodeItems(f, items).value + tail == first + (more + tail);
      SkipTagged(fields, slots, seen, f, items[0], more + tail);
      SkipItems(fields, slots, seen, f, items[1..], tail);
    }
  }

  lemma {:induction false} SkipPacked(fields: seq<Field>, slots: seq<Slot>, seen: set<nat>, f: Field, items: seq<Value>, tail: seq<byte>)
    requires ValidFields(fields) && Shaped(fields, slots) && Unknown(fields, f.tag)
    requires forall i | 0 <= i < |items| :: ShapedValue(f.kind, items[i])
    requires EncodeItems(f, items).Some? && |EncodeItems(f, items).value| < TWO32
    ensures DecodeFields(fields, slots, seen, EncodeTag(f.tag, 2) + Prefixed(EncodeItems(f, items).value) + tail)
         == DecodeFields(fields, slots, seen, tail)
  {
    var body := EncodeItems(f, items).value;
    PrefixedRoundTrip(body, tail);
    Associative(EncodeTag(f.tag, 2), Prefixed(body), tail);
    UnknownTag(fields, slots, seen, f.tag, 2, Prefixed(body) + tail);
  }

  /** What the writer wrote for a field that the reader does not know is passed over, and nothing else is. */
  lemma {:induction false} UnknownField(fields: seq<Field>, slots: seq<Slot>, seen: set<nat>, f: Field, slot: Slot, tail: seq<byte>)
    requires ValidFields(fields) && Shaped(fields, slots) && Unknown(fields, f.tag)
    requires ShapedSlot(f, slot) && EncodeSlot(f, slot).Some? && |EncodeSlot(f, slot).value| < TWO32
    ensures DecodeFields(fields, slots, seen, EncodeSlot(f, slot).value + tail) == DecodeFields(fields, slots, seen, tail)
  {
    if slot.Many? && slot.items != [] {
      if Packable(f.kind) {
        SkipPacked(fields, slots, seen, f, slot.items, tail);
      } else {
        SkipItems(fields, slots, seen, f, slot.items, tail);
      }
    } else if slot.One? || slot.Chosen? || (slot.Maybe? && slot.has) {
      SkipTagged(fields, slots, seen, f, slot.v, tail);
    } else {
      assert EncodeSlot(f, slot).value + tail == tail;
    }
  }

  // ---- Whole messages ----

  /** The reader's message after the writer's first `i` fields, before the restriction. */
  function Partial(fields: seq<Field>, slots: seq<Slot>, i: nat): (r: seq<Slot>)
    requires Shaped(fields, slots) && i <= |fields|
    ensures |r| == |fields|
  {
    Canonical(fields, slots)[..i] + Defaults(fields)[i..]
  }

  lemma {:induction false} PartialStep(fields: seq<Field>, slots: seq<Slot>, kept: seq<bool>, i: nat)
    requires Shaped(fields, slots) && i < |fields| == |kept|
    ensures ShapedSlot(fields[i], slots[i])
    ensures !kept[i] ==> Keep(Partial(fields, slots, i + 1), kept) == Keep(Partial(fields, slots, i), kept)
    ensures kept[i] ==>
      && Place(kept, i) < |Keep(Partial(fields, slots, i), kept)|
      && Keep(Partial(fields, slots, i), kept)[Place(kept, i)] == DefaultSlot(fields[i])
      && Keep(Partial(fields, slots, i + 1), kept)
         == Keep(Partial(fields, slots, i), kept)[Place(kept, i) := CanonicalSlot(fields[i], slots[i])]
  {
    var c := CanonicalSlot(fields[i], slots[i]);
    assert Partial(fields, slots, i + 1) == Partial(fields, slots, i)[i := c];
    KeepUpdate(Partial(fields, slots, i), kept, i, c);
    if kept[i] {
      KeepAt(Partial(fields, slots, i), kept, i);
    }
  }

  lemma {:induction false} KeepDefaults(fields: seq<Field>, kept: seq<bool>)
    requires |fields| == |kept|
    ensures Keep(Defaults(fields), kept) == Defaults(Keep(fields, kept))
  {
    KeepLength(fields, Defaults(fields), kept);
    forall k | 0 <= k < |Keep(fields, kept)|
      ensures Keep(Defaults(fields), kept)[k] == Defaults(Keep(fields, kept))[k]
    {
      var i := KeepFrom(fields, kept, k);
      KeepAt(Defaults(fields), kept, i);
    }
  }

  lemma {:induction false} KeepValid(fields: seq<Field>, kept: seq<bool>)
    requires ValidFields(fields) && |fields| == |kept| && CountOk(RequiredCount(Keep(fields, kept)))
    ensures ValidFields(Keep(fields, kept))
  {
    var known := Keep(fields, kept);
    forall a, b | 0 <= a < b < |known|
      ensures known[a].tag != known[b].tag
    {
      var i := KeepFrom(fields, kept, a);
      var j := KeepFrom(fields, kept, b);
      assert i != j;
    }
    forall a | 0 <= a < |known|
      ensures ValidField(known[a])
    {
      var i := KeepFrom(fields, kept, a);
    }
  }

  /** The required fields among the first `i` that the reader knows have been met. */
  predicate MetSoFar(fields: seq<Field>, kept: seq<bool>, i: nat, seen: set<nat>)
    requires i <= |fields| == |kept|
  {
    forall j | 0 <= j < i && kept[j] && fields[j].rule.Required? :: Place(kept, j) in seen
  }

  lemma {:induction false} AllMet(fields: seq<Field>, kept: seq<bool>, seen: set<nat>)
    requires |fields| == |kept| && MetSoFar(fields, kept, |fields|, seen)
    ensures AllSeen(Keep(fields, kept), seen)
  {
    var known := Keep(fields, kept);
    forall k | 0 <= k < |known| && known[k].rule.Required?
      ensures k in seen
    {
      var i := KeepFrom(fields, kept, k);
    }
  }

  lemma {:induction false} UnknownWhenDropped(fields: seq<Field>, kept: seq<bool>, i: nat)
    requires ValidFields(fields) && i < |fields| == |kept| && !kept[i]
    ensures Unknown(Keep(fields, kept), fields[i].tag)
  {
    var known := Keep(fields, kept);
    assert ValidField(fields[i]);
    forall k | 0 <= k < |known|
      ensures known[k].tag != fields[i].tag
    {
      var j := KeepFrom(fields, kept, k);
      assert j != i;
    }
  }

  lemma {:induction false} OtherMember(fields: seq<Field>, slots: seq<Slot>, i: nat, j: nat)
    requires Shaped(fields, slots) && Exclusive(fields, slots) && i < |fields| && j < |fields| && i != j
    requires slots[i].Chosen? && fields[j].rule.Oneof? && fields[j].rule == fields[i].rule
    ensures Partial(fields, slots, i)[j] == NotChosen
  {
    assert ShapedSlot(fields[j], slots[j]) && !slots[j].Chosen?;
    if j < i {
      assert Partial(fields, slots, i)[j] == CanonicalSlot(fields[j], slots[j]);
    } else {
      assert Partial(fields, slots, i)[j] == DefaultSlot(fields[j]);
    }
  }

  lemma {:induction false} UntouchedWhenChosen(fields: seq<Field>, slots: seq<Slot>, kept: seq<bool>, i: nat)
    requires ValidFields(fields) && Shaped(fields, slots) && Exclusive(fields, slots)
    requires i < |fields| == |kept| && kept[i] && slots[i].Chosen?
    ensures
      var k := Place(kept, i);
      var (known, now) := (Keep(fields, kept), Keep(Partial(fields, slots, i), kept));
      k < |known| == |now| && Untouched(known, now, k)
  {
    var k := Place(kept, i);
    var (known, now) := (Keep(fields, kept), Keep(Partial(fields, slots, i), kept));
    KeepLength(fields, Partial(fields, slots, i), kept);
    KeepAt(fields, kept, i);
    PartialStep(fields, slots, kept, i);
    forall m | 0 <= m < |known| && m != k && known[m].rule.Oneof? && known[m].rule == known[k].rule
      ensures now[m] == NotChosen
    {
      var j := KeepFrom(fields, kept, m);
      KeepAt(Partial(fields, slots, i), kept, j);
      OtherMember(fields, slots, i, j);
    }
  }

  /** The rest of the writer's bytes brings the reader to the end of the message, and to what follows it. */
  lemma {:induction false} Suffix(
    fields: seq<Field>, slots: seq<Slot>, kept: seq<bool>, i: nat, seen: set<nat>, more: seq<byte>) returns (seen': set<nat>)
    requires ValidFields(fields) && Shaped(fields, slots) && Fits(fields, slots) && i <= |fields| == |kept|
    requires ValidFields(Keep(fields, kept)) && Shaped(Keep(fields, kept), Keep(Partial(fields, slots, i), kept))
    requires Shaped(fields[i..], slots[i..])
    requires EncodeFields(fields[i..], slots[i..]).Some? && |EncodeFields(fields[i..], slots[i..]).value| < TWO32
    requires MetSoFar(fields, kept, i, seen)
    ensures AllSeen(Keep(fields, kept), seen') && Shaped(Keep(fields, kept), Keep(Canonical(fields, slots), kept))
    ensures DecodeFields(Keep(fields, kept), Keep(Partial(fields, slots, i), kept), seen,
                         EncodeFields(fields[i..], slots[i..]).value + more)
         == DecodeFields(Keep(fields, kept), Keep(Canonical(fields, slots), kept), seen', more)
    decreases fields, |fields| - i
  {
    var (known, now) := (Keep(fields, kept), Keep(Partial(fields, slots, i), kept));
    if i == |fields| {
      AllMet(fields, kept, seen);
      assert Partial(fields, slots, i) == Canonical(fields, slots);
      assert EncodeFields(fields[i..], slots[i..]).value + more == more;
      seen' := seen;
    } else {
      assert fields[i..][1..] == fields[i + 1..] && slots[i..][1..] == slots[i + 1..];
      var e := EncodeSlot(fields[i], slots[i]).value;
      var tail := EncodeFields(fields[i + 1..], slots[i + 1..]).value;
      assert EncodeFields(fields[i..], slots[i..]).value == e + tail;
      Associative(e, tail, more);
      PartialStep(fields, slots, kept, i);
      if kept[i] {
        KeepAt(fields, kept, i);
        if slots[i].Chosen? {
          UntouchedWhenChosen(fields, slots, kept, i);
        }
        var met := KnownField(known, now, seen, Place(kept, i), slots[i], tail + more);
        seen' := Suffix(fields, slots, kept, i + 1, met, more);
      } else {
        UnknownWhenDropped(fields, kept, i);
        UnknownField(known, now, seen, fields[i], slots[i], tail + more);
        seen' := Suffix(fields, slots, kept, i + 1, seen, more);
      }
    }
  }

  /** A reader that knows some of the fields comes to what follows the message with the message restricted to them. */
  lemma {:induction false} ProjectionThen(fields: seq<Field>, slots: seq<Slot>, kept: seq<bool>, more: seq<byte>)
      returns (seen: set<nat>)
    requires ValidFields(fields) && Shaped(fields, slots) && Fits(fields, slots) && |fields| == |kept|
    requires CountOk(RequiredCount(Keep(fields, kept)))
    requires EncodeFields(fields, slots).Some? && |EncodeFields(fields, slots).value| < TWO32
    ensures ValidFields(Keep(fields, kept)) && AllSeen(Keep(fields, kept), seen)
    ensures Shaped(Keep(fields, kept), Keep(Canonical(fields, slots), kept))
    ensures Decode(Keep(fields, kept), EncodeFields(fields, slots).value + more)
         == DecodeFields(Keep(fields, kept), Keep(Canonical(fields, slots), kept), seen, more)
    decreases fields, |fields| + 1
  {
    KeepValid(fields, kept);
    KeepDefaults(fields, kept);
    DefaultsShaped(Keep(fields, kept));
    assert fields[0..] == fields && slots[0..] == slots;
    assert Partial(fields, slots, 0) == Defaults(fields);
    seen := Suffix(fields, slots, kept, 0, {}, more);
  }

  /** Schema projection: a reader that knows some of the fields gets the message restricted to them. */
  lemma {:induction false} Projection(fields: seq<Field>, slots: seq<Slot>, kept: seq<bool>)
    requires ValidFields(fields) && Shaped(fields, slots) && Fits(fields, slots) && |fields| == |kept|
    requires CountOk(RequiredCount(Keep(fields, kept)))
    requires EncodeFields(fields, slots).Some? && |EncodeFields(fields, slots).value| < TWO32
    ensures ValidFields(Keep(fields, kept))
    ensures Decode(Keep(fields, kept), EncodeFields(fields, slots).value) == Done(Keep(Canonical(fields, slots), kept), [])
    decreases fields
  {
    var _ := ProjectionThen(fields, slots, kept, []);
    assert EncodeFields(fields, slots).value + [] == EncodeFields(fields, slots).value;
  }

  /** A zero ends a message, and what follows it is left. */
  lemma {:induction false} ZeroEndsMessage(fields: seq<Field>, slots: seq<Slot>, more: seq<byte>)
    requires ValidFields(fields) && Shaped(fields, slots) && Fits(fields, slots)
    requires EncodeFields(fields, slots).Some? && |EncodeFields(fields, slots).value| < TWO32
    ensures Decode(fields, EncodeFields(fields, slots).value + ([0] + more)) == Done(Canonical(fields, slots), more)
  {
    var all := seq(|fields|, _ => true);
    KeepAll(fields);
    KeepAll(Canonical(fields, slots));
    var seen := ProjectionThen(fields, slots, all, [0] + more);
    ZeroIsEnd(fields, Canonical(fields, slots), seen, more);
  }

  lemma {:induction false} ZeroIsEnd(fields: seq<Field>, slots: seq<Slot>, seen: set<nat>, more: seq<byte>)
    requires ValidFields(fields) && Shaped(fields, slots)
    ensures DecodeFields(fields, slots, seen, [0] + more) == if AllSeen(fields, seen) then Done(slots, more) else Fail
  {
    var s := [0] + more;
    assert s[1..] == more;
    assert ReadVarint(s, 5) == Got(0, more);
    assert ReadTag(s) == End(more);
  }

  // ---- The encoder accepts what fits ----

  lemma {:induction false} ValueAccepted(kind: Kind, v: Value)
    requires ShapedValue(kind, v) && FitsValue(kind, v)
    ensures EncodeValue(kind, v).Some?
    decreases kind
  {
    if kind.Submessage? {
      MessageAccepted(kind.fields, v.slots);
    }
  }

  lemma {:induction false} ItemsAccepted(f: Field, items: seq<Value>)
    requires FitItems(f.kind, items)
    ensures EncodeItems(f, items).Some?
    decreases f, 0, |items|
  {
    if items != [] {
      ValueAccepted(f.kind, items[0]);
      assert EncodeItem(f, items[0]).Some?;
      ItemsAccepted(f, items[1..]);
    }
  }

  lemma {:induction false} SlotAccepted(f: Field, slot: Slot)
    requires ShapedSlot(f, slot) && FitsSlot(f, slot)
    ensures EncodeSlot(f, slot).Some?
    decreases f, 1
  {
    match slot
    case One(v) => ValueAccepted(f.kind, v);
    case Maybe(has, v) => if has { ValueAccepted(f.kind, v); }
    case Many(items) => ItemsAccepted(f, items);
    case NotChosen =>
    case Chosen(v) => ValueAccepted(f.kind, v);
  }

  lemma {:induction false} MessageAccepted(fields: seq<Field>, slots: seq<Slot>)
    requires Shaped(fields, slots) && Fits(fields, slots)
    ensures EncodeFields(fields, slots).Some?
    decreases fields
  {
    if fields != [] {
      SlotAccepted(fields[0], slots[0]);
      assert Fits(fields[1..], slots[1..]) by {
        forall i, j | 0 <= i < |fields| - 1 && 0 <= j < |fields| - 1 && i != j && slots[1..][i].Chosen? && slots[1..][j].Chosen?
          ensures fields[1..][i].rule != fields[1..][j].rule
        {
          assert slots[i + 1].Chosen? && slots[j + 1].Chosen?;
        }
      }
      MessageAccepted(fields[1..], slots[1..]);
    }
  }

  /** The round trip: the encoder accepts the message, and the decoder reads all of the bytes and gives the message
      back, with its absent optional fields at their defaults. */
  lemma {:induction false} RoundTrip(fields: seq<Field>, slots: seq<Slot>)
    requires ValidFields(fields) && Shaped(fields, slots) && Fits(fields, slots)
    ensures EncodeFields(fields, slots).Some?
    ensures |EncodeFields(fields, slots).value| < TWO32 ==>
      Decode(fields, EncodeFields(fields, slots).value) == Done(Canonical(fields, slots), [])
  {
    MessageAccepted(fields, slots);
    if |EncodeFields(fields, slots).value| < TWO32 {
      KeepAll(fields);
      KeepAll(Canonical(fields, slots));
      Projection(fields, slots, seq(|fields|, _ => true));
    }
  }

  // ---- Encoding again ----

  lemma {:induction false} CanonicalValueSame(kind: Kind, v: Value)
    requires ShapedValue(kind, v) && (kind.Submessage? ==> ValidFields(kind.fields))
    ensures ShapedValue(kind, CanonicalValue(kind, v))
    ensures EncodeValue(kind, CanonicalValue(kind, v)) == EncodeValue(kind, v)
    decreases kind
  {
    if kind.Submessage? {
      EncodesSame(kind.fields, v.slots);
    }
  }

  lemma {:induction false} CanonicalItemsSame(f: Field, items: seq<Value>)
    requires ValidField(f) && forall i | 0 <= i < |items| :: ShapedValue(f.kind, items[i])
    ensures forall i | 0 <= i < |items| :: ShapedValue(f.kind, CanonicalItems(f.kind, items)[i])
    ensures EncodeItems(f, CanonicalItems(f.kind, items)) == EncodeItems(f, items)
    decreases f, 0, |items|
  {
    if items != [] {
      CanonicalValueSame(f.kind, items[0]);
      CanonicalItemsSame(f, items[1..]);
      CanonicalHead(f.kind, items);
      var again := CanonicalItems(f.kind, items);
      assert again[1..] == CanonicalItems(f.kind, items[1..]);
      assert EncodeItem(f, again[0]) == EncodeItem(f, items[0]);
    }
  }

  lemma {:induction false} CanonicalSlotSame(f: Field, slot: Slot)
    requires ValidField(f) && ShapedSlot(f, slot)
    ensures ShapedSlot(f, CanonicalSlot(f, slot)) && EncodeSlot(f, CanonicalSlot(f, slot)) == EncodeSlot(f, slot)
    decreases f, 1
  {
    DefaultShaped(f);
    match slot
    case One(v) => CanonicalValueSame(f.kind, v);
    case Maybe(has, v) => CanonicalValueSame(f.kind, v);
    case Many(items) => CanonicalItemsSame(f, items);
    case NotChosen =>
    case Chosen(v) => CanonicalValueSame(f.kind, v);
  }

  /** The values of absent optional fields do not show in the encoding. */
  lemma {:induction false} EncodesSame(fields: seq<Field>, slots: seq<Slot>)
    requires Shaped(fields, slots) && forall i | 0 <= i < |fields| :: ValidField(fields[i])
    ensures Shaped(fields, Canonical(fields, slots))
    ensures EncodeFields(fields, Canonical(fields, slots)) == EncodeFields(fields, slots)
    decreases fields
  {
    if fields != [] {
      var again := Canonical(fields, slots);
      assert again[1..] == Canonical(fields[1..], slots[1..]);
      CanonicalSlotSame(fields[0], slots[0]);
      EncodesSame(fields[1..], slots[1..]);
      forall i | 0 <= i < |fields|
        ensures ShapedSlot(fields[i], again[i])
      {
        if i > 0 {
          assert fields[i] == fields[1..][i - 1] && again[i] == again[1..][i - 1];
        }
      }
    }
  }

  /** The decoded message encodes to the bytes it came from. */
  lemma {:induction false} Reencode(fields: seq<Field>, slots: seq<Slot>)
    requires ValidFields(fields) && Shaped(fields, slots) && Fits(fields, slots)
    requires EncodeFields(fields, slots).Some? && |EncodeFields(fields, slots).value| < TWO32
    ensures var s := EncodeFields(fields, slots);
      Decode(fields, s.value).Done? && EncodeFields(fields, Decode(fields, s.value).v) == s
  {
    RoundTrip(fields, slots);
    EncodesSame(fields, slots);
  }

  // ---- Strings ----

  lemma {:induction false} UpToNulHasNone(s: seq<byte>, max: nat)
    ensures 0 !in UpToNul(s, max)
    ensures 0 !in s && max <= |s| ==> |UpToNul(s, max)| == max
  {
    if s != [] && max > 0 && s[0] != 0 {
      UpToNulHasNone(s[1..], max - 1);
    }
  }

  /** A string comes back exactly when it has no NUL and leaves room for the terminator. It is encoded up to its first NUL
      or to the size of its array, and the decoder refuses what fills the array. */
  lemma {:induction false} StringRoundTrip(dataSize: nat, text: seq<byte>, was: Value, rest: seq<byte>)
    requires was.Raw? && dataSize < TWO32
    ensures EncodeValue(String(dataSize), Raw(text)) == Some(Prefixed(UpToNul(text, dataSize)))
    ensures DecodeValue(String(dataSize), was, EncodeValue(String(dataSize), Raw(text)).value + rest)
         == if |UpToNul(text, dataSize)| < dataSize then Done(Raw(UpToNul(text, dataSize)), rest) else Fail
    ensures DecodeValue(String(dataSize), was, EncodeValue(String(dataSize), Raw(text)).value + rest) == Done(Raw(text), rest)
       <==> |text| < dataSize && 0 !in text
  {
    var written := UpToNul(text, dataSize);
    UpToNulHasNone(text, dataSize);
    Associative(EncodeVarint(|written|), written, rest);
    Varint32RoundTrip(|written|, written + rest);
    TakeWhole(written, rest);
    if |text| <= dataSize && 0 !in text {
      UpToNulWhole(text, dataSize);
    }
  }

  /** The input where encoder and decoder differ: a string that fills its array is encoded whole, and then refused. */
  lemma {:induction false} FullStringRefused(dataSize: nat, text: seq<byte>, was: Value, rest: seq<byte>)
    requires was.Raw? && dataSize < TWO32 && |text| == dataSize && 0 !in text
    ensures EncodeValue(String(dataSize), Raw(text)) == Some(Prefixed(text))
    ensures DecodeValue(String(dataSize), was, Prefixed(text) + rest) == Fail
  {
    UpToNulWhole(text, dataSize);
    StringRoundTrip(dataSize, text, was, rest);
  }
}
