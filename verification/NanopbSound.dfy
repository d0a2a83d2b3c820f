/** What a successful decoding means, on any bytes whatever. */
module NanopbSound {
  import opened Basics
  import opened NanopbTypes
  import opened NanopbEncode
  import opened NanopbDecode
  import opened NanopbPrimitives
  import opened NanopbWire

  /** At most one member of each union is chosen. */
  predicate OneOfEach(fields: seq<Field>, slots: seq<Slot>) {
    forall i, j | 0 <= i < |fields| && 0 <= j < |fields| && |fields| == |slots| && i != j && slots[i].Chosen? && slots[j].Chosen? ::
      fields[i].rule != fields[j].rule
  }

  /** The value is one that the memory of the field can hold. If it has not been `read`, then it is a default, which may be
      anything; but arrays and unions are in order at every level all the same. */
  predicate Holds(kind: Kind, v: Value, read: bool)
    requires ShapedValue(kind, v)
    decreases kind
  {
    match kind
    case Varint(size) => read ==> ValidSize(size) && InSignedRange(size, v.i)
    case UVarint(size) => read ==> ValidSize(size) && 0 <= v.i < Range(size)
    case SVarint(size) => read ==> ValidSize(size) && InSignedRange(size, v.i)
    case Fixed32 => read ==> 0 <= v.i < TWO32
    case Fixed64 => read ==> 0 <= v.i < TWO64
    case Bytes(dataSize) => read ==> |v.bytes| + BYTES_HEADER <= dataSize
    case String(dataSize) => read ==> |v.bytes| < dataSize
    case FixedBytes(dataSize) => |v.bytes| == dataSize
    case Submessage(fields) =>
      && OneOfEach(fields, v.slots) && |fields| == |v.slots|
      && forall i | 0 <= i < |fields| :: HoldsSlot(fields[i], v.slots[i], read)
  }

  /** An array has no more items than its memory has room for. */
  predicate HoldsSlot(f: Field, slot: Slot, read: bool)
    decreases f
  {
    ShapedSlot(f, slot) &&
    match slot
    case One(v) => Holds(f.kind, v, read)
    case Maybe(has, v) => Holds(f.kind, v, has)
    case Many(items) => |items| <= f.rule.max && forall i | 0 <= i < |items| :: Holds(f.kind, items[i], true)
    case NotChosen => true
    case Chosen(v) => Holds(f.kind, v, true)
  }

  /** A message on the way: the fields in `seen` have been read. */
  predicate HoldsSlots(fields: seq<Field>, slots: seq<Slot>, seen: set<nat>) {
    && |fields| == |slots| && OneOfEach(fields, slots)
    && forall i | 0 <= i < |fields| :: HoldsSlot(fields[i], slots[i], i in seen)
  }

  lemma {:induction false} ReadHolds(kind: Kind, v: Value)
    requires ShapedValue(kind, v) && Holds(kind, v, true)
    ensures Holds(kind, v, false)
    decreases kind
  {
    if kind.Submessage? {
      forall i | 0 <= i < |kind.fields|
        ensures HoldsSlot(kind.fields[i], v.slots[i], false)
      {
        assert HoldsSlot(kind.fields[i], v.slots[i], true);
        if v.slots[i].One? {
          ReadHolds(kind.fields[i].kind, v.slots[i].v);
        }
      }
    }
  }

  lemma {:induction false} DefaultHolds(f: Field)
    requires ValidField(f)
    ensures ShapedValue(f.kind, DefaultValue(f)) && Holds(f.kind, DefaultValue(f), false)
    ensures HoldsSlot(f, DefaultSlot(f), false)
    decreases f
  {
    DefaultShaped(f);
    if f.kind.Submessage? {
      DefaultsHold(f.kind.fields);
    }
  }

  lemma {:induction false} DefaultsHold(fields: seq<Field>)
    requires ValidFields(fields)
    ensures HoldsSlots(fields, Defaults(fields), {})
    decreases fields
  {
    forall i | 0 <= i < |fields|
      ensures HoldsSlot(fields[i], Defaults(fields)[i], false)
    {
      DefaultHolds(fields[i]);
    }
  }

  // ---- Numbers ----

  lemma {:induction false} FromLittleEndianBound(s: seq<byte>)
    ensures FromLittleEndian(s) < Power(256, |s|)
  {
    if s != [] {
      FromLittleEndianByte(s, 0);
    }
  }

  lemma {:induction false} NumberHolds(kind: Kind, n: nat)
    requires (kind.Varint? || kind.UVarint? || kind.SVarint?) && n < TWO64 && NumberOf(kind, n).Some?
    ensures Holds(kind, Int(NumberOf(kind, n).value), true)
  {
    var i := NumberOf(kind, n).value;
    match kind
    case Varint(size) => VarintExactly(size, n, i);
    case UVarint(size) => UVarintExactly(size, n, i);
    case SVarint(size) => SVarintExactly(size, n, i);
  }

  lemma {:induction false} FixedHolds(kind: Kind, s: seq<byte>)
    requires (kind.Fixed32? || kind.Fixed64?) && |s| == FixedSize(kind)
    ensures Holds(kind, Int(FromLittleEndian(s)), true)
  {
    FromLittleEndianBound(s);
    assert Power(256, 2) == 0x1_0000 && Power(256, 4) == TWO32 && Power(256, 6) == 0x1_0000_0000_0000;
    assert Power(256, 8) == TWO64;
  }

  // ---- Values, fields and messages ----

  /** A value that is decoded is one that its memory can hold, whatever the bytes. */
  lemma {:induction false} ValueHolds(kind: Kind, was: Value, s: seq<byte>)
    requires ShapedValue(kind, was) && Holds(kind, was, false) && (kind.Submessage? ==> ValidFields(kind.fields))
    ensures var r := DecodeValue(kind, was, s); r.Done? ==> Holds(kind, r.v, true)
    decreases |s|, 0
  {
    var r := DecodeValue(kind, was, s);
    if r.Done? {
      if kind.Fixed32? || kind.Fixed64? {
        FixedHolds(kind, Take(s, FixedSize(kind)).v);
      } else if Packable(kind) {
        NumberHolds(kind, ReadVarint64(s).n);
      } else if kind.Submessage? {
        MessageHolds(kind.fields, was.slots, {}, ReadPrefixed(s).v);
      }
    }
  }

  lemma {:induction false} PackedHolds(f: Field, max: nat, items: seq<Value>, s: seq<byte>)
    requires Packable(f.kind) && |items| <= max
    requires forall i | 0 <= i < |items| :: ShapedValue(f.kind, items[i]) && Holds(f.kind, items[i], true)
    ensures var r := DecodePacked(f, max, items, s);
      r.Some? ==> |r.value| <= max && forall i | 0 <= i < |r.value| :: Holds(f.kind, r.value[i], true)
    decreases |s|, 1
  {
    if s != [] && |items| < max {
      ValueHolds(f.kind, Int(0), s);
      var r := DecodeValue(f.kind, Int(0), s);
      if r.Done? {
        PackedHolds(f, max, items + [r.v], r.rest);
      }
    }
  }

  lemma {:induction false} SlotsWith(fields: seq<Field>, slots: seq<Slot>, seen: set<nat>, k: nat, slot: Slot)
    requires k < |fields| && HoldsSlots(fields, slots, seen) && HoldsSlot(fields[k], slot, true) && !slot.Chosen?
    ensures HoldsSlots(fields, slots[k := slot], seen + {k})
  {
    forall i | 0 <= i < |fields|
      ensures HoldsSlot(fields[i], slots[k := slot][i], i in seen + {k})
    {
    }
  }

  lemma {:induction false} ChosenWith(fields: seq<Field>, slots: seq<Slot>, seen: set<nat>, k: nat, v: Value)
    requires k < |fields| && Shaped(fields, slots) && HoldsSlots(fields, slots, seen)
    requires fields[k].rule.Oneof? && ShapedValue(fields[k].kind, v) && Holds(fields[k].kind, v, true)
    ensures HoldsSlots(fields, ClearGroup(fields, slots, fields[k].rule.group)[k := Chosen(v)], seen + {k})
  {
    var slots' := ClearGroup(fields, slots, fields[k].rule.group)[k := Chosen(v)];
    forall i | 0 <= i < |fields|
      ensures HoldsSlot(fields[i], slots'[i], i in seen + {k})
    {
      assert ShapedSlot(fields[i], slots[i]);
    }
  }

  /** One field, of any rule. */
  lemma {:induction false} FieldHolds(fields: seq<Field>, slots: seq<Slot>, seen: set<nat>, k: nat, wire: nat, s: seq<byte>)
    requires ValidFields(fields) && Shaped(fields, slots) && k < |fields| && HoldsSlots(fields, slots, seen)
    ensures var r := DecodeField(fields, slots, k, wire, s); r.Done? ==> HoldsSlots(fields, r.v, seen + {k})
    decreases |s|, 2
  {
    var f := fields[k];
    var r := DecodeField(fields, slots, k, wire, s);
    assert ValidField(f) && ShapedSlot(f, slots[k]) && HoldsSlot(f, slots[k], k in seen);
    DefaultHolds(f);
    if r.Done? {
      match f.rule
      case Required =>
        RequiredOnce(f, slots[k].v, k in seen, s);
        SlotsWith(fields, slots, seen, k, One(DecodeValue(f.kind, slots[k].v, s).v));
      case Optional =>
        RequiredOnce(f, slots[k].v, slots[k].has, s);
        SlotsWith(fields, slots, seen, k, Maybe(true, DecodeValue(f.kind, slots[k].v, s).v));
      case Repeated(max) =>
        RepeatedHolds(fields, slots, seen, k, wire, s);
      case Oneof(group) =>
        ValueHolds(f.kind, DefaultValue(f), s);
        ChosenWith(fields, slots, seen, k, DecodeValue(f.kind, DefaultValue(f), s).v);
    }
  }

  /** A value is decoded over the one before. */
  lemma {:induction false} RequiredOnce(f: Field, was: Value, read: bool, s: seq<byte>)
    requires ValidField(f) && ShapedValue(f.kind, was) && Holds(f.kind, was, read)
    ensures f.kind.Submessage? ==> ValidFields(f.kind.fields)
    ensures var r := DecodeValue(f.kind, was, s); r.Done? ==> Holds(f.kind, r.v, true)
    decreases |s|, 1
  {
    if read {
      ReadHolds(f.kind, was);
    }
    ValueHolds(f.kind, was, s);
  }

  lemma {:induction false} RepeatedHolds(fields: seq<Field>, slots: seq<Slot>, seen: set<nat>, k: nat, wire: nat, s: seq<byte>)
    requires ValidFields(fields) && Shaped(fields, slots) && k < |fields| && HoldsSlots(fields, slots, seen)
    requires fields[k].rule.Repeated? && DecodeField(fields, slots, k, wire, s).Done?
    ensures HoldsSlots(fields, DecodeField(fields, slots, k, wire, s).v, seen + {k})
    decreases |s|, 1
  {
    var f := fields[k];
    assert ValidField(f) && ShapedSlot(f, slots[k]) && HoldsSlot(f, slots[k], k in seen);
    DefaultHolds(f);
    var items := slots[k].items;
    if wire == 2 && Packable(f.kind) {
      var body := ReadPrefixed(s).v;
      PackedHolds(f, f.rule.max, items, body);
      SlotsWith(fields, slots, seen, k, Many(DecodePacked(f, f.rule.max, items, body).value));
    } else {
      ValueHolds(f.kind, DefaultValue(f), s);
      SlotsWith(fields, slots, seen, k, Many(items + [DecodeValue(f.kind, DefaultValue(f), s).v]));
    }
  }

  /** A message, from any state that is in order. */
  lemma {:induction false} MessageHolds(fields: seq<Field>, slots: seq<Slot>, seen: set<nat>, s: seq<byte>)
    requires ValidFields(fields) && Shaped(fields, slots) && HoldsSlots(fields, slots, seen)
    ensures var r := DecodeFields(fields, slots, seen, s);
      r.Done? ==> OneOfEach(fields, r.v) && forall i | 0 <= i < |fields| :: HoldsSlot(fields[i], r.v[i], true)
    decreases |s|, 3
  {
    var t := if s == [] then End([]) else ReadTag(s);
    if t.Tag? {
      var k := FieldIndex(fields, t.tag);
      if k.Some? {
        FieldHolds(fields, slots, seen, k.value, t.wire, t.rest);
        var r := DecodeField(fields, slots, k.value, t.wire, t.rest);
        if r.Done? {
          MessageHolds(fields, r.v, seen + {k.value}, r.rest);
        }
      } else {
        var rest := Skip(t.wire, t.rest);
        if rest.Some? {
          MessageHolds(fields, slots, seen, rest.value);
        }
      }
    } else if t.End? && AllSeen(fields, seen) {
      forall i | 0 <= i < |fields|
        ensures HoldsSlot(fields[i], slots[i], true)
      {
        assert HoldsSlot(fields[i], slots[i], i in seen) && ShapedSlot(fields[i], slots[i]);
      }
    }
  }

  /** On every byte string: what `pb_decode` accepts is a message that the structure can hold. At every level each array has at most
      as many items as there is room for, at most one member of each union is chosen, and every number, string and byte array
      that was read fits its field. */
  lemma {:induction false} DecodedHolds(fields: seq<Field>, s: seq<byte>)
    requires ValidFields(fields) && Decode(fields, s).Done?
    ensures Holds(Submessage(fields), Message(Decode(fields, s).v), true)
  {
    DefaultsShaped(fields);
    DefaultsHold(fields);
    MessageHolds(fields, Defaults(fields), {}, s);
  }

  /** And so it is a message that `pb_encode` can write. */
  lemma {:induction false} HoldsWritable(kind: Kind, v: Value)
    requires ShapedValue(kind, v) && Holds(kind, v, true)
    ensures Writable(kind, v)
    decreases kind
  {
    if kind.Submessage? {
      forall i | 0 <= i < |kind.fields|
        ensures WritableSlot(kind.fields[i], v.slots[i])
      {
        HoldsSlotWritable(kind.fields[i], v.slots[i]);
      }
    }
  }

  lemma {:induction false} HoldsSlotWritable(f: Field, slot: Slot)
    requires HoldsSlot(f, slot, true)
    ensures WritableSlot(f, slot)
    decreases f
  {
    match slot
    case One(v) => HoldsWritable(f.kind, v);
    case Maybe(has, v) => if has { HoldsWritable(f.kind, v); }
    case Many(items) =>
      forall i | 0 <= i < |items|
        ensures Writable(f.kind, items[i])
      {
        HoldsWritable(f.kind, items[i]);
      }
    case NotChosen =>
    case Chosen(v) => HoldsWritable(f.kind, v);
  }

  lemma {:induction false} DecodedCanBeEncoded(fields: seq<Field>, s: seq<byte>)
    requires ValidFields(fields) && Decode(fields, s).Done?
    ensures EncodeFields(fields, Decode(fields, s).v).Some?
  {
    DecodedHolds(fields, s);
    HoldsWritable(Submessage(fields), Message(Decode(fields, s).v));
    MessageWritable(fields, Decode(fields, s).v);
  }

  // ---- Required fields ----

  /** What is left of an input is its end. */
  predicate EndOf(rest: seq<byte>, s: seq<byte>) {
    |rest| <= |s| && rest == s[|s| - |rest|..]
  }

  lemma {:induction false} EndOfEnd(a: seq<byte>, b: seq<byte>, s: seq<byte>)
    requires EndOf(a, b) && EndOf(b, s)
    ensures EndOf(a, s)
  {
    assert s[|s| - |a|..] == s[|s| - |b|..][|b| - |a|..];
  }

  lemma {:induction false} VarintLeavesEnd(s: seq<byte>, budget: nat)
    ensures EndOf(ReadVarint(s, budget).rest, s)
    decreases |s|
  {
    if budget > 0 && s != [] && s[0] >= 128 {
      VarintLeavesEnd(s[1..], budget - 1);
      EndOfEnd(ReadVarint(s, budget).rest, s[1..], s);
    }
  }

  lemma {:induction false} PrefixedLeavesEnd(s: seq<byte>)
    ensures ReadPrefixed(s).Done? ==> EndOf(ReadPrefixed(s).rest, s)
  {
    VarintLeavesEnd(s, 5);
    if ReadPrefixed(s).Done? {
      EndOfEnd(ReadPrefixed(s).rest, ReadVarint32(s).rest, s);
    }
  }

  lemma {:induction false} SkipVarintLeavesEnd(s: seq<byte>)
    ensures SkipVarint(s).Some? ==> EndOf(SkipVarint(s).value, s)
  {
    if s != [] && s[0] >= 128 {
      SkipVarintLeavesEnd(s[1..]);
      if SkipVarint(s).Some? {
        EndOfEnd(SkipVarint(s).value, s[1..], s);
      }
    }
  }

  /** Skipping goes forward; and only the wire types 0, 1, 2 and 5 can be skipped. */
  lemma {:induction false} SkipLeavesEnd(wire: nat, s: seq<byte>)
    ensures Skip(wire, s).Some? ==> EndOf(Skip(wire, s).value, s) && wire in {0, 1, 2, 5}
  {
    SkipVarintLeavesEnd(s);
    PrefixedLeavesEnd(s);
  }

  lemma {:induction false} ValueLeavesEnd(kind: Kind, was: Value, s: seq<byte>)
    requires ShapedValue(kind, was) && (kind.Submessage? ==> ValidFields(kind.fields))
    ensures var r := DecodeValue(kind, was, s); r.Done? ==> EndOf(r.rest, s)
  {
    if kind.Submessage? {
      PrefixedLeavesEnd(s);
    } else if Packable(kind) {
      VarintLeavesEnd(s, 10);
    } else {
      RawLeavesEnd(kind, was, s);
    }
  }

  lemma {:induction false} RawLeavesEnd(kind: Kind, was: Value, s: seq<byte>)
    requires (kind.Bytes? || kind.String? || kind.FixedBytes?) && ShapedValue(kind, was)
    ensures var r := DecodeValue(kind, was, s); r.Done? ==> EndOf(r.rest, s)
  {
    VarintLeavesEnd(s, 5);
    var n := ReadVarint32(s);
    if n.Got? {
      TakeLeavesEnd(kind, n.n, n.rest);
      var r := DecodeRaw(kind, n.n, n.rest);
      if r.Done? {
        EndOfEnd(r.rest, n.rest, s);
      }
    }
  }

  lemma {:induction false} TakeLeavesEnd(kind: Kind, size: nat, s: seq<byte>)
    requires kind.Bytes? || kind.String? || kind.FixedBytes?
    ensures var r := DecodeRaw(kind, size, s); r.Done? ==> EndOf(r.rest, s)
  {
  }

  lemma {:induction false} FieldLeavesEnd(fields: seq<Field>, slots: seq<Slot>, k: nat, wire: nat, s: seq<byte>)
    requires ValidFields(fields) && Shaped(fields, slots) && k < |fields|
    ensures var r := DecodeField(fields, slots, k, wire, s); r.Done? ==> EndOf(r.rest, s)
  {
    var f := fields[k];
    assert ValidField(f) && ShapedSlot(f, slots[k]);
    DefaultShaped(f);
    PrefixedLeavesEnd(s);
    ValueLeavesEnd(f.kind, DefaultValue(f), s);
    if f.rule.Required? || f.rule.Optional? {
      ValueLeavesEnd(f.kind, slots[k].v, s);
    }
  }

  /** Somewhere in `s` the tag of a field stands. */
  ghost predicate HasTag(s: seq<byte>, tag: nat) {
    exists rest :: EndOf(rest, s) && TagOf(rest) == Some(tag)
  }

  function TagOf(s: seq<byte>): Option<nat> {
    match ReadTag(s)
    case Tag(tag, _, _) => Some(tag)
    case _ => None
  }

  lemma {:induction false} HasTagInEnd(rest: seq<byte>, s: seq<byte>, tag: nat)
    requires EndOf(rest, s) && HasTag(rest, tag)
    ensures HasTag(s, tag)
  {
    var at :| EndOf(at, rest) && TagOf(at) == Some(tag);
    EndOfEnd(at, rest, s);
  }

  /** Success means that a tag of every required field was read. */
  lemma {:induction false} RequiredWasRead(fields: seq<Field>, slots: seq<Slot>, seen: set<nat>, s: seq<byte>, k: nat)
    requires ValidFields(fields) && Shaped(fields, slots) && DecodeFields(fields, slots, seen, s).Done?
    requires k < |fields| && fields[k].rule.Required? && k !in seen
    ensures HasTag(s, fields[k].tag)
    decreases |s|
  {
    var t := if s == [] then End([]) else ReadTag(s);
    if t.Tag? {
      VarintLeavesEnd(s, 5);
      var i := FieldIndex(fields, t.tag);
      if i == Some(k) {
        assert EndOf(s, s) && TagOf(s) == Some(fields[k].tag);
      } else if i.Some? {
        var r := DecodeField(fields, slots, i.value, t.wire, t.rest);
        RequiredWasRead(fields, r.v, seen + {i.value}, r.rest, k);
        FieldLeavesEnd(fields, slots, i.value, t.wire, t.rest);
        EndOfEnd(r.rest, t.rest, s);
        HasTagInEnd(r.rest, s, fields[k].tag);
      } else {
        var rest := Skip(t.wire, t.rest).value;
        RequiredWasRead(fields, slots, seen, rest, k);
        SkipLeavesEnd(t.wire, t.rest);
        EndOfEnd(rest, t.rest, s);
        HasTagInEnd(rest, s, fields[k].tag);
      }
    }
  }

  /** So bytes in which the tag of a required field does not stand are refused. */
  lemma {:induction false} MissingFieldRefused(fields: seq<Field>, s: seq<byte>, k: nat)
    requires ValidFields(fields) && k < |fields| && fields[k].rule.Required? && !HasTag(s, fields[k].tag)
    ensures Decode(fields, s) == Fail
  {
    DefaultsShaped(fields);
    if Decode(fields, s).Done? {
      RequiredWasRead(fields, Defaults(fields), {}, s, k);
    }
  }

  // ---- One field after another, on any bytes ----

  /** A byte array, a string or a fixed-length array on any length and any bytes: when it is taken, and what it holds then. An
      empty fixed-length array stands for zeros. */
  lemma {:induction false} RawExactly(kind: Kind, size: nat, s: seq<byte>)
    requires size < TWO32
    requires kind.Bytes? || kind.String? || kind.FixedBytes?
    ensures DecodeRaw(kind, size, s).Done? <==>
      || (kind.FixedBytes? && size == 0)
      || (size <= |s| && if kind.Bytes? then size + BYTES_HEADER <= kind.dataSize
                         else if kind.String? then size + 1 < TWO32 && size < kind.dataSize
                         else size == kind.dataSize)
    ensures DecodeRaw(kind, size, s).Done? ==>
      && DecodeRaw(kind, size, s).rest == s[size..]
      && DecodeRaw(kind, size, s).v == Raw(if kind.FixedBytes? && size == 0 then seq(kind.dataSize, _ => 0) else s[..size])
  {
  }

  /** Decoding a field changes that field and clears the other members of its union, and nothing else. What was there before is
      merged into for a field that has one value, and kept in front for an array. */
  lemma {:induction false} OnlyThatField(fields: seq<Field>, slots: seq<Slot>, k: nat, wire: nat, s: seq<byte>, i: nat)
    requires ValidFields(fields) && Shaped(fields, slots) && k < |fields| && i < |fields|
    requires DecodeField(fields, slots, k, wire, s).Done?
    ensures ValidField(fields[k]) && ShapedSlot(fields[k], slots[k])
    ensures var (f, now) := (fields[k], DecodeField(fields, slots, k, wire, s).v);
      if i != k then now[i] == if f.rule.Oneof? && fields[i].rule == f.rule then NotChosen else slots[i]
      else
        match f.rule
        case Required => now[k].One? && DecodeValue(f.kind, slots[k].v, s).Done? && now[k].v == DecodeValue(f.kind, slots[k].v, s).v
        case Optional =>
          now[k].Maybe? && now[k].has && DecodeValue(f.kind, slots[k].v, s).Done? && now[k].v == DecodeValue(f.kind, slots[k].v, s).v
        case Repeated(_) => now[k].Many? && slots[k].items <= now[k].items && (!Packable(f.kind) ==> |now[k].items| == |slots[k].items| + 1)
        case Oneof(_) => now[k].Chosen?
  {
    var f := fields[k];
    assert ValidField(f) && ShapedSlot(f, slots[k]);
    DefaultShaped(f);
    if f.rule.Repeated? && wire == 2 && Packable(f.kind) {
      PackedAppends(f, f.rule.max, slots[k].items, ReadPrefixed(s).v);
    }
  }

  lemma {:induction false} PackedAppends(f: Field, max: nat, items: seq<Value>, s: seq<byte>)
    requires Packable(f.kind) && forall i | 0 <= i < |items| :: ShapedValue(f.kind, items[i])
    ensures var r := DecodePacked(f, max, items, s); r.Some? ==> items <= r.value
    decreases |s|
  {
    if s != [] && |items| < max {
      var r := DecodeValue(f.kind, Int(0), s);
      if r.Done? {
        PackedAppends(f, max, items + [r.v], r.rest);
      }
    }
  }

  /** A tag that breaks off at the end of the input ends the message; one that is too long is an error. */
  lemma {:induction false} BrokenTag(fields: seq<Field>, slots: seq<Slot>, seen: set<nat>, s: seq<byte>)
    requires ValidFields(fields) && Shaped(fields, slots) && forall i | 0 <= i < |s| :: s[i] >= 128
    ensures DecodeFields(fields, slots, seen, s) == if |s| <= 5 && AllSeen(fields, seen) then Done(slots, []) else Fail
  {
    EndlessVarint(s, 5);
  }

  /** A field that the descriptor does not have is skipped; but the empty descriptor takes the tag 0 for a field that it cannot
      decode. */
  lemma {:induction false} UnknownTagSkipped(fields: seq<Field>, slots: seq<Slot>, seen: set<nat>, s: seq<byte>)
    requires ValidFields(fields) && Shaped(fields, slots) && s != [] && ReadTag(s).Tag?
    requires forall i | 0 <= i < |fields| :: fields[i].tag != ReadTag(s).tag
    ensures var t := ReadTag(s);
      var rest := Skip(t.wire, t.rest);
      DecodeFields(fields, slots, seen, s)
      == if rest.None? || (fields == [] && t.tag == 0) then Fail else DecodeFields(fields, slots, seen, rest.value)
  {
    assert FieldIndex(fields, ReadTag(s).tag).None?;
  }
}
