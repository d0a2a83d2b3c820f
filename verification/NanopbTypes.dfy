/** The nanopb descriptors of callback-free static messages, and the message structures they describe. */
module NanopbTypes {
  import opened Basics

  const TWO32: nat := 0x1_0000_0000
  const TWO64: nat := 0x1_0000_0000_0000_0000

  /** Field numbers have 29 bits. */
  const MAX_TAG: nat := 0x2000_0000

  /** `PB_MAX_REQUIRED_FIELDS`. */
  const MAX_REQUIRED: nat := 64

  /** The offset of the data in a `pb_bytes_array_t` with a 32-bit `pb_size_t`. */
  const BYTES_HEADER: nat := 4

  /** The `PB_LTYPE` of a field, with its `data_size` or the descriptor of its submessage. */
  datatype Kind =
    | Varint(size: nat)
    | UVarint(size: nat)
    | SVarint(size: nat)
    | Fixed32
    | Fixed64
    | Bytes(dataSize: nat)
    | String(dataSize: nat)
    | Submessage(fields: seq<Field>)
    | FixedBytes(dataSize: nat)

  /** The `PB_HTYPE` of a field. The members of one union share their group. */
  datatype Rule = Required | Optional | Repeated(max: nat) | Oneof(group: nat)

  /** `initial` is the default of a field that is not a submessage. */
  datatype Field = Field(tag: nat, rule: Rule, kind: Kind, initial: Value)

  datatype Value = Int(i: int) | Raw(bytes: seq<byte>) | Message(slots: seq<Slot>)

  /** What the structure holds for a field: the value of a required field; `has_` and the value of an optional
      field; the counted items of a repeated field; and whether a union holds this member. */
  datatype Slot = One(v: Value) | Maybe(has: bool, v: Value) | Many(items: seq<Value>) | NotChosen | Chosen(v: Value)

  predicate Packable(kind: Kind) {
    kind.Varint? || kind.UVarint? || kind.SVarint? || kind.Fixed32? || kind.Fixed64?
  }

  /** The length of a fixed-size number. */
  function FixedSize(kind: Kind): nat {
    if kind.Fixed32? then 4 else 8
  }

  predicate ValidSize(size: nat) {
    size == 1 || size == 2 || size == 4 || size == 8
  }

  /** The structure has the C types that the descriptor says. */
  predicate ShapedValue(kind: Kind, v: Value)
    decreases kind
  {
    match kind
    case Submessage(fields) => v.Message? && Shaped(fields, v.slots)
    case FixedBytes(dataSize) => v.Raw? && |v.bytes| == dataSize
    case Bytes(_) => v.Raw?
    case String(_) => v.Raw?
    case _ => v.Int?
  }

  predicate ShapedSlot(f: Field, slot: Slot)
    decreases f
  {
    match f.rule
    case Required => slot.One? && ShapedValue(f.kind, slot.v)
    case Optional => slot.Maybe? && ShapedValue(f.kind, slot.v)
    case Repeated(_) => slot.Many? && forall i | 0 <= i < |slot.items| :: ShapedValue(f.kind, slot.items[i])
    case Oneof(_) => slot.NotChosen? || (slot.Chosen? && ShapedValue(f.kind, slot.v))
  }

  predicate Shaped(fields: seq<Field>, slots: seq<Slot>)
    decreases fields
  {
    |fields| == |slots| && forall i | 0 <= i < |fields| :: ShapedSlot(fields[i], slots[i])
  }

  predicate DistinctTags(fields: seq<Field>) {
    forall i, j | 0 <= i < j < |fields| :: fields[i].tag != fields[j].tag
  }

  function RequiredCount(fields: seq<Field>): nat {
    if fields == [] then 0
    else RequiredCount(fields[..|fields| - 1]) + if fields[|fields| - 1].rule.Required? then 1 else 0
  }

  /** The numbers of required fields for which the presence check is defined: it shifts a 32-bit word by 32 less
      the number of remaining fields, and keeps two words. */
  predicate CountOk(count: nat) {
    count == 0 || (count < MAX_REQUIRED && count % 32 != 0)
  }

  predicate ValidField(f: Field)
    decreases f
  {
    && 0 < f.tag < MAX_TAG
    && match f.kind
       case Submessage(fields) => ValidFields(fields)
       case _ => ShapedValue(f.kind, f.initial)
  }

  predicate ValidFields(fields: seq<Field>)
    decreases fields
  {
    && DistinctTags(fields)
    && CountOk(RequiredCount(fields))
    && forall i | 0 <= i < |fields| :: ValidField(fields[i])
  }

  /** `pb_field_set_to_default` on the value of a field. */
  function DefaultValue(f: Field): Value
    decreases f, 0
  {
    if f.kind.Submessage? then Message(Defaults(f.kind.fields)) else f.initial
  }

  /** `pb_field_set_to_default`. */
  function DefaultSlot(f: Field): Slot
    decreases f, 1
  {
    match f.rule
    case Required => One(DefaultValue(f))
    case Optional => Maybe(false, DefaultValue(f))
    case Repeated(_) => Many([])
    case Oneof(_) => NotChosen
  }

  /** `pb_message_set_to_defaults`. */
  function Defaults(fields: seq<Field>): (slots: seq<Slot>)
    ensures |slots| == |fields|
    decreases fields
  {
    seq(|fields|, i requires 0 <= i < |fields| => DefaultSlot(fields[i]))
  }

  lemma {:induction false} DefaultsShaped(fields: seq<Field>)
    requires ValidFields(fields)
    ensures Shaped(fields, Defaults(fields))
    decreases fields
  {
    forall i | 0 <= i < |fields|
      ensures ShapedSlot(fields[i], Defaults(fields)[i])
    {
      DefaultShaped(fields[i]);
    }
  }

  lemma {:induction false} DefaultShaped(f: Field)
    requires ValidField(f)
    ensures ShapedValue(f.kind, DefaultValue(f))
    ensures ShapedSlot(f, DefaultSlot(f))
    decreases f
  {
    if f.kind.Submessage? {
      DefaultsShaped(f.kind.fields);
    }
  }
}
