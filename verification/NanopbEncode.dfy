/** What `pb_encode` writes, as a function of the message. */
module NanopbEncode {
  import opened Basics
  import opened NanopbTypes

  /** `pb_encode_varint`. */
  function EncodeVarint(v: nat): (s: seq<byte>)
    ensures s != []
  {
    if v < 128 then [v] else [v % 128 + 128] + EncodeVarint(v / 128)
  }

  /** The low `n` bytes of `v`, the least significant one first. */
  function LittleEndian(v: nat, n: nat): (s: seq<byte>)
    ensures |s| == n
  {
    if n == 0 then [] else [v % 256] + LittleEndian(v / 256, n - 1)
  }

  /** The mapping of `pb_encode_svarint`. */
  function ZigZag(i: int): nat {
    (if i < 0 then -2 * i - 1 else 2 * i) % TWO64
  }

  function WireType(kind: Kind): nat {
    match kind
    case Varint(_) => 0
    case UVarint(_) => 0
    case SVarint(_) => 0
    case Fixed64 => 1
    case Fixed32 => 5
    case _ => 2
  }

  /** `pb_encode_tag`. */
  function EncodeTag(tag: nat, wire: nat): seq<byte> {
    EncodeVarint(tag * 8 + wire)
  }

  /** `pb_encode_string`. */
  function Prefixed(body: seq<byte>): seq<byte> {
    EncodeVarint(|body|) + body
  }

  /** The loop in `pb_enc_string`: up to the first NUL, or `max` bytes. */
  function UpToNul(s: seq<byte>, max: nat): (r: seq<byte>)
    ensures |r| <= max && r <= s
  {
    if s == [] || max == 0 || s[0] == 0 then [] else [s[0]] + UpToNul(s[1..], max - 1)
  }

  function Join(a: Option<seq<byte>>, b: Option<seq<byte>>): (r: Option<seq<byte>>) {
    if a.Some? && b.Some? then Some(a.value + b.value) else None
  }

  function Delimited(body: Option<seq<byte>>): (r: Option<seq<byte>>) {
    if body.None? then None else Some(Prefixed(body.value))
  }

  /** The `pb_enc_*` functions. */
  function EncodeValue(kind: Kind, v: Value): (r: Option<seq<byte>>)
    requires ShapedValue(kind, v)
    decreases kind
  {
    match kind
    case Varint(size) => if ValidSize(size) then Some(EncodeVarint(v.i % TWO64)) else None
    case UVarint(size) => if ValidSize(size) then Some(EncodeVarint(v.i % TWO64)) else None
    case SVarint(size) => if ValidSize(size) then Some(EncodeVarint(ZigZag(v.i))) else None
    case Fixed32 => Some(LittleEndian(v.i % TWO32, FixedSize(kind)))
    case Fixed64 => Some(LittleEndian(v.i % TWO64, FixedSize(kind)))
    case Bytes(dataSize) => if |v.bytes| + BYTES_HEADER > dataSize then None else Some(Prefixed(v.bytes))
    case String(dataSize) => Some(Prefixed(UpToNul(v.bytes, dataSize)))
    case FixedBytes(_) => Some(Prefixed(v.bytes))
    case Submessage(fields) => Delimited(EncodeFields(fields, v.slots))
  }

  /** A value after the tag of its field. */
  function EncodeTagged(f: Field, v: Value): (r: Option<seq<byte>>)
    requires ShapedValue(f.kind, v)
    decreases f, 0
  {
    Join(Some(EncodeTag(f.tag, WireType(f.kind))), EncodeValue(f.kind, v))
  }

  /** An item of an array: packed, or after a tag of its own. */
  function EncodeItem(f: Field, v: Value): (r: Option<seq<byte>>)
    requires ShapedValue(f.kind, v)
    decreases f, 1
  {
    if Packable(f.kind) then EncodeValue(f.kind, v) else EncodeTagged(f, v)
  }

  function EncodeItems(f: Field, items: seq<Value>): (r: Option<seq<byte>>)
    requires forall i | 0 <= i < |items| :: ShapedValue(f.kind, items[i])
    decreases f, 2, |items|
  {
    if items == [] then Some([]) else Join(EncodeItem(f, items[0]), EncodeItems(f, items[1..]))
  }

  /** `encode_array`. */
  function EncodeArray(f: Field, max: nat, items: seq<Value>): (r: Option<seq<byte>>)
    requires forall i | 0 <= i < |items| :: ShapedValue(f.kind, items[i])
    decreases f, 3
  {
    if items == [] then Some([])
    else if |items| > max then None
    else if Packable(f.kind) then Join(Some(EncodeTag(f.tag, 2)), Delimited(EncodeItems(f, items)))
    else EncodeItems(f, items)
  }

  /** `encode_basic_field`. */
  function EncodeSlot(f: Field, slot: Slot): (r: Option<seq<byte>>)
    requires ShapedSlot(f, slot)
    decreases f, 4
  {
    match slot
    case One(v) => EncodeTagged(f, v)
    case Maybe(has, v) => if has then EncodeTagged(f, v) else Some([])
    case Many(items) => EncodeArray(f, f.rule.max, items)
    case NotChosen => Some([])
    case Chosen(v) => EncodeTagged(f, v)
  }

  /** `pb_encode`. */
  function EncodeFields(fields: seq<Field>, slots: seq<Slot>): (r: Option<seq<byte>>)
    requires Shaped(fields, slots)
    decreases fields
  {
    if fields == [] then Some([])
    else Join(EncodeSlot(fields[0], slots[0]), EncodeFields(fields[1..], slots[1..]))
  }
}
