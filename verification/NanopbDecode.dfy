/** What `pb_decode` makes of its input, as a function of the bytes. */
module NanopbDecode {
  import opened Basics
  import opened NanopbTypes

  /** A value and the input after it, or a failure. */
  datatype Decoded<T> = Fail | Done(v: T, rest: seq<byte>)

  /** A varint as an unbounded number; or a failure, which leaves `rest` unread. */
  datatype Number = Got(n: nat, rest: seq<byte>) | Broken(rest: seq<byte>)

  /** At most `budget` bytes, seven bits from each, the least significant ones first. */
  function ReadVarint(s: seq<byte>, budget: nat): (r: Number)
    ensures r.Got? ==> |r.rest| < |s|
    ensures r.Broken? ==> |r.rest| <= |s|
    decreases |s|
  {
    if budget == 0 then Broken(s)
    else if s == [] then Broken([])
    else if s[0] < 128 then Got(s[0], s[1..])
    else
      var r := ReadVarint(s[1..], budget - 1);
      if r.Got? then Got(s[0] - 128 + 128 * r.n, r.rest) else r
  }

  /** `pb_decode_varint32`: five bytes, cut down to 32 bits. */
  function ReadVarint32(s: seq<byte>): (r: Number)
    ensures r.Got? ==> |r.rest| < |s| && r.n < TWO32
    ensures r.Broken? ==> |r.rest| <= |s|
  {
    var r := ReadVarint(s, 5);
    if r.Got? then Got(r.n % TWO32, r.rest) else r
  }

  /** `pb_decode_varint`: ten bytes, cut down to 64 bits. */
  function ReadVarint64(s: seq<byte>): (r: Number)
    ensures r.Got? ==> |r.rest| < |s| && r.n < TWO64
    ensures r.Broken? ==> |r.rest| <= |s|
  {
    var r := ReadVarint(s, 10);
    if r.Got? then Got(r.n % TWO64, r.rest) else r
  }

  /** `pb_skip_varint`. */
  function SkipVarint(s: seq<byte>): (r: Option<seq<byte>>)
    ensures r.Some? ==> |r.value| < |s|
  {
    if s == [] then None
    else if s[0] < 128 then Some(s[1..])
    else SkipVarint(s[1..])
  }

  /** `pb_read`. */
  function Take(s: seq<byte>, n: nat): (r: Decoded<seq<byte>>)
    ensures r.Done? ==> |r.rest| == |s| - n && |r.v| == n
  {
    if |s| < n then Fail else Done(s[..n], s[n..])
  }

  /** The bytes after a length, as `pb_make_string_substream` and its closing delimit them. */
  function ReadPrefixed(s: seq<byte>): (r: Decoded<seq<byte>>)
    ensures r.Done? ==> |r.v| + |r.rest| < |s|
  {
    var r := ReadVarint32(s);
    if r.Broken? then Fail else Take(r.rest, r.n)
  }

  /** `pb_skip_field`. */
  function Skip(wire: nat, s: seq<byte>): (r: Option<seq<byte>>)
    ensures r.Some? ==> |r.value| <= |s|
  {
    if wire == 0 then SkipVarint(s)
    else if wire == 1 then if |s| < 8 then None else Some(s[8..])
    else if wire == 2 then
      var r := ReadPrefixed(s);
      if r.Fail? then None else Some(r.rest)
    else if wire == 5 then if |s| < 4 then None else Some(s[4..])
    else None
  }

  /** `pb_decode_tag`: a number that breaks off at the end of the input ends the message, and so does a zero. */
  datatype Tag = Tag(tag: nat, wire: nat, rest: seq<byte>) | End(rest: seq<byte>) | Bad

  function ReadTag(s: seq<byte>): (r: Tag)
    ensures r.Tag? ==> |r.rest| < |s|
    ensures r.End? ==> |r.rest| <= |s|
  {
    var r := ReadVarint32(s);
    if r.Broken? then if r.rest == [] then End([]) else Bad
    else if r.n == 0 then End(r.rest)
    else Tag(r.n / 8, r.n % 8, r.rest)
  }

  /** The number that the low `8 * size` bits of `n` stand for in two's complement. */
  function Signed(n: nat, size: nat): int
    requires ValidSize(size)
  {
    var range := Range(size);
    var low := n % range;
    if low >= range / 2 then low - range else low
  }

  function Range(size: nat): (r: nat)
    requires ValidSize(size)
  {
    match size
    case 1 => 0x100
    case 2 => 0x1_0000
    case 4 => TWO32
    case _ => TWO64
  }

  /** The inverse mapping in `pb_decode_svarint`. */
  function UnZigZag(n: nat): int {
    if n % 2 == 1 then -(n / 2) - 1 else n / 2
  }

  function FromLittleEndian(s: seq<byte>): nat {
    if s == [] then 0 else s[0] + 256 * FromLittleEndian(s[1..])
  }

  /** What the field holds, unless storing it changed it. */
  function Clamped(value: int, stored: int): Option<int> {
    if value == stored then Some(stored) else None
  }

  /** `pb_dec_varint`: a field of fewer than 64 bits takes the low 32 bits with their sign. */
  function VarintInt(size: nat, n: nat): Option<int> {
    if !ValidSize(size) then None
    else if size == 8 then Some(Signed(n, 8))
    else
      var value := Signed(n, 4);
      Clamped(value, Signed(value % TWO32, size))
  }

  /** `pb_dec_uvarint`. */
  function UVarintInt(size: nat, n: nat): Option<int> {
    if !ValidSize(size) then None else Clamped(n, n % Range(size))
  }

  /** `pb_dec_svarint`. */
  function SVarintInt(size: nat, n: nat): Option<int> {
    if !ValidSize(size) then None
    else
      var value := UnZigZag(n);
      Clamped(value, Signed(value % TWO64, size))
  }

  function NumberOf(kind: Kind, n: nat): Option<int>
    requires kind.Varint? || kind.UVarint? || kind.SVarint?
  {
    match kind
    case Varint(size) => VarintInt(size, n)
    case UVarint(size) => UVarintInt(size, n)
    case SVarint(size) => SVarintInt(size, n)
  }

  /** `pb_dec_bytes`, `pb_dec_string` and `pb_dec_fixed_length_bytes` on a length that has been read. */
  function DecodeRaw(kind: Kind, size: nat, s: seq<byte>): (r: Decoded<Value>)
    requires kind.Bytes? || kind.String? || kind.FixedBytes?
    ensures r.Done? ==> ShapedValue(kind, r.v) && |r.rest| <= |s|
  {
    if kind.Bytes? && size + BYTES_HEADER > kind.dataSize then Fail
    else if kind.String? && (size + 1 >= TWO32 || size + 1 > kind.dataSize) then Fail
    else if kind.FixedBytes? && size == 0 then Done(Raw(seq(kind.dataSize, _ => 0)), s)
    else if kind.FixedBytes? && size != kind.dataSize then Fail
    else
      var r := Take(s, size);
      if r.Fail? then Fail else Done(Raw(r.v), r.rest)
  }

  /** The `pb_dec_*` functions. `was` is the value that a submessage is merged into. */
  function DecodeValue(kind: Kind, was: Value, s: seq<byte>): (r: Decoded<Value>)
    requires ShapedValue(kind, was)
    requires kind.Submessage? ==> ValidFields(kind.fields)
    ensures r.Done? ==> |r.rest| < |s| && ShapedValue(kind, r.v)
    decreases |s|, 0
  {
    if kind.Fixed32? || kind.Fixed64? then
      var r := Take(s, FixedSize(kind));
      if r.Fail? then Fail else Done(Int(FromLittleEndian(r.v)), r.rest)
    else if Packable(kind) then
      var r := ReadVarint64(s);
      if r.Broken? then Fail
      else
        var i := NumberOf(kind, r.n);
        if i.None? then Fail else Done(Int(i.value), r.rest)
    else if kind.Submessage? then
      var r := ReadPrefixed(s);
      if r.Fail? then Fail
      else
        var body := DecodeFields(kind.fields, was.slots, {}, r.v);
        if body.Fail? then Fail else Done(Message(body.v), r.rest)
    else
      var r := ReadVarint32(s);
      if r.Broken? then Fail else DecodeRaw(kind, r.n, r.rest)
  }

  /** The loop over a packed array: all of the input, as long as there is room. */
  function DecodePacked(f: Field, max: nat, items: seq<Value>, s: seq<byte>): (r: Option<seq<Value>>)
    requires Packable(f.kind)
    requires forall i | 0 <= i < |items| :: ShapedValue(f.kind, items[i])
    ensures r.Some? ==> forall i | 0 <= i < |r.value| :: ShapedValue(f.kind, r.value[i])
    decreases |s|, 1
  {
    if s == [] then Some(items)
    else if |items| >= max then None
    else
      var r := DecodeValue(f.kind, Int(0), s);
      if r.Fail? then None else DecodePacked(f, max, items + [r.v], r.rest)
  }

  /** The union now holds no member. */
  function ClearGroup(fields: seq<Field>, slots: seq<Slot>, group: nat): (r: seq<Slot>)
    requires Shaped(fields, slots)
    ensures Shaped(fields, r)
  {
    seq(|slots|, i requires 0 <= i < |slots| => if fields[i].rule == Oneof(group) then NotChosen else slots[i])
  }

  /** `decode_static_field` on field `k`. */
  function DecodeField(fields: seq<Field>, slots: seq<Slot>, k: nat, wire: nat, s: seq<byte>): (r: Decoded<seq<Slot>>)
    requires ValidFields(fields) && Shaped(fields, slots) && k < |fields|
    ensures r.Done? ==> |r.rest| < |s| && Shaped(fields, r.v)
    decreases |s|, 2
  {
    var f := fields[k];
    assert ValidField(f) && ShapedSlot(f, slots[k]);
    DefaultShaped(f);
    match f.rule
    case Required =>
      var r := DecodeValue(f.kind, slots[k].v, s);
      if r.Fail? then Fail else Done(slots[k := One(r.v)], r.rest)
    case Optional =>
      var r := DecodeValue(f.kind, slots[k].v, s);
      if r.Fail? then Fail else Done(slots[k := Maybe(true, r.v)], r.rest)
    case Repeated(max) =>
      if wire == 2 && Packable(f.kind) then
        var r := ReadPrefixed(s);
        if r.Fail? then Fail
        else
          var items := DecodePacked(f, max, slots[k].items, r.v);
          if items.None? then Fail else Done(slots[k := Many(items.value)], r.rest)
      else if |slots[k].items| >= max then Fail
      else
        var r := DecodeValue(f.kind, DefaultValue(f), s);
        if r.Fail? then Fail else Done(slots[k := Many(slots[k].items + [r.v])], r.rest)
    case Oneof(group) =>
      var r := DecodeValue(f.kind, DefaultValue(f), s);
      if r.Fail? then Fail else Done(ClearGroup(fields, slots, group)[k := Chosen(r.v)], r.rest)
  }

  /** The place of the field with a given tag. */
  function FieldIndex(fields: seq<Field>, tag: nat): (r: Option<nat>)
    ensures r.None? <==> forall i | 0 <= i < |fields| :: fields[i].tag != tag
    ensures r.Some? ==> r.value < |fields| && fields[r.value].tag == tag
  {
    if fields == [] then None
    else if fields[0].tag == tag then Some(0)
    else
      var r := FieldIndex(fields[1..], tag);
      if r.None? then None else Some(r.value + 1)
  }

  predicate AllSeen(fields: seq<Field>, seen: set<nat>) {
    forall i | 0 <= i < |fields| && fields[i].rule.Required? :: i in seen
  }

  /** `pb_decode_noinit`: `seen` are the places of the fields met so far. The terminator of an empty descriptor
      passes for a field with the tag 0, and decoding it fails. */
  function DecodeFields(fields: seq<Field>, slots: seq<Slot>, seen: set<nat>, s: seq<byte>): (r: Decoded<seq<Slot>>)
    requires ValidFields(fields) && Shaped(fields, slots)
    ensures r.Done? ==> |r.rest| <= |s| && Shaped(fields, r.v)
    decreases |s|, 3
  {
    var t := if s == [] then End([]) else ReadTag(s);
    if t.Bad? then Fail
    else if t.End? then if AllSeen(fields, seen) then Done(slots, t.rest) else Fail
    else
      var k := FieldIndex(fields, t.tag);
      if k.Some? then
        var r := DecodeField(fields, slots, k.value, t.wire, t.rest);
        if r.Fail? then Fail else DecodeFields(fields, r.v, seen + {k.value}, r.rest)
      else if fields == [] && t.tag == 0 then Fail
      else
        var rest := Skip(t.wire, t.rest);
        if rest.None? then Fail else DecodeFields(fields, slots, seen, rest.value)
  }

  /** `pb_decode`. */
  function Decode(fields: seq<Field>, s: seq<byte>): (r: Decoded<seq<Slot>>)
    requires ValidFields(fields)
    ensures r.Done? ==> |r.rest| <= |s| && Shaped(fields, r.v)
  {
    DefaultsShaped(fields);
    DecodeFields(fields, Defaults(fields), {}, s)
  }
}
