/** The bytes themselves: where each bit of a number, a tag or a message goes on the wire, and what the decoder reads
    from any bytes. */
module NanopbWire {
  import opened Basics
  import opened NanopbTypes
  import opened NanopbEncode
  import opened NanopbDecode
  import opened NanopbPrimitives

  lemma {:induction false} Distribute(a: int, x: int, y: int)
    ensures a * (x + y) == a * x + a * y
  {
  }

  lemma {:induction false} DivideTwice(v: nat, a: nat, b: nat)
    requires a > 0 && b > 0
    ensures v / a / b == v / (a * b)
  {
    var (q, r) := (v / a / b, v / a % b);
    assert v / a == b * q + r && v == a * (v / a) + v % a;
    Distribute(a, b * q, r);
    assert a * (b * q) == a * b * q;
    assert 0 <= a * r + v % a < a * b by {
      Distribute(a, r, b - r);
      Words64.MulAtLeast(a, b - r);
    }
    Words64.DivModUnique(v, a * b, q, a * r + v % a);
  }

  /** Byte `i` of a fixed-size number has its bits from `8 * i` on. */
  lemma {:induction false} LittleEndianByte(v: nat, n: nat, i: nat)
    requires i < n
    ensures LittleEndian(v, n)[i] == v / Power(256, i) % 256
  {
    if i > 0 {
      LittleEndianByte(v / 256, n - 1, i - 1);
      DivideTwice(v, 256, Power(256, i - 1));
    }
  }

  /** Byte `i` of what is read is worth `256` to the power `i`. */
  lemma {:induction false} FromLittleEndianByte(s: seq<byte>, i: nat)
    requires i < |s|
    ensures FromLittleEndian(s) < Power(256, |s|) && FromLittleEndian(s) / Power(256, i) % 256 == s[i]
  {
    var rest := FromLittleEndian(s[1..]);
    if |s| > 1 {
      FromLittleEndianByte(s[1..], if i > 0 then i - 1 else 0);
    }
    if i > 0 {
      DivideTwice(FromLittleEndian(s), 256, Power(256, i - 1));
      assert FromLittleEndian(s) / 256 == rest;
    }
  }

  /** Byte `i` of a varint has seven bits of the number, the least significant ones first; the top bit is set on all bytes but
      the last; and no byte is wasted. */
  lemma {:induction false} VarintByte(v: nat, i: nat)
    requires i < |EncodeVarint(v)|
    ensures var s := EncodeVarint(v);
      && s[i] % 128 == v / Power(128, i) % 128
      && (s[i] >= 128 <==> i < |s| - 1)
      && v < Power(128, |s|) && (|s| > 1 ==> Power(128, |s| - 1) <= v)
  {
    if v >= 128 {
      VarintByte(v / 128, if i > 0 then i - 1 else 0);
      if i > 0 {
        DivideTwice(v, 128, Power(128, i - 1));
      }
    }
  }

  /** The number that seven bits of each byte make. */
  function Septets(s: seq<byte>): nat {
    if s == [] then 0 else s[0] % 128 + 128 * Septets(s[1..])
  }

  /** A varint is read from any bytes as far as the first byte below 128, if that comes within the budget. */
  lemma {:induction false} ReadVarintExactly(s: seq<byte>, budget: nat, k: nat)
    requires k < |s| && s[k] < 128 && forall i | 0 <= i < k :: s[i] >= 128
    ensures ReadVarint(s, budget) == if k < budget then Got(Septets(s[..k + 1]), s[k + 1..]) else Broken(s[budget..])
    decreases k
  {
    if budget > 0 && k > 0 {
      ReadVarintExactly(s[1..], budget - 1, k - 1);
      assert s[1..][..k] == s[1..k + 1] && s[..k + 1][1..] == s[1..k + 1];
    } else if budget > 0 {
      assert s[..1][1..] == [];
    }
  }

  /** Bytes that never end a varint break it, at the budget or at the end of the input. */
  lemma {:induction false} EndlessVarint(s: seq<byte>, budget: nat)
    requires forall i | 0 <= i < |s| :: s[i] >= 128
    ensures ReadVarint(s, budget) == Broken(if |s| < budget then [] else s[budget..])
  {
    if budget > 0 && s != [] {
      EndlessVarint(s[1..], budget - 1);
    }
  }

  // ---- Numbers ----

  /** `pb_encode_svarint` on a 64-bit number. */
  lemma {:induction false} ZigZagIs(i: int)
    requires InSignedRange(8, i)
    ensures ZigZag(i) == if i < 0 then -2 * i - 1 else 2 * i
  {
  }

  /** Two's complement: the one number of the range that is congruent to `n`. */
  lemma {:induction false} SignedIs(n: nat, size: nat, i: int)
    requires ValidSize(size)
    ensures Signed(n, size) == i <==> InSignedRange(size, i) && (n - i) % Range(size) == 0
  {
    SignedBy(n, Range(size), i);
  }

  lemma {:induction false} SignedBy(n: nat, range: nat, i: int)
    requires range > 0 && range % 2 == 0
    ensures var s := if n % range >= range / 2 then n % range - range else n % range;
      s == i <==> -(range / 2) <= i < range / 2 && (n - i) % range == 0
  {
    var low := n % range;
    var s := if low >= range / 2 then low - range else low;
    var q := n / range;
    assert n == range * q + low;
    var p := if low >= range / 2 then q + 1 else q;
    assert range * (q + 1) == range * q + range;
    assert n - s == range * p;
    Words64.DivModUnique(n - s, range, p, 0);
    if -(range / 2) <= i < range / 2 && (n - i) % range == 0 {
      var k := (n - i) / range;
      assert n - i == range * k;
      assert range * (k - 1) == range * k - range;
      if i >= 0 {
        Words64.DivModUnique(n, range, k, i);
      } else {
        Words64.DivModUnique(n, range, k - 1, i + range);
      }
    }
  }

  /** What a field takes from a varint, and what it refuses: it never holds another number than the one sent. */
  lemma {:induction false} VarintExactly(size: nat, n: nat, i: int)
    ensures VarintInt(size, n) == Some(i) <==>
      ValidSize(size) && i == Signed(n, if size == 8 then 8 else 4) && InSignedRange(size, i)
  {
    if ValidSize(size) && size != 8 {
      StoredExactly(Signed(n, 4), 4, size);
    }
  }

  lemma {:induction false} UVarintExactly(size: nat, n: nat, i: int)
    ensures UVarintInt(size, n) == Some(i) <==> ValidSize(size) && i == n && n < Range(size)
  {
  }

  lemma {:induction false} SVarintExactly(size: nat, n: nat, i: int)
    requires n < TWO64
    ensures SVarintInt(size, n) == Some(i) <==>
      ValidSize(size) && i == (if n % 2 == 1 then -(n / 2) - 1 else n / 2) && InSignedRange(size, i)
  {
    if ValidSize(size) {
      StoredExactly(UnZigZag(n), 8, size);
    }
  }

  /** A number is stored unchanged if and only if it is in the range of the field. */
  lemma {:induction false} StoredExactly(i: int, wide: nat, size: nat)
    requires ValidSize(wide) && ValidSize(size) && size <= wide && InSignedRange(wide, i)
    ensures Signed(i % Range(wide), size) == i <==> InSignedRange(size, i)
  {
    if InSignedRange(size, i) {
      StoredSigned(size, i, wide);
    }
  }

  // ---- Fields and messages ----

  /** The wire types of the protocol. */
  lemma {:induction false} WireTypes(kind: Kind)
    ensures WireType(kind) == 0 <==> kind.Varint? || kind.UVarint? || kind.SVarint?
    ensures WireType(kind) == 1 <==> kind.Fixed64?
    ensures WireType(kind) == 5 <==> kind.Fixed32?
    ensures WireType(kind) == 2 <==> kind.Bytes? || kind.String? || kind.FixedBytes? || kind.Submessage?
  {
  }

  /** Whatever is written for a field starts with a number that is eight times its tag and the wire type, which is 2 for a
      packed array. */
  lemma {:induction false} FieldStartsWithTag(f: Field, slot: Slot)
    requires ShapedSlot(f, slot) && EncodeSlot(f, slot).Some? && EncodeSlot(f, slot).value != []
    ensures var wire := if f.rule.Repeated? && Packable(f.kind) then 2 else WireType(f.kind);
      EncodeVarint(8 * f.tag + wire) <= EncodeSlot(f, slot).value
  {
    if slot.Many? && !Packable(f.kind) {
      ItemsStartWithTag(f, slot.items);
    } else if slot.Many? {
      assert EncodeTag(f.tag, 2) == EncodeVarint(8 * f.tag + 2);
    } else {
      TaggedStartsWithTag(f, slot.v);
    }
  }

  lemma {:induction false} TaggedStartsWithTag(f: Field, v: Value)
    requires ShapedValue(f.kind, v) && EncodeTagged(f, v).Some?
    ensures EncodeVarint(8 * f.tag + WireType(f.kind)) <= EncodeTagged(f, v).value
  {
    assert EncodeTag(f.tag, WireType(f.kind)) == EncodeVarint(8 * f.tag + WireType(f.kind));
  }

  lemma {:induction false} ItemsStartWithTag(f: Field, items: seq<Value>)
    requires items != [] && !Packable(f.kind) && forall i | 0 <= i < |items| :: ShapedValue(f.kind, items[i])
    requires EncodeItems(f, items).Some?
    ensures EncodeVarint(8 * f.tag + WireType(f.kind)) <= EncodeItems(f, items).value
  {
    var (first, rest) := (EncodeItem(f, items[0]), EncodeItems(f, items[1..]));
    assert EncodeItems(f, items) == Join(first, rest);
    assert first == EncodeTagged(f, items[0]);
    TaggedStartsWithTag(f, items[0]);
  }

  lemma {:induction false} JoinAssociates(a: Option<seq<byte>>, b: Option<seq<byte>>, c: Option<seq<byte>>)
    ensures Join(a, Join(b, c)) == Join(Join(a, b), c)
  {
    if a.Some? && b.Some? && c.Some? {
      Associative(a.value, b.value, c.value);
    }
  }

  /** The fields of a message are written one after another in the order of the descriptor. */
  lemma {:induction false} FieldsInOrder(fields: seq<Field>, slots: seq<Slot>, k: nat)
    requires Shaped(fields, slots) && k <= |fields|
    ensures Shaped(fields[..k], slots[..k]) && Shaped(fields[k..], slots[k..])
    ensures EncodeFields(fields, slots) == Join(EncodeFields(fields[..k], slots[..k]), EncodeFields(fields[k..], slots[k..]))
    decreases k
  {
    if k == 0 {
      assert fields[0..] == fields && slots[0..] == slots;
      var all := EncodeFields(fields, slots);
      assert all.Some? ==> [] + all.value == all.value;
    } else {
      assert Shaped(fields[1..], slots[1..]);
      FieldsInOrder(fields[1..], slots[1..], k - 1);
      assert fields[1..][..k - 1] == fields[..k][1..] && slots[1..][..k - 1] == slots[..k][1..];
      assert fields[1..][k - 1..] == fields[k..] && slots[1..][k - 1..] == slots[k..];
      JoinAssociates(EncodeSlot(fields[0], slots[0]), EncodeFields(fields[..k][1..], slots[..k][1..]),
                     EncodeFields(fields[k..], slots[k..]));
    }
  }

  lemma {:induction false} OneField(f: Field, slot: Slot)
    requires ShapedSlot(f, slot)
    ensures EncodeFields([f], [slot]) == EncodeSlot(f, slot)
  {
    var r := EncodeSlot(f, slot);
    assert EncodeFields([f][1..], [slot][1..]) == Some([]);
    assert r.Some? ==> r.value + [] == r.value;
  }

  // ---- What the encoder refuses ----

  /** The encoder can write the value: integers of a size that it knows, byte arrays that fit, and arrays that are not too long,
      at every level. */
  predicate Writable(kind: Kind, v: Value)
    requires ShapedValue(kind, v)
    decreases kind
  {
    match kind
    case Varint(size) => ValidSize(size)
    case UVarint(size) => ValidSize(size)
    case SVarint(size) => ValidSize(size)
    case Bytes(dataSize) => |v.bytes| + BYTES_HEADER <= dataSize
    case Submessage(fields) => |fields| == |v.slots| && forall i | 0 <= i < |fields| :: WritableSlot(fields[i], v.slots[i])
    case _ => true
  }

  predicate WritableSlot(f: Field, slot: Slot)
    decreases f
  {
    ShapedSlot(f, slot) &&
    match slot
    case One(v) => Writable(f.kind, v)
    case Maybe(has, v) => has ==> Writable(f.kind, v)
    case Many(items) => |items| <= f.rule.max && forall i | 0 <= i < |items| :: Writable(f.kind, items[i])
    case NotChosen => true
    case Chosen(v) => Writable(f.kind, v)
  }

  lemma {:induction false} ValueWritable(kind: Kind, v: Value)
    requires ShapedValue(kind, v)
    ensures EncodeValue(kind, v).Some? <==> Writable(kind, v)
    decreases kind
  {
    if kind.Submessage? {
      MessageWritable(kind.fields, v.slots);
    }
  }

  lemma {:induction false} ItemsWritable(f: Field, items: seq<Value>)
    requires forall i | 0 <= i < |items| :: ShapedValue(f.kind, items[i])
    ensures EncodeItems(f, items).Some? <==> forall i | 0 <= i < |items| :: Writable(f.kind, items[i])
    decreases f, 0, |items|
  {
    if items != [] {
      ValueWritable(f.kind, items[0]);
      ItemsWritable(f, items[1..]);
      assert forall i | 1 <= i < |items| :: items[i] == items[1..][i - 1];
      assert EncodeItem(f, items[0]).Some? <==> Writable(f.kind, items[0]);
    }
  }

  lemma {:induction false} SlotWritable(f: Field, slot: Slot)
    requires ShapedSlot(f, slot)
    ensures EncodeSlot(f, slot).Some? <==> WritableSlot(f, slot)
    decreases f, 1
  {
    match slot
    case One(v) => ValueWritable(f.kind, v);
    case Maybe(has, v) => if has { ValueWritable(f.kind, v); }
    case Many(items) => ItemsWritable(f, items);
    case NotChosen =>
    case Chosen(v) => ValueWritable(f.kind, v);
  }

  /** `pb_encode` fails exactly on a message that holds something it cannot write. */
  lemma {:induction false} MessageWritable(fields: seq<Field>, slots: seq<Slot>)
    requires Shaped(fields, slots)
    ensures EncodeFields(fields, slots).Some? <==> forall i | 0 <= i < |fields| :: WritableSlot(fields[i], slots[i])
    decreases fields
  {
    if fields != [] {
      SlotWritable(fields[0], slots[0]);
      assert Shaped(fields[1..], slots[1..]);
      MessageWritable(fields[1..], slots[1..]);
      assert forall i | 1 <= i < |fields| :: fields[i] == fields[1..][i - 1] && slots[i] == slots[1..][i - 1];
    }
  }
}
