/** Numbers and delimited strings come back from their encodings, and skipping passes exactly over them. */
module NanopbPrimitives {
  import opened Basics
  import opened NanopbTypes
  import opened NanopbEncode
  import opened NanopbDecode
  import opened Words64

  function Power(base: nat, n: nat): (p: nat)
    requires base > 0
    ensures p > 0
  {
    if n == 0 then 1 else base * Power(base, n - 1)
  }

  lemma {:induction false} VarintRoundTrip(v: nat, budget: nat, rest: seq<byte>)
    requires v < Power(128, budget) && budget > 0
    ensures ReadVarint(EncodeVarint(v) + rest, budget) == Got(v, rest)
    decreases budget
  {
    var s := EncodeVarint(v) + rest;
    if v < 128 {
      assert s[1..] == rest;
    } else {
      assert s[1..] == EncodeVarint(v / 128) + rest;
      VarintRoundTrip(v / 128, budget - 1, rest);
    }
  }

  lemma {:induction false} SkipVarintExact(v: nat, rest: seq<byte>)
    ensures SkipVarint(EncodeVarint(v) + rest) == Some(rest)
  {
    var s := EncodeVarint(v) + rest;
    if v < 128 {
      assert s[1..] == rest;
    } else {
      assert s[1..] == EncodeVarint(v / 128) + rest;
      SkipVarintExact(v / 128, rest);
    }
  }

  lemma {:induction false} Varint32RoundTrip(v: nat, rest: seq<byte>)
    requires v < TWO32
    ensures ReadVarint32(EncodeVarint(v) + rest) == Got(v, rest)
  {
    assert Power(128, 5) == 128 * Power(128, 4) && Power(128, 3) == 128 * Power(128, 2);
    VarintRoundTrip(v, 5, rest);
  }

  lemma {:induction false} TenSeptets()
    ensures TWO64 <= Power(128, 10)
  {
    assert Power(128, 9) == 128 * Power(128, 8) && Power(128, 7) == 128 * Power(128, 6);
    assert Power(128, 5) == 128 * Power(128, 4) && Power(128, 3) == 128 * Power(128, 2);
  }

  lemma {:induction false} Varint64RoundTrip(v: nat, rest: seq<byte>)
    requires v < TWO64
    ensures ReadVarint64(EncodeVarint(v) + rest) == Got(v, rest)
  {
    TenSeptets();
    VarintRoundTrip(v, 10, rest);
  }

  lemma {:induction false} VarintLength(v: nat, n: nat)
    requires v < Power(128, n) && n > 0
    ensures |EncodeVarint(v)| <= n
    decreases n
  {
    if v >= 128 {
      VarintLength(v / 128, n - 1);
    }
  }

  /** The local buffer of `pb_encode_varint` is large enough. */
  lemma {:induction false} TenBytesSuffice(v: nat)
    requires v < TWO64
    ensures |EncodeVarint(v)| <= 10
  {
    TenSeptets();
    VarintLength(v, 10);
  }

  lemma {:induction false} LittleEndianRoundTrip(v: nat, n: nat)
    requires v < Power(256, n)
    ensures FromLittleEndian(LittleEndian(v, n)) == v
  {
    if n > 0 {
      LittleEndianRoundTrip(v / 256, n - 1);
      assert LittleEndian(v, n)[1..] == LittleEndian(v / 256, n - 1);
    }
  }

  lemma {:induction false} TakeWhole(s: seq<byte>, rest: seq<byte>)
    ensures Take(s + rest, |s|) == Done(s, rest)
  {
    assert (s + rest)[..|s|] == s && (s + rest)[|s|..] == rest;
  }

  lemma {:induction false} Associative(a: seq<byte>, b: seq<byte>, c: seq<byte>)
    ensures a + b + c == a + (b + c)
  {
  }

  lemma {:induction false} PrefixedRoundTrip(body: seq<byte>, rest: seq<byte>)
    requires |body| < TWO32
    ensures ReadPrefixed(Prefixed(body) + rest) == Done(body, rest)
  {
    assert Prefixed(body) + rest == EncodeVarint(|body|) + (body + rest);
    Varint32RoundTrip(|body|, body + rest);
    TakeWhole(body, rest);
  }

  lemma {:induction false} TagRoundTrip(tag: nat, wire: nat, rest: seq<byte>)
    requires 0 < tag < MAX_TAG && wire < 8
    ensures ReadTag(EncodeTag(tag, wire) + rest) == Tag(tag, wire, rest)
  {
    Varint32RoundTrip(tag * 8 + wire, rest);
  }

  lemma {:induction false} UpToNulWhole(s: seq<byte>, max: nat)
    requires |s| <= max && 0 !in s
    ensures UpToNul(s, max) == s
  {
    if s != [] {
      UpToNulWhole(s[1..], max - 1);
    }
  }

  predicate InSignedRange(size: nat, i: int)
    requires ValidSize(size)
  {
    var half: int := Range(size) / 2;
    -half <= i < half
  }

  lemma {:induction false} WrapNegative(i: int, range: nat, big: nat, k: nat)
    requires k > 0 && big == range * k && -(range as int) <= i < 0
    ensures i % big % range == i + range
  {
    MulAtLeast(range, k);
    DivModUnique(i, big, -1, i + big);
    DivModUnique(i + big, range, k - 1, i + range);
  }

  /** A signed number survives being taken modulo a power of two that is wide enough. */
  lemma {:induction false} RangeMultiple(size: nat, wide: nat) returns (k: nat)
    requires ValidSize(size) && ValidSize(wide) && size <= wide
    ensures k > 0 && Range(wide) == Range(size) * k
  {
    k := Range(wide) / Range(size);
  }

  lemma {:induction false} StoredSigned(size: nat, i: int, wide: nat)
    requires ValidSize(size) && InSignedRange(size, i)
    requires ValidSize(wide) && size <= wide
    ensures Signed(i % Range(wide), size) == i
  {
    if i < 0 {
      var k := RangeMultiple(size, wide);
      WrapNegative(i, Range(size), Range(wide), k);
    } else {
      assert i < Range(size) <= Range(wide) && i % Range(wide) == i;
    }
  }

  /** The three ways of storing an integer of `size` bytes come back. */
  lemma {:induction false} VarintValueRoundTrip(size: nat, i: int)
    requires ValidSize(size) && InSignedRange(size, i)
    ensures VarintInt(size, i % TWO64) == Some(i)
  {
    StoredSigned(size, i, 8);
    if size < 8 {
      StoredSigned(4, i, 8);
      StoredSigned(size, i, 4);
    }
  }

  lemma {:induction false} UVarintValueRoundTrip(size: nat, i: int)
    requires ValidSize(size) && 0 <= i < Range(size)
    ensures UVarintInt(size, i % TWO64) == Some(i)
  {
  }

  lemma {:induction false} SVarintValueRoundTrip(size: nat, i: int)
    requires ValidSize(size) && InSignedRange(size, i)
    ensures SVarintInt(size, ZigZag(i)) == Some(i)
  {
    ZigZagInverse(i);
    StoredSigned(size, i, 8);
  }

  lemma {:induction false} ZigZagInverse(i: int)
    requires InSignedRange(8, i)
    ensures UnZigZag(ZigZag(i)) == i
  {
    var n := if i < 0 then -2 * i - 1 else 2 * i;
    assert 0 <= n < TWO64;
    assert ZigZag(i) == n;
  }
}
