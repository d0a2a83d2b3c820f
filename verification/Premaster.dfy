/** The constant-time word functions, in 64-bit words. */
module ConstantTime {

  const TRUE_8: bv8 := 0xff
  const FALSE_8: bv8 := 0

  /** `constant_time_msb_w`: the top bit copied to all bits. */
  function MsbW(a: bv64): bv64 {
    0 - (a >> 63)
  }

  function IsZeroW(a: bv64): bv64 {
    MsbW(!a & (a - 1))
  }

  function EqW(a: bv64, b: bv64): bv64 {
    IsZeroW(a ^ b)
  }

  function SelectW(mask: bv64, a: bv64, b: bv64): bv64 {
    (mask & a) | (!mask & b)
  }

  /** The 8-bit forms cut a word down to its low byte. */
  function Low8(a: bv64): bv8 {
    (a & 0xff) as bv8
  }

  function IsZero8(a: bv64): bv8 {
    Low8(IsZeroW(a))
  }

  function Eq8(a: bv64, b: bv64): bv8 {
    Low8(EqW(a, b))
  }

  function Select8(mask: bv8, a: bv8, b: bv8): bv8 {
    Low8(SelectW(mask as bv64, a as bv64, b as bv64))
  }

  function Mask8(b: bool): bv8 {
    if b then TRUE_8 else FALSE_8
  }

  /** The branch-free tests are the tests, as masks, for every word. */
  lemma {:induction false} IsZeroIsTest(a: bv64)
    ensures IsZeroW(a) == if a == 0 then 0xffff_ffff_ffff_ffff else 0
    ensures IsZero8(a) == Mask8(a == 0)
  {
  }

  lemma {:induction false} XorIsDifference(a: bv64, b: bv64)
    ensures a ^ b == 0 <==> a == b
  {
  }

  lemma {:induction false} EqIsTest(a: bv64, b: bv64)
    ensures EqW(a, b) == if a == b then 0xffff_ffff_ffff_ffff else 0
    ensures Eq8(a, b) == Mask8(a == b)
  {
    XorIsDifference(a, b);
    IsZeroIsTest(a ^ b);
  }

  lemma {:induction false} SelectIsBranch(c: bool, a: bv8, b: bv8)
    ensures Select8(Mask8(c), a, b) == if c then a else b
  {
  }

  lemma {:induction false} AndMasks(a: bool, b: bool)
    ensures Mask8(a) & Mask8(b) == Mask8(a && b)
    ensures !Mask8(a) == Mask8(!a)
  {
  }
}

/** The choice between the decrypted premaster secret and a random one in `do_read_client_key_exchange`. */
module Premaster {
  import opened ConstantTime

  /** `SSL_MAX_MASTER_KEY_LENGTH`. */
  const KEY_LENGTH: nat := 48

  /** The padding of section 7.2.2 of RFC 3447 in front of a premaster secret, and the version bytes that
      section 7.4.7.1 of RFC 5246 asks for. */
  predicate WellPadded(buf: seq<bv8>, version: bv16)
    requires |buf| >= 11 + KEY_LENGTH
  {
    PaddedFor(buf, version >> 8, version & 0xff)
  }

  predicate PaddedFor(buf: seq<bv8>, major: bv16, minor: bv16)
    requires |buf| >= 11 + KEY_LENGTH
  {
    var n := |buf| - KEY_LENGTH;
    && Prefixed(buf, n)
    && buf[n] as bv16 == major
    && buf[n + 1] as bv16 == minor
  }

  /** The branch-free selection: the premaster secret becomes the tail of the decrypted buffer exactly
      when that is well padded, and keeps its random bytes otherwise. */
  method SelectPremaster(buf: seq<bv8>, version: bv16, premaster: array<bv8>) returns (ok: bool)
    requires premaster.Length == KEY_LENGTH
    modifies premaster
    ensures ok <==> |buf| >= 11 + KEY_LENGTH
    ensures ok ==> premaster[..] == if WellPadded(buf, version) then buf[|buf| - KEY_LENGTH..] else old(premaster[..])
    ensures !ok ==> premaster[..] == old(premaster[..])
  {
    if |buf| < 11 + premaster.Length {
      return false;
    }
    var paddingLen := |buf| - premaster.Length;
    var good := CheckPadding(buf, version);
    for i := 0 to premaster.Length
      invariant forall j | i <= j < premaster.Length :: premaster[j] == old(premaster[j])
      invariant forall j | 0 <= j < i ::
                  premaster[j] == if WellPadded(buf, version) then buf[paddingLen + j] else old(premaster[j])
    {
      SelectIsBranch(WellPadded(buf, version), buf[paddingLen + i], premaster[i]);
      premaster[i] := Select8(good, buf[paddingLen + i], premaster[i]);
    }
    return true;
  }

  /** The mask `good`: all ones exactly for a well-padded buffer, all zeros otherwise. */
  method CheckPadding(buf: seq<bv8>, version: bv16) returns (good: bv8)
    requires |buf| >= 11 + KEY_LENGTH
    ensures good == Mask8(WellPadded(buf, version))
  {
    good := CheckPaddingFor(buf, version >> 8, version & 0xff);
  }

  method CheckPaddingFor(buf: seq<bv8>, major: bv16, minor: bv16) returns (good: bv8)
    requires |buf| >= 11 + KEY_LENGTH
    ensures good == Mask8(PaddedFor(buf, major, minor))
  {
    var n := |buf| - KEY_LENGTH;
    good := CheckPrefix(buf, n);
    ghost var so := Prefixed(buf, n);
    var b0, b1 := buf[n], buf[n + 1];
    assert PaddedFor(buf, major, minor) == (so && b0 as bv16 == major && b1 as bv16 == minor);
    good := CheckVersion(good, b0, b1, major, minor, so);
  }

  predicate Prefixed(buf: seq<bv8>, n: nat)
    requires 11 <= n <= |buf|
  {
    buf[0] == 0 && buf[1] == 2 && NonZeros(buf, 2, n - 1) && buf[n - 1] == 0
  }

  method CheckPrefix(buf: seq<bv8>, n: nat) returns (good: bv8)
    requires 11 <= n <= |buf|
    ensures good == Mask8(Prefixed(buf, n))
  {
    good := CheckStart(buf[0], buf[1]);
    ghost var so := buf[0] == 0 && buf[1] == 2;
    good := AndNonZeros(good, buf, 2, n - 1, so);
    good := AndZero(good, buf[n - 1], so && NonZeros(buf, 2, n - 1));
  }

  method CheckVersion(good: bv8, b0: bv8, b1: bv8, major: bv16, minor: bv16, ghost so: bool) returns (r: bv8)
    requires good == Mask8(so)
    ensures r == Mask8(so && b0 as bv16 == major && b1 as bv16 == minor)
  {
    r := AndEqual(good, b0, major, so);
    r := AndEqual(r, b1, minor, so && b0 as bv16 == major);
  }

  method CheckStart(b0: bv8, b1: bv8) returns (good: bv8)
    ensures good == Mask8(b0 == 0 && b1 == 2)
  {
    EqIsTest(b0 as bv64, 0);
    EqIsTest(b1 as bv64, 2);
    AndMasks(b0 == 0, b1 == 2);
    good := Eq8(b0 as bv64, 0) & Eq8(b1 as bv64, 2);
  }

  predicate NonZeros(buf: seq<bv8>, from: nat, to: nat)
    requires to <= |buf|
  {
    forall i | from <= i < to :: buf[i] != 0
  }

  method AndNonZeros(good: bv8, buf: seq<bv8>, from: nat, to: nat, ghost so: bool) returns (r: bv8)
    requires good == Mask8(so) && from <= to <= |buf|
    ensures r == Mask8(so && NonZeros(buf, from, to))
  {
    r := good;
    for i := from to to
      invariant r == Mask8(so && NonZeros(buf, from, i))
    {
      r := AndNonZero(r, buf[i], so && NonZeros(buf, from, i));
    }
  }

  method AndNonZero(good: bv8, byte: bv8, ghost so: bool) returns (r: bv8)
    requires good == Mask8(so)
    ensures r == Mask8(so && byte != 0)
  {
    IsZeroIsTest(byte as bv64);
    AndMasks(byte == 0, true);
    AndMasks(so, byte != 0);
    r := good & !IsZero8(byte as bv64);
  }

  method AndZero(good: bv8, byte: bv8, ghost so: bool) returns (r: bv8)
    requires good == Mask8(so)
    ensures r == Mask8(so && byte == 0)
  {
    IsZeroIsTest(byte as bv64);
    AndMasks(so, byte == 0);
    r := good & IsZero8(byte as bv64);
  }

  method AndEqual(good: bv8, byte: bv8, expected: bv16, ghost so: bool) returns (r: bv8)
    requires good == Mask8(so)
    ensures r == Mask8(so && byte as bv16 == expected)
  {
    EqIsTest(byte as bv64, expected as bv64);
    AndMasks(so, byte as bv16 == expected);
    r := good & Eq8(byte as bv64, expected as bv64);
  }
}
