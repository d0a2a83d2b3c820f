/** Single bits of a byte, and the masks that the DTLS reassembly code builds from them. */
module Bits {

  /** Bit `i` of `b`, counting from the least significant one. */
  predicate Bit(b: bv8, i: nat)
    requires i < 8
  {
    (b >> i) & 1 == 1
  }

  /** `bit_range`: computed in 32 bits and cut down to a byte. */
  function BitRange(start: nat, end: nat): (r: bv8)
    requires start <= 8 && end <= 8
  {
    (!(((1 as bv32) << start) - 1) & (((1 as bv32) << end) - 1) & 0xff) as bv8
  }

  lemma {:induction false} BitRangeBits(start: nat, end: nat, i: nat)
    requires start <= 8 && end <= 8 && i < 8
    ensures Bit(BitRange(start, end), i) <==> start <= i < end
  {
  }

  lemma {:induction false} BitOr(a: bv8, b: bv8, i: nat)
    requires i < 8
    ensures Bit(a | b, i) <==> Bit(a, i) || Bit(b, i)
  {
  }

  /** A byte is determined by its eight bits. */
  lemma {:induction false} BitsDetermineByte(a: bv8, b: bv8)
    requires forall i: nat | i < 8 :: Bit(a, i) == Bit(b, i)
    ensures a == b
  {
    assert Bit(a, 0) == Bit(b, 0) && Bit(a, 1) == Bit(b, 1) && Bit(a, 2) == Bit(b, 2) && Bit(a, 3) == Bit(b, 3);
    assert Bit(a, 4) == Bit(b, 4) && Bit(a, 5) == Bit(b, 5) && Bit(a, 6) == Bit(b, 6) && Bit(a, 7) == Bit(b, 7);
  }

  /** The two comparisons of the completion test: a byte equals `bit_range(0, k)` exactly when its low
      `k` bits are set and no other is. With `k == 8` the constant is 0xff. */
  lemma {:induction false} FullPrefix(b: bv8, k: nat)
    requires k <= 8
    ensures b == BitRange(0, k) <==> forall i: nat | i < 8 :: Bit(b, i) <==> i < k
    ensures BitRange(0, 8) == 0xff
  {
    forall i: nat | i < 8 {
      BitRangeBits(0, k, i);
    }
    if forall i: nat | i < 8 :: Bit(b, i) <==> i < k {
      BitsDetermineByte(b, BitRange(0, k));
    }
  }
}

/** Sets of consecutive positions. */
module Ranges {

  predicate Between(start: nat, i: nat, end: nat) {
    start <= i < end
  }

  function Interval(start: nat, end: nat): set<nat> {
    set i: nat | start <= i < end && Between(start, i, end)
  }
}
