/** 64-bit words as numbers: their bits, shifting left, and setting a bit. */
module Words64 {

  function Pow2(k: nat): (p: nat)
    ensures p >= 1
  {
    if k == 0 then 1 else 2 * Pow2(k - 1)
  }

  /** Bit `i` of `m`. */
  predicate Bit(m: nat, i: nat) {
    if i == 0 then m % 2 == 1 else Bit(m / 2, i - 1)
  }

  /** `m << s` in 64 bits: `s` shifts by one place. */
  function Shl(m: nat, s: nat): (r: nat) {
    if s == 0 then m else 2 * Shl(m, s - 1) % Pow2(64)
  }

  /** `m | (1 << k)`. */
  function SetBit(m: nat, k: nat): (r: nat) {
    if Bit(m, k) then m else m + Pow2(k)
  }

  lemma {:induction false} NoBits(i: nat)
    ensures !Bit(0, i)
  {
    if i > 0 {
      NoBits(i - 1);
    }
  }

  lemma {:induction false} MulAtLeast(b: int, k: int)
    requires b > 0 && k >= 1
    ensures b * k >= b
  {
  }

  lemma {:induction false} QuotientUnique(b: int, q: int, r: int, q': int, r': int)
    requires 0 <= r < b && 0 <= r' < b && b * q + r == b * q' + r'
    ensures q <= q'
  {
    if q > q' {
      MulAtLeast(b, q - q');
    }
  }

  lemma {:induction false} DivModUnique(a: int, b: int, q: int, r: int)
    requires 0 <= r < b && a == b * q + r
    ensures a / b == q && a % b == r
  {
    assert a == b * (a / b) + a % b;
    QuotientUnique(b, q, r, a / b, a % b);
    QuotientUnique(b, a / b, a % b, q, r);
  }

  lemma {:induction false} HalfOfRemainder(m: nat, p: nat)
    requires p >= 1
    ensures m % (2 * p) % 2 == m % 2
    ensures m % (2 * p) / 2 == m / 2 % p
  {
    var (q, r) := (m / 2 / p, m / 2 % p);
    var low := 2 * r + m % 2;
    assert m == 2 * (p * q + r) + m % 2;
    assert m == 2 * p * q + low;
    DivModUnique(m, 2 * p, q, low);
  }

  lemma {:induction false} LowBits(m: nat, k: nat, i: nat)
    requires i < k
    ensures Bit(m % Pow2(k), i) <==> Bit(m, i)
  {
    HalfOfRemainder(m, Pow2(k - 1));
    if i > 0 {
      LowBits(m / 2, k - 1, i - 1);
    }
  }

  lemma {:induction false} ShlBit(m: nat, s: nat, i: nat)
    requires i < 64
    ensures Bit(Shl(m, s), i) <==> s <= i && Bit(m, i - s)
  {
    if s > 0 {
      var d := 2 * Shl(m, s - 1);
      LowBits(d, 64, i);
      assert d / 2 == Shl(m, s - 1);
      if i > 0 {
        ShlBit(m, s - 1, i - 1);
      }
    }
  }

  lemma {:induction false} AddPowerBit(m: nat, k: nat, i: nat)
    requires !Bit(m, k)
    ensures Bit(m + Pow2(k), i) <==> i == k || Bit(m, i)
  {
    if k == 0 {
      assert (m + 1) / 2 == m / 2;
    } else {
      assert (m + Pow2(k)) / 2 == m / 2 + Pow2(k - 1);
      if i > 0 {
        AddPowerBit(m / 2, k - 1, i - 1);
      }
    }
  }

  lemma {:induction false} SetBitBits(m: nat, k: nat, i: nat)
    ensures Bit(SetBit(m, k), i) <==> i == k || Bit(m, i)
  {
    if !Bit(m, k) {
      AddPowerBit(m, k, i);
    }
  }
}

/** The DTLS record layer's defence against replayed records, section 4.1.2.6 of RFC 6347. */
module ReplayWindow {
  import opened Words64

  /** The number of bits of the window. */
  const WINDOW: nat := 64

  /** The big-endian value of a byte string. */
  function BigEndian(s: seq<nat>): (n: nat) {
    if s == [] then 0 else 256 * BigEndian(s[..|s| - 1]) + s[|s| - 1]
  }

  /** `to_u64_be`. Shifting by eight places makes room for a byte, so the source's "or" is a sum. */
  method ToU64(s: seq<nat>) returns (n: nat)
    requires |s| == 8 && forall i | 0 <= i < |s| :: s[i] < 256
    ensures n == BigEndian(s)
  {
    n := 0;
    for i := 0 to 8
      invariant n == BigEndian(s[..i])
    {
      n := 256 * n;
      n := n + s[i];
      assert s[..i + 1][..i] == s[..i];
    }
    assert s[..8] == s;
  }

  /** Different sequence numbers have different values. */
  lemma {:induction false} BigEndianInjective(s: seq<nat>, t: seq<nat>)
    requires |s| == |t|
    requires forall i | 0 <= i < |s| :: s[i] < 256 && t[i] < 256
    requires BigEndian(s) == BigEndian(t)
    ensures s == t
  {
    if s != [] {
      var k := |s| - 1;
      BigEndianInjective(s[..k], t[..k]);
      assert s == s[..k] + [s[k]] && t == t[..k] + [t[k]];
    }
  }

  /** The low `k` bytes of `n`, most significant first. */
  function BytesOf(n: nat, k: nat): (s: seq<nat>)
    ensures |s| == k && forall i | 0 <= i < k :: s[i] < 256
  {
    if k == 0 then [] else BytesOf(n / 256, k - 1) + [n % 256]
  }

  function Pow256(k: nat): (p: nat)
    ensures p > 0
  {
    if k == 0 then 1 else 256 * Pow256(k - 1)
  }

  lemma {:induction false} BigEndianOfBytes(n: nat, k: nat)
    requires n < Pow256(k)
    ensures BigEndian(BytesOf(n, k)) == n
  {
    if k > 0 {
      BigEndianOfBytes(n / 256, k - 1);
    }
  }

  lemma {:induction false} BigEndianJoin(s: seq<nat>, t: seq<nat>)
    ensures BigEndian(s + t) == BigEndian(s) * Pow256(|t|) + BigEndian(t)
  {
    if t == [] {
      assert s + t == s;
    } else {
      var k := |t| - 1;
      BigEndianJoin(s, t[..k]);
      assert (s + t)[..|s + t| - 1] == s + t[..k];
      assert BigEndian(s) * (256 * Pow256(k)) == 256 * (BigEndian(s) * Pow256(k));
    }
  }

  /** The eight bytes that a record header has for an epoch and a sequence number. */
  function SequenceBytes(epoch: nat, seqNum: nat): (s: seq<nat>)
    ensures |s| == 8 && forall i | 0 <= i < 8 :: s[i] < 256
  {
    BytesOf(epoch, 2) + BytesOf(seqNum, 6)
  }

  lemma {:induction false} SequenceBytesValue(epoch: nat, seqNum: nat)
    requires epoch < 0x1_0000 && seqNum < 0x1_0000_0000_0000
    ensures var s := SequenceBytes(epoch, seqNum);
      256 * s[0] + s[1] == epoch && BigEndian(s) == epoch * 0x1_0000_0000_0000 + seqNum
  {
    assert Pow256(2) == 0x1_0000;
    assert Pow256(3) == 0x100_0000 && Pow256(4) == 0x1_0000_0000 && Pow256(6) == 0x1_0000_0000_0000;
    BigEndianOfBytes(epoch, 2);
    BigEndianOfBytes(seqNum, 6);
    BigEndianJoin(BytesOf(epoch, 2), BytesOf(seqNum, 6));
    assert BytesOf(epoch, 2) == [epoch / 256, epoch % 256];
  }

  /** `DTLS1_BITMAP`, with the set of all numbers ever recorded in it. */
  class Window {
    var bits: nat
    var maxSeqNum: nat
    ghost var seen: set<nat>

    ghost predicate Valid()
      reads this
    {
      && (forall n | n in seen :: n <= maxSeqNum) && (maxSeqNum in seen || maxSeqNum == 0)
      && forall i: nat | i < WINDOW && i <= maxSeqNum :: Bit(bits, i) <==> maxSeqNum - i in seen
    }

    constructor ()
      ensures Valid() && seen == {} && maxSeqNum == 0
    {
      bits, maxSeqNum, seen := 0, 0, {};
    }

    /** `dtls1_bitmap_should_discard`: seen before, or 64 or more below the maximum. */
    method ShouldDiscard(n: nat) returns (discard: bool)
      requires Valid()
      ensures discard <==> n in seen || n + WINDOW <= maxSeqNum
    {
      if n > maxSeqNum {
        return false;
      }
      var idx := maxSeqNum - n;
      return idx >= WINDOW || Bit(bits, idx);
    }

    /** `dtls1_bitmap_record`. */
    method Record(n: nat)
      requires Valid()
      modifies this
      ensures Valid()
      ensures seen == old(seen) + {n}
      ensures maxSeqNum == if n > old(maxSeqNum) then n else old(maxSeqNum)
    {
      if n > maxSeqNum {
        var shift := n - maxSeqNum;
        if shift >= WINDOW {
          bits := 0;
          forall i: nat | i < WINDOW {
            NoBits(i);
          }
        } else {
          bits := Shl(bits, shift);
          forall i: nat | i < WINDOW {
            ShlBit(old(bits), shift, i);
          }
        }
        maxSeqNum := n;
      }
      var idx := maxSeqNum - n;
      if idx < WINDOW {
        forall i: nat | i < WINDOW {
          SetBitBits(bits, idx, i);
        }
        bits := SetBit(bits, idx);
      }
      seen := seen + {n};
    }

    /** `memset` to zero on an epoch change. */
    method Reset()
      modifies this
      ensures Valid() && seen == {} && maxSeqNum == 0
    {
      bits, maxSeqNum, seen := 0, 0, {};
    }
  }

  datatype OpenResult = Accepted | Discarded | Fatal

  /** What arrives: a record with its eight sequence bytes, whether the cipher opens it and the length of
      its plaintext; or a change of read keys. */
  datatype Event =
    | Incoming(sequence: seq<nat>, opens: bool, plainLen: nat)
    | ChangeKeys

  /** `SSL3_RT_MAX_PLAIN_LENGTH`. */
  const MAX_PLAIN: nat := 16384

  /** The read half of the record layer: the current epoch and its window. */
  class Reader {
    const window: Window
    var rEpoch: nat
    /** The epoch and number of every record accepted so far. */
    ghost var recorded: seq<(nat, nat)>

    ghost predicate Valid()
      reads this, window
    {
      && window.Valid()
      && (forall i, j | 0 <= i < j < |recorded| :: recorded[i] != recorded[j])
      && (forall i | 0 <= i < |recorded| :: recorded[i].0 <= rEpoch)
      && (forall i | 0 <= i < |recorded| && recorded[i].0 == rEpoch :: recorded[i].1 in window.seen)
    }

    constructor ()
      ensures Valid() && rEpoch == 0 && recorded == [] && window.seen == {} && fresh(window)
    {
      window := new Window();
      rEpoch, recorded := 0, [];
    }

    /** `dtls_open_record` after the header has been decoded. A record of the current epoch is dropped as
        a replay exactly when its number was accepted before or is 64 or more below the largest one, and
        only an accepted record changes the window. */
    method OpenRecord(sequence: seq<nat>, opens: bool, plainLen: nat) returns (res: OpenResult)
      requires Valid() && |sequence| == 8 && forall i | 0 <= i < 8 :: sequence[i] < 256
      modifies this`recorded, window
      ensures Valid()
      ensures var n := BigEndian(sequence);
              var wrongEpoch := 256 * sequence[0] + sequence[1] != rEpoch;
              var replayed := n in old(window.seen) || n + WINDOW <= old(window.maxSeqNum);
              res == if wrongEpoch || replayed || !opens then Discarded
                     else if plainLen > MAX_PLAIN then Fatal
                     else Accepted
      ensures res.Accepted? ==>
                && recorded == old(recorded) + [(rEpoch, BigEndian(sequence))]
                && window.seen == old(window.seen) + {BigEndian(sequence)}
      ensures !res.Accepted? ==>
                && recorded == old(recorded) && window.seen == old(window.seen)
                && window.bits == old(window.bits) && window.maxSeqNum == old(window.maxSeqNum)
    {
      var epoch := 256 * sequence[0] + sequence[1];
      if epoch != rEpoch {
        return Discarded;
      }
      var n := ToU64(sequence);
      var discard := window.ShouldDiscard(n);
      if discard || !opens {
        return Discarded;
      }
      if plainLen > MAX_PLAIN {
        return Fatal;
      }
      window.Record(n);
      recorded := recorded + [(rEpoch, n)];
      return Accepted;
    }

    /** `dtls1_set_read_state`. */
    method ChangeEpoch()
      requires Valid() && rEpoch + 1 < 0x1_0000
      modifies this`rEpoch, window
      ensures Valid() && rEpoch == old(rEpoch) + 1
      ensures window.seen == {} && recorded == old(recorded)
    {
      rEpoch := rEpoch + 1;
      window.Reset();
    }
  }

  /** Whatever arrives and however often the keys change, no epoch and number is accepted twice. */
  method ReadAll(events: seq<Event>) returns (r: Reader)
    ensures forall i, j | 0 <= i < j < |r.recorded| :: r.recorded[i] != r.recorded[j]
  {
    r := new Reader();
    for k := 0 to |events|
      invariant r.Valid() && fresh(r) && fresh(r.window)
    {
      match events[k]
      case Incoming(sequence, opens, plainLen) =>
        if |sequence| == 8 && forall i | 0 <= i < 8 :: sequence[i] < 256 {
          var _ := r.OpenRecord(sequence, opens, plainLen);
        }
      case ChangeKeys =>
        if r.rEpoch + 1 < 0x1_0000 {
          r.ChangeEpoch();
        }
    }
  }
}
