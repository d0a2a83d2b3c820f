/** What one pass over an outgoing DTLS flight puts on the wire. */
module DtlsFlight {
  import opened Basics
  import opened HandshakeWire

  /** `DTLS_OUTGOING_MESSAGE`: a handshake message with its number, or a ChangeCipherSpec, and the epoch
      it was added in. The source keeps the message serialised as one fragment and parses it again each
      time; `ParseWholeMessage` shows that this gives back the message and passes the checks made then. */
  datatype Outgoing =
    | OutMessage(msg: Message, num: nat, epoch: nat)
    | OutCcs(epoch: nat)
  {
    predicate Ok() {
      OutMessage? ==> FitsHeader(|msg.body|, num)
    }

    function Body(): (b: seq<byte>) {
      if OutCcs? then [] else msg.body
    }
  }

  lemma {:induction false} ParseWholeMessage(m: Message, num: nat)
    requires FitsHeader(|m.body|, num)
    ensures ParsePiece(WriteMessage(m, num)) == Some((Piece(m.typ, |m.body|, num, 0, m.body), []))
  {
    ParseWritten(PieceOf(m, num, 0, |m.body|), []);
    assert WriteMessage(m, num) + [] == WriteMessage(m, num);
    assert m.body[0..|m.body|] == m.body;
  }

  /** A record as it is sealed: its epoch and sequence number and what it carries. */
  datatype Sealed =
    | SealedPiece(epoch: nat, seqNum: nat, piece: Piece)
    | SealedCcs(epoch: nat, seqNum: nat)
    | SealedData(epoch: nat, seqNum: nat, len: nat)

  /** `outgoing_written` and `outgoing_offset`. */
  datatype Position = Position(written: nat, offset: nat)

  ghost predicate Within(out: seq<Outgoing>, p: Position) {
    && (forall i | 0 <= i < |out| :: out[i].Ok())
    && p.written <= |out|
    && (p.written == |out| ==> p.offset == 0)
    && (p.written < |out| ==> p.offset == 0 || p.offset < |out[p.written].Body()|)
  }

  /** `p` comes strictly before `q` in the order in which the flight is written. */
  predicate Before(p: Position, q: Position) {
    p.written < q.written || (p.written == q.written && p.offset < q.offset)
  }

  /** The position after `r`, provided that `r` is what the flight needs next, in the epoch it was added in: the
      ChangeCipherSpec, or a fragment of the current message that starts where the last one ended and is empty
      only if the message is. */
  ghost function Advance(out: seq<Outgoing>, p: Position, r: Sealed): (q: Option<Position>)
    requires Within(out, p)
    ensures q.Some? ==> Within(out, q.value) && Before(p, q.value)
  {
    if p.written == |out| || r.epoch != out[p.written].epoch then None
    else
      match out[p.written]
      case OutCcs(_) =>
        if r.SealedCcs? then Some(Position(p.written + 1, 0)) else None
      case OutMessage(m, num, _) =>
        if !r.SealedPiece? then None
        else
          var len := |r.piece.body|;
          var end := p.offset + len;
          if end > |m.body| || (len == 0 && end < |m.body|) then None
          else if r.piece != PieceOf(m, num, p.offset, len) then None
          else if end == |m.body| then Some(Position(p.written + 1, 0))
          else Some(Position(p.written, end))
  }

  /** The position after a run of records, if each is what the flight needs next. */
  ghost function AdvanceAll(out: seq<Outgoing>, p: Position, rs: seq<Sealed>): (q: Option<Position>)
    requires Within(out, p)
    ensures q.Some? ==> Within(out, q.value) && (rs == [] || Before(p, q.value))
  {
    if rs == [] then Some(p)
    else
      match AdvanceAll(out, p, rs[..|rs| - 1])
      case None => None
      case Some(q) => Advance(out, q, rs[|rs| - 1])
  }

  lemma {:induction false} AdvanceStep(out: seq<Outgoing>, p: Position, rs: seq<Sealed>, r: Sealed)
    requires Within(out, p) && AdvanceAll(out, p, rs).Some?
    ensures AdvanceAll(out, p, rs + [r]) == Advance(out, AdvanceAll(out, p, rs).value, r)
  {
    assert (rs + [r])[..|rs|] == rs;
  }

  /** Passes compose: a flight resumed where it stopped is as if it had never stopped. */
  lemma {:induction false} AdvanceJoin(out: seq<Outgoing>, p: Position, rs: seq<Sealed>, ss: seq<Sealed>)
    requires Within(out, p) && AdvanceAll(out, p, rs).Some?
    ensures AdvanceAll(out, p, rs + ss) == AdvanceAll(out, AdvanceAll(out, p, rs).value, ss)
  {
    if ss == [] {
      assert rs + ss == rs;
    } else {
      var k := |ss| - 1;
      AdvanceJoin(out, p, rs, ss[..k]);
      assert (rs + ss)[..|rs + ss| - 1] == rs + ss[..k];
    }
  }

  /** The body bytes that record `r` carries for message `o`. */
  ghost function PieceFor(o: Outgoing, r: Sealed): (b: seq<byte>) {
    if o.OutMessage? && r.SealedPiece? && r.piece.num == o.num then r.piece.body else []
  }

  /** The body bytes that a run of records carries for message `o`, in the order sent. */
  ghost function Carried(o: Outgoing, rs: seq<Sealed>): (b: seq<byte>) {
    if rs == [] then [] else Carried(o, rs[..|rs| - 1]) + PieceFor(o, rs[|rs| - 1])
  }

  ghost predicate DistinctNums(out: seq<Outgoing>) {
    forall i, j | 0 <= i < j < |out| && out[i].OutMessage? && out[j].OutMessage? :: out[i].num != out[j].num
  }

  /** The part of message `i` that lies before position `p`. */
  ghost function Prefix(out: seq<Outgoing>, p: Position, i: nat): (b: seq<byte>)
    requires Within(out, p) && i < |out|
  {
    if i < p.written then out[i].Body()
    else if i == p.written then out[i].Body()[..p.offset]
    else []
  }

  lemma {:induction false} AdvanceCarries(out: seq<Outgoing>, p: Position, r: Sealed, i: nat)
    requires Within(out, p) && DistinctNums(out) && i < |out| && Advance(out, p, r).Some?
    ensures Prefix(out, Advance(out, p, r).value, i) == Prefix(out, p, i) + PieceFor(out[i], r)
  {
    var o := out[p.written];
    if o.OutMessage? {
      var len := |r.piece.body|;
      assert o.msg.body[..p.offset] + o.msg.body[p.offset..p.offset + len] == o.msg.body[..p.offset + len];
      assert i != p.written ==> PieceFor(out[i], r) == [];
    }
  }

  /** A pass from the start of the flight has carried every earlier message whole, the current one up to
      the offset, and nothing of later ones: fragments are contiguous, do not overlap and miss nothing. */
  lemma {:induction false} PassCarries(out: seq<Outgoing>, rs: seq<Sealed>, i: nat)
    requires Within(out, Position(0, 0)) && DistinctNums(out) && i < |out|
    requires AdvanceAll(out, Position(0, 0), rs).Some?
    ensures Carried(out[i], rs) == Prefix(out, AdvanceAll(out, Position(0, 0), rs).value, i)
  {
    if rs != [] {
      var k := |rs| - 1;
      PassCarries(out, rs[..k], i);
      AdvanceCarries(out, AdvanceAll(out, Position(0, 0), rs[..k]).value, rs[k], i);
    }
  }

  /** Some record carries position `j` of message number `num`. */
  ghost predicate CarriesAt(rs: seq<Sealed>, num: nat, j: nat) {
    exists r :: r in rs && r.SealedPiece? && r.piece.num == num && r.piece.off <= j < r.piece.off + |r.piece.body|
  }

  /** Some record is of message number `num`. */
  ghost predicate Mentions(rs: seq<Sealed>, num: nat) {
    exists r :: r in rs && r.SealedPiece? && r.piece.num == num
  }

  /** A pass has a record for every position before the one it has reached, and for every message that is
      behind it, even an empty one. */
  lemma {:induction false} PassCovers(out: seq<Outgoing>, rs: seq<Sealed>, i: nat)
    requires Within(out, Position(0, 0)) && i < |out| && out[i].OutMessage?
    requires AdvanceAll(out, Position(0, 0), rs).Some?
    ensures var q := AdvanceAll(out, Position(0, 0), rs).value;
            && (forall j: nat | j < |Prefix(out, q, i)| :: CarriesAt(rs, out[i].num, j))
            && (i < q.written ==> Mentions(rs, out[i].num))
  {
    if rs != [] {
      var (front, r) := (rs[..|rs| - 1], rs[|rs| - 1]);
      PassCovers(out, front, i);
      var p := AdvanceAll(out, Position(0, 0), front).value;
      var q := AdvanceAll(out, Position(0, 0), rs).value;
      assert rs == front + [r];
      forall j: nat | j < |Prefix(out, q, i)|
        ensures CarriesAt(rs, out[i].num, j)
      {
        if j < |Prefix(out, p, i)| {
          assert CarriesAt(front, out[i].num, j);
        } else {
          assert r in rs && r.SealedPiece?;
        }
      }
      if p.written <= i < q.written {
        assert r in rs && r.SealedPiece?;
      }
    }
  }

  /** A pass has a record for every ChangeCipherSpec behind it. */
  lemma {:induction false} PassHasCcs(out: seq<Outgoing>, rs: seq<Sealed>, i: nat)
    requires Within(out, Position(0, 0)) && i < |out| && out[i].OutCcs? && AdvanceAll(out, Position(0, 0), rs).Some?
    ensures i < AdvanceAll(out, Position(0, 0), rs).value.written ==> SealedCcsOf(rs, out[i].epoch)
  {
    if rs != [] {
      var (front, r) := (rs[..|rs| - 1], rs[|rs| - 1]);
      PassHasCcs(out, front, i);
      assert rs == front + [r];
      var p := AdvanceAll(out, Position(0, 0), front).value;
      var q := AdvanceAll(out, Position(0, 0), rs).value;
      assert q.written <= p.written + 1;
      if i < p.written {
        assert SealedCcsOf(front, out[i].epoch);
      } else if i < q.written {
        assert r in rs && r.SealedCcs? && r.epoch == out[i].epoch;
      }
    }
  }

  /** Some record is a ChangeCipherSpec of this epoch. */
  ghost predicate SealedCcsOf(rs: seq<Sealed>, epoch: nat) {
    exists r :: r in rs && r.SealedCcs? && r.epoch == epoch
  }

  /** Every record of a pass is sealed in the epoch of what it carries. */
  lemma {:induction false} PassRecord(out: seq<Outgoing>, rs: seq<Sealed>, k: nat) returns (i: nat)
    requires Within(out, Position(0, 0)) && AdvanceAll(out, Position(0, 0), rs).Some? && k < |rs|
    ensures i < |out| && rs[k].epoch == out[i].epoch
    ensures if out[i].OutCcs? then rs[k].SealedCcs? else rs[k].SealedPiece?
  {
    var n := |rs| - 1;
    if k < n {
      i := PassRecord(out, rs[..n], k);
    } else {
      i := AdvanceAll(out, Position(0, 0), rs[..n]).value.written;
    }
  }

  /** Every fragment of a pass is one of a message of the flight. */
  lemma {:induction false} PassIsOfFlight(out: seq<Outgoing>, rs: seq<Sealed>, k: nat) returns (i: nat)
    requires Within(out, Position(0, 0)) && AdvanceAll(out, Position(0, 0), rs).Some?
    requires k < |rs| && rs[k].SealedPiece?
    ensures i < |out| && out[i].OutMessage? && rs[k].epoch == out[i].epoch
    ensures var (p, o) := (rs[k].piece, out[i]);
            p.off + |p.body| <= |o.msg.body| && p == PieceOf(o.msg, o.num, p.off, |p.body|)
  {
    var n := |rs| - 1;
    if k < n {
      i := PassIsOfFlight(out, rs[..n], k);
    } else {
      i := AdvanceAll(out, Position(0, 0), rs[..n]).value.written;
    }
  }

  /** One full pass carries each message of the flight exactly. */
  lemma {:induction false} FullPassCarriesAll(out: seq<Outgoing>, rs: seq<Sealed>)
    requires Within(out, Position(0, 0)) && DistinctNums(out)
    requires AdvanceAll(out, Position(0, 0), rs) == Some(Position(|out|, 0))
    ensures forall i | 0 <= i < |out| :: Carried(out[i], rs) == out[i].Body()
  {
    forall i | 0 <= i < |out|
      ensures Carried(out[i], rs) == out[i].Body()
    {
      PassCarries(out, rs, i);
    }
  }
}

/** The sending half of the DTLS handshake transport and the record layer under it. */
module DtlsSender {
  import opened Basics
  import opened HandshakeWire
  import opened DtlsFlight

  /** `DTLS1_RT_HEADER_LENGTH`, the bound on 48-bit sequence numbers, and `SSL_MAX_HANDSHAKE_FLIGHT`. */
  const RECORD_HEADER: nat := 13
  const SEQUENCE_BOUND: nat := 0x1_0000_0000_0000
  const MAX_FLIGHT: nat := 7

  /** The lengths that a write cipher state adds to a record. */
  datatype Aead = Aead(nonceLen: nat, maxTag: nat)
  {
    function PrefixLen(): nat { RECORD_HEADER + nonceLen }
    function Overhead(): nat { RECORD_HEADER + nonceLen + maxTag }
  }

  /** What a record is to carry. */
  datatype Load = PieceLoad(piece: Piece) | CcsLoad | DataLoad(len: nat)
  {
    function Length(): nat {
      match this
      case PieceLoad(p) => HEADER_LENGTH + |p.body|
      case CcsLoad => 1
      case DataLoad(len) => len
    }

    function Record(epoch: nat, seqNum: nat): Sealed {
      match this
      case PieceLoad(p) => SealedPiece(epoch, seqNum, p)
      case CcsLoad => SealedCcs(epoch, seqNum)
      case DataLoad(len) => SealedData(epoch, seqNum, len)
    }
  }

  datatype SealResult = SealError | NoProgress | Partial | Success
  datatype FlightResult = Sent | Blocked | Failed

  /** `piece` is a fragment of a message that was really added. */
  ghost predicate Genuine(history: seq<Message>, p: Piece) {
    && p.num < |history|
    && FitsHeader(|history[p.num].body|, p.num)
    && p.off + |p.body| <= |history[p.num].body|
    && p == PieceOf(history[p.num], p.num, p.off, |p.body|)
  }

  ghost predicate AllGenuine(history: seq<Message>, log: seq<Sealed>) {
    forall i | 0 <= i < |log| && log[i].SealedPiece? :: Genuine(history, log[i].piece)
  }

  lemma {:induction false} GenuineWithMore(history: seq<Message>, log: seq<Sealed>, m: Message)
    requires AllGenuine(history, log)
    ensures AllGenuine(history + [m], log)
  {
  }

  ghost predicate DistinctNumbers(log: seq<Sealed>) {
    forall i, j | 0 <= i < j < |log| :: log[i].epoch != log[j].epoch || log[i].seqNum != log[j].seqNum
  }

  /** Within an epoch later records have larger numbers. */
  ghost predicate Increasing(log: seq<Sealed>) {
    forall i, j | 0 <= i < j < |log| && log[i].epoch == log[j].epoch :: log[i].seqNum < log[j].seqNum
  }

  /** The log of a sender with these sequence numbers: no record has the number of another, or one that is
      still to come. */
  ghost predicate Numbered(log: seq<Sealed>, epoch: nat, next: nat, lastNext: nat) {
    && Increasing(log)
    && forall i | 0 <= i < |log| ::
         && log[i].epoch <= epoch && log[i].seqNum < SEQUENCE_BOUND
         && (log[i].epoch == epoch ==> log[i].seqNum < next)
         && (log[i].epoch + 1 == epoch ==> log[i].seqNum < lastNext)
  }

  lemma {:induction false} NumberedAppend(log: seq<Sealed>, epoch: nat, next: nat, lastNext: nat, r: Sealed)
    requires Numbered(log, epoch, next, lastNext) && r.seqNum < SEQUENCE_BOUND
    requires (r.epoch == epoch && r.seqNum == next) || (r.epoch + 1 == epoch && r.seqNum == lastNext)
    ensures if r.epoch == epoch then Numbered(log + [r], epoch, next + 1, lastNext)
            else Numbered(log + [r], epoch, next, lastNext + 1)
  {
  }

  /** How often a sequence number was updated and how often a seal failed; whether an update has run over; how many
      records were sealed before the first failure; and how often the transport refused to write or to flush. */
  datatype Counts = Counts(updates: nat, failures: nat, wrapped: bool, clean: nat, refusals: nat)

  /** A seal that met sequence number `n` and left `n'`: the counts before and after it. */
  predicate Counted(before: Counts, after: Counts, ok: bool, n: nat, n': nat) {
    && after.failures == before.failures + (if ok then 0 else 1) && after.refusals == before.refusals
    && after.clean == before.clean + (if ok && before.failures == 0 then 1 else 0)
    && (after.updates == before.updates + 1 || (!ok && after.updates == before.updates))
    && (ok ==> n + 1 != SEQUENCE_BOUND)
    && n' == (if after.updates == before.updates then n else if n + 1 == SEQUENCE_BOUND then 0 else n + 1)
    && (after.wrapped <==> before.wrapped || (after.updates > before.updates && n + 1 == SEQUENCE_BOUND))
  }

  /** Only a seal that fails runs over, and only after as many updates as there are sequence numbers; each
      update belongs to a record or to a failure. Before the first failure no number is used twice, and
      afterwards none until one has run over. */
  ghost predicate Tallied(log: seq<Sealed>, epoch: nat, next: nat, lastNext: nat, c: Counts) {
    && c.updates <= |log| + c.failures
    && c.clean <= |log| && (c.failures == 0 ==> c.clean == |log|)
    && DistinctNumbers(log[..c.clean])
    && if c.wrapped then c.updates >= SEQUENCE_BOUND && c.failures > 0
       else next + lastNext <= c.updates && Numbered(log, epoch, next, lastNext)
  }

  lemma {:induction false} FailureTallied(log: seq<Sealed>, epoch: nat, next: nat, lastNext: nat, c: Counts, n: nat, n': nat, c': Counts)
    requires Tallied(log, epoch, next, lastNext, c) && next < SEQUENCE_BOUND && lastNext < SEQUENCE_BOUND
    requires Counted(c, c', false, n, n')
    ensures n == next ==> Tallied(log, epoch, n', lastNext, c')
    ensures n == lastNext ==> Tallied(log, epoch, next, n', c')
  {
  }

  lemma {:induction false} SealTallied(log: seq<Sealed>, epoch: nat, next: nat, lastNext: nat, c: Counts, r: Sealed, n': nat, c': Counts)
    requires Tallied(log, epoch, next, lastNext, c) && r.seqNum < SEQUENCE_BOUND
    requires (r.epoch == epoch && r.seqNum == next) || (r.epoch + 1 == epoch && r.seqNum == lastNext)
    requires Counted(c, c', true, r.seqNum, n')
    ensures if r.epoch == epoch then Tallied(log + [r], epoch, n', lastNext, c')
            else Tallied(log + [r], epoch, next, n', c')
  {
    assert (log + [r])[..c.clean] == log[..c.clean];
    if c.failures == 0 {
      assert log[..|log|] == log && (log + [r])[..|log| + 1] == log + [r];
    }
    if !c.wrapped {
      NumberedAppend(log, epoch, next, lastNext, r);
    }
  }

  /** What the tally says about the numbers used. */
  lemma {:induction false} TalliedIsDistinct(log: seq<Sealed>, epoch: nat, next: nat, lastNext: nat, c: Counts)
    requires Tallied(log, epoch, next, lastNext, c)
    ensures c.failures == 0 || |log| + c.failures < SEQUENCE_BOUND ==> DistinctNumbers(log)
  {
    assert log[..|log|] == log;
  }

  /** The counts before and after a call that stops at the first seal that fails or when the transport refuses, and leaves a
      log of `len` records. */
  predicate Passed(before: Counts, after: Counts, failed: bool, refused: bool, len: nat) {
    && after.refusals == before.refusals + (if refused then 1 else 0)
    && before.failures <= after.failures <= before.failures + (if failed then 1 else 0)
    && before.updates <= after.updates && before.clean <= after.clean
    && (if before.failures == 0 then after.clean == len else after.clean == before.clean)
    && (if after.failures == before.failures then after.wrapped == before.wrapped else before.wrapped ==> after.wrapped)
  }

  /** What a record carries is no longer than `n`. */
  predicate Short(r: Sealed, n: nat) {
    r.SealedPiece? ==> HEADER_LENGTH + |r.piece.body| <= n
  }

  ghost predicate AllShort(rs: seq<Sealed>, n: nat) {
    forall r | r in rs :: Short(r, n)
  }

  /** `rs` are some of the records of `log`, in the order of `log`. */
  ghost predicate Drawn(rs: seq<Sealed>, log: seq<Sealed>)
    decreases |log|
  {
    || rs == []
    || (log != [] &&
        var front := log[..|log| - 1];
        Drawn(rs, front) || (rs[|rs| - 1] == log[|log| - 1] && Drawn(rs[..|rs| - 1], front)))
  }

  lemma {:induction false} DrawnMore(rs: seq<Sealed>, log: seq<Sealed>, more: seq<Sealed>)
    requires Drawn(rs, log)
    ensures Drawn(rs, log + more)
  {
    if more == [] {
      assert log + more == log;
    } else {
      DrawnMore(rs, log, more[..|more| - 1]);
      assert (log + more)[..|log + more| - 1] == log + more[..|more| - 1];
    }
  }

  lemma {:induction false} DrawnJoin(rs: seq<Sealed>, log: seq<Sealed>, more: seq<Sealed>)
    requires Drawn(rs, log)
    ensures Drawn(rs + more, log + more)
  {
    if more == [] {
      assert log + more == log && rs + more == rs;
    } else {
      var front := more[..|more| - 1];
      DrawnJoin(rs, log, front);
      assert (log + more)[..|log + more| - 1] == log + front;
      assert (rs + more)[..|rs + more| - 1] == rs + front;
    }
  }

  /** The log has grown; the new records are drawn, or none of them. */
  lemma {:induction false} DrawnStep(rs: seq<Sealed>, start: nat, before: seq<Sealed>, after: seq<Sealed>, all: bool)
    requires start <= |before| && before <= after && Drawn(rs, before[start..])
    ensures Drawn(if all then rs + after[|before|..] else rs, after[start..])
  {
    var more := after[|before|..];
    assert after[start..] == before[start..] + more;
    if all {
      DrawnJoin(rs, before[start..], more);
    } else {
      DrawnMore(rs, before[start..], more);
    }
  }

  /** Records drawn from a log are of the log, and have its order. */
  lemma {:induction false} DrawnKeepsOrder(rs: seq<Sealed>, log: seq<Sealed>)
    requires Drawn(rs, log) && Increasing(log)
    ensures Increasing(rs) && forall r | r in rs :: r in log
    decreases |log|
  {
    if rs != [] {
      var (front, last) := (log[..|log| - 1], log[|log| - 1]);
      assert log == front + [last];
      if Drawn(rs, front) {
        DrawnKeepsOrder(rs, front);
      } else {
        var rest := rs[..|rs| - 1];
        DrawnKeepsOrder(rest, front);
        assert rs == rest + [last];
        forall i | 0 <= i < |rest| && rest[i].epoch == last.epoch
          ensures rest[i].seqNum < last.seqNum
        {
          assert rest[i] in rest;
          var j :| 0 <= j < |front| && front[j] == rest[i];
          assert log[j] == rest[i] && log[|log| - 1] == last;
        }
      }
    }
  }

  class Sender {
    var outgoing: seq<Outgoing>
    var written: nat
    var offset: nat
    var complete: bool
    var writeSeq: nat
    var wEpoch: nat
    var writeSequence: nat
    var lastWriteSequence: nat
    var aead: Aead
    var lastAead: Aead

    /** Every record sealed so far. */
    var log: seq<Sealed>
    /** Every message added so far. */
    ghost var history: seq<Message>
    ghost var counts: Counts

    ghost function Pos(): Position
      reads `written, `offset
    {
      Position(written, offset)
    }

    ghost predicate FlightOk()
      reads `outgoing, `written, `offset, `history
    {
      && |outgoing| <= MAX_FLIGHT
      && Within(outgoing, Pos())
      && (forall i | 0 <= i < |outgoing| && outgoing[i].OutMessage? ::
            outgoing[i].num < |history| && history[outgoing[i].num] == outgoing[i].msg)
      && (forall i, j | 0 <= i < j < |outgoing| && outgoing[i].OutMessage? && outgoing[j].OutMessage? ::
            outgoing[i].num < outgoing[j].num)
    }

    ghost predicate LogOk()
      reads `log, `history
    {
      AllGenuine(history, log)
    }

    ghost predicate Valid()
      reads this
    {
      && writeSeq == |history| < 0x1_0000
      && wEpoch < 0x1_0000
      && writeSequence < SEQUENCE_BOUND && lastWriteSequence < SEQUENCE_BOUND
      && FlightOk() && LogOk() && Tallied(log, wEpoch, writeSequence, lastWriteSequence, counts)
    }

    constructor ()
      ensures Valid() && history == [] && log == [] && counts == Counts(0, 0, false, 0, 0)
      ensures outgoing == [] && Pos() == Position(0, 0) && !complete
      ensures wEpoch == writeSequence == lastWriteSequence == 0 && aead == lastAead == Aead(0, 0)
    {
      outgoing, written, offset, complete, writeSeq := [], 0, 0, false, 0;
      wEpoch, writeSequence, lastWriteSequence, log := 0, 0, 0, [];
      aead, lastAead := Aead(0, 0), Aead(0, 0);
      history, counts := [], Counts(0, 0, false, 0, 0);
    }

    ghost function Number(usePrevious: bool): nat
      reads `writeSequence, `lastWriteSequence
    {
      if usePrevious then lastWriteSequence else writeSequence
    }

    /** `dtls_seal_record`. Whether the cipher succeeds and how long its tag is are not known here. */
    method SealRecord(load: Load, usePrevious: bool, maxOut: nat) returns (ok: bool, len: nat)
      requires Valid() && (usePrevious ==> wEpoch >= 1)
      requires load.PieceLoad? ==> Genuine(history, load.piece)
      modifies this`writeSequence, this`lastWriteSequence, this`log, this`counts
      ensures Valid()
      ensures ok ==> (if usePrevious then lastAead else aead).PrefixLen() + load.Length() <= len <= maxOut
      ensures Counted(old(counts), counts, ok, old(Number(usePrevious)), Number(usePrevious))
      ensures Number(!usePrevious) == old(Number(!usePrevious))
      ensures ok ==> log == old(log) + [load.Record(if usePrevious then wEpoch - 1 else wEpoch, old(Number(usePrevious)))]
      ensures !ok ==> log == old(log)
    {
      var cipher := if usePrevious then lastAead else aead;
      var cipherOk: bool, tag: nat := *, *;
      if tag > cipher.maxTag {
        tag := cipher.maxTag;
      }
      var ciphertext := cipher.nonceLen + load.Length() + tag;
      if maxOut < RECORD_HEADER || !cipherOk || ciphertext > maxOut - RECORD_HEADER {
        ghost var counts' := counts.(failures := counts.failures + 1);
        FailureTallied(log, wEpoch, writeSequence, lastWriteSequence, counts, Number(usePrevious), Number(usePrevious), counts');
        counts := counts';
        return false, 0;
      }
      ok := NumberRecord(load, usePrevious, ciphertext);
      len := RECORD_HEADER + ciphertext;
    }

    /** The second half of `dtls_seal_record`, from `ssl_record_sequence_update` on. */
    method NumberRecord(load: Load, usePrevious: bool, ciphertext: nat) returns (ok: bool)
      requires Valid() && (usePrevious ==> wEpoch >= 1)
      requires load.PieceLoad? ==> Genuine(history, load.piece)
      modifies this`writeSequence, this`lastWriteSequence, this`log, this`counts
      ensures Valid()
      ensures Counted(old(counts), counts, ok, old(Number(usePrevious)), Number(usePrevious))
      ensures Number(!usePrevious) == old(Number(!usePrevious))
      ensures ok ==> log == old(log) + [load.Record(if usePrevious then wEpoch - 1 else wEpoch, old(Number(usePrevious)))]
      ensures !ok ==> log == old(log)
    {
      var seqNum := if usePrevious then lastWriteSequence else writeSequence;
      var next := if seqNum + 1 == SEQUENCE_BOUND then 0 else seqNum + 1;
      ok := next != 0 && ciphertext < 0x1_0000;
      ghost var counts' := Counts(counts.updates + 1, counts.failures + if ok then 0 else 1, counts.wrapped || next == 0,
                                  counts.clean + (if ok && counts.failures == 0 then 1 else 0), counts.refusals);
      assert Counted(counts, counts', ok, seqNum, next);
      if ok {
        var r := load.Record(if usePrevious then wEpoch - 1 else wEpoch, seqNum);
        SealTallied(log, wEpoch, writeSequence, lastWriteSequence, counts, r, next, counts');
        log := log + [r];
        assert LogOk();
      } else {
        FailureTallied(log, wEpoch, writeSequence, lastWriteSequence, counts, seqNum, next, counts');
      }
      counts := counts';
      if usePrevious {
        lastWriteSequence := next;
      } else {
        writeSequence := next;
      }
      assert Tallied(log, wEpoch, writeSequence, lastWriteSequence, counts);
    }

    /** The cipher under which `o` is sealed, unless it was added in an epoch whose keys are gone. */
    ghost function CipherOf(o: Outgoing): Aead
      reads `wEpoch, `aead, `lastAead
    {
      if o.epoch == wEpoch then aead else lastAead
    }

    ghost predicate KeysGone(o: Outgoing)
      reads `wEpoch
    {
      o.epoch != wEpoch && o.epoch + 1 != wEpoch
    }

    /** The space in which something of `o` can be sent. */
    ghost function Need(o: Outgoing): nat
      reads `wEpoch, `aead, `lastAead
    {
      CipherOf(o).Overhead() + if o.OutCcs? then 1 else HEADER_LENGTH + 1
    }

    /** The flight has something that cannot be sent in `space` bytes, or not at all. */
    ghost predicate Stuck(space: nat)
      reads `outgoing, `wEpoch, `aead, `lastAead
    {
      exists i :: 0 <= i < |outgoing| && (KeysGone(outgoing[i]) || space < Need(outgoing[i]))
    }

    /** `seal_next_message`. */
    method SealNextMessage(maxOut: nat) returns (res: SealResult, len: nat)
      requires Valid() && written < |outgoing|
      modifies this`offset, this`writeSequence, this`lastWriteSequence, this`log, this`counts
      ensures Valid()
      ensures Passed(old(counts), counts, res.SealError?, false, |log|)
      ensures res.SealError? || res.NoProgress? ==> offset == old(offset) && log == old(log)
      ensures res.NoProgress? <==> !KeysGone(outgoing[written]) && maxOut < Need(outgoing[written])
      ensures res.SealError? && counts.failures == old(counts.failures) ==> KeysGone(outgoing[written])
      ensures res.Partial? ==> maxOut < len + Need(outgoing[written])
      ensures res.Partial? || res.Success? ==>
                && len <= maxOut
                && |log| == |old(log)| + 1 && log == old(log) + [log[|log| - 1]] && Short(log[|log| - 1], maxOut)
                && Advance(outgoing, old(Pos()), log[|log| - 1])
                   == Some(if res.Success? then Position(written + 1, 0) else Pos())
      ensures res.Success? ==> offset == 0
    {
      var msg := outgoing[written];
      var usePrevious := wEpoch >= 1 && msg.epoch == wEpoch - 1;
      if !usePrevious && msg.epoch != wEpoch {
        return SealError, 0;
      }
      var cipher := if usePrevious then lastAead else aead;
      var overhead, prefix := cipher.Overhead(), cipher.PrefixLen();
      match msg
      case OutCcs(_) =>
        if maxOut < 1 + overhead {
          return NoProgress, 0;
        }
        res, len := SealCcs(usePrevious, maxOut);
      case OutMessage(m, num, _) =>
        if maxOut < HEADER_LENGTH + 1 + overhead || maxOut < prefix {
          return NoProgress, 0;
        }
        var todo := |m.body| - offset;
        if todo > maxOut - HEADER_LENGTH - overhead {
          todo := maxOut - HEADER_LENGTH - overhead;
        }
        res, len := SealPart(m, num, todo, usePrevious, maxOut);
    }

    /** The ChangeCipherSpec is sealed. */
    method SealCcs(usePrevious: bool, maxOut: nat) returns (res: SealResult, len: nat)
      requires Valid() && written < |outgoing| && (usePrevious ==> wEpoch >= 1)
      requires outgoing[written].OutCcs? && outgoing[written].epoch == if usePrevious then wEpoch - 1 else wEpoch
      modifies this`writeSequence, this`lastWriteSequence, this`log, this`counts
      ensures Valid() && (res.SealError? || res.Success?)
      ensures Passed(old(counts), counts, res.SealError?, false, |log|)
      ensures res.SealError? ==> log == old(log) && counts.failures == old(counts.failures) + 1
      ensures !res.SealError? ==>
                && len <= maxOut
                && |log| == |old(log)| + 1 && log == old(log) + [log[|log| - 1]] && Short(log[|log| - 1], maxOut)
                && Advance(outgoing, Pos(), log[|log| - 1]) == Some(Position(written + 1, 0)) && offset == 0
    {
      var ok;
      ok, len := SealRecord(CcsLoad, usePrevious, maxOut);
      res := if ok then Success else SealError;
    }

    /** The next `todo` bytes of the current message are sealed. */
    method SealPart(m: Message, num: nat, todo: nat, usePrevious: bool, maxOut: nat) returns (res: SealResult, len: nat)
      requires Valid() && written < |outgoing| && (usePrevious ==> wEpoch >= 1)
      requires outgoing[written].OutMessage? && outgoing[written].msg == m && outgoing[written].num == num
      requires outgoing[written].epoch == if usePrevious then wEpoch - 1 else wEpoch
      requires offset + todo <= |m.body| && (todo == 0 ==> offset == |m.body|)
      requires todo == |m.body| - offset || maxOut == HEADER_LENGTH + CipherOf(outgoing[written]).Overhead() + todo
      modifies this`offset, this`writeSequence, this`lastWriteSequence, this`log, this`counts
      ensures Valid() && !res.NoProgress?
      ensures Passed(old(counts), counts, res.SealError?, false, |log|)
      ensures res.SealError? ==> offset == old(offset) && log == old(log) && counts.failures == old(counts.failures) + 1
      ensures res.Partial? ==> maxOut < len + Need(outgoing[written])
      ensures !res.SealError? ==>
                && len <= maxOut
                && |log| == |old(log)| + 1 && log == old(log) + [log[|log| - 1]] && Short(log[|log| - 1], maxOut)
                && Advance(outgoing, old(Pos()), log[|log| - 1])
                   == Some(if res.Success? then Position(written + 1, 0) else Pos())
      ensures res.Success? ==> offset == 0
    {
      var ok;
      ok, len := SealRecord(PieceLoad(PieceOf(m, num, offset, todo)), usePrevious, maxOut);
      if !ok {
        return SealError, 0;
      }
      if todo == |m.body| - offset {
        offset := 0;
        return Success, len;
      }
      offset := offset + todo;
      return Partial, len;
    }

    /** One pass of the loop of `seal_next_packet`, which steps to the next message on success. */
    method SealAndStep(maxOut: nat, ghost start: Position, ghost rs: seq<Sealed>) returns (res: SealResult, len: nat)
      requires Valid() && written < |outgoing|
      requires Within(outgoing, start) && AdvanceAll(outgoing, start, rs) == Some(Pos())
      modifies this`written, this`offset, this`writeSequence, this`lastWriteSequence, this`log, this`counts
      ensures Valid()
      ensures Passed(old(counts), counts, res.SealError?, false, |log|)
      ensures res.SealError? || res.NoProgress? ==> Pos() == old(Pos()) && log == old(log)
      ensures written == if res.Success? then old(written) + 1 else old(written)
      ensures res.NoProgress? ==> maxOut < Need(outgoing[written])
      ensures res.SealError? && counts.failures == old(counts.failures) ==> KeysGone(outgoing[written])
      ensures res.Partial? ==> maxOut < len + Need(outgoing[written])
      ensures res.Partial? || res.Success? ==>
                && len <= maxOut
                && |log| == |old(log)| + 1 && log == old(log) + [log[|log| - 1]] && Short(log[|log| - 1], maxOut)
                && AdvanceAll(outgoing, start, rs + [log[|log| - 1]]) == Some(Pos())
    {
      res, len := SealNextMessage(maxOut);
      if res.Partial? || res.Success? {
        AdvanceStep(outgoing, start, rs, log[|log| - 1]);
        if res.Success? {
          StepOn();
        }
      }
    }

    /** The current message is done with. */
    method StepOn()
      requires Valid() && written < |outgoing| && offset == 0
      modifies this`written
      ensures Valid() && written == old(written) + 1
    {
      written := written + 1;
    }

    /** `seal_next_packet`: as much of the flight as fits into `maxOut` bytes, and at least one record. */
    method SealNextPacket(maxOut: nat) returns (ok: bool, len: nat, rs: seq<Sealed>)
      requires Valid() && written < |outgoing|
      modifies this`written, this`offset, this`writeSequence, this`lastWriteSequence, this`log, this`counts
      ensures Valid()
      ensures Passed(old(counts), counts, !ok, false, |log|)
      ensures log == old(log) + rs
      ensures ok ==> len <= maxOut
      ensures ok ==> written == |outgoing| || maxOut < len + Need(outgoing[written])
      ensures !ok && counts.failures == old(counts.failures) ==> Stuck(maxOut)
      ensures AllShort(rs, maxOut)
      ensures ok ==> AdvanceAll(outgoing, old(Pos()), rs) == Some(Pos()) && Before(old(Pos()), Pos())
    {
      var total: nat, madeProgress := 0, false;
      rs := [];
      while written < |outgoing|
        invariant Valid() && total <= maxOut
        invariant log == old(log) + rs && Passed(old(counts), counts, false, false, |log|) && AllShort(rs, maxOut)
        invariant AdvanceAll(outgoing, old(Pos()), rs) == Some(Pos())
        invariant madeProgress <==> rs != []
        invariant !madeProgress ==> total == 0
        decreases |outgoing| - written
      {
        var res, n := SealAndStep(maxOut - total, old(Pos()), rs);
        if res.SealError? {
          return false, 0, rs;
        }
        if res.NoProgress? {
          assert maxOut - total < Need(outgoing[written]);
          break;
        }
        total, madeProgress := total + n, true;
        rs := rs + [log[|log| - 1]];
        if res.Partial? {
          break;
        }
      }
      return madeProgress, total, rs;
    }

    /** `send_flight`. If the transport refuses a packet, the position goes back to the start of that
        packet, so what the transport has taken, `rs`, is always a gapless run from where the call began. */
    method SendFlight(mtu: nat) returns (res: FlightResult, rs: seq<Sealed>)
      requires Valid()
      modifies this`written, this`offset, this`writeSequence, this`lastWriteSequence, this`log, this`counts
      ensures Valid()
      ensures Passed(old(counts), counts, res.Failed?, res.Blocked?, |log|)
      ensures old(log) <= log && Drawn(rs, log[|old(log)|..]) && AllShort(rs, mtu)
      ensures res.Failed? && counts.failures == old(counts.failures) ==> Stuck(mtu)
      ensures !res.Failed? ==> AdvanceAll(outgoing, old(Pos()), rs) == Some(Pos())
      ensures res.Sent? ==> Pos() == Position(|outgoing|, 0)
    {
      rs := [];
      ghost var start := Pos();
      while written < |outgoing|
        invariant Valid()
        invariant old(log) <= log && Passed(old(counts), counts, false, false, |log|)
        invariant Drawn(rs, log[|old(log)|..]) && AllShort(rs, mtu)
        invariant AdvanceAll(outgoing, start, rs) == Some(Pos())
        decreases |outgoing| - written, if written < |outgoing| then |outgoing[written].Body()| - offset else 0
      {
        ghost var (before, had) := (log, rs);
        res, rs := SendPacket(mtu, start, rs);
        DrawnStep(had, |old(log)|, before, log, res.Sent?);
        if !res.Sent? {
          return;
        }
      }
      var flushed: bool := *;
      if !flushed {
        counts := counts.(refusals := counts.refusals + 1);
        return Blocked, rs;
      }
      return Sent, rs;
    }

    /** One pass of the loop of `send_flight`: a packet is sealed and offered to the transport, after `rs`
        had been sent since `start`. */
    method SendPacket(mtu: nat, ghost start: Position, rs: seq<Sealed>)
      returns (res: FlightResult, rs': seq<Sealed>)
      requires Valid() && written < |outgoing|
      requires Within(outgoing, start) && AdvanceAll(outgoing, start, rs) == Some(Pos())
      modifies this`written, this`offset, this`writeSequence, this`lastWriteSequence, this`log, this`counts
      ensures Valid()
      ensures Passed(old(counts), counts, res.Failed?, res.Blocked?, |log|)
      ensures old(log) <= log
      ensures res.Failed? && counts.failures == old(counts.failures) ==> Stuck(mtu)
      ensures !res.Failed? ==> AdvanceAll(outgoing, start, rs') == Some(Pos())
      ensures res.Sent? ==> Before(old(Pos()), Pos())
      ensures rs' == if res.Sent? then rs + log[|old(log)|..] else rs
      ensures AllShort(rs, mtu) ==> AllShort(rs', mtu)
    {
      var oldWritten, oldOffset := written, offset;
      var ok, len, packet := SealNextPacket(mtu);
      if !ok {
        return Failed, rs;
      }
      assert len <= mtu;
      var accepted: bool := *;
      if !accepted {
        StepBack(oldWritten, oldOffset);
        return Blocked, rs;
      }
      rs' := rs + packet;
      assert AdvanceAll(outgoing, start, rs') == Some(Pos()) by {
        AdvanceJoin(outgoing, start, rs, packet);
      }
      return Sent, rs';
    }

    /** The transport has refused: the packet is to be sealed again next time. */
    method StepBack(oldWritten: nat, oldOffset: nat)
      requires Valid() && Within(outgoing, Position(oldWritten, oldOffset))
      modifies this`written, this`offset, this`counts
      ensures Valid() && Pos() == Position(oldWritten, oldOffset)
      ensures counts == old(counts).(refusals := old(counts).refusals + 1)
    {
      counts := counts.(refusals := counts.refusals + 1);
      written, offset := oldWritten, oldOffset;
    }

    /** `dtls1_flush_flight`. */
    method Flush(mtu: nat) returns (res: FlightResult, rs: seq<Sealed>)
      requires Valid()
      modifies this`complete, this`written, this`offset, this`writeSequence, this`lastWriteSequence, this`log, this`counts
      ensures Valid() && complete
      ensures Passed(old(counts), counts, res.Failed?, res.Blocked?, |log|)
      ensures old(log) <= log && Drawn(rs, log[|old(log)|..]) && AllShort(rs, mtu)
      ensures res.Failed? && counts.failures == old(counts.failures) ==> Stuck(mtu)
      ensures !res.Failed? ==> AdvanceAll(outgoing, old(Pos()), rs) == Some(Pos())
      ensures res.Sent? ==> Pos() == Position(|outgoing|, 0)
    {
      complete := true;
      res, rs := SendFlight(mtu);
    }

    /** `dtls1_retransmit_outgoing_messages`: a retransmission that is sent in full carries every message
        of the flight whole, whatever was sent before it. */
    method Retransmit(mtu: nat) returns (res: FlightResult, rs: seq<Sealed>)
      requires Valid()
      modifies this`written, this`offset, this`writeSequence, this`lastWriteSequence, this`log, this`counts
      ensures Valid()
      ensures Passed(old(counts), counts, res.Failed?, res.Blocked?, |log|)
      ensures old(log) <= log && Drawn(rs, log[|old(log)|..]) && AllShort(rs, mtu)
      ensures res.Failed? && counts.failures == old(counts.failures) ==> Stuck(mtu)
      ensures !res.Failed? ==> AdvanceAll(outgoing, Position(0, 0), rs) == Some(Pos())
      ensures res.Sent? ==> Pos() == Position(|outgoing|, 0)
      ensures res.Sent? ==> forall i | 0 <= i < |outgoing| :: Carried(outgoing[i], rs) == outgoing[i].Body()
    {
      written, offset := 0, 0;
      res, rs := SendFlight(mtu);
      if res.Sent? {
        FullPassCarriesAll(outgoing, rs);
      }
    }

    /** `add_outgoing` for a handshake message, with `dtls1_init_message` and `dtls1_finish_message`. */
    method AddMessage(typ: byte, body: seq<byte>) returns (ok: bool)
      requires Valid() && writeSeq + 1 < 0x1_0000
      modifies this`outgoing, this`written, this`offset, this`complete, this`writeSeq, this`history
      ensures Valid()
      ensures history == if ok then old(history) + [Message(typ, body)] else old(history)
      ensures ok <==> |body| < 0x100_0000 && (old(complete) || |old(outgoing)| < MAX_FLIGHT)
      ensures ok ==> !complete
      ensures ok ==> outgoing == (if old(complete) then [] else old(outgoing))
                                 + [OutMessage(Message(typ, body), old(writeSeq), wEpoch)]
    {
      if |body| >= 0x100_0000 {
        return false;
      }
      StartFlight();
      if |outgoing| >= MAX_FLIGHT {
        return false;
      }
      outgoing := outgoing + [OutMessage(Message(typ, body), writeSeq, wEpoch)];
      writeSeq := writeSeq + 1;
      GenuineWithMore(history, log, Message(typ, body));
      history := history + [Message(typ, body)];
      return true;
    }

    /** `add_outgoing` for a ChangeCipherSpec. */
    method AddChangeCipherSpec() returns (ok: bool)
      requires Valid()
      modifies this`outgoing, this`written, this`offset, this`complete
      ensures Valid()
      ensures ok <==> old(complete) || |old(outgoing)| < MAX_FLIGHT
      ensures ok ==> !complete && outgoing == (if old(complete) then [] else old(outgoing)) + [OutCcs(wEpoch)]
    {
      StartFlight();
      if |outgoing| >= MAX_FLIGHT {
        return false;
      }
      outgoing := outgoing + [OutCcs(wEpoch)];
      return true;
    }

    /** The start of `add_outgoing`: the first message after a flush drops the old flight. */
    method StartFlight()
      requires Valid()
      modifies this`outgoing, this`written, this`offset, this`complete
      ensures Valid() && !complete
      ensures outgoing == if old(complete) then [] else old(outgoing)
      ensures !old(complete) ==> Pos() == old(Pos())
    {
      if complete {
        outgoing, written, offset, complete := [], 0, 0, false;
      }
    }

    /** `dtls1_set_write_state`. */
    method SetWriteState(cipher: Aead)
      requires Valid() && wEpoch + 1 < 0x1_0000
      modifies this`wEpoch, this`writeSequence, this`lastWriteSequence, this`aead, this`lastAead
      ensures Valid()
      ensures wEpoch == old(wEpoch) + 1 && writeSequence == 0 && lastWriteSequence == old(writeSequence)
      ensures aead == cipher && lastAead == old(aead)
    {
      wEpoch := wEpoch + 1;
      lastWriteSequence := writeSequence;
      writeSequence := 0;
      lastAead := aead;
      aead := cipher;
    }
  }

  /** What the bound is for: past the last sequence number the next record takes the first number again. */
  method SealPastTheLast(s: Sender, len: nat) returns (first: bool, second: bool)
    requires s.Valid() && s.writeSequence == SEQUENCE_BOUND - 1
    requires exists i :: 0 <= i < |s.log| && s.log[i].epoch == s.wEpoch && s.log[i].seqNum == 0
    modifies s
    ensures s.Valid() && !first && old(s.log) <= s.log
    ensures s.counts.updates == old(s.counts.updates) + 2 && second ==> s.counts.wrapped && !DistinctNumbers(s.log)
  {
    var i :| 0 <= i < |s.log| && s.log[i].epoch == s.wEpoch && s.log[i].seqNum == 0;
    var n;
    first, n := s.SealRecord(DataLoad(len), false, len + s.aead.Overhead());
    second, n := s.SealRecord(DataLoad(len), false, len + s.aead.Overhead());
    assert s.log[i] == old(s.log)[i];
    if s.counts.updates == old(s.counts.updates) + 2 && second {
      assert s.log[|s.log| - 1].seqNum == 0;
    }
  }
}
