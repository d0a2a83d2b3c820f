/** The receiving side as a whole: the record layer in front of the handshake messages. */
module DtlsEndpoint {
  import opened Basics
  import opened HandshakeWire
  import opened DtlsReceiving
  import opened DtlsReceiver
  import opened DtlsFlight
  import opened DtlsSender
  import opened DtlsDelivery
  import opened ReplayWindow

  /** The number of a record in the replay window. */
  function WindowNumber(r: Sealed): nat {
    r.epoch * SEQUENCE_BOUND + r.seqNum
  }

  function PlainLength(r: Sealed): nat {
    match r
    case SealedPiece(_, _, p) => HEADER_LENGTH + |p.body|
    case SealedCcs(_, _) => 1
    case SealedData(_, _, len) => len
  }

  /** The epoch and the sequence number of a record fit its header, and so does its fragment. */
  predicate WellFormed(r: Sealed) {
    r.epoch < 0x1_0000 && r.seqNum < SEQUENCE_BOUND && (r.SealedPiece? ==> Fits(r.piece))
  }

  class Endpoint {
    const records: Reader
    const handshake: Receiver

    ghost predicate Valid()
      reads this, records, records.window, handshake, handshake.Repr
    {
      && records.Valid() && handshake.Valid() && records.rEpoch == handshake.epoch
      && records !in handshake.Repr && records.window !in handshake.Repr
    }

    constructor (maxLen: nat)
      ensures Valid() && fresh(records) && fresh(records.window) && fresh(handshake.Repr)
      ensures handshake.maxLen == maxLen && handshake.view == Initial() && records.window.seen == {}
    {
      records := new Reader();
      handshake := new Receiver(maxLen);
    }

    /** The record layer drops `r`: it is of another epoch, was accepted before, or is too old. */
    ghost predicate Drops(r: Sealed)
      reads records, records.window
    {
      || r.epoch != records.rEpoch || WindowNumber(r) in records.window.seen
      || WindowNumber(r) + WINDOW <= records.window.maxSeqNum
    }

    /** A record of the peer arrives: `dtls_open_record`, and what `dtls1_read_message` makes of what it opens. */
    method Arrive(r: Sealed) returns (ok: bool)
      requires Valid() && WellFormed(r)
      modifies records, records.window, handshake.Repr
      ensures Valid() && fresh(handshake.Repr - old(handshake.Repr))
      ensures old(Drops(r)) ==> ok && handshake.view == old(handshake.view) && records.window.seen == old(records.window.seen)
      ensures !old(Drops(r)) && PlainLength(r) > MAX_PLAIN ==> !ok && handshake.view == old(handshake.view)
      ensures !old(Drops(r)) && PlainLength(r) <= MAX_PLAIN ==>
        && (handshake.view, ok) == AcceptRecord(old(handshake.view), Opened(r), handshake.maxLen)
        && records.window.seen == old(records.window.seen) + {WindowNumber(r)}
    {
      var res := OpenSealed(r);
      if !res.Accepted? {
        return res.Discarded?;
      }
      ok := handshake.ReadMessage(Opened(r));
    }

    /** `dtls_open_record` on a record that the peer has sealed. */
    method OpenSealed(r: Sealed) returns (res: OpenResult)
      requires records.Valid() && WellFormed(r)
      modifies records`recorded, records.window
      ensures records.Valid()
      ensures res == if old(Drops(r)) then Discarded else if PlainLength(r) > MAX_PLAIN then Fatal else Accepted
      ensures records.window.seen == old(records.window.seen) + if res.Accepted? then {WindowNumber(r)} else {}
    {
      SequenceBytesValue(r.epoch, r.seqNum);
      res := records.OpenRecord(SequenceBytes(r.epoch, r.seqNum), true, PlainLength(r));
    }

    /** `dtls1_set_read_state`: the epoch and the window change with the keys. */
    method ChangeKeys() returns (ok: bool)
      requires Valid() && records.rEpoch + 1 < 0x1_0000
      modifies records, records.window, handshake`epoch, handshake`nullCipher, handshake`view
      ensures Valid() && handshake.Repr == old(handshake.Repr)
      ensures (handshake.view, ok) == ChangeReadState(old(handshake.view))
      ensures ok ==> records.window.seen == {}
    {
      ok := handshake.SetReadState();
      if ok {
        records.ChangeEpoch();
      }
    }
  }

  // ---- A pass goes through the record layer ----

  /** Every number in the window is that of a record of the log, of the epoch of the window. */
  ghost predicate Heard(seen: set<nat>, epoch: nat, log: seq<Sealed>) {
    forall m | m in seen :: exists r :: r in log && r.epoch == epoch && WindowNumber(r) == m
  }

  /** What the window has heard of besides `before` is of records of `rs`. */
  ghost predicate HeardMore(before: set<nat>, seen: set<nat>, epoch: nat, rs: seq<Sealed>) {
    forall m | m in seen :: m in before || exists r :: r in rs && r.epoch == epoch && WindowNumber(r) == m
  }

  /** Numbers larger than all in the window. */
  ghost predicate New(seen: set<nat>, epoch: nat, rs: seq<Sealed>) {
    forall m, j | m in seen && 0 <= j < |rs| && rs[j].epoch == epoch :: m < WindowNumber(rs[j])
  }

  /** Records sealed after what the window has heard of have new numbers. */
  lemma {:induction false} LaterIsNew(seen: set<nat>, epoch: nat, log: seq<Sealed>, start: nat, rs: seq<Sealed>)
    requires start <= |log| && Increasing(log) && Heard(seen, epoch, log[..start]) && Drawn(rs, log[start..])
    ensures New(seen, epoch, rs) && Increasing(rs) && forall r | r in rs :: r in log
  {
    assert Increasing(log[start..]) by {
      assert forall i | 0 <= i < |log[start..]| :: log[start..][i] == log[start + i];
    }
    DrawnKeepsOrder(rs, log[start..]);
    forall m, j | m in seen && 0 <= j < |rs| && rs[j].epoch == epoch
      ensures m < WindowNumber(rs[j])
    {
      var i :| 0 <= i < start && log[i].epoch == epoch && WindowNumber(log[i]) == m;
      assert rs[j] in log[start..];
      var k :| start <= k < |log| && log[k] == rs[j];
      assert log[i].seqNum < log[k].seqNum;
    }
  }

  /** Whether a ChangeCipherSpec was read makes no difference to a fragment. */
  lemma {:induction false} CcsAside(v: View, p: Piece, maxLen: nat, hasCcs: bool)
    requires v.Ok() && FitsHeader(p.msgLen, p.num)
    ensures AcceptPiece(v.(hasCcs := hasCcs), p, maxLen)
         == (AcceptPiece(v, p, maxLen).0.(hasCcs := hasCcs), AcceptPiece(v, p, maxLen).1)
  {
  }

  /** A record of another epoch, which is dropped. */
  lemma {:induction false} FedOther(v: View, rs: seq<Sealed>, r: Sealed)
    requires r.epoch != v.epoch
    ensures PiecesOf(rs + [r], v.epoch) == PiecesOf(rs, v.epoch)
    ensures SealedCcsOf(rs + [r], v.epoch) == SealedCcsOf(rs, v.epoch)
  {
    assert (rs + [r])[..|rs|] == rs;
  }

  lemma {:induction false} FedCcs(v: View, rs: seq<Sealed>, r: Sealed, maxLen: nat)
    requires v.Ok() && forall p | p in PiecesOf(rs, v.epoch) :: FitsHeader(p.msgLen, p.num)
    requires r.SealedCcs? && r.epoch == v.epoch && v.nullCipher
    ensures PiecesOf(rs + [r], v.epoch) == PiecesOf(rs, v.epoch)
    ensures AcceptRecord(Fed(v, rs, maxLen), Opened(r), maxLen) == (Fed(v, rs + [r], maxLen), true)
  {
    assert (rs + [r])[..|rs|] == rs;
    assert r in rs + [r];
  }

  lemma {:induction false} FeedOneMore(v: View, history: seq<Message>, ps: seq<Piece>, p: Piece, maxLen: nat)
    requires v.Ok() && Faithful(v, history) && AllHarmless(v, history, ps, maxLen)
    requires Genuine(history, p) && Harmless(v, p, maxLen)
    ensures AllHarmless(v, history, ps + [p], maxLen)
    ensures Feed(v, ps + [p], maxLen) == AcceptPiece(Feed(v, ps, maxLen).0, p, maxLen) && Feed(v, ps + [p], maxLen).1
  {
    assert (ps + [p])[..|ps|] == ps;
    FeedBuffers(v, history, ps, maxLen, v.readSeq);
    FatalExactly(Feed(v, ps, maxLen).0, history, p, maxLen);
  }

  lemma {:induction false} FedPiece(v: View, history: seq<Message>, rs: seq<Sealed>, r: Sealed, maxLen: nat)
    requires v.Ok() && Faithful(v, history) && AllHarmless(v, history, PiecesOf(rs, v.epoch), maxLen)
    requires r.SealedPiece? && r.epoch == v.epoch && Genuine(history, r.piece) && Harmless(v, r.piece, maxLen)
    ensures PiecesOf(rs + [r], v.epoch) == PiecesOf(rs, v.epoch) + [r.piece]
    ensures AllHarmless(v, history, PiecesOf(rs + [r], v.epoch), maxLen)
    ensures AcceptRecord(Fed(v, rs, maxLen), Opened(r), maxLen) == (Fed(v, rs + [r], maxLen), true)
  {
    assert (rs + [r])[..|rs|] == rs;
    assert SealedCcsOf(rs + [r], v.epoch) == SealedCcsOf(rs, v.epoch);
    var ps := PiecesOf(rs, v.epoch);
    FeedOneMore(v, history, ps, r.piece, maxLen);
    CcsAside(Feed(v, ps, maxLen).0, r.piece, maxLen, v.hasCcs || SealedCcsOf(rs, v.epoch));
    OpenedPiece(Fed(v, rs, maxLen), r.piece, maxLen);
  }

  /** The receiver takes `r` without an error if the record layer opens it. */
  ghost predicate Fine(v: View, history: seq<Message>, r: Sealed, maxLen: nat) {
    match r
    case SealedPiece(_, _, p) => Genuine(history, p) && (r.epoch == v.epoch ==> Harmless(v, p, maxLen))
    case SealedCcs(_, _) => r.epoch == v.epoch ==> v.nullCipher
    case SealedData(_, _, _) => false
  }

  lemma {:induction false} PassIsFine(v: View, history: seq<Message>, out: seq<Outgoing>, rs: seq<Sealed>, maxLen: nat)
    requires FullPass(history, out, rs) && NoneFatal(v, out, maxLen)
    ensures forall r | r in rs :: Fine(v, history, r, maxLen)
  {
    forall r | r in rs
      ensures Fine(v, history, r, maxLen)
    {
      var k: nat :| k < |rs| && rs[k] == r;
      var i := PassRecord(out, rs, k);
      assert out[i] in out;
      if r.SealedPiece? {
        var o := PieceIsOfFlight(history, out, rs, r);
      }
    }
  }

  /** One record of a pass: what it does to the view, and that it is not dropped unless it is of another epoch. */
  method ArriveNext(e: Endpoint, rs: seq<Sealed>, r: Sealed, ghost v: View, ghost history: seq<Message>)
    requires e.Valid() && WellFormed(r) && PlainLength(r) <= MAX_PLAIN
    requires v.Ok() && Faithful(v, history) && v.epoch == e.handshake.epoch
    requires AllHarmless(v, history, PiecesOf(rs, v.epoch), e.handshake.maxLen) && Fine(v, history, r, e.handshake.maxLen)
    requires e.handshake.view == Fed(v, rs, e.handshake.maxLen) && New(e.records.window.seen, v.epoch, [r])
    modifies e.records, e.records.window, e.handshake.Repr
    ensures e.Valid() && fresh(e.handshake.Repr - old(e.handshake.Repr))
    ensures AllHarmless(v, history, PiecesOf(rs + [r], v.epoch), e.handshake.maxLen)
    ensures e.handshake.view == Fed(v, rs + [r], e.handshake.maxLen)
    ensures e.records.window.seen == old(e.records.window.seen) + if r.epoch == v.epoch then {WindowNumber(r)} else {}
  {
    if r.epoch != v.epoch {
      FedOther(v, rs, r);
    } else {
      assert r == [r][0] && !e.Drops(r);
      if r.SealedCcs? {
        FedCcs(v, rs, r, e.handshake.maxLen);
      } else {
        FedPiece(v, history, rs, r, e.handshake.maxLen);
      }
    }
    var _ := e.Arrive(r);
  }

  lemma {:induction false} StillNew(seen: set<nat>, epoch: nat, rs: seq<Sealed>, k: nat)
    requires k < |rs| && Increasing(rs) && New(seen, epoch, rs[k..])
    ensures New(seen, epoch, [rs[k]])
    ensures New(if rs[k].epoch == epoch then seen + {WindowNumber(rs[k])} else seen, epoch, rs[k + 1..])
  {
    var (rest, tail) := (rs[k..], rs[k + 1..]);
    assert rest[0] == rs[k];
    forall m, j | m in seen && 0 <= j < |tail| && tail[j].epoch == epoch
      ensures m < WindowNumber(tail[j])
    {
      assert rest[j + 1] == tail[j];
    }
  }

  /** The records of a pass arrive in order: the record layer opens exactly those of the receiver's epoch. */
  method DeliverPass(e: Endpoint, rs: seq<Sealed>, ghost history: seq<Message>)
    requires e.Valid() && Faithful(e.handshake.view, history) && Increasing(rs)
    requires New(e.records.window.seen, e.handshake.epoch, rs)
    requires forall r | r in rs :: WellFormed(r) && PlainLength(r) <= MAX_PLAIN
    requires forall r | r in rs :: Fine(e.handshake.view, history, r, e.handshake.maxLen)
    modifies e.records, e.records.window, e.handshake.Repr
    ensures e.Valid() && fresh(e.handshake.Repr - old(e.handshake.Repr))
    ensures AllHarmless(old(e.handshake.view), history, PiecesOf(rs, old(e.handshake.epoch)), e.handshake.maxLen)
    ensures e.handshake.view == Fed(old(e.handshake.view), rs, e.handshake.maxLen)
    ensures HeardMore(old(e.records.window.seen), e.records.window.seen, old(e.handshake.epoch), rs)
  {
    ghost var (v, seen) := (e.handshake.view, e.records.window.seen);
    assert rs[0..] == rs;
    for k := 0 to |rs|
      invariant e.Valid() && fresh(e.handshake.Repr - old(e.handshake.Repr))
      invariant Midway(e, rs, k, v, history, seen)
    {
      DeliverNext(e, rs, k, v, history, seen);
    }
    assert rs[..|rs|] == rs;
  }

  /** The first `k` records of a pass have arrived. */
  ghost predicate Midway(e: Endpoint, rs: seq<Sealed>, k: nat, v: View, history: seq<Message>, seen: set<nat>)
    reads e, e.records, e.records.window, e.handshake
  {
    && k <= |rs| && v.Ok() && AllHarmless(v, history, PiecesOf(rs[..k], v.epoch), e.handshake.maxLen)
    && e.handshake.view == Fed(v, rs[..k], e.handshake.maxLen)
    && New(e.records.window.seen, v.epoch, rs[k..]) && HeardMore(seen, e.records.window.seen, v.epoch, rs)
  }

  method DeliverNext(e: Endpoint, rs: seq<Sealed>, k: nat, ghost v: View, ghost history: seq<Message>, ghost seen: set<nat>)
    requires e.Valid() && k < |rs| && Increasing(rs) && Midway(e, rs, k, v, history, seen) && Faithful(v, history)
    requires WellFormed(rs[k]) && PlainLength(rs[k]) <= MAX_PLAIN && Fine(v, history, rs[k], e.handshake.maxLen)
    modifies e.records, e.records.window, e.handshake.Repr
    ensures e.Valid() && fresh(e.handshake.Repr - old(e.handshake.Repr)) && Midway(e, rs, k + 1, v, history, seen)
  {
    StillNew(e.records.window.seen, v.epoch, rs, k);
    assert rs[k] in rs;
    assert rs[..k] + [rs[k]] == rs[..k + 1];
    ArriveNext(e, rs[..k], rs[k], v, history);
  }

  lemma {:induction false} TakenStep(v: View, n: nat, all: seq<Message>, ms: seq<Message>)
    requires v.Ok() && n > 0 && Taken(v, n).Some? && all == ms + Taken(v, n).value
    ensures Current(v).Some? && Taken(Next(v), n - 1).Some?
    ensures all == ms + [Current(v).value] + Taken(Next(v), n - 1).value
  {
  }

  method ReadOne(r: Receiver) returns (m: Message)
    requires r.Valid() && Current(r.view).Some?
    modifies r
    ensures r.Valid() && r.Repr == old(r.Repr) && m == Current(old(r.view)).value && r.view == Next(old(r.view))
  {
    var current := r.GetMessage();
    r.NextMessage();
    m := current.value;
  }

  method ReadMessages(r: Receiver, n: nat) returns (ms: seq<Message>)
    requires r.Valid() && Taken(r.view, n).Some?
    modifies r
    ensures r.Valid() && r.Repr == old(r.Repr) && ms == Taken(old(r.view), n).value && r.view == Skipped(old(r.view), n)
  {
    ms := [];
    ghost var (all, last) := (Taken(r.view, n).value, Skipped(r.view, n));
    for k := 0 to n
      invariant r.Valid() && r.Repr == old(r.Repr)
      invariant Taken(r.view, n - k).Some? && all == ms + Taken(r.view, n - k).value && last == Skipped(r.view, n - k)
    {
      TakenStep(r.view, n - k, all, ms);
      var m := ReadOne(r);
      ms := ms + [m];
    }
  }

  // ---- Retransmissions reach the receiver ----

  /** The receiver's window has heard only of records that the sender sealed, and no number has run over. */
  ghost predicate Linked(s: Sender, e: Endpoint)
    reads s, e, e.records, e.records.window, e.handshake, e.handshake.Repr
  {
    && s.Valid() && e.Valid() && s !in e.handshake.Repr && !s.counts.wrapped
    && Heard(e.records.window.seen, e.handshake.epoch, s.log)
    && Faithful(e.handshake.view, s.history) && e.handshake.readSeq <= |s.history|
  }

  /** A retransmission that the transport takes in full is a full pass, and its records are new to the receiver. */
  method RetransmitFor(s: Sender, e: Endpoint, mtu: nat) returns (res: FlightResult, rs: seq<Sealed>)
    requires Linked(s, e) && mtu <= MAX_PLAIN
    modifies s
    ensures s.Valid() && e.Valid() && old(s.log) <= s.log && s.history == old(s.history) && s.outgoing == old(s.outgoing)
    ensures !res.Failed? ==> Linked(s, e)
    ensures res.Sent? ==> FullPass(s.history, s.outgoing, rs) && Increasing(rs)
    ensures res.Sent? ==> New(e.records.window.seen, e.handshake.epoch, rs)
    ensures res.Sent? ==> forall r | r in rs :: r in s.log && WellFormed(r)
    ensures res.Sent? ==> forall r | r in rs && !r.SealedData? :: PlainLength(r) <= MAX_PLAIN
  {
    ghost var start := |s.log|;
    res, rs := s.Retransmit(mtu);
    if res.Sent? {
      assert s.log[..start] == old(s.log);
      LaterIsNew(e.records.window.seen, e.handshake.epoch, s.log, start, rs);
    }
  }

  /** The flight has a ChangeCipherSpec in this epoch. */
  ghost predicate HasCcs(out: seq<Outgoing>, epoch: nat) {
    exists i :: 0 <= i < |out| && out[i].OutCcs? && out[i].epoch == epoch
  }

  /** The view after the records of a pass have gone through the record layer and `n` messages have been taken. */
  ghost predicate AfterPass(v: View, v': View, history: seq<Message>, out: seq<Outgoing>, n: nat) {
    && v.Ok() && v'.Ok() && Faithful(v', history)
    && v'.readSeq == v.readSeq + n <= |history| && v'.epoch == v.epoch && v'.nullCipher == v.nullCipher
    && (HasCcs(out, v.epoch) ==> v'.hasCcs)
    && (AllBelow(v, v'.readSeq) && FlightBelow(out, v.epoch, v'.readSeq) ==> AllBelow(v', v'.readSeq))
  }

  lemma {:induction false} PassLeaves(v: View, history: seq<Message>, out: seq<Outgoing>, rs: seq<Sealed>, maxLen: nat, n: nat)
    requires v.Ok() && Faithful(v, history) && v.readSeq <= |history|
    requires FullPass(history, out, rs) && Awaited(v, out, maxLen, n)
    ensures AllHarmless(v, history, PiecesOf(rs, v.epoch), maxLen)
    ensures HandsOut(Fed(v, rs, maxLen), history, v.readSeq, n)
    ensures AfterPass(v, Skipped(Fed(v, rs, maxLen), n), history, out, n)
  {
    OpenedPassHandsOut(v, history, out, rs, maxLen, n);
    var fed := Fed(v, rs, maxLen);
    CcsAsideTaken(Feed(v, PiecesOf(rs, v.epoch), maxLen).0, n, fed.hasCcs);
    FeedBuffers(v, history, PiecesOf(rs, v.epoch), maxLen, v.readSeq);
    SkippedFaithful(fed, history, n);
    SkippedSlots(fed, n);
    if HasCcs(out, v.epoch) {
      var i: nat :| i < |out| && out[i].OutCcs? && out[i].epoch == v.epoch;
      PassHasCcs(out, rs, i);
    }
    if AllBelow(v, v.readSeq + n) && FlightBelow(out, v.epoch, v.readSeq + n) {
      PassBelow(v, history, out, rs, maxLen, v.readSeq + n);
    }
  }

  lemma {:induction false} CcsAsideTaken(v: View, n: nat, hasCcs: bool)
    requires v.Ok()
    ensures Taken(v.(hasCcs := hasCcs), n) == Taken(v, n)
    decreases n
  {
    if n > 0 {
      assert Next(v.(hasCcs := hasCcs)) == Next(v).(hasCcs := hasCcs);
      CcsAsideTaken(Next(v), n - 1, hasCcs);
    }
  }

  /** The records of a pass arrive, and the receiver hands out what it waits for. */
  method DeliverAndRead(e: Endpoint, rs: seq<Sealed>, n: nat, ghost history: seq<Message>, ghost out: seq<Outgoing>)
    returns (ms: seq<Message>)
    requires e.Valid() && Faithful(e.handshake.view, history) && e.handshake.readSeq <= |history|
    requires FullPass(history, out, rs) && Awaited(e.handshake.view, out, e.handshake.maxLen, n) && Increasing(rs)
    requires New(e.records.window.seen, e.handshake.epoch, rs)
    requires forall r | r in rs :: WellFormed(r) && (r.SealedData? || PlainLength(r) <= MAX_PLAIN)
    modifies e.records, e.records.window, e.handshake.Repr
    ensures e.Valid() && fresh(e.handshake.Repr - old(e.handshake.Repr))
    ensures AfterPass(old(e.handshake.view), e.handshake.view, history, out, n)
    ensures ms == history[old(e.handshake.readSeq)..e.handshake.readSeq]
    ensures HeardMore(old(e.records.window.seen), e.records.window.seen, old(e.handshake.epoch), rs)
  {
    PassIsFine(e.handshake.view, history, out, rs, e.handshake.maxLen);
    PassLeaves(e.handshake.view, history, out, rs, e.handshake.maxLen, n);
    DeliverPass(e, rs, history);
    ms := ReadMessages(e.handshake, n);
  }

  /** A retransmission that the transport takes in full, and whose records arrive, makes the receiver hand out the
      messages of the flight that it waits for in its epoch. Records of other epochs are dropped. The MTU keeps the
      plaintext of a record within what the record layer accepts. */
  method RetransmitAndRead(s: Sender, e: Endpoint, mtu: nat, n: nat) returns (res: FlightResult, ms: seq<Message>)
    requires Linked(s, e) && mtu <= MAX_PLAIN && Awaited(e.handshake.view, s.outgoing, e.handshake.maxLen, n)
    modifies s, e.records, e.records.window, e.handshake.Repr
    ensures s.Valid() && e.Valid() && s.history == old(s.history) && s.outgoing == old(s.outgoing)
    ensures fresh(e.handshake.Repr - old(e.handshake.Repr))
    ensures !res.Failed? ==> Linked(s, e)
    ensures !res.Sent? ==> e.handshake.view == old(e.handshake.view)
    ensures res.Sent? ==>
      && AfterPass(old(e.handshake.view), e.handshake.view, s.history, s.outgoing, n)
      && ms == s.history[old(e.handshake.readSeq)..e.handshake.readSeq]
  {
    var rs;
    res, rs := RetransmitFor(s, e, mtu);
    ms := [];
    if res.Sent? {
      ms := DeliverAndRead(e, rs, n, s.history, s.outgoing);
    }
  }

  /** The last flight of a handshake: `n` messages in epoch 0, a ChangeCipherSpec, and one message in epoch 1. */
  ghost predicate LastFlight(v: View, out: seq<Outgoing>, maxLen: nat, n: nat)
    requires v.Ok()
  {
    var last := v.readSeq + n;
    && v.epoch == 0 && v.nullCipher && Awaited(v, out, maxLen, n) && AllBelow(v, last)
    && HasCcs(out, 0) && FlightBelow(out, 0, last) && InFlightAt(out, last, 1)
    && forall o | o in out && o.epoch == 1 :: o.OutMessage? && o.num == last && |o.msg.body| <= maxLen
  }

  lemma {:induction false} ReadyForKeys(v: View, v': View, history: seq<Message>, out: seq<Outgoing>, maxLen: nat, n: nat)
    requires v.Ok() && LastFlight(v, out, maxLen, n) && AfterPass(v, v', history, out, n)
    ensures v'.hasCcs && !HasIncoming(v') && Awaited(v'.(hasCcs := false, epoch := 1, nullCipher := false), out, maxLen, 1)
  {
    assert forall i | 0 <= i < FLIGHT :: v'.slots[i].Empty?;
  }

  /** The ChangeCipherSpec is used, and the keys change. */
  method TakeNewKeys(s: Sender, e: Endpoint)
    requires Linked(s, e) && e.handshake.epoch == 0 && e.handshake.hasCcs && !HasIncoming(e.handshake.view)
    modifies e.records, e.records.window, e.handshake
    ensures Linked(s, e) && e.handshake.Repr == old(e.handshake.Repr)
    ensures e.handshake.view == old(e.handshake.view).(hasCcs := false, epoch := 1, nullCipher := false)
  {
    var _ := e.handshake.ReadChangeCipherSpec();
    var ok := e.ChangeKeys();
    assert ok;
  }

  /** The first retransmission of the last flight, and the change of keys. */
  method ReadUpToKeys(s: Sender, e: Endpoint, mtu: nat, n: nat) returns (done: bool, ms: seq<Message>)
    requires Linked(s, e) && mtu <= MAX_PLAIN && LastFlight(e.handshake.view, s.outgoing, e.handshake.maxLen, n)
    modifies s, e.records, e.records.window, e.handshake.Repr
    ensures s.Valid() && e.Valid() && s.history == old(s.history) && s.outgoing == old(s.outgoing)
    ensures fresh(e.handshake.Repr - old(e.handshake.Repr))
    ensures done ==>
      && Linked(s, e) && Awaited(e.handshake.view, s.outgoing, e.handshake.maxLen, 1)
      && e.handshake.epoch == 1 && e.handshake.readSeq == old(e.handshake.readSeq) + n <= |s.history|
      && ms == s.history[old(e.handshake.readSeq)..e.handshake.readSeq]
  {
    ghost var v := e.handshake.view;
    var res;
    res, ms := RetransmitAndRead(s, e, mtu, n);
    if !res.Sent? {
      return false, [];
    }
    ReadyForKeys(v, e.handshake.view, s.history, s.outgoing, e.handshake.maxLen, n);
    TakeNewKeys(s, e);
    return true, ms;
  }

  /** Two retransmissions bring over the last flight: the first its messages up to the ChangeCipherSpec, since what
      follows is dropped; and the second, after the keys have changed, the message in the new epoch. */
  method ReadLastFlight(s: Sender, e: Endpoint, mtu: nat, n: nat) returns (done: bool, ms: seq<Message>)
    requires Linked(s, e) && mtu <= MAX_PLAIN && LastFlight(e.handshake.view, s.outgoing, e.handshake.maxLen, n)
    modifies s, e.records, e.records.window, e.handshake.Repr
    ensures s.Valid() && e.Valid() && s.history == old(s.history)
    ensures done ==>
      && e.handshake.epoch == 1 && e.handshake.readSeq == old(e.handshake.readSeq) + n + 1 <= |s.history|
      && ms == s.history[old(e.handshake.readSeq)..e.handshake.readSeq]
  {
    done, ms := ReadUpToKeys(s, e, mtu, n);
    if done {
      var res, last := RetransmitAndRead(s, e, mtu, 1);
      done, ms := res.Sent?, ms + last;
    }
  }

  /** The smallest case, from the start: a message, a ChangeCipherSpec, and after the change of keys another message. */
  method MeetLastFlight(first: Message, last: Message, cipher: Aead, maxLen: nat, mtu: nat) returns (done: bool, ms: seq<Message>)
    requires |first.body| <= maxLen && |last.body| <= maxLen < 0x100_0000 && mtu <= MAX_PLAIN
    ensures done ==> ms == [first, last]
  {
    var s := PrepareLastFlight(first, last, cipher);
    var e := Meet(s, maxLen);
    SmallestLastFlight(first, last, maxLen);
    done, ms := ReadLastFlight(s, e, mtu, 1);
    assert [first, last][0..2] == [first, last];
  }

  /** A new endpoint is linked to any sender that it has heard nothing of. */
  method Meet(s: Sender, maxLen: nat) returns (e: Endpoint)
    requires s.Valid() && !s.counts.wrapped
    ensures Linked(s, e) && fresh(e) && fresh(e.records) && fresh(e.records.window) && fresh(e.handshake.Repr)
    ensures e.handshake.view == Initial() && e.handshake.maxLen == maxLen
  {
    e := new Endpoint(maxLen);
  }

  method PrepareLastFlight(first: Message, last: Message, cipher: Aead) returns (s: Sender)
    requires |first.body| < 0x100_0000 && |last.body| < 0x100_0000
    ensures fresh(s) && s.Valid() && s.log == [] && !s.counts.wrapped && s.history == [first, last]
    ensures s.outgoing == [OutMessage(first, 0, 0), OutCcs(0), OutMessage(last, 1, 1)]
  {
    s := PrepareFirst(first);
    AddLast(s, last, cipher);
    assert [first] + [last] == [first, last];
  }

  method PrepareFirst(first: Message) returns (s: Sender)
    requires |first.body| < 0x100_0000
    ensures fresh(s) && s.Valid() && s.log == [] && !s.counts.wrapped && s.history == [first]
    ensures s.outgoing == [OutMessage(first, 0, 0)] + [OutCcs(0)] && s.wEpoch == 0 && !s.complete
  {
    s := new Sender();
    var ok := s.AddMessage(first.typ, first.body);
    ok := s.AddChangeCipherSpec();
  }

  method AddLast(s: Sender, last: Message, cipher: Aead)
    requires s.Valid() && !s.complete && |s.outgoing| < MAX_FLIGHT && s.writeSeq + 1 < 0x1_0000 && s.wEpoch == 0
    requires |last.body| < 0x100_0000
    modifies s
    ensures s.Valid() && s.log == old(s.log) && s.counts == old(s.counts) && s.history == old(s.history) + [last]
    ensures s.outgoing == old(s.outgoing) + [OutMessage(last, old(s.writeSeq), 1)]
  {
    s.SetWriteState(cipher);
    var ok := s.AddMessage(last.typ, last.body);
  }

  lemma {:induction false} SmallestLastFlight(first: Message, last: Message, maxLen: nat)
    requires |first.body| <= maxLen && |last.body| <= maxLen
    ensures LastFlight(Initial(), [OutMessage(first, 0, 0), OutCcs(0), OutMessage(last, 1, 1)], maxLen, 1)
  {
    var out := [OutMessage(first, 0, 0), OutCcs(0), OutMessage(last, 1, 1)];
    assert out[0] in out && out[2] in out && out[1].OutCcs?;
    assert InFlightAt(out, 0, 0) && InFlightAt(out, 1, 1) && HasCcs(out, 0);
  }
}
