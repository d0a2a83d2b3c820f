/** What a DTLS receiver makes of fragments of real messages, whatever their order. */
module DtlsDelivery {
  import opened Basics
  import opened HandshakeWire
  import opened Ranges
  import opened Reassembly
  import opened DtlsReceiving
  import opened DtlsFlight
  import opened DtlsSender

  /** Everything buffered in `v` was copied from the message of that number in `history`. */
  ghost predicate Faithful(v: View, history: seq<Message>)
    requires v.Ok()
  {
    forall i | 0 <= i < FLIGHT && v.slots[i].Filling? :: FaithfulSlot(v.slots[i], history)
  }

  ghost predicate FaithfulSlot(s: Slot, history: seq<Message>)
    requires s.Filling?
  {
    && s.num < |history|
    && s.typ == history[s.num].typ
    && s.msgLen == |history[s.num].body|
    && forall j | j in s.got :: j < s.msgLen && s.got[j] == history[s.num].body[j]
  }

  /** A slot of the window holds the one number of the window that belongs there. */
  lemma {:induction false} SlotNumber(v: View, num: nat)
    requires v.Ok() && v.readSeq <= num < v.readSeq + FLIGHT && v.slots[num % FLIGHT].Filling?
    ensures v.slots[num % FLIGHT].num == num
  {
  }

  /** What is already in the slot of a genuine fragment is genuine and agrees with it. */
  lemma {:induction false} SlotIsFaithful(v: View, history: seq<Message>, p: Piece)
    requires v.Ok() && Faithful(v, history) && Genuine(history, p) && InWindow(v, p)
    ensures var s := SlotFor(v, p); s.num == p.num && FaithfulSlot(s, history) && Compatible(s, p)
  {
    if v.slots[p.num % FLIGHT].Filling? {
      SlotNumber(v, p.num);
    }
  }

  lemma {:induction false} StoreIsFaithful(s: Slot, history: seq<Message>, p: Piece)
    requires s.Filling? && FaithfulSlot(s, history) && Genuine(history, p) && s.num == p.num
    ensures FaithfulSlot(s.Store(p.off, p.body), history)
  {
  }

  lemma {:induction false} AcceptKeepsFaithful(v: View, history: seq<Message>, p: Piece, maxLen: nat)
    requires v.Ok() && Faithful(v, history) && Genuine(history, p)
    ensures Faithful(AcceptPiece(v, p, maxLen).0, history)
  {
    var v' := AcceptPiece(v, p, maxLen).0;
    if InWindow(v, p) {
      SlotIsFaithful(v, history, p);
      StoreIsFaithful(SlotFor(v, p), history, p);
    }
    assert forall i | 0 <= i < FLIGHT && i != p.num % FLIGHT :: v'.slots[i] == v.slots[i];
  }

  /** What the receiver makes of a sealed record that it can open. */
  function Opened(r: Sealed): Record
    requires r.SealedPiece? ==> Fits(r.piece)
  {
    match r
    case SealedPiece(_, _, p) => HandshakeRecord(WritePiece(p))
    case SealedCcs(_, _) => ChangeCipherSpecRecord([1])
    case SealedData(_, _, _) => ApplicationDataRecord
  }

  lemma {:induction false} OpenedPiece(v: View, p: Piece, maxLen: nat)
    requires v.Ok() && Fits(p)
    ensures AcceptPieces(v, WritePiece(p), maxLen) == AcceptPiece(v, p, maxLen)
  {
    ParseWritten(p, []);
    assert WritePiece(p) + [] == WritePiece(p);
    var (v', ok) := AcceptPiece(v, p, maxLen);
    assert AcceptPieces(v', [], maxLen) == (v', true);
  }

  /** The fragments of a record are taken one after another; a fatal one, or bytes that are no fragment, end the connection, and
      what came before has taken effect. */
  lemma {:induction false} FragmentsInTurn(v: View, p: Piece, rest: seq<byte>, maxLen: nat)
    requires v.Ok() && Fits(p)
    ensures var (v', ok) := AcceptPiece(v, p, maxLen);
      AcceptPieces(v, WritePiece(p) + rest, maxLen) == if ok then AcceptPieces(v', rest, maxLen) else (v', false)
    ensures rest != [] && ParsePiece(rest).None? ==> AcceptPieces(v, rest, maxLen) == (v, false)
  {
    ParseWritten(p, rest);
  }

  lemma {:induction false} OpenedKeepsFaithful(v: View, history: seq<Message>, r: Sealed, maxLen: nat)
    requires v.Ok() && Faithful(v, history)
    requires r.SealedPiece? ==> Genuine(history, r.piece)
    ensures Faithful(AcceptRecord(v, Opened(r), maxLen).0, history)
  {
    match r
    case SealedPiece(_, _, p) =>
      OpenedPiece(v, p, maxLen);
      AcceptKeepsFaithful(v, history, p, maxLen);
    case _ =>
  }

  /** The current message, once complete, is the sender's message of that number. */
  lemma {:induction false} CurrentIsSent(v: View, history: seq<Message>)
    requires v.Ok() && Faithful(v, history) && Current(v).Some?
    ensures v.readSeq < |history| && Current(v).value == history[v.readSeq]
  {
    var s := v.slots[v.readSeq % FLIGHT];
    SlotNumber(v, v.readSeq);
    assert FaithfulSlot(s, history);
    assert forall i | 0 <= i < s.msgLen :: i in Interval(0, s.msgLen);
    assert s.Assembled().body == history[s.num].body;
  }

  // ---- Which fragments are fatal ----

  /** What the receiver asks of a fragment besides that it belongs to a message really sent. */
  predicate Harmless(v: View, p: Piece, maxLen: nat) {
    p.msgLen <= maxLen && (v.epoch == 1 ==> p.num == v.readSeq) && p.num != v.readSeq + FLIGHT
  }

  /** A fragment of a real message ends the connection exactly when the message is too long, or not the current one
      in epoch 1, or exactly seven ahead. A message further ahead than that is ignored. */
  lemma {:induction false} FatalExactly(v: View, history: seq<Message>, p: Piece, maxLen: nat)
    requires v.Ok() && Faithful(v, history) && Genuine(history, p)
    ensures AcceptPiece(v, p, maxLen).1 <==> Harmless(v, p, maxLen)
    ensures p.msgLen <= maxLen && v.epoch != 1 && p.num > v.readSeq + FLIGHT ==> AcceptPiece(v, p, maxLen) == (v, true)
  {
    if InWindow(v, p) {
      SlotIsFaithful(v, history, p);
    }
  }

  /** The seven-ahead case at its smallest: nine empty messages have been sent, and nothing has arrived. Message 7 is
      fatal, while message 6 is stored and message 8 is ignored. */
  lemma {:induction false} SevenAheadIsFatal()
    ensures var history := seq(9, _ => Message(1, []));
            var (six, seven, eight) := (Piece(1, 0, 6, 0, []), Piece(1, 0, 7, 0, []), Piece(1, 0, 8, 0, []));
            && Faithful(Initial(), history) && Genuine(history, six) && Genuine(history, seven) && Genuine(history, eight)
            && AcceptPiece(Initial(), six, 0) == (Initial().(slots := Initial().slots[6 := Filling(1, 6, 0, map[])]), true)
            && AcceptPiece(Initial(), seven, 0) == (Initial(), false)
            && AcceptPiece(Initial(), eight, 0) == (Initial(), true)
  {
  }

  /** A fragment that contradicts what is buffered of its message. */
  predicate Contradicts(v: View, p: Piece)
    requires v.Ok()
  {
    InWindow(v, p) && var s := v.slots[p.num % FLIGHT]; s.Filling? && (s.typ != p.typ || s.msgLen != p.msgLen)
  }

  /** Any fragment, whoever made it: when it is fatal, when it is ignored and what it stores otherwise. A message keeps the type
      and the length that it had first, and once it is complete it never changes. */
  lemma {:induction false} AnyFragment(v: View, p: Piece, maxLen: nat)
    requires v.Ok() && FitsHeader(p.msgLen, p.num)
    ensures AcceptPiece(v, p, maxLen).1 <==>
      && p.off + |p.body| <= p.msgLen <= maxLen && (v.epoch == 1 ==> p.num == v.readSeq)
      && p.num != v.readSeq + FLIGHT && !Contradicts(v, p)
    ensures !AcceptPiece(v, p, maxLen).1 || !InWindow(v, p) ==> AcceptPiece(v, p, maxLen).0 == v
    ensures AcceptPiece(v, p, maxLen).1 && InWindow(v, p) ==>
      var (s, s') := (SlotFor(v, p), AcceptPiece(v, p, maxLen).0.slots[p.num % FLIGHT]);
      && s'.Filling? && s'.typ == p.typ && s'.msgLen == p.msgLen && s'.num == s.num
      && (s.Complete() ==> s' == s)
      && (!s.Complete() ==>
            && s'.got.Keys == s.got.Keys + Interval(p.off, p.off + |p.body|)
            && forall i | i in s'.got :: s'.got[i] == if p.off <= i < p.off + |p.body| then p.body[i - p.off] else s.got[i])
    ensures forall i | 0 <= i < FLIGHT && i != p.num % FLIGHT :: AcceptPiece(v, p, maxLen).0.slots[i] == v.slots[i]
  {
  }

  /** Records that carry no fragments: application data needs a cipher, a ChangeCipherSpec needs that there is none yet and has
      one byte, and anything else is fatal. None of them touches a message. */
  lemma {:induction false} OtherRecords(v: View, r: Record, maxLen: nat)
    requires v.Ok() && !r.HandshakeRecord?
    ensures AcceptRecord(v, r, maxLen).1 <==>
      (r.ApplicationDataRecord? && !v.nullCipher) || (r.ChangeCipherSpecRecord? && v.nullCipher && r.payload == [1])
    ensures AcceptRecord(v, r, maxLen).0
         == if r.ChangeCipherSpecRecord? && AcceptRecord(v, r, maxLen).1 then v.(hasCcs := true) else v
  {
  }

  /** Keys change only when nothing is buffered but the message being handled and no ChangeCipherSpec is left over, so that
      nothing that came under old keys is read after the change; otherwise nothing changes. */
  lemma {:induction false} NothingOutlivesKeys(v: View)
    requires v.Ok()
    ensures var (v', ok) := ChangeReadState(v);
      if ok then
        && !v.hasCcs && v' == v.(epoch := (v.epoch + 1) % 0x1_0000, nullCipher := false)
        && forall i | 0 <= i < FLIGHT && v'.slots[i].Filling? :: v'.hasMessage && i == v'.readSeq % FLIGHT
      else
        && v' == v
        && (v.hasCcs || exists i :: 0 <= i < FLIGHT && v.slots[i].Filling? && !(v.hasMessage && i == v.readSeq % FLIGHT))
  {
    assert !HasIncoming(v) ==> forall i | 0 <= i < FLIGHT && v.slots[i].Filling? :: v.hasMessage && i == v.readSeq % FLIGHT;
  }

  /** Once a message has been released, keys change only if nothing at all is buffered. */
  lemma {:induction false} ReleasedBeforeKeys(v: View)
    requires v.Ok() && ChangeReadState(Next(v)).1
    ensures forall i | 0 <= i < FLIGHT :: Next(v).slots[i].Empty?
  {
    NothingOutlivesKeys(Next(v));
  }

  // ---- What has arrived is handed out ----

  /** The body positions of message `num` that are buffered. */
  ghost function Buffered(v: View, num: nat): set<nat>
    requires v.Ok()
  {
    var s := v.slots[num % FLIGHT];
    if s.Filling? then s.got.Keys else {}
  }

  /** Fragments of real messages, none of which is fatal. */
  ghost predicate AllHarmless(v: View, history: seq<Message>, ps: seq<Piece>, maxLen: nat) {
    forall i | 0 <= i < |ps| :: Genuine(history, ps[i]) && Harmless(v, ps[i], maxLen)
  }

  ghost predicate CoveredBy(ps: seq<Piece>, num: nat, i: nat) {
    exists p :: p in ps && p.num == num && p.off <= i < p.off + |p.body|
  }

  /** Fragments cover message `num`: each of its positions, and at least one fragment if it is empty. */
  ghost predicate Covers(ps: seq<Piece>, num: nat, len: nat) {
    (exists p :: p in ps && p.num == num) && forall i: nat | i < len :: CoveredBy(ps, num, i)
  }

  /** Fragments one after another, as long as none is fatal. */
  ghost function Feed(v: View, ps: seq<Piece>, maxLen: nat): (r: (View, bool))
    requires v.Ok() && forall i | 0 <= i < |ps| :: FitsHeader(ps[i].msgLen, ps[i].num)
    ensures r.0.Ok() && r.0 == v.(slots := r.0.slots)
  {
    if ps == [] then (v, true)
    else
      var (v', ok) := Feed(v, ps[..|ps| - 1], maxLen);
      if ok then AcceptPiece(v', ps[|ps| - 1], maxLen) else (v', false)
  }

  /** A fragment leaves what is buffered of other messages alone, and adds its positions to its own. */
  lemma {:induction false} AcceptBuffers(v: View, history: seq<Message>, p: Piece, maxLen: nat, num: nat)
    requires v.Ok() && Faithful(v, history) && Genuine(history, p) && Harmless(v, p, maxLen)
    requires v.readSeq <= num < v.readSeq + FLIGHT
    ensures var v' := AcceptPiece(v, p, maxLen).0;
            && Buffered(v, num) <= Buffered(v', num)
            && (v.slots[num % FLIGHT].Filling? ==> v'.slots[num % FLIGHT].Filling?)
            && (p.num == num ==> v'.slots[num % FLIGHT].Filling? && Interval(p.off, p.off + |p.body|) <= Buffered(v', num))
  {
    FatalExactly(v, history, p, maxLen);
    if p.num == num {
      SlotIsFaithful(v, history, p);
      assert Interval(p.off, p.off + |p.body|) <= Interval(0, p.msgLen);
    }
  }

  lemma {:induction false} FeedBuffers(v: View, history: seq<Message>, ps: seq<Piece>, maxLen: nat, num: nat)
    requires v.Ok() && Faithful(v, history) && AllHarmless(v, history, ps, maxLen)
    requires v.readSeq <= num < v.readSeq + FLIGHT
    ensures var (v', ok) := Feed(v, ps, maxLen);
            && ok && Faithful(v', history)
            && ((exists p :: p in ps && p.num == num) ==> v'.slots[num % FLIGHT].Filling?)
            && forall i: nat | CoveredBy(ps, num, i) :: i in Buffered(v', num)
  {
    if ps != [] {
      var (front, p) := (ps[..|ps| - 1], ps[|ps| - 1]);
      FeedBuffers(v, history, front, maxLen, num);
      var v' := Feed(v, front, maxLen).0;
      assert Harmless(v', p, maxLen);
      FatalExactly(v', history, p, maxLen);
      AcceptBuffers(v', history, p, maxLen, num);
      AcceptKeepsFaithful(v', history, p, maxLen);
      assert ps == front + [p];
      forall i: nat | CoveredBy(ps, num, i)
        ensures i in Buffered(Feed(v, ps, maxLen).0, num)
      {
        assert CoveredBy(front, num, i) || i in Interval(p.off, p.off + |p.body|);
      }
    }
  }

  /** The slot of message `num` is complete, and holds `m`. */
  ghost predicate Assembled(v: View, num: nat, m: Message)
    requires v.Ok()
  {
    var s := v.slots[num % FLIGHT];
    s.Complete() && s.num == num && s.Assembled() == m
  }

  lemma {:induction false} FullBufferCompletes(v: View, history: seq<Message>, num: nat)
    requires v.Ok() && Faithful(v, history) && v.readSeq <= num < v.readSeq + FLIGHT && num < |history|
    requires v.slots[num % FLIGHT].Filling?
    requires forall i: nat | i < |history[num].body| :: i in Buffered(v, num)
    ensures Assembled(v, num, history[num])
  {
    var s := v.slots[num % FLIGHT];
    SlotNumber(v, num);
    assert FaithfulSlot(s, history);
    forall i | i in Interval(0, s.msgLen)
      ensures i in s.got
    {
      assert i in Buffered(v, num);
    }
    assert forall i | 0 <= i < s.msgLen :: i in Interval(0, s.msgLen);
    assert s.Assembled().body == history[num].body;
  }

  /** Once fragments covering a message in the window have arrived, it is assembled: whatever their order and overlaps,
      whatever was buffered before, and whatever other fragments that are not fatal come between. */
  lemma {:induction false} CoveredMessageCompletes(v: View, history: seq<Message>, ps: seq<Piece>, maxLen: nat, num: nat)
    requires v.Ok() && Faithful(v, history) && AllHarmless(v, history, ps, maxLen)
    requires v.readSeq <= num < v.readSeq + FLIGHT && num < |history| && Covers(ps, num, |history[num].body|)
    ensures Feed(v, ps, maxLen).1 && Assembled(Feed(v, ps, maxLen).0, num, history[num])
    ensures num == v.readSeq ==> Current(Feed(v, ps, maxLen).0) == Some(history[num])
  {
    FeedBuffers(v, history, ps, maxLen, num);
    FullBufferCompletes(Feed(v, ps, maxLen).0, history, num);
  }

  /** The next `n` messages, each taken with `dtls1_get_message` and `dtls1_next_message`. */
  ghost function Taken(v: View, n: nat): Option<seq<Message>>
    requires v.Ok()
    decreases n
  {
    if n == 0 then Some([])
    else
      match Current(v)
      case None => None
      case Some(m) =>
        var rest := Taken(Next(v), n - 1);
        if rest.None? then None else Some([m] + rest.value)
  }

  lemma {:induction false} StaysAssembled(v: View, num: nat, m: Message)
    requires v.Ok() && v.readSeq < num < v.readSeq + FLIGHT && Assembled(v, num, m)
    ensures Assembled(Next(v), num, m)
  {
    assert num % FLIGHT != v.readSeq % FLIGHT;
  }

  /** The next `n` messages are assembled. */
  ghost predicate AllAssembled(v: View, history: seq<Message>, n: nat)
    requires v.Ok()
  {
    && n <= FLIGHT && v.readSeq + n <= |history|
    && forall num | v.readSeq <= num < v.readSeq + n :: Assembled(v, num, history[num])
  }

  lemma {:induction false} NextAssembled(v: View, history: seq<Message>, n: nat)
    requires v.Ok() && n > 0 && AllAssembled(v, history, n)
    ensures Current(v) == Some(history[v.readSeq]) && AllAssembled(Next(v), history, n - 1)
  {
    assert Assembled(v, v.readSeq, history[v.readSeq]);
    forall num | v.readSeq + 1 <= num < v.readSeq + n
      ensures Assembled(Next(v), num, history[num])
    {
      assert Assembled(v, num, history[num]);
      StaysAssembled(v, num, history[num]);
    }
  }

  /** The receiver hands out the `n` messages from number `k` on. */
  ghost predicate HandsOut(v: View, history: seq<Message>, k: nat, n: nat) {
    v.Ok() && k + n <= |history| && Taken(v, n) == Some(history[k..k + n])
  }

  lemma {:induction false} HandsOutOneMore(v: View, history: seq<Message>, k: nat, n: nat)
    requires v.Ok() && n > 0 && k < |history| && Current(v) == Some(history[k]) && HandsOut(Next(v), history, k + 1, n - 1)
    ensures HandsOut(v, history, k, n)
  {
    assert history[k..k + n] == [history[k]] + history[k + 1..k + n];
  }

  lemma {:induction false} AssembledAreTaken(v: View, history: seq<Message>, n: nat)
    requires v.Ok() && AllAssembled(v, history, n)
    ensures HandsOut(v, history, v.readSeq, n)
    decreases n
  {
    if n > 0 {
      NextAssembled(v, history, n);
      AssembledAreTaken(Next(v), history, n - 1);
      HandsOutOneMore(v, history, v.readSeq, n);
    } else {
      assert history[v.readSeq..v.readSeq + n] == [];
    }
  }

  ghost predicate InFlight(out: seq<Outgoing>, num: nat) {
    exists o :: o in out && o.OutMessage? && o.num == num
  }

  ghost predicate FlightOf(history: seq<Message>, out: seq<Outgoing>) {
    forall i | 0 <= i < |out| && out[i].OutMessage? :: out[i].num < |history| && history[out[i].num] == out[i].msg
  }

  lemma {:induction false} PassCoversMessage(history: seq<Message>, out: seq<Outgoing>, rs: seq<Sealed>, ps: seq<Piece>, num: nat)
    requires Within(out, Position(0, 0)) && FlightOf(history, out) && InFlight(out, num)
    requires AdvanceAll(out, Position(0, 0), rs) == Some(Position(|out|, 0))
    requires forall r | r in rs && r.SealedPiece? && r.piece.num == num :: r.piece in ps
    ensures num < |history| && Covers(ps, num, |history[num].body|)
  {
    var i: nat :| i < |out| && out[i].OutMessage? && out[i].num == num;
    PassCovers(out, rs, i);
    forall j: nat | j < |history[num].body|
      ensures CoveredBy(ps, num, j)
    {
      assert CarriesAt(rs, num, j);
    }
    assert Mentions(rs, num);
  }

  lemma {:induction false} PassAssembles(
    v: View, history: seq<Message>, out: seq<Outgoing>, rs: seq<Sealed>, ps: seq<Piece>, maxLen: nat, num: nat)
    requires v.Ok() && Faithful(v, history) && AllHarmless(v, history, ps, maxLen)
    requires Within(out, Position(0, 0)) && FlightOf(history, out)
    requires AdvanceAll(out, Position(0, 0), rs) == Some(Position(|out|, 0))
    requires v.readSeq <= num < v.readSeq + FLIGHT && InFlight(out, num)
    requires forall r | r in rs && r.SealedPiece? && r.piece.num == num :: r.piece in ps
    ensures Feed(v, ps, maxLen).1 && num < |history| && Assembled(Feed(v, ps, maxLen).0, num, history[num])
  {
    PassCoversMessage(history, out, rs, ps, num);
    CoveredMessageCompletes(v, history, ps, maxLen, num);
  }

  lemma {:induction false} PassAssemblesAll(
    v: View, history: seq<Message>, out: seq<Outgoing>, rs: seq<Sealed>, ps: seq<Piece>, maxLen: nat, n: nat)
    requires v.Ok() && Faithful(v, history) && AllHarmless(v, history, ps, maxLen)
    requires Within(out, Position(0, 0)) && FlightOf(history, out)
    requires AdvanceAll(out, Position(0, 0), rs) == Some(Position(|out|, 0))
    requires n <= FLIGHT && v.readSeq <= |history| && forall num | v.readSeq <= num < v.readSeq + n :: InFlight(out, num)
    requires forall r | r in rs && r.SealedPiece? && v.readSeq <= r.piece.num < v.readSeq + n :: r.piece in ps
    ensures Feed(v, ps, maxLen).1 && AllAssembled(Feed(v, ps, maxLen).0, history, n)
  {
    forall num | v.readSeq <= num < v.readSeq + n
      ensures num < |history| && Assembled(Feed(v, ps, maxLen).0, num, history[num])
    {
      PassAssembles(v, history, out, rs, ps, maxLen, num);
    }
    if n > 0 {
      PassAssembles(v, history, out, rs, ps, maxLen, v.readSeq + n - 1);
    } else {
      FeedBuffers(v, history, ps, maxLen, v.readSeq);
    }
  }

  /** If the fragments of one full pass over a flight come out of the record layer, in any order, any number of times and
      among any others that are not fatal, then the next `n` messages are handed out, as far as the flight has them. */
  lemma {:induction false} FullPassHandsOut(
    v: View, history: seq<Message>, out: seq<Outgoing>, rs: seq<Sealed>, ps: seq<Piece>, maxLen: nat, n: nat)
    requires v.Ok() && Faithful(v, history) && AllHarmless(v, history, ps, maxLen)
    requires Within(out, Position(0, 0)) && FlightOf(history, out)
    requires AdvanceAll(out, Position(0, 0), rs) == Some(Position(|out|, 0))
    requires n <= FLIGHT && v.readSeq <= |history| && forall num | v.readSeq <= num < v.readSeq + n :: InFlight(out, num)
    requires forall r | r in rs && r.SealedPiece? && v.readSeq <= r.piece.num < v.readSeq + n :: r.piece in ps
    ensures Feed(v, ps, maxLen).1 && HandsOut(Feed(v, ps, maxLen).0, history, v.readSeq, n)
  {
    PassAssemblesAll(v, history, out, rs, ps, maxLen, n);
    AssembledAreTaken(Feed(v, ps, maxLen).0, history, n);
  }

  // ---- What the record layer opens ----

  /** The handshake fragments among the records of an epoch. */
  function PiecesOf(rs: seq<Sealed>, epoch: nat): seq<Piece> {
    if rs == [] then []
    else
      var r := rs[|rs| - 1];
      PiecesOf(rs[..|rs| - 1], epoch) + if r.SealedPiece? && r.epoch == epoch then [r.piece] else []
  }

  lemma {:induction false} PiecesOfMembers(rs: seq<Sealed>, epoch: nat)
    ensures forall p :: p in PiecesOf(rs, epoch) <==> exists r :: r in rs && r.SealedPiece? && r.epoch == epoch && r.piece == p
  {
    if rs != [] {
      var front := rs[..|rs| - 1];
      PiecesOfMembers(front, epoch);
      assert rs == front + [rs[|rs| - 1]];
    }
  }

  /** The view after records that the record layer opens: fragments are stored, and a ChangeCipherSpec is noted. */
  ghost function Fed(v: View, rs: seq<Sealed>, maxLen: nat): (v': View)
    requires v.Ok() && forall p | p in PiecesOf(rs, v.epoch) :: FitsHeader(p.msgLen, p.num)
    ensures v'.Ok()
  {
    Feed(v, PiecesOf(rs, v.epoch), maxLen).0.(hasCcs := v.hasCcs || SealedCcsOf(rs, v.epoch))
  }

  /** None of what a flight has for the epoch of the receiver is fatal to it. */
  ghost predicate NoneFatal(v: View, out: seq<Outgoing>, maxLen: nat) {
    forall o | o in out && o.epoch == v.epoch ::
      if o.OutCcs? then v.nullCipher
      else |o.msg.body| <= maxLen && o.num != v.readSeq + FLIGHT && (v.epoch == 1 ==> o.num == v.readSeq)
  }

  ghost predicate InFlightAt(out: seq<Outgoing>, num: nat, epoch: nat) {
    exists o :: o in out && o.OutMessage? && o.num == num && o.epoch == epoch
  }

  /** A flight has the next `n` messages that the receiver waits for, in the epoch in which it waits. */
  ghost predicate Awaited(v: View, out: seq<Outgoing>, maxLen: nat, n: nat) {
    NoneFatal(v, out, maxLen) && n <= FLIGHT && forall num | v.readSeq <= num < v.readSeq + n :: InFlightAt(out, num, v.epoch)
  }

  /** `rs` is one full pass over the flight `out`. */
  ghost predicate FullPass(history: seq<Message>, out: seq<Outgoing>, rs: seq<Sealed>) {
    && Within(out, Position(0, 0)) && FlightOf(history, out) && DistinctNums(out)
    && AdvanceAll(out, Position(0, 0), rs) == Some(Position(|out|, 0))
  }

  lemma {:induction false} PieceIsOfFlight(history: seq<Message>, out: seq<Outgoing>, rs: seq<Sealed>, r: Sealed) returns (o: Outgoing)
    requires FullPass(history, out, rs) && r in rs && r.SealedPiece?
    ensures o in out && o.OutMessage? && o.epoch == r.epoch && o.num == r.piece.num && |o.msg.body| == r.piece.msgLen
    ensures Genuine(history, r.piece)
  {
    var j: nat :| j < |rs| && rs[j] == r;
    var i := PassIsOfFlight(out, rs, j);
    o := out[i];
  }

  lemma {:induction false} PassIsHarmless(v: View, history: seq<Message>, out: seq<Outgoing>, rs: seq<Sealed>, maxLen: nat)
    requires FullPass(history, out, rs) && NoneFatal(v, out, maxLen)
    ensures AllHarmless(v, history, PiecesOf(rs, v.epoch), maxLen)
  {
    PiecesOfMembers(rs, v.epoch);
    var ps := PiecesOf(rs, v.epoch);
    forall k | 0 <= k < |ps|
      ensures Genuine(history, ps[k]) && Harmless(v, ps[k], maxLen)
    {
      assert ps[k] in ps;
      var r :| r in rs && r.SealedPiece? && r.epoch == v.epoch && r.piece == ps[k];
      var o := PieceIsOfFlight(history, out, rs, r);
    }
  }

  /** A message that the flight has in one epoch is sealed in that epoch only. */
  lemma {:induction false} SealedInItsEpoch(history: seq<Message>, out: seq<Outgoing>, rs: seq<Sealed>, r: Sealed, epoch: nat)
    requires FullPass(history, out, rs) && r in rs && r.SealedPiece? && InFlightAt(out, r.piece.num, epoch)
    ensures r.epoch == epoch
  {
    var o := PieceIsOfFlight(history, out, rs, r);
    var i :| 0 <= i < |out| && out[i] == o;
    var j :| 0 <= j < |out| && out[j].OutMessage? && out[j].num == r.piece.num && out[j].epoch == epoch;
  }

  /** The records of one full pass go through the record layer, which drops those of other epochs: the receiver hands out
      the messages that it waits for and that the flight has in its epoch. */
  lemma {:induction false} OpenedPassHandsOut(
    v: View, history: seq<Message>, out: seq<Outgoing>, rs: seq<Sealed>, maxLen: nat, n: nat)
    requires v.Ok() && Faithful(v, history) && v.readSeq <= |history|
    requires FullPass(history, out, rs) && Awaited(v, out, maxLen, n)
    ensures AllHarmless(v, history, PiecesOf(rs, v.epoch), maxLen) && Feed(v, PiecesOf(rs, v.epoch), maxLen).1
    ensures HandsOut(Feed(v, PiecesOf(rs, v.epoch), maxLen).0, history, v.readSeq, n)
  {
    PassIsHarmless(v, history, out, rs, maxLen);
    PiecesOfMembers(rs, v.epoch);
    forall r | r in rs && r.SealedPiece? && v.readSeq <= r.piece.num < v.readSeq + n
      ensures r.piece in PiecesOf(rs, v.epoch)
    {
      SealedInItsEpoch(history, out, rs, r, v.epoch);
    }
    forall num | v.readSeq <= num < v.readSeq + n
      ensures InFlight(out, num)
    {
      assert InFlightAt(out, num, v.epoch);
    }
    FullPassHandsOut(v, history, out, rs, PiecesOf(rs, v.epoch), maxLen, n);
  }

  // ---- What is left when messages have been taken ----

  /** The view after the next `n` messages have been taken. */
  function Skipped(v: View, n: nat): (v': View)
    requires v.Ok()
    ensures v'.Ok() && v'.readSeq == v.readSeq + n
    ensures v'.epoch == v.epoch && v'.nullCipher == v.nullCipher && v'.hasCcs == v.hasCcs
    decreases n
  {
    if n == 0 then v else Skipped(Next(v), n - 1)
  }

  lemma {:induction false} SkippedSlots(v: View, n: nat)
    requires v.Ok()
    ensures forall i | 0 <= i < FLIGHT && Skipped(v, n).slots[i].Filling? :: Skipped(v, n).slots[i] == v.slots[i]
    decreases n
  {
    if n > 0 {
      SkippedSlots(Next(v), n - 1);
    }
  }

  lemma {:induction false} SkippedFaithful(v: View, history: seq<Message>, n: nat)
    requires v.Ok() && Faithful(v, history)
    ensures Faithful(Skipped(v, n), history)
  {
    SkippedSlots(v, n);
  }

  /** Nothing is buffered of the messages from number `b` on. */
  ghost predicate AllBelow(v: View, b: nat)
    requires v.Ok()
  {
    forall i | 0 <= i < FLIGHT && v.slots[i].Filling? :: v.slots[i].num < b
  }

  lemma {:induction false} FeedBelow(v: View, ps: seq<Piece>, maxLen: nat, b: nat)
    requires v.Ok() && AllBelow(v, b)
    requires forall i | 0 <= i < |ps| :: FitsHeader(ps[i].msgLen, ps[i].num) && ps[i].num < b
    ensures AllBelow(Feed(v, ps, maxLen).0, b)
  {
    if ps != [] {
      FeedBelow(v, ps[..|ps| - 1], maxLen, b);
    }
  }

  /** The messages that a flight has in this epoch are all below `b`. */
  ghost predicate FlightBelow(out: seq<Outgoing>, epoch: nat, b: nat) {
    forall o | o in out && o.OutMessage? && o.epoch == epoch :: o.num < b
  }

  lemma {:induction false} PassBelow(v: View, history: seq<Message>, out: seq<Outgoing>, rs: seq<Sealed>, maxLen: nat, b: nat)
    requires v.Ok() && FullPass(history, out, rs) && NoneFatal(v, out, maxLen) && AllBelow(v, b) && FlightBelow(out, v.epoch, b)
    ensures forall p | p in PiecesOf(rs, v.epoch) :: FitsHeader(p.msgLen, p.num)
    ensures AllBelow(Fed(v, rs, maxLen), b)
  {
    PiecesOfMembers(rs, v.epoch);
    var ps := PiecesOf(rs, v.epoch);
    forall p | p in ps
      ensures FitsHeader(p.msgLen, p.num) && p.num < b
    {
      var r :| r in rs && r.SealedPiece? && r.epoch == v.epoch && r.piece == p;
      var o := PieceIsOfFlight(history, out, rs, r);
    }
    FeedBelow(v, ps, maxLen, b);
  }
}
