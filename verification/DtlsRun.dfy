/** A DTLS sender and receiver joined by a network that loses, repeats and reorders records. */
module DtlsRun {
  import opened Basics
  import opened HandshakeWire
  import opened DtlsReceiving
  import opened DtlsReceiver
  import opened DtlsFlight
  import opened DtlsSender
  import opened DtlsDelivery

  datatype Step =
    | AddMessage(typ: byte, body: seq<byte>)
    | AddChangeCipherSpec
    | FlushFlight(mtu: nat)
    | Retransmit(mtu: nat)
    | WriteData(len: nat)
    | ChangeWriteKeys(cipher: Aead)
    | Deliver(k: nat)
    | Read
    | ReadChangeCipherSpec
    | ChangeReadKeys

  /** Any run: `steps` may send at any MTU, rewind, change keys, and deliver any record sealed so far, in
      any order and any number of times, as if the record layer let everything through. The messages handed
      out are the sender's, in order, once each. No epoch and sequence number is on two of the records sealed
      up to the first seal that fails; nor, whatever fails, on any two before there have been as many seals
      as there are sequence numbers. Each step has at most one seal that fails. */
  method Run(steps: seq<Step>, maxLen: nat) returns (s: Sender, delivered: seq<Message>, failed: bool)
    ensures delivered <= s.history
    ensures s.counts.clean <= |s.log| && DistinctNumbers(s.log[..s.counts.clean])
    ensures !failed ==> s.counts.failures == 0 && DistinctNumbers(s.log)
    ensures s.counts.failures <= |steps|
    ensures |s.log| + |steps| < SEQUENCE_BOUND ==> DistinctNumbers(s.log)
  {
    s := new Sender();
    var r := new Receiver(maxLen);
    delivered, failed := [], false;
    for k := 0 to |steps|
      invariant s.Valid() && r.Valid() && fresh(s) && fresh(r.Repr) && s !in r.Repr
      invariant Faithful(r.view, s.history)
      invariant r.readSeq == |delivered| && delivered <= s.history
      invariant (!failed ==> s.counts.failures == 0) && s.counts.failures <= k
    {
      var ok;
      delivered, ok := DoStep(steps[k], s, r, delivered);
      failed := failed || !ok;
    }
    TalliedIsDistinct(s.log, s.wEpoch, s.writeSequence, s.lastWriteSequence, s.counts);
  }

  method DoStep(step: Step, s: Sender, r: Receiver, delivered: seq<Message>) returns (delivered': seq<Message>, ok: bool)
    requires s.Valid() && r.Valid() && s !in r.Repr
    requires Faithful(r.view, s.history)
    requires r.readSeq == |delivered| && delivered <= s.history
    modifies s, r.Repr
    ensures s.Valid() && r.Valid() && s !in r.Repr && fresh(r.Repr - old(r.Repr))
    ensures Faithful(r.view, s.history)
    ensures r.readSeq == |delivered'| && delivered' <= s.history
    ensures Passed(old(s.counts), s.counts, !ok, s.counts.refusals > old(s.counts.refusals), |s.log|)
  {
    if step.Deliver? || step.Read? || step.ReadChangeCipherSpec? || step.ChangeReadKeys? {
      delivered' := Receive(step, s, r, delivered);
      ok := true;
    } else {
      ok := Send(step, s);
      delivered' := delivered;
      assert r.view == old(r.view);
    }
  }

  /** The flag is false if a seal has failed, or the MTU was too small. */
  method Send(step: Step, s: Sender) returns (ok: bool)
    requires s.Valid()
    modifies s
    ensures s.Valid() && old(s.history) <= s.history
    ensures Passed(old(s.counts), s.counts, !ok, s.counts.refusals > old(s.counts.refusals), |s.log|)
  {
    ok := true;
    match step
    case AddMessage(typ, body) =>
      if s.writeSeq + 1 < 0x1_0000 {
        var _ := s.AddMessage(typ, body);
      }
    case AddChangeCipherSpec =>
      var _ := s.AddChangeCipherSpec();
    case FlushFlight(mtu) =>
      var res, _ := s.Flush(mtu);
      ok := !res.Failed?;
    case Retransmit(mtu) =>
      var res, _ := s.Retransmit(mtu);
      ok := !res.Failed?;
    case WriteData(len) =>
      var sealed, _ := s.SealRecord(DataLoad(len), false, len + s.aead.Overhead());
      ok := sealed;
    case ChangeWriteKeys(cipher) =>
      if s.wEpoch + 1 < 0x1_0000 {
        s.SetWriteState(cipher);
      }
    case _ =>
  }

  method DeliverRecord(r: Receiver, rec: Sealed, ghost history: seq<Message>)
    requires r.Valid() && Faithful(r.view, history) && (rec.SealedPiece? ==> Genuine(history, rec.piece))
    modifies r.Repr
    ensures r.Valid() && fresh(r.Repr - old(r.Repr)) && Faithful(r.view, history) && r.readSeq == old(r.readSeq)
  {
    OpenedKeepsFaithful(r.view, history, rec, r.maxLen);
    var _ := r.ReadMessage(Opened(rec));
  }

  method ReadNext(r: Receiver, delivered: seq<Message>, ghost history: seq<Message>) returns (delivered': seq<Message>)
    requires r.Valid() && Faithful(r.view, history) && r.readSeq == |delivered| && delivered <= history
    modifies r
    ensures r.Valid() && r.Repr == old(r.Repr) && Faithful(r.view, history)
    ensures r.readSeq == |delivered'| && delivered' <= history
  {
    delivered' := delivered;
    var m := r.GetMessage();
    if m.Some? {
      CurrentIsSent(r.view, history);
      r.NextMessage();
      delivered' := delivered + [m.value];
    }
  }

  method Receive(step: Step, s: Sender, r: Receiver, delivered: seq<Message>) returns (delivered': seq<Message>)
    requires s.Valid() && r.Valid() && s !in r.Repr
    requires Faithful(r.view, s.history)
    requires r.readSeq == |delivered| && delivered <= s.history
    modifies r.Repr
    ensures r.Valid() && s !in r.Repr && fresh(r.Repr - old(r.Repr))
    ensures Faithful(r.view, s.history)
    ensures r.readSeq == |delivered'| && delivered' <= s.history
  {
    delivered' := delivered;
    match step
    case Deliver(k) =>
      if k < |s.log| {
        DeliverRecord(r, s.log[k], s.history);
      }
    case Read =>
      delivered' := ReadNext(r, delivered, s.history);
    case ReadChangeCipherSpec =>
      var _ := r.ReadChangeCipherSpec();
    case ChangeReadKeys =>
      var _ := r.SetReadState();
    case _ =>
  }
}
