/** The client keeps to the script. */
module TlsClientSide {
  import opened Basics
  import opened TlsMessages
  import opened TlsScript
  import C = TlsClient

  /** What is true of the client in a state: its place in the order of states, how many groups of the
      script are behind it, whether it has read the
      ServerHello and what follows up to the CertificateRequest, whether it may be collecting a flight, whether it
      reads, and whether the abbreviated handshake has the state. */
  datatype Row = Row(rank: nat, pos: nat, told: bool, requested: bool, sends: bool, listens: bool, common: bool)

  function At(d: Deal, state: C.State): (row: Row)
    ensures row.rank <= 19 && (d.reused && row.common ==> row.pos <= 9)
    ensures !d.reused ==> row.pos <= 17
  {
    match state
    case StartConnect => Row(0, 0, false, false, false, false, true)
    case EnterEarlyData => Row(1, 1, false, false, false, false, true)
    case ReadServerHello => Row(2, 1, false, false, false, true, true)
    case ReadServerCertificate => Row(3, 2, true, false, false, true, false)
    case ReadCertificateStatus => Row(4, 3, true, false, false, true, false)
    case VerifyServerCertificate => Row(5, 4, true, false, false, false, false)
    case ReadServerKeyExchange => Row(6, 4, true, false, false, true, false)
    case ReadCertificateRequest => Row(7, 5, true, false, false, true, false)
    case ReadServerHelloDone => Row(8, 6, true, true, false, true, false)
    case SendClientCertificate => Row(9, 7, true, true, false, false, false)
    case SendClientKeyExchange => Row(10, 8, true, true, true, false, false)
    case SendClientCertificateVerify => Row(11, 9, true, true, true, false, false)
    case SendClientFinished => Row(if d.reused then 16 else 12, if d.reused then 5 else 10, true, true, true, false, true)
    case FinishFlight => Row(if d.reused then 17 else 13, if d.reused then 9 else 14, true, true, false, false, true)
    case ReadSessionTicket => Row(if d.reused then 13 else 14, if d.reused then 2 else 14, true, true, false, true, true)
    case ProcessChangeCipherSpec => Row(if d.reused then 14 else 15, if d.reused then 4 else 16, true, true, false, false, true)
    case ReadServerFinished => Row(if d.reused then 15 else 16, if d.reused then 4 else 16, true, true, false, true, true)
    case FinishClientHandshake => Row(18, Size(d), true, true, false, false, true)
    case Done => Row(19, Size(d), true, true, false, false, true)
  }

  /** How many groups are behind the client: its ChangeCipherSpec may still be to come. */
  function Pos(d: Deal, c: C.Client): nat {
    var pos := At(d, c.state).pos;
    if c.wait.ReadCcs? && pos > 0 then pos - 1 else pos
  }

  /** What the ServerHello told the client. */
  predicate Told(d: Deal, c: C.Client) {
    && c.reused == d.reused && c.cipher == Some(d.cipher) && c.statusExpected == d.ocsp
    && c.ticketExpected == d.ticket && c.npn == d.npn && c.channelId == d.channelId
  }

  predicate WaitOk(row: Row, c: C.Client) {
    match c.wait
    case Ok => c.pending == [] || row.sends
    case Flush => c.state.EnterEarlyData? || c.state.FinishFlight?
    case ReadMessage => row.listens && c.pending == []
    case ReadCcs => c.state.ProcessChangeCipherSpec? && c.pending == []
    case Paused => c.pending == [] || row.sends
    case Failed => false
  }

  predicate ClientOk(d: Deal, gs: seq<Group>, c: C.Client)
    requires |gs| == Size(d)
  {
    var row := At(d, c.state);
    && WaitOk(row, c)
    && (d.reused ==> row.common)
    && (row.told ==> Told(d, c))
    && c.certRequest == (row.requested && d.certRequest)
    && c.transcript == Hashed(gs, Pos(d, c))
    && WaitsFor(gs, c.wait, Pos(d, c))
  }

  /** What the client waits for is what the server sends next. */
  predicate WaitsFor(gs: seq<Group>, wait: Wait, p: nat) {
    && (wait.ReadMessage? ==> Awaits(gs, true, p))
    && (wait.ReadCcs? ==> p < |gs| && gs[p] == Group(true, [Ccs]))
  }

  /** The client and the deal belong together. */
  predicate Fits(d: Deal, cfg: C.Config) {
    && d.cipher in cfg.ciphers && d.clientCertificate == cfg.hasCertificate
    && d.offered == (if cfg.session.Some? then cfg.session.value.id else 0)
    && (if d.reused then cfg.session == Some(Session(d.sessionId, d.cipher)) && d.sessionId != 0 && !d.certRequest
        else cfg.session.Some? && cfg.session.value.id != 0 ==> cfg.session.value.id != d.sessionId)
    && (d.certRequest ==> d.cipher.certAuth)
    && (d.cipher.ecdhe ==> d.keyExchange) && (d.keyExchange && d.cipher.certAuth ==> d.cipher.ecdhe)
  }

  /** A step that sends the groups from `p` on, or passes over empty ones. */
  predicate Sent(d: Deal, gs: seq<Group>, c: C.Client, out: C.Out)
    requires |gs| == Size(d)
  {
    var (p, p') := (Pos(d, c), Pos(d, out.c));
    && !out.pop && p <= p' <= |gs|
    && if p == p' then out.c.pending == c.pending
       else out.c.pending == c.pending + Recs(gs, p, p') && AllFrom(gs, false, p, p')
  }

  /** A step that takes the group at `p`. */
  predicate Received(d: Deal, gs: seq<Group>, c: C.Client, inbox: seq<Rec>, out: C.Out)
    requires |gs| == Size(d)
  {
    var p := Pos(d, c);
    && out.pop && inbox != [] && p < |gs| && gs[p].recs == [inbox[0]]
    && Pos(d, out.c) == p + 1 && out.c.pending == c.pending
  }

  /** A step only waits, or goes to a state that comes later. */
  predicate Advances(d: Deal, c: C.Client, v: Verdict, out: C.Out) {
    if out.c.state == c.state then
      !out.pop && out.c.pending == c.pending && (out.c.wait.ReadMessage? || (out.c.wait.Paused? && v.Later?))
    else
      && At(d, c.state).rank < At(d, out.c.state).rank && |out.c.pending| <= |c.pending| + 4
      && (out.c.wait.Ok? || out.c.wait.Flush? || out.c.wait.ReadCcs?)
  }

  /** A step leaves the client in order, and moves it along the script. */
  predicate Kept(d: Deal, gs: seq<Group>, c: C.Client, inbox: seq<Rec>, v: Verdict, out: C.Out)
    requires |gs| == Size(d)
  {
    && ClientOk(d, gs, out.c) && (if out.pop then Received(d, gs, c, inbox, out) else Sent(d, gs, c, out))
    && (out.c.wait.ReadMessage? ==> inbox == []) && Advances(d, c, v, out)
  }

  // ---- The shapes of a step ----

  /** A client about to make a step. */
  predicate Ready(d: Deal, gs: seq<Group>, c: C.Client) {
    |gs| == Size(d) && ClientOk(d, gs, c) && c.wait.Ok?
  }

  lemma {:induction false} Stays(d: Deal, gs: seq<Group>, c: C.Client, inbox: seq<Rec>, v: Verdict, wait: Wait)
    requires Ready(d, gs, c)
    requires (wait.Paused? && v.Later?)
      || (wait.ReadMessage? && inbox == [] && At(d, c.state).listens && c.pending == [] && Awaits(gs, true, At(d, c.state).pos))
    ensures Kept(d, gs, c, inbox, v, C.Stay(c, wait))
  {
  }

  /** The row of the next state goes on from the row of this one. */
  predicate Follows(d: Deal, row: Row, next: Row) {
    && row.rank < next.rank && (next.told ==> row.told) && (d.certRequest ==> next.requested == row.requested) && (d.reused ==> next.common)
  }

  lemma {:induction false} Goes(d: Deal, gs: seq<Group>, c: C.Client, c1: C.Client, inbox: seq<Rec>, v: Verdict, state: C.State)
    requires Ready(d, gs, c) && c1 == c.(log := c1.log)
    requires var (row, next) := (At(d, c.state), At(d, state));
      && Follows(d, row, next) && (c.pending == [] || next.sends)
      && (next.pos == row.pos || (next.pos == row.pos + 1 && row.pos < |gs| && gs[row.pos].recs == []))
    ensures Kept(d, gs, c, inbox, v, C.Go(c1, state))
  {
    var (row, next) := (At(d, c.state), At(d, state));
    var out := C.Go(c1, state);
    assert Pos(d, c) == row.pos && Pos(d, out.c) == next.pos;
    if next.pos == row.pos + 1 {
      EmptyGroup(gs, row.pos, false);
      assert c.pending + [] == c.pending;
    }
    assert ClientOk(d, gs, out.c);
    assert Sent(d, gs, c, out);
  }

  lemma {:induction false} Adds(d: Deal, gs: seq<Group>, c: C.Client, c1: C.Client, inbox: seq<Rec>, v: Verdict, m: Msg, state: C.State)
    requires Ready(d, gs, c) && c1 == C.Add(c, m).(log := c1.log)
    requires var (row, next) := (At(d, c.state), At(d, state));
      && Follows(d, row, next) && next.sends && next.pos == row.pos + 1
      && row.pos < |gs| && gs[row.pos] == One(false, true, m)
    ensures Kept(d, gs, c, inbox, v, C.Go(c1, state))
  {
    SingleGroup(gs, At(d, c.state).pos, Hs(m));
  }

  /** `c1` is the client with what it learns from the message. */
  lemma {:induction false} Takes(d: Deal, gs: seq<Group>, c: C.Client, c1: C.Client, inbox: seq<Rec>, v: Verdict, m: Msg, state: C.State)
    requires Ready(d, gs, c) && inbox != [] && inbox[0] == Hs(m)
    requires c1.transcript == c.transcript && c1.pending == c.pending == []
    requires var (row, next) := (At(d, c.state), At(d, state));
      && row.rank < next.rank && row.pos < |gs| && gs[row.pos].recs == [inbox[0]]
      && (if state.ProcessChangeCipherSpec? then
            c1.wait.ReadCcs? && next.pos == row.pos + 2 <= |gs| && gs[row.pos + 1] == Group(true, [Ccs])
          else c1.wait.Ok? && next.pos == row.pos + 1)
      && (d.reused ==> next.common) && (next.told ==> Told(d, c1))
      && c1.certRequest == (next.requested && d.certRequest)
    ensures Kept(d, gs, c, inbox, v, C.Took(c1, m, state))
  {
    SingleGroup(gs, At(d, c.state).pos, inbox[0]);
  }

  // ---- The steps ----

  lemma {:induction false} StartStep(d: Deal, gs: seq<Group>, cfg: C.Config, c: C.Client, inbox: seq<Rec>, v: Verdict)
    requires Ready(d, gs, c) && !v.Refuse? && c.state.StartConnect? && Fits(d, cfg)
    requires gs[0] == One(false, true, ClientHello(d.offered))
    ensures Kept(d, gs, c, inbox, v, C.DoStartConnect(cfg, c, v))
  {
    var m := ClientHello(d.offered);
    SingleGroup(gs, 0, Hs(m));
    assert C.DoStartConnect(cfg, c, v)
        == C.Out(C.Add(c, m).(reused := false, state := C.EnterEarlyData, wait := Flush), false);
  }

  lemma {:induction false} HelloStep(d: Deal, gs: seq<Group>, cfg: C.Config, c: C.Client, inbox: seq<Rec>, v: Verdict, hi: nat)
    requires Ready(d, gs, c) && !v.Refuse? && c.state.ReadServerHello? && Fits(d, cfg)
    requires Expected(gs, true, 1, inbox, hi) && gs[1] == One(true, true, Hello(d))
    ensures Kept(d, gs, c, inbox, v, C.DoReadServerHello(cfg, c, inbox, v))
  {
    if inbox == [] {
      assert Upcoming(gs, true, 1, 1);
      Stays(d, gs, c, inbox, v, ReadMessage);
    } else {
      var _ := Found(gs, true, 1, inbox, hi);
      var c1 := c.(reused := d.reused, cipher := Some(d.cipher), statusExpected := d.ocsp,
                   ticketExpected := d.ticket, npn := d.npn, channelId := d.channelId);
      Takes(d, gs, c, c1, inbox, v, Hello(d), if d.reused then C.ReadSessionTicket else C.ReadServerCertificate);
    }
  }

  lemma {:induction false} CertificateStep(d: Deal, gs: seq<Group>, c: C.Client, inbox: seq<Rec>, v: Verdict, hi: nat)
    requires Ready(d, gs, c) && !v.Refuse? && c.state.ReadServerCertificate?
    requires Expected(gs, true, 2, inbox, hi) && gs[2] == One(true, d.cipher.certAuth, Certificate(false))
    ensures Kept(d, gs, c, inbox, v, C.DoReadServerCertificate(c, inbox, v))
  {
    if !d.cipher.certAuth {
      Goes(d, gs, c, c, inbox, v, C.ReadCertificateStatus);
    } else if inbox == [] {
      assert Upcoming(gs, true, 2, 2);
      Stays(d, gs, c, inbox, v, ReadMessage);
    } else {
      var _ := Found(gs, true, 2, inbox, hi);
      Takes(d, gs, c, c, inbox, v, Certificate(false), C.ReadCertificateStatus);
    }
  }

  /** What the client finds when it looks for an announced CertificateStatus. */
  lemma {:induction false} NextAfterStatus(d: Deal, gs: seq<Group>, inbox: seq<Rec>, hi: nat)
    requires Expected(gs, true, 3, inbox, hi) && ServerPart(d, gs) && inbox != [] && d.ocsp
    ensures inbox[0].Hs?
    ensures if d.cipher.certAuth then inbox[0].msg == CertificateStatus else !inbox[0].msg.CertificateStatus?
  {
    var n := Found(gs, true, 3, inbox, hi);
    assert n <= 6;
  }

  lemma {:induction false} StatusStep(d: Deal, gs: seq<Group>, c: C.Client, inbox: seq<Rec>, v: Verdict, hi: nat)
    requires Ready(d, gs, c) && !v.Refuse? && c.state.ReadCertificateStatus?
    requires Expected(gs, true, 3, inbox, hi) && ServerPart(d, gs)
    ensures Kept(d, gs, c, inbox, v, C.DoReadCertificateStatus(c, inbox, v))
  {
    var out := C.DoReadCertificateStatus(c, inbox, v);
    if d.ocsp && inbox == [] {
      assert out == C.Stay(c, ReadMessage);
      assert Upcoming(gs, true, 3, 6);
      Stays(d, gs, c, inbox, v, ReadMessage);
    } else if !d.ocsp {
      assert out == C.Go(c, C.VerifyServerCertificate);
      Goes(d, gs, c, c, inbox, v, C.VerifyServerCertificate);
    } else {
      NextAfterStatus(d, gs, inbox, hi);
      if d.cipher.certAuth {
        assert out == C.Took(c, CertificateStatus, C.VerifyServerCertificate);
        Takes(d, gs, c, c, inbox, v, CertificateStatus, C.VerifyServerCertificate);
      } else {
        assert out == C.Go(c, C.VerifyServerCertificate);
        Goes(d, gs, c, c, inbox, v, C.VerifyServerCertificate);
      }
    }
  }

  lemma {:induction false} VerifyStep(d: Deal, gs: seq<Group>, c: C.Client, inbox: seq<Rec>, v: Verdict)
    requires Ready(d, gs, c) && !v.Refuse? && c.state.VerifyServerCertificate?
    ensures Kept(d, gs, c, inbox, v, C.DoVerifyServerCertificate(c, v))
  {
    if !d.cipher.certAuth {
      Goes(d, gs, c, c, inbox, v, C.ReadServerKeyExchange);
    } else if v.Later? {
      Stays(d, gs, c, inbox, v, Paused);
    } else {
      Goes(d, gs, c, C.Log(c, C.ChainVerified), inbox, v, C.ReadServerKeyExchange);
    }
  }

  /** What the client finds when it looks for a ServerKeyExchange. */
  lemma {:induction false} NextAfterCertificate(d: Deal, gs: seq<Group>, inbox: seq<Rec>, hi: nat)
    requires Expected(gs, true, 4, inbox, hi) && ServerPart(d, gs) && inbox != []
    ensures inbox[0].Hs? && (if d.keyExchange then inbox[0].msg == ServerKeyExchange else !inbox[0].msg.ServerKeyExchange?)
  {
    var n := Found(gs, true, 4, inbox, hi);
    assert n <= 6;
  }

  lemma {:induction false} KeyExchangeStep(d: Deal, gs: seq<Group>, cfg: C.Config, c: C.Client, inbox: seq<Rec>, v: Verdict)
    requires Ready(d, gs, c) && !v.Refuse? && c.state.ReadServerKeyExchange? && Fits(d, cfg)
    requires inbox != [] ==>
      inbox[0].Hs? && if d.keyExchange then inbox[0].msg == ServerKeyExchange else !inbox[0].msg.ServerKeyExchange?
    requires |gs| > 4 && gs[4] == One(true, d.keyExchange, ServerKeyExchange) && Awaits(gs, true, 4)
    ensures Kept(d, gs, c, inbox, v, C.DoReadServerKeyExchange(c, inbox, v))
  {
    if inbox == [] {
      Stays(d, gs, c, inbox, v, ReadMessage);
    } else if d.keyExchange {
      var c1 := C.Log(c, C.ServerKeyExchangeRead);
      var c2 := if d.cipher.certAuth then C.Log(c1, C.SignatureVerified) else c1;
      Takes(d, gs, c, c2, inbox, v, ServerKeyExchange, C.ReadCertificateRequest);
    } else {
      Goes(d, gs, c, c, inbox, v, C.ReadCertificateRequest);
    }
  }

  lemma {:induction false} RequestStep(d: Deal, gs: seq<Group>, cfg: C.Config, c: C.Client, inbox: seq<Rec>, v: Verdict, hi: nat)
    requires Ready(d, gs, c) && !v.Refuse? && c.state.ReadCertificateRequest? && Fits(d, cfg)
    requires Expected(gs, true, 5, inbox, hi) && ServerPart(d, gs)
    ensures Kept(d, gs, c, inbox, v, C.DoReadCertificateRequest(c, inbox, v))
  {
    if d.cipher.certAuth && inbox == [] {
      assert Upcoming(gs, true, 5, 6);
      Stays(d, gs, c, inbox, v, ReadMessage);
    } else if !d.cipher.certAuth {
      Goes(d, gs, c, c, inbox, v, C.ReadServerHelloDone);
    } else {
      var n := Found(gs, true, 5, inbox, hi);
      assert n <= 6;
      if d.certRequest {
        Takes(d, gs, c, c.(certRequest := true), inbox, v, CertificateRequest, C.ReadServerHelloDone);
      } else {
        Goes(d, gs, c, c, inbox, v, C.ReadServerHelloDone);
      }
    }
  }

  lemma {:induction false} HelloDoneStep(d: Deal, gs: seq<Group>, c: C.Client, inbox: seq<Rec>, v: Verdict, hi: nat)
    requires Ready(d, gs, c) && !v.Refuse? && c.state.ReadServerHelloDone?
    requires Expected(gs, true, 6, inbox, hi) && |gs| > 6 && gs[6] == One(true, true, ServerHelloDone)
    ensures Kept(d, gs, c, inbox, v, C.DoReadServerHelloDone(c, inbox, v))
  {
    if inbox == [] {
      assert Upcoming(gs, true, 6, 6);
      Stays(d, gs, c, inbox, v, ReadMessage);
    } else {
      var _ := Found(gs, true, 6, inbox, hi);
      Takes(d, gs, c, c, inbox, v, ServerHelloDone, C.SendClientCertificate);
    }
  }

  lemma {:induction false} SendCertificateStep(d: Deal, gs: seq<Group>, cfg: C.Config, c: C.Client, inbox: seq<Rec>, v: Verdict)
    requires Ready(d, gs, c) && !v.Refuse? && c.state.SendClientCertificate? && Fits(d, cfg)
    requires |gs| > 7 && gs[7] == One(false, d.certRequest, Certificate(!d.clientCertificate))
    ensures Kept(d, gs, c, inbox, v, C.DoSendClientCertificate(cfg, c, v))
  {
    if !d.certRequest {
      Goes(d, gs, c, c, inbox, v, C.SendClientKeyExchange);
    } else if v.Later? {
      Stays(d, gs, c, inbox, v, Paused);
    } else {
      var m := Certificate(!d.clientCertificate);
      Adds(d, gs, c, C.Add(c, m), inbox, v, m, C.SendClientKeyExchange);
    }
  }

  lemma {:induction false} SendKeyExchangeStep(d: Deal, gs: seq<Group>, c: C.Client, inbox: seq<Rec>, v: Verdict)
    requires Ready(d, gs, c) && !v.Refuse? && c.state.SendClientKeyExchange?
    requires |gs| > 8 && gs[8] == One(false, true, ClientKeyExchange)
    ensures Kept(d, gs, c, inbox, v, C.DoSendClientKeyExchange(c, v))
  {
    var c1 := C.Log(C.Add(c, ClientKeyExchange), C.KeyExchangeAdded);
    Adds(d, gs, c, c1, inbox, v, ClientKeyExchange, C.SendClientCertificateVerify);
  }

  lemma {:induction false} SendVerifyStep(d: Deal, gs: seq<Group>, cfg: C.Config, c: C.Client, inbox: seq<Rec>, v: Verdict)
    requires Ready(d, gs, c) && !v.Refuse? && c.state.SendClientCertificateVerify? && Fits(d, cfg)
    requires |gs| > 9 && gs[9] == One(false, d.certRequest && d.clientCertificate, CertificateVerify)
    ensures Kept(d, gs, c, inbox, v, C.DoSendClientCertificateVerify(cfg, c, v))
  {
    if !(d.certRequest && d.clientCertificate) {
      Goes(d, gs, c, c, inbox, v, C.SendClientFinished);
    } else if v.Later? {
      Stays(d, gs, c, inbox, v, Paused);
    } else {
      Adds(d, gs, c, C.Add(c, CertificateVerify), inbox, v, CertificateVerify, C.SendClientFinished);
    }
  }

  lemma {:induction false} AddIfIs(c: C.Client, condition: bool, m: Msg)
    ensures C.AddIf(c, condition, m)
         == c.(pending := c.pending + RecIf(condition, m), transcript := c.transcript + If(condition, m))
  {
    assert c.pending + [] == c.pending && c.transcript + [] == c.transcript;
  }

  /** The flight and the transcript with the end of the client's last flight. */
  lemma {:induction false} LastFlight(d: Deal, gs: seq<Group>, c: C.Client, i: nat, v: Verdict)
    requires ClientEnd(d, gs, i) && c.transcript == Hashed(gs, i) && c.npn == d.npn && c.channelId == d.channelId
    requires !v.Refuse? && !(v.Later? && d.channelId)
    ensures var out := C.DoSendClientFinished(c, v);
      out == C.Out(c.(pending := c.pending + Recs(gs, i, i + 4), transcript := Hashed(gs, i + 4),
                      state := C.FinishFlight, wait := Flush), false)
  {
    ClientEndRecs(d, gs, i);
    var f := Finished(false, Hashed(gs, i + 3));
    var c1 := c.(pending := c.pending + [Ccs]);
    AddIfIs(c1, c.npn, NextProto);
    var c2 := C.AddIf(c1, c.npn, NextProto);
    AddIfIs(c2, c.channelId, ChannelId);
    var (np, id) := (RecIf(d.npn, NextProto), RecIf(d.channelId, ChannelId));
    assert c.pending + [Ccs] + np + id + [Hs(f)] == c.pending + ([Ccs] + np + id + [Hs(f)]);
  }

  /** The place of the client's last flight. */
  function LastPlace(d: Deal): nat {
    if d.reused then 5 else 10
  }

  lemma {:induction false} LastFlightKept(d: Deal, gs: seq<Group>, c: C.Client, inbox: seq<Rec>, v: Verdict)
    requires Ready(d, gs, c) && c.state.SendClientFinished?
    requires var i := LastPlace(d); AllFrom(gs, false, i, i + 4) && |Recs(gs, i, i + 4)| <= 4
    ensures var i := LastPlace(d);
      Kept(d, gs, c, inbox, v, C.Out(c.(pending := c.pending + Recs(gs, i, i + 4), transcript := Hashed(gs, i + 4),
                                     state := C.FinishFlight, wait := Flush), false))
    ensures c.transcript == Hashed(gs, LastPlace(d)) && c.npn == d.npn && c.channelId == d.channelId
  {
  }

  lemma {:induction false} SendFinishedStep(d: Deal, gs: seq<Group>, c: C.Client, inbox: seq<Rec>, v: Verdict)
    requires Ready(d, gs, c) && !v.Refuse? && c.state.SendClientFinished?
    requires ClientEnd(d, gs, LastPlace(d))
    ensures Kept(d, gs, c, inbox, v, C.DoSendClientFinished(c, v))
  {
    if v.Later? && d.channelId {
      assert C.DoSendClientFinished(c, v) == C.Stay(c, Paused);
      Stays(d, gs, c, inbox, v, Paused);
    } else {
      ClientEndFrom(d, gs, LastPlace(d));
      ClientEndRecs(d, gs, LastPlace(d));
      LastFlightKept(d, gs, c, inbox, v);
      LastFlight(d, gs, c, LastPlace(d), v);
    }
  }

  lemma {:induction false} TicketPassed(d: Deal, gs: seq<Group>, c: C.Client, inbox: seq<Rec>, v: Verdict)
    requires Ready(d, gs, c) && c.state.ReadSessionTicket?
    requires var p := At(d, c.state).pos; p + 2 <= |gs| && gs[p].recs == [] && gs[p + 1] == Group(true, [Ccs])
    ensures Kept(d, gs, c, inbox, v, C.Go(c.(wait := ReadCcs), C.ProcessChangeCipherSpec))
  {
    EmptyGroup(gs, At(d, c.state).pos, false);
    assert c.pending + [] == c.pending;
  }

  lemma {:induction false} TicketStep(d: Deal, gs: seq<Group>, c: C.Client, inbox: seq<Rec>, v: Verdict, hi: nat)
    requires Ready(d, gs, c) && !v.Refuse? && c.state.ReadSessionTicket?
    requires var p := At(d, c.state).pos;
      && Expected(gs, true, p, inbox, hi) && p + 2 <= |gs|
      && gs[p] == One(true, d.ticket, NewSessionTicket) && gs[p + 1] == Group(true, [Ccs])
    ensures Kept(d, gs, c, inbox, v, C.DoReadSessionTicket(c, inbox, v))
  {
    var p := At(d, c.state).pos;
    if !d.ticket {
      TicketPassed(d, gs, c, inbox, v);
      assert C.DoReadSessionTicket(c, inbox, v) == C.Go(c.(wait := ReadCcs), C.ProcessChangeCipherSpec);
    } else if inbox == [] {
      assert C.DoReadSessionTicket(c, inbox, v) == C.Stay(c, ReadMessage);
      assert Upcoming(gs, true, p, p);
      Stays(d, gs, c, inbox, v, ReadMessage);
    } else {
      var _ := Found(gs, true, p, inbox, hi);
      assert C.DoReadSessionTicket(c, inbox, v)
          == C.Took(c.(wait := ReadCcs), NewSessionTicket, C.ProcessChangeCipherSpec);
      Takes(d, gs, c, c.(wait := ReadCcs), inbox, v, NewSessionTicket, C.ProcessChangeCipherSpec);
    }
  }

  lemma {:induction false} ReadFinishedStep(d: Deal, gs: seq<Group>, c: C.Client, inbox: seq<Rec>, v: Verdict)
    requires Ready(d, gs, c) && c.state.ReadServerFinished? && Awaits(gs, true, At(d, c.state).pos)
    requires inbox != [] ==> At(d, c.state).pos < |gs| && gs[At(d, c.state).pos].recs == [inbox[0]]
    requires inbox != [] ==> inbox[0] == Hs(Finished(true, c.transcript))
    ensures Kept(d, gs, c, inbox, v, C.DoReadServerFinished(c, inbox))
  {
    var c1 := C.Log(c, C.FinishedMatched);
    if inbox == [] {
      Stays(d, gs, c, inbox, v, ReadMessage);
    } else if d.reused {
      Takes(d, gs, c, c1, inbox, v, Finished(true, c.transcript), C.SendClientFinished);
    } else {
      Takes(d, gs, c, c1, inbox, v, Finished(true, c.transcript), C.FinishClientHandshake);
    }
  }

  predicate ReadsServerFlight(state: C.State) {
    || state.ReadServerCertificate? || state.ReadCertificateStatus? || state.VerifyServerCertificate?
    || state.ReadServerKeyExchange? || state.ReadCertificateRequest? || state.ReadServerHelloDone?
  }

  lemma {:induction false} ServerFlightStep(d: Deal, gs: seq<Group>, cfg: C.Config, c: C.Client, inbox: seq<Rec>, v: Verdict, hi: nat)
    requires ServerPart(d, gs) && Fits(d, cfg) && Ready(d, gs, c) && ReadsServerFlight(c.state) && !v.Refuse?
    requires Expected(gs, true, At(d, c.state).pos, inbox, hi)
    ensures Kept(d, gs, c, inbox, v, C.Do(cfg, c, inbox, v))
  {
    match c.state
    case ReadServerCertificate =>
      assert C.Do(cfg, c, inbox, v) == C.DoReadServerCertificate(c, inbox, v);
      CertificateStep(d, gs, c, inbox, v, hi);
    case ReadCertificateStatus =>
      assert C.Do(cfg, c, inbox, v) == C.DoReadCertificateStatus(c, inbox, v);
      StatusStep(d, gs, c, inbox, v, hi);
    case VerifyServerCertificate =>
      assert C.Do(cfg, c, inbox, v) == C.DoVerifyServerCertificate(c, v);
      VerifyStep(d, gs, c, inbox, v);
    case ReadServerKeyExchange =>
      if inbox != [] {
        NextAfterCertificate(d, gs, inbox, hi);
      }
      assert Upcoming(gs, true, 4, 6);
      assert C.Do(cfg, c, inbox, v) == C.DoReadServerKeyExchange(c, inbox, v);
      KeyExchangeStep(d, gs, cfg, c, inbox, v);
    case ReadCertificateRequest =>
      assert C.Do(cfg, c, inbox, v) == C.DoReadCertificateRequest(c, inbox, v);
      RequestStep(d, gs, cfg, c, inbox, v, hi);
    case ReadServerHelloDone =>
      assert C.Do(cfg, c, inbox, v) == C.DoReadServerHelloDone(c, inbox, v);
      HelloDoneStep(d, gs, c, inbox, v, hi);
  }

  predicate SendsFlight(state: C.State) {
    state.SendClientCertificate? || state.SendClientKeyExchange? || state.SendClientCertificateVerify?
  }

  lemma {:induction false} ClientFlightStep(d: Deal, gs: seq<Group>, cfg: C.Config, c: C.Client, inbox: seq<Rec>, v: Verdict)
    requires ClientPart(d, gs) && Fits(d, cfg) && Ready(d, gs, c) && SendsFlight(c.state) && !v.Refuse?
    ensures Kept(d, gs, c, inbox, v, C.Do(cfg, c, inbox, v))
  {
    match c.state
    case SendClientCertificate =>
      assert C.Do(cfg, c, inbox, v) == C.DoSendClientCertificate(cfg, c, v);
      SendCertificateStep(d, gs, cfg, c, inbox, v);
    case SendClientKeyExchange =>
      assert C.Do(cfg, c, inbox, v) == C.DoSendClientKeyExchange(c, v);
      SendKeyExchangeStep(d, gs, c, inbox, v);
    case SendClientCertificateVerify =>
      assert C.Do(cfg, c, inbox, v) == C.DoSendClientCertificateVerify(cfg, c, v);
      SendVerifyStep(d, gs, cfg, c, inbox, v);
  }

  lemma {:induction false} FinishedFromScript(d: Deal, gs: seq<Group>, c: C.Client, inbox: seq<Rec>, v: Verdict, hi: nat)
    requires Ready(d, gs, c) && c.state.ReadServerFinished? && Expected(gs, true, At(d, c.state).pos, inbox, hi)
    requires ServerEnd(d, gs, if d.reused then 2 else 14)
    ensures Kept(d, gs, c, inbox, v, C.DoReadServerFinished(c, inbox))
  {
    var p := At(d, c.state).pos;
    assert Upcoming(gs, true, p, p);
    if inbox != [] {
      var _ := Found(gs, true, p, inbox, hi);
    }
    ReadFinishedStep(d, gs, c, inbox, v);
  }

  lemma {:induction false} ServerEndStep(d: Deal, gs: seq<Group>, cfg: C.Config, c: C.Client, inbox: seq<Rec>, v: Verdict, hi: nat)
    requires ServerEnd(d, gs, if d.reused then 2 else 14) && (c.state.ReadSessionTicket? || c.state.ReadServerFinished?)
    requires Ready(d, gs, c) && !v.Refuse? && Expected(gs, true, At(d, c.state).pos, inbox, hi)
    ensures Kept(d, gs, c, inbox, v, C.Do(cfg, c, inbox, v))
  {
    if c.state.ReadSessionTicket? {
      assert C.Do(cfg, c, inbox, v) == C.DoReadSessionTicket(c, inbox, v);
      TicketStep(d, gs, c, inbox, v, hi);
    } else {
      assert C.Do(cfg, c, inbox, v) == C.DoReadServerFinished(c, inbox);
      FinishedFromScript(d, gs, c, inbox, v, hi);
    }
  }

  lemma {:induction false} OpeningStep(d: Deal, gs: seq<Group>, cfg: C.Config, c: C.Client, inbox: seq<Rec>, v: Verdict, hi: nat)
    requires Opening(d, gs) && Fits(d, cfg) && (c.state.StartConnect? || c.state.ReadServerHello?)
    requires Ready(d, gs, c) && !v.Refuse? && Expected(gs, true, At(d, c.state).pos, inbox, hi)
    ensures Kept(d, gs, c, inbox, v, C.Do(cfg, c, inbox, v))
  {
    if c.state.StartConnect? {
      assert C.Do(cfg, c, inbox, v) == C.DoStartConnect(cfg, c, v);
      StartStep(d, gs, cfg, c, inbox, v);
    } else {
      assert C.Do(cfg, c, inbox, v) == C.DoReadServerHello(cfg, c, inbox, v);
      HelloStep(d, gs, cfg, c, inbox, v, hi);
    }
  }

  predicate Plain(state: C.State) {
    state.EnterEarlyData? || state.FinishFlight? || state.ProcessChangeCipherSpec? || state.FinishClientHandshake?
  }

  /** Where such a state leads. */
  function AfterPlain(c: C.Client): C.State {
    match c.state
    case EnterEarlyData => C.ReadServerHello
    case FinishFlight => if c.reused then C.FinishClientHandshake else C.ReadSessionTicket
    case ProcessChangeCipherSpec => C.ReadServerFinished
    case _ => C.Done
  }

  lemma {:induction false} PlainDo(cfg: C.Config, c: C.Client, inbox: seq<Rec>, v: Verdict)
    requires Plain(c.state) && !v.Refuse?
    ensures C.Do(cfg, c, inbox, v) == C.Go(c, AfterPlain(c))
  {
  }

  lemma {:induction false} PlainGoes(d: Deal, gs: seq<Group>, c: C.Client, inbox: seq<Rec>, v: Verdict)
    requires Ready(d, gs, c) && Plain(c.state)
    ensures Kept(d, gs, c, inbox, v, C.Go(c, AfterPlain(c)))
  {
    match c.state
    case EnterEarlyData => Goes(d, gs, c, c, inbox, v, C.ReadServerHello);
    case FinishFlight => Goes(d, gs, c, c, inbox, v, if d.reused then C.FinishClientHandshake else C.ReadSessionTicket);
    case ProcessChangeCipherSpec => Goes(d, gs, c, c, inbox, v, C.ReadServerFinished);
    case FinishClientHandshake => Goes(d, gs, c, c, inbox, v, C.Done);
  }

  lemma {:induction false} PlainStep(d: Deal, gs: seq<Group>, cfg: C.Config, c: C.Client, inbox: seq<Rec>, v: Verdict)
    requires Ready(d, gs, c) && !v.Refuse? && Plain(c.state)
    ensures Kept(d, gs, c, inbox, v, C.Do(cfg, c, inbox, v))
  {
    PlainDo(cfg, c, inbox, v);
    PlainGoes(d, gs, c, inbox, v);
  }

  lemma {:induction false} SendFinishedDo(d: Deal, gs: seq<Group>, cfg: C.Config, c: C.Client, inbox: seq<Rec>, v: Verdict)
    requires Ready(d, gs, c) && !v.Refuse? && c.state.SendClientFinished?
    requires ClientEnd(d, gs, LastPlace(d))
    ensures Kept(d, gs, c, inbox, v, C.Do(cfg, c, inbox, v))
  {
    assert C.Do(cfg, c, inbox, v) == C.DoSendClientFinished(c, v);
    SendFinishedStep(d, gs, c, inbox, v);
  }

  /** Every step of the client keeps to the script. */
  lemma {:induction false} ClientStep(d: Deal, gs: seq<Group>, cfg: C.Config, c: C.Client, inbox: seq<Rec>, v: Verdict, hi: nat)
    requires IsScript(d, gs) && Fits(d, cfg) && Ready(d, gs, c) && !c.state.Done? && !v.Refuse?
    requires Expected(gs, true, At(d, c.state).pos, inbox, hi)
    ensures Kept(d, gs, c, inbox, v, C.Do(cfg, c, inbox, v))
  {
    if ReadsServerFlight(c.state) {
      ServerFlightStep(d, gs, cfg, c, inbox, v, hi);
    } else if SendsFlight(c.state) {
      ClientFlightStep(d, gs, cfg, c, inbox, v);
    } else if c.state.StartConnect? || c.state.ReadServerHello? {
      OpeningStep(d, gs, cfg, c, inbox, v, hi);
    } else if c.state.SendClientFinished? {
      SendFinishedDo(d, gs, cfg, c, inbox, v);
    } else if Plain(c.state) {
      PlainStep(d, gs, cfg, c, inbox, v);
    } else {
      ServerEndStep(d, gs, cfg, c, inbox, v, hi);
    }
  }
}
