/** A client against any peer: what has happened when it is done. */
module TlsPeer {
  import opened Basics
  import opened TlsMessages
  import opened TlsClient

  /** A record of the peer arrives, or the client moves on and its check or callback comes out in some way. */
  datatype Input = Deliver(rec: Rec) | Move(v: Verdict)

  datatype Seat = Seat(c: Client, inbox: seq<Rec>)

  /** One turn of `ssl_run_handshake`; flights leave at once. */
  function React(cfg: Config, s: Seat, input: Input): Seat {
    if input.Deliver? then s.(inbox := s.inbox + [input.rec])
    else match s.c.wait
      case Failed => s
      case Flush => s.(c := s.c.(wait := Ok, pending := []))
      case ReadMessage =>
        if s.inbox == [] then s else s.(c := s.c.(wait := if s.inbox[0].Hs? then Ok else Failed))
      case ReadCcs =>
        if s.inbox == [] then s
        else if s.inbox[0].Ccs? then Seat(s.c.(wait := Ok), s.inbox[1..])
        else s.(c := s.c.(wait := Failed))
      case Paused => s.(c := s.c.(wait := Ok))
      case Ok =>
        var out := Do(cfg, s.c, s.inbox, input.v);
        Seat(out.c, if out.pop && s.inbox != [] then s.inbox[1..] else s.inbox)
  }

  function ReactAll(cfg: Config, s: Seat, inputs: seq<Input>): Seat
    decreases |inputs|
  {
    if inputs == [] then s else ReactAll(cfg, React(cfg, s, inputs[0]), inputs[1..])
  }

  /** How far the log has come: the chain verified, the ServerKeyExchange read or passed over, the ClientKeyExchange
      added, the Finished message matched. */
  function Phase(reused: bool, state: State): nat {
    match state
    case ReadServerKeyExchange => 1
    case ReadCertificateRequest => 2
    case ReadServerHelloDone => 2
    case SendClientCertificate => 2
    case SendClientKeyExchange => 2
    case SendClientCertificateVerify => 3
    case SendClientFinished => if reused then 4 else 3
    case FinishFlight => if reused then 4 else 3
    case ReadSessionTicket => if reused then 0 else 3
    case ProcessChangeCipherSpec => if reused then 0 else 3
    case ReadServerFinished => if reused then 0 else 3
    case FinishClientHandshake => 4
    case Done => 4
    case _ => 0
  }

  /** The log of a full handshake: with a certificate cipher the chain is verified first, and a ServerKeyExchange, if
      there is one, has its signature verified; only then is the ClientKeyExchange added. */
  function FullLog(certAuth: bool, keyExchange: bool, phase: nat): seq<Event> {
    if phase == 0 then []
    else if phase == 1 then if certAuth then [ChainVerified] else []
    else if phase == 2 then FullLog(certAuth, keyExchange, 1) + KeyExchangeLog(certAuth, keyExchange)
    else if phase == 3 then FullLog(certAuth, keyExchange, 2) + [KeyExchangeAdded]
    else FullLog(certAuth, keyExchange, 3) + [FinishedMatched]
  }

  function KeyExchangeLog(certAuth: bool, keyExchange: bool): seq<Event> {
    if !keyExchange then []
    else if certAuth then [ServerKeyExchangeRead] + [SignatureVerified]
    else [ServerKeyExchangeRead]
  }

  /** The log of an abbreviated handshake. */
  function ShortLog(phase: nat): seq<Event> {
    if phase >= 4 then [FinishedMatched] else []
  }

  /** The states of an abbreviated handshake from the ServerHello on. */
  predicate Short(state: State) {
    || state.ReadSessionTicket? || state.ProcessChangeCipherSpec? || state.ReadServerFinished?
    || state.SendClientFinished? || state.FinishFlight? || state.FinishClientHandshake? || state.Done?
  }

  predicate LogIs(c: Client, keyExchange: bool) {
    var phase := Phase(c.reused, c.state);
    if c.reused then Short(c.state) && c.log == ShortLog(phase)
    else c.log == FullLog(CertAuth(c), keyExchange, phase) && (phase >= 2 ==> Fitting(c, keyExchange))
  }

  /** A ServerKeyExchange comes with an ephemeral key exchange, and not with a certificate cipher otherwise. */
  predicate Fitting(c: Client, keyExchange: bool) {
    (Ecdhe(c) ==> keyExchange) && (CertAuth(c) && !Ecdhe(c) ==> !keyExchange)
  }

  ghost predicate LogOk(c: Client) {
    exists keyExchange: bool :: LogIs(c, keyExchange)
  }

  /** A step that neither logs anything nor changes what the log depends on. */
  predicate Quiet(c: Client, out: Out) {
    && out.c.log == c.log && out.c.reused == c.reused && out.c.cipher == c.cipher
    && Phase(c.reused, out.c.state) == Phase(c.reused, c.state) && (c.reused ==> Short(out.c.state))
  }

  lemma {:induction false} QuietKeeps(c: Client, out: Out)
    requires LogOk(c) && Quiet(c, out)
    ensures LogOk(out.c)
  {
    var k :| LogIs(c, k);
    assert LogIs(out.c, k);
  }

  /** The step stays where it is or goes to `next`, and is quiet. */
  lemma {:induction false} QuietGo(c: Client, out: Out, next: State)
    requires LogOk(c) && (out.c.state == c.state || out.c.state == next)
    requires out.c.log == c.log && out.c.reused == c.reused && out.c.cipher == c.cipher
    requires Phase(c.reused, next) == Phase(c.reused, c.state) && (c.reused ==> Short(next))
    ensures LogOk(out.c)
  {
    QuietKeeps(c, out);
  }

  lemma {:induction false} StartConnectKeeps(cfg: Config, c: Client, v: Verdict)
    requires LogOk(c) && c.wait.Ok? && c.state.StartConnect?
    ensures LogOk(DoStartConnect(cfg, c, v).c)
  {
    QuietGo(c, DoStartConnect(cfg, c, v), EnterEarlyData);
  }

  lemma {:induction false} ReadServerCertificateKeeps(c: Client, inbox: seq<Rec>, v: Verdict)
    requires LogOk(c) && c.wait.Ok? && c.state.ReadServerCertificate?
    ensures LogOk(DoReadServerCertificate(c, inbox, v).c)
  {
    QuietGo(c, DoReadServerCertificate(c, inbox, v), ReadCertificateStatus);
  }

  lemma {:induction false} ReadCertificateStatusKeeps(c: Client, inbox: seq<Rec>, v: Verdict)
    requires LogOk(c) && c.wait.Ok? && c.state.ReadCertificateStatus?
    ensures LogOk(DoReadCertificateStatus(c, inbox, v).c)
  {
    QuietGo(c, DoReadCertificateStatus(c, inbox, v), VerifyServerCertificate);
  }

  lemma {:induction false} ReadCertificateRequestKeeps(c: Client, inbox: seq<Rec>, v: Verdict)
    requires LogOk(c) && c.wait.Ok? && c.state.ReadCertificateRequest?
    ensures LogOk(DoReadCertificateRequest(c, inbox, v).c)
  {
    var m := Peek(inbox);
    if !CertAuth(c) || (m.Some? && m.value.ServerHelloDone?) {
      QuietGo(c, Go(c, ReadServerHelloDone), ReadServerHelloDone);
    } else if m.None? {
      QuietGo(c, Stay(c, ReadMessage), c.state);
    } else if !m.value.CertificateRequest? || v.Refuse? {
      QuietGo(c, Stay(c, Failed), c.state);
    } else {
      QuietGo(c, Took(c.(certRequest := true), m.value, ReadServerHelloDone), ReadServerHelloDone);
    }
  }

  lemma {:induction false} ReadServerHelloDoneKeeps(c: Client, inbox: seq<Rec>, v: Verdict)
    requires LogOk(c) && c.wait.Ok? && c.state.ReadServerHelloDone?
    ensures LogOk(DoReadServerHelloDone(c, inbox, v).c)
  {
    QuietGo(c, DoReadServerHelloDone(c, inbox, v), SendClientCertificate);
  }

  lemma {:induction false} SendClientCertificateKeeps(cfg: Config, c: Client, v: Verdict)
    requires LogOk(c) && c.wait.Ok? && c.state.SendClientCertificate?
    ensures LogOk(DoSendClientCertificate(cfg, c, v).c)
  {
    QuietGo(c, DoSendClientCertificate(cfg, c, v), SendClientKeyExchange);
  }

  lemma {:induction false} SendClientCertificateVerifyKeeps(cfg: Config, c: Client, v: Verdict)
    requires LogOk(c) && c.wait.Ok? && c.state.SendClientCertificateVerify?
    ensures LogOk(DoSendClientCertificateVerify(cfg, c, v).c)
  {
    QuietGo(c, DoSendClientCertificateVerify(cfg, c, v), SendClientFinished);
  }

  lemma {:induction false} AddIfQuiet(c: Client, condition: bool, m: Msg)
    ensures var c' := AddIf(c, condition, m); c' == c.(pending := c'.pending, transcript := c'.transcript)
  {
  }

  lemma {:induction false} SendClientFinishedKeeps(c: Client, v: Verdict)
    requires LogOk(c) && c.wait.Ok? && c.state.SendClientFinished?
    ensures LogOk(DoSendClientFinished(c, v).c)
  {
    if v.Refuse? {
      QuietGo(c, Stay(c, Failed), c.state);
    } else if v.Later? && c.channelId {
      QuietGo(c, Stay(c, Paused), c.state);
    } else {
      var c0 := c.(pending := c.pending + [Ccs]);
      AddIfQuiet(c0, c.npn, NextProto);
      AddIfQuiet(AddIf(c0, c.npn, NextProto), c.channelId, ChannelId);
      QuietGo(c, DoSendClientFinished(c, v), FinishFlight);
    }
  }

  lemma {:induction false} FinishFlightKeeps(c: Client, v: Verdict)
    requires LogOk(c) && c.wait.Ok? && c.state.FinishFlight?
    ensures LogOk(DoFinishFlight(c, v).c)
  {
    QuietGo(c, DoFinishFlight(c, v), if c.reused then FinishClientHandshake else ReadSessionTicket);
  }

  lemma {:induction false} ReadSessionTicketKeeps(c: Client, inbox: seq<Rec>, v: Verdict)
    requires LogOk(c) && c.wait.Ok? && c.state.ReadSessionTicket?
    ensures LogOk(DoReadSessionTicket(c, inbox, v).c)
  {
    var m := Peek(inbox);
    if !c.ticketExpected {
      QuietGo(c, Go(c.(wait := ReadCcs), ProcessChangeCipherSpec), ProcessChangeCipherSpec);
    } else if m.None? {
      QuietGo(c, Stay(c, ReadMessage), c.state);
    } else if !m.value.NewSessionTicket? || v.Refuse? {
      QuietGo(c, Stay(c, Failed), c.state);
    } else {
      QuietGo(c, Took(c.(wait := ReadCcs), m.value, ProcessChangeCipherSpec), ProcessChangeCipherSpec);
    }
  }

  lemma {:induction false} NothingLogged(c: Client)
    requires LogOk(c) && Phase(false, c.state) == 0 && !Short(c.state)
    ensures !c.reused && c.log == []
  {
    var k :| LogIs(c, k);
  }

  lemma {:induction false} ReadServerHelloKeeps(cfg: Config, c: Client, inbox: seq<Rec>, v: Verdict)
    requires LogOk(c) && c.wait.Ok? && c.state.ReadServerHello?
    ensures LogOk(DoReadServerHello(cfg, c, inbox, v).c)
  {
    var out := DoReadServerHello(cfg, c, inbox, v);
    NothingLogged(c);
    if out.c.state == c.state {
      QuietGo(c, out, c.state);
    } else {
      assert out.c.log == [] && out.c.state == if out.c.reused then ReadSessionTicket else ReadServerCertificate;
      EmptyLog(out.c);
    }
  }

  lemma {:induction false} EmptyLog(c: Client)
    requires c.log == [] && Phase(c.reused, c.state) == 0 && (c.reused ==> Short(c.state))
    ensures LogOk(c)
  {
    assert LogIs(c, false);
  }

  lemma {:induction false} VerifyServerCertificateKeeps(c: Client, v: Verdict)
    requires LogOk(c) && c.wait.Ok? && c.state.VerifyServerCertificate?
    ensures LogOk(DoVerifyServerCertificate(c, v).c)
  {
    NothingLogged(c);
    var out := DoVerifyServerCertificate(c, v);
    if out.c.state == c.state {
      QuietGo(c, out, c.state);
    } else {
      ChainLogged(c, out.c);
    }
  }

  lemma {:induction false} ChainLogged(c: Client, c': Client)
    requires !c.reused && c.log == [] && c' == c.(state := ReadServerKeyExchange, log := c'.log)
    requires c'.log == if CertAuth(c) then [ChainVerified] else []
    ensures LogOk(c')
  {
    assert c'.log == FullLog(CertAuth(c), false, 1);
    assert LogIs(c', false);
  }

  /** The log goes from one phase of a full handshake to the next. */
  lemma {:induction false} LogGrows(c: Client, c': Client, k: bool, phase: nat)
    requires !c.reused && !c'.reused && c'.cipher == c.cipher
    requires Phase(false, c'.state) == phase && c'.log == FullLog(CertAuth(c), k, phase) && Fitting(c, k)
    ensures LogOk(c')
  {
    assert LogIs(c', k);
  }

  lemma {:induction false} NoKeyExchange(c: Client, k: bool)
    requires !c.reused && c.log == FullLog(CertAuth(c), k, 1) && !Ecdhe(c)
    ensures LogOk(Go(c, ReadCertificateRequest).c)
  {
    assert FullLog(CertAuth(c), false, 2) == FullLog(CertAuth(c), false, 1) + [];
    LogGrows(c, Go(c, ReadCertificateRequest).c, false, 2);
  }

  lemma {:induction false} KeyExchangeRead(c: Client, m: Msg, certAuth: bool)
    requires !c.reused && certAuth == CertAuth(c) && c.log == FullLog(certAuth, true, 1) && Fitting(c, true)
    ensures var c1 := Log(c, ServerKeyExchangeRead);
      LogOk(Took(if certAuth then Log(c1, SignatureVerified) else c1, m, ReadCertificateRequest).c)
  {
    var c1 := Log(c, ServerKeyExchangeRead);
    var c' := Took(if certAuth then Log(c1, SignatureVerified) else c1, m, ReadCertificateRequest).c;
    assert c.log + [ServerKeyExchangeRead] + [SignatureVerified] == c.log + ([ServerKeyExchangeRead] + [SignatureVerified]);
    assert c'.log == FullLog(certAuth, true, 2);
    LogGrows(c, c', true, 2);
  }

  lemma {:induction false} ReadServerKeyExchangeKeeps(c: Client, inbox: seq<Rec>, v: Verdict)
    requires LogOk(c) && c.wait.Ok? && c.state.ReadServerKeyExchange?
    ensures LogOk(DoReadServerKeyExchange(c, inbox, v).c)
  {
    var k :| LogIs(c, k);
    var m := Peek(inbox);
    if m.None? {
      QuietGo(c, Stay(c, ReadMessage), c.state);
    } else if if m.value.ServerKeyExchange? then v.Refuse? || (!Ecdhe(c) && CertAuth(c)) else Ecdhe(c) {
      QuietGo(c, Stay(c, Failed), c.state);
    } else if !m.value.ServerKeyExchange? {
      NoKeyExchange(c, k);
    } else {
      KeyExchangeRead(c, m.value, CertAuth(c));
    }
  }

  lemma {:induction false} SendClientKeyExchangeKeeps(c: Client, v: Verdict)
    requires LogOk(c) && c.wait.Ok? && c.state.SendClientKeyExchange?
    ensures LogOk(DoSendClientKeyExchange(c, v).c)
  {
    var k :| LogIs(c, k);
    if v.Refuse? {
      QuietGo(c, DoSendClientKeyExchange(c, v), c.state);
    } else {
      LogGrows(c, DoSendClientKeyExchange(c, v).c, k, 3);
    }
  }

  lemma {:induction false} FinishedReadFull(c: Client, m: Msg, k: bool)
    requires !c.reused && c.log == FullLog(CertAuth(c), k, 3) && Fitting(c, k)
    ensures LogOk(Took(Log(c, FinishedMatched), m, FinishClientHandshake).c)
  {
    LogGrows(c, Took(Log(c, FinishedMatched), m, FinishClientHandshake).c, k, 4);
  }

  lemma {:induction false} FinishedReadShort(c: Client, m: Msg)
    requires c.reused && c.log == []
    ensures LogOk(Took(Log(c, FinishedMatched), m, SendClientFinished).c)
  {
    assert LogIs(Took(Log(c, FinishedMatched), m, SendClientFinished).c, false);
  }

  lemma {:induction false} ReadServerFinishedKeeps(c: Client, inbox: seq<Rec>)
    requires LogOk(c) && c.wait.Ok? && c.state.ReadServerFinished?
    ensures LogOk(DoReadServerFinished(c, inbox).c)
  {
    var m := Peek(inbox);
    if m.None? {
      QuietGo(c, Stay(c, ReadMessage), c.state);
    } else if m.value != Finished(true, c.transcript) {
      QuietGo(c, Stay(c, Failed), c.state);
    } else {
      var k :| LogIs(c, k);
      if c.reused {
        FinishedReadShort(c, m.value);
      } else {
        FinishedReadFull(c, m.value, k);
      }
    }
  }

  lemma {:induction false} PlainKeeps(cfg: Config, c: Client, inbox: seq<Rec>, v: Verdict)
    requires LogOk(c) && c.wait.Ok?
    requires c.state.EnterEarlyData? || c.state.ProcessChangeCipherSpec? || c.state.FinishClientHandshake? || c.state.Done?
    ensures LogOk(Do(cfg, c, inbox, v).c)
  {
    var out := Do(cfg, c, inbox, v);
    if c.state.EnterEarlyData? {
      QuietGo(c, out, ReadServerHello);
    } else if c.state.ProcessChangeCipherSpec? {
      QuietGo(c, out, ReadServerFinished);
    } else {
      QuietGo(c, out, Done);
    }
  }

  /** Every step keeps the log in order, whatever the peer sends and however the checks come out. */
  lemma {:induction false} DoKeeps(cfg: Config, c: Client, inbox: seq<Rec>, v: Verdict)
    requires LogOk(c) && c.wait.Ok?
    ensures LogOk(Do(cfg, c, inbox, v).c)
  {
    match c.state
    case StartConnect => StartConnectKeeps(cfg, c, v);
    case ReadServerHello => ReadServerHelloKeeps(cfg, c, inbox, v);
    case ReadServerCertificate => ReadServerCertificateKeeps(c, inbox, v);
    case ReadCertificateStatus => ReadCertificateStatusKeeps(c, inbox, v);
    case VerifyServerCertificate => VerifyServerCertificateKeeps(c, v);
    case ReadServerKeyExchange => ReadServerKeyExchangeKeeps(c, inbox, v);
    case ReadCertificateRequest => ReadCertificateRequestKeeps(c, inbox, v);
    case ReadServerHelloDone => ReadServerHelloDoneKeeps(c, inbox, v);
    case SendClientCertificate => SendClientCertificateKeeps(cfg, c, v);
    case SendClientKeyExchange => SendClientKeyExchangeKeeps(c, v);
    case SendClientCertificateVerify => SendClientCertificateVerifyKeeps(cfg, c, v);
    case SendClientFinished => SendClientFinishedKeeps(c, v);
    case FinishFlight => FinishFlightKeeps(c, v);
    case ReadSessionTicket => ReadSessionTicketKeeps(c, inbox, v);
    case ReadServerFinished => ReadServerFinishedKeeps(c, inbox);
    case _ => PlainKeeps(cfg, c, inbox, v);
  }

  lemma {:induction false} SameLog(c: Client, c': Client)
    requires LogOk(c) && c' == c.(wait := c'.wait, pending := c'.pending)
    ensures LogOk(c')
  {
    var k :| LogIs(c, k);
    assert LogIs(c', k);
  }

  lemma {:induction false} ReactResolves(cfg: Config, s: Seat, input: Input)
    requires input.Deliver? || !s.c.wait.Ok?
    ensures var c' := React(cfg, s, input).c; c' == s.c.(wait := c'.wait, pending := c'.pending)
  {
    if input.Move? {
      match s.c.wait
      case ReadCcs =>
        if s.inbox != [] {
          var w := if s.inbox[0].Ccs? then Ok else Failed;
          assert React(cfg, s, input).c == s.c.(wait := w);
        }
      case _ =>
    }
  }

  lemma {:induction false} ReactKeeps(cfg: Config, s: Seat, input: Input)
    requires LogOk(s.c)
    ensures LogOk(React(cfg, s, input).c)
  {
    if input.Move? && s.c.wait.Ok? {
      DoKeeps(cfg, s.c, s.inbox, input.v);
    } else {
      ReactResolves(cfg, s, input);
      SameLog(s.c, React(cfg, s, input).c);
    }
  }

  lemma {:induction false} RunKeeps(cfg: Config, s: Seat, inputs: seq<Input>)
    requires LogOk(s.c)
    ensures LogOk(ReactAll(cfg, s, inputs).c)
    decreases |inputs|
  {
    if inputs != [] {
      ReactKeeps(cfg, s, inputs[0]);
      RunKeeps(cfg, React(cfg, s, inputs[0]), inputs[1..]);
    }
  }

  predicate PrecededBy(log: seq<Event>, e: Event, f: Event) {
    forall i | 0 <= i < |log| && log[i] == e :: f in log[..i]
  }

  /** Against any peer, a client that is done has matched the server's Finished message. If it was a full handshake
      with a certificate cipher, then the chain had been verified before the ClientKeyExchange was added. With an
      ephemeral key exchange so had the signature of the ServerKeyExchange; otherwise there was no ServerKeyExchange. */
  lemma {:induction false} DoneIsSafe(cfg: Config, inputs: seq<Input>)
    requires ReactAll(cfg, Seat(INITIAL, []), inputs).c.state.Done?
    ensures
      var c := ReactAll(cfg, Seat(INITIAL, []), inputs).c;
      && FinishedMatched in c.log
      && (!c.reused && CertAuth(c) ==>
            && KeyExchangeAdded in c.log && PrecededBy(c.log, KeyExchangeAdded, ChainVerified)
            && (ServerKeyExchangeRead in c.log <==> Ecdhe(c))
            && (Ecdhe(c) ==> PrecededBy(c.log, KeyExchangeAdded, SignatureVerified)))
  {
    assert LogIs(INITIAL, false);
    RunKeeps(cfg, Seat(INITIAL, []), inputs);
    var c := ReactAll(cfg, Seat(INITIAL, []), inputs).c;
    var k :| LogIs(c, k);
    if !c.reused && CertAuth(c) {
      FullLogOrder(k);
    }
  }

  lemma {:induction false} FullLogOrder(keyExchange: bool)
    ensures var log := FullLog(true, keyExchange, 4);
      && KeyExchangeAdded in log && PrecededBy(log, KeyExchangeAdded, ChainVerified)
      && (ServerKeyExchangeRead in log <==> keyExchange)
      && (keyExchange ==> PrecededBy(log, KeyExchangeAdded, SignatureVerified))
  {
    var log := FullLog(true, keyExchange, 4);
    assert FullLog(true, keyExchange, 3) == FullLog(true, keyExchange, 2) + [KeyExchangeAdded];
    assert FullLog(true, keyExchange, 2) == [ChainVerified] + KeyExchangeLog(true, keyExchange);
    if keyExchange {
      assert log == [ChainVerified, ServerKeyExchangeRead, SignatureVerified, KeyExchangeAdded, FinishedMatched];
      assert log[3] == KeyExchangeAdded && log[..3][0] == ChainVerified && log[..3][2] == SignatureVerified;
    } else {
      assert log == [ChainVerified, KeyExchangeAdded, FinishedMatched];
      assert log[1] == KeyExchangeAdded && log[..1][0] == ChainVerified;
    }
  }
}
