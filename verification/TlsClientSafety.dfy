/** A client that is done, against any peer: its transcript is a legal handshake, every check was made and none was refused. */
module TlsClientSafety {
  import opened Basics
  import opened TlsMessages
  import opened TlsFlow
  import opened TlsClient
  import opened TlsPeer

  // ---- The transcript ----

  /** The place in the grammar that a state has reached. */
  function PlaceOf(reused: bool, state: State): nat {
    match state
    case StartConnect => 0
    case EnterEarlyData => 1
    case ReadServerHello => 1
    case ReadServerCertificate => 2
    case ReadCertificateStatus => 3
    case VerifyServerCertificate => 4
    case ReadServerKeyExchange => 4
    case ReadCertificateRequest => 5
    case ReadServerHelloDone => 6
    case SendClientCertificate => 7
    case SendClientKeyExchange => 8
    case SendClientCertificateVerify => 9
    case SendClientFinished => if reused then 4 else 10
    case FinishFlight => if reused then 7 else 13
    case ReadSessionTicket => if reused then 2 else 13
    case ProcessChangeCipherSpec => if reused then 3 else 14
    case ReadServerFinished => if reused then 3 else 14
    case FinishClientHandshake => Places(reused)
    case Done => Places(reused)
  }

  /** What the client remembers is what its transcript says. */
  predicate Remembers(cfg: Config, c: Client) {
    var t := c.transcript;
    if PlaceOf(c.reused, c.state) < 2 then !c.reused && !Requested(t) && !c.certRequest
    else
      && Greeted(t) && c.cipher == Some(t[1].cipher) && c.statusExpected == t[1].ocsp && c.ticketExpected == t[1].ticket
      && c.npn == t[1].npn && c.channelId == t[1].channelId
      && c.certRequest == Requested(t) && (c.reused ==> Short(c.state) && !c.certRequest)
      && (PlaceOf(c.reused, c.state) <= 5 ==> !c.certRequest)
      && (c.certRequest && c.state.SendClientKeyExchange? ==> t[|t| - 1] == Certificate(!cfg.hasCertificate))
      && (c.certRequest && c.state.SendClientCertificateVerify? ==> t[|t| - 2] == Certificate(!cfg.hasCertificate))
  }

  predicate InFlow(cfg: Config, c: Client) {
    Legal(ClientSide(cfg), c.reused, PlaceOf(c.reused, c.state), c.transcript) && Remembers(cfg, c)
  }

  /** A step that stays at its place or goes to the next one, over nothing or over the message that belongs there. */
  ghost predicate Moves(cfg: Config, c: Client, c': Client) {
    var (side, n, n') := (ClientSide(cfg), PlaceOf(c.reused, c.state), PlaceOf(c.reused, c'.state));
    && Remembers(cfg, c') && c'.reused == c.reused
    && if |c'.transcript| == |c.transcript| then
         c'.transcript == c.transcript && (n' == n || (n' == n + 1 && !NeedAt(side, c.reused, n, c.transcript).Must?))
       else
         && |c'.transcript| == |c.transcript| + 1 && c.transcript <= c'.transcript && n' == n + 1
         && !NeedAt(side, c.reused, n, c.transcript).Never?
         && SaysAt(side, c.reused, n, c.transcript, c'.transcript[|c.transcript|])
  }

  lemma {:induction false} MovesInFlow(cfg: Config, c: Client, c': Client)
    requires InFlow(cfg, c) && Moves(cfg, c, c')
    ensures InFlow(cfg, c')
  {
    var (side, n) := (ClientSide(cfg), PlaceOf(c.reused, c.state));
    if |c'.transcript| == |c.transcript| {
      if PlaceOf(c.reused, c'.state) == n + 1 {
        Omit(side, c.reused, n, c.transcript);
      }
    } else {
      var m := c'.transcript[|c.transcript|];
      assert c'.transcript == c.transcript + [m];
      Say(side, c.reused, n, c.transcript, m);
    }
  }

  /** Nothing changes that the flow depends on. */
  lemma {:induction false} SameFlow(cfg: Config, c: Client, c': Client)
    requires Remembers(cfg, c) && c' == c.(wait := c'.wait, pending := c'.pending, log := c'.log)
    ensures Moves(cfg, c, c')
  {
  }

  lemma {:induction false} RequestedWith(t: seq<Msg>, m: Msg)
    ensures Requested(t + [m]) <==> Requested(t) || m == CertificateRequest
  {
  }

  /** The client goes on to `state` without a message. */
  lemma {:induction false} PassesOver(cfg: Config, c: Client, c': Client)
    requires Remembers(cfg, c) && c' == c.(state := c'.state, wait := c'.wait, pending := c'.pending, log := c'.log)
    requires c.certRequest ==> !c'.state.SendClientKeyExchange? && !c'.state.SendClientCertificateVerify?
    requires c.reused ==> Short(c'.state)
    requires var (n, n') := (PlaceOf(c.reused, c.state), PlaceOf(c.reused, c'.state));
      && (n >= 2 <==> n' >= 2) && (n' <= 5 ==> n <= 5)
      && (n' == n || (n' == n + 1 && !NeedAt(ClientSide(cfg), c.reused, n, c.transcript).Must?))
    ensures Moves(cfg, c, c')
  {
  }

  /** The client sends or takes `m`, the message of its place, and goes on. */
  lemma {:induction false} Exchanges(cfg: Config, c: Client, c': Client, m: Msg)
    requires Remembers(cfg, c) && PlaceOf(c.reused, c.state) >= 2 && (c.reused ==> Short(c'.state))
    requires c' == c.(state := c'.state, wait := c'.wait, pending := c'.pending, log := c'.log,
                      transcript := c.transcript + [m], certRequest := c.certRequest || m == CertificateRequest)
    requires c.certRequest && c'.state.SendClientKeyExchange? ==> m == Certificate(!cfg.hasCertificate)
    requires c.certRequest && c'.state.SendClientCertificateVerify? ==> c.state.SendClientKeyExchange?
    requires m == CertificateRequest ==> c'.state.ReadServerHelloDone? && !c.reused
    requires var n := PlaceOf(c.reused, c.state);
      && PlaceOf(c.reused, c'.state) == n + 1
      && !NeedAt(ClientSide(cfg), c.reused, n, c.transcript).Never? && SaysAt(ClientSide(cfg), c.reused, n, c.transcript, m)
    ensures Moves(cfg, c, c')
  {
    RequestedWith(c.transcript, m);
  }

  lemma {:induction false} StartFlow(cfg: Config, c: Client, v: Verdict)
    requires Remembers(cfg, c) && c.state.StartConnect?
    ensures Moves(cfg, c, DoStartConnect(cfg, c, v).c)
  {
    var out := DoStartConnect(cfg, c, v);
    if v.Refuse? {
      SameFlow(cfg, c, out.c);
    } else {
      var m := ClientHello(if cfg.session.Some? then cfg.session.value.id else 0);
      RequestedWith(c.transcript, m);
      assert SaysAt(ClientSide(cfg), false, 0, c.transcript, m);
    }
  }

  lemma {:induction false} FirstIsHello(cfg: Config, t: seq<Msg>, reused: bool)
    requires Legal(ClientSide(cfg), false, 1, t)
    ensures |t| == 1 && t[0].ClientHello? && Legal(ClientSide(cfg), reused, 1, t)
  {
    var front := t[..|t| - 1];
    assert Legal(ClientSide(cfg), false, 0, front);
    assert Legal(ClientSide(cfg), reused, 0, front);
  }

  /** The ServerHello settles whether the session is resumed. */
  lemma {:induction false} HelloFlow(cfg: Config, c: Client, inbox: seq<Rec>, v: Verdict)
    requires InFlow(cfg, c) && c.state.ReadServerHello?
    ensures InFlow(cfg, DoReadServerHello(cfg, c, inbox, v).c)
  {
    HelloDoes(cfg, c, inbox, v);
    var c' := DoReadServerHello(cfg, c, inbox, v).c;
    if c' != c.(wait := c'.wait) {
      HelloTaken(cfg, c, c', Peek(inbox).value);
    }
  }

  /** The client after a ServerHello. */
  function Told(c: Client, m: Msg, reused: bool): Client
    requires m.ServerHello?
  {
    c.(reused := reused, cipher := Some(m.cipher), statusExpected := m.ocsp, ticketExpected := m.ticket, npn := m.npn,
       channelId := m.channelId, transcript := c.transcript + [m], state := if reused then ReadSessionTicket else ReadServerCertificate)
  }

  lemma {:induction false} HelloDoes(cfg: Config, c: Client, inbox: seq<Rec>, v: Verdict)
    ensures var (m, c') := (Peek(inbox), DoReadServerHello(cfg, c, inbox, v).c);
      || c' == c.(wait := c'.wait)
      || (m.Some? && m.value.ServerHello? && HelloAt(ClientSide(cfg), c'.reused, 1, m.value) && c' == Told(c, m.value, c'.reused))
  {
    var m := Peek(inbox);
    if m.Some? && !v.Refuse? && m.value.ServerHello? && m.value.cipher in cfg.ciphers {
      HelloGood(cfg, c, inbox, v, m.value);
    }
  }

  lemma {:induction false} HelloGood(cfg: Config, c: Client, inbox: seq<Rec>, v: Verdict, m: Msg)
    requires Peek(inbox) == Some(m) && !v.Refuse? && m.ServerHello? && m.cipher in cfg.ciphers
    ensures var (reused, out) := (Resumes(cfg, m.sessionId), DoReadServerHello(cfg, c, inbox, v));
      if reused && cfg.session.value.cipher != m.cipher then out == Stay(c, Failed) else out.c == Told(c, m, reused)
  {
  }

  lemma {:induction false} HelloTaken(cfg: Config, c: Client, c': Client, m: Msg)
    requires Legal(ClientSide(cfg), false, 1, c.transcript) && !Requested(c.transcript) && !c.certRequest
    requires m.ServerHello? && HelloAt(ClientSide(cfg), c'.reused, 1, m) && c' == Told(c, m, c'.reused)
    ensures InFlow(cfg, c')
  {
    FirstIsHello(cfg, c.transcript, c'.reused);
    RequestedWith(c.transcript, m);
    Say(ClientSide(cfg), c'.reused, 1, c.transcript, m);
  }

  lemma {:induction false} CertificateDoes(c: Client, inbox: seq<Rec>, v: Verdict)
    ensures var c' := DoReadServerCertificate(c, inbox, v).c;
      || c' == c.(wait := c'.wait)
      || (!CertAuth(c) && c' == Go(c, ReadCertificateStatus).c)
      || (CertAuth(c) && c' == Took(c, Certificate(false), ReadCertificateStatus).c)
  {
  }

  lemma {:induction false} CertificateFlow(cfg: Config, c: Client, inbox: seq<Rec>, v: Verdict)
    requires Remembers(cfg, c) && c.state.ReadServerCertificate?
    ensures Moves(cfg, c, DoReadServerCertificate(c, inbox, v).c)
  {
    CertificateDoes(c, inbox, v);
    var c' := DoReadServerCertificate(c, inbox, v).c;
    if c' == c.(wait := c'.wait) {
      SameFlow(cfg, c, c');
    } else if c' == Go(c, ReadCertificateStatus).c {
      PassesOver(cfg, c, Go(c, ReadCertificateStatus).c);
    } else {
      Exchanges(cfg, c, Took(c, Certificate(false), ReadCertificateStatus).c, Certificate(false));
    }
  }

  lemma {:induction false} StatusDoes(c: Client, inbox: seq<Rec>, v: Verdict)
    ensures var c' := DoReadCertificateStatus(c, inbox, v).c;
      || c' == c.(wait := c'.wait)
      || (c' == Go(c, VerifyServerCertificate).c)
      || (c.statusExpected && c' == Took(c, CertificateStatus, VerifyServerCertificate).c)
  {
  }

  lemma {:induction false} StatusFlow(cfg: Config, c: Client, inbox: seq<Rec>, v: Verdict)
    requires Remembers(cfg, c) && c.state.ReadCertificateStatus?
    ensures Moves(cfg, c, DoReadCertificateStatus(c, inbox, v).c)
  {
    StatusDoes(c, inbox, v);
    var c' := DoReadCertificateStatus(c, inbox, v).c;
    if c' == c.(wait := c'.wait) {
      SameFlow(cfg, c, c');
    } else if c' == Go(c, VerifyServerCertificate).c {
      PassesOver(cfg, c, Go(c, VerifyServerCertificate).c);
    } else {
      Exchanges(cfg, c, Took(c, CertificateStatus, VerifyServerCertificate).c, CertificateStatus);
    }
  }

  lemma {:induction false} KeyExchangeDoes(c: Client, inbox: seq<Rec>, v: Verdict)
    ensures var c' := DoReadServerKeyExchange(c, inbox, v).c;
      || c' == c.(wait := c'.wait)
      || (!Ecdhe(c) && c' == Go(c, ReadCertificateRequest).c)
      || ((CertAuth(c) ==> Ecdhe(c)) && c' == Took(c.(log := c'.log), ServerKeyExchange, ReadCertificateRequest).c)
  {
    var m := Peek(inbox);
    if m.Some? && m.value.ServerKeyExchange? && !v.Refuse? && (CertAuth(c) ==> Ecdhe(c)) {
      var c1 := Log(c, ServerKeyExchangeRead);
      assert DoReadServerKeyExchange(c, inbox, v)
          == Took(if CertAuth(c) then Log(c1, SignatureVerified) else c1, ServerKeyExchange, ReadCertificateRequest);
    }
  }

  lemma {:induction false} KeyExchangeFlow(cfg: Config, c: Client, inbox: seq<Rec>, v: Verdict)
    requires Remembers(cfg, c) && c.state.ReadServerKeyExchange?
    ensures Moves(cfg, c, DoReadServerKeyExchange(c, inbox, v).c)
  {
    KeyExchangeDoes(c, inbox, v);
    var c' := DoReadServerKeyExchange(c, inbox, v).c;
    if c' == c.(wait := c'.wait) {
      SameFlow(cfg, c, c');
    } else if c' == Go(c, ReadCertificateRequest).c {
      PassesOver(cfg, c, Go(c, ReadCertificateRequest).c);
    } else {
      Exchanges(cfg, c, Took(c.(log := c'.log), ServerKeyExchange, ReadCertificateRequest).c, ServerKeyExchange);
    }
  }

  lemma {:induction false} RequestDoes(c: Client, inbox: seq<Rec>, v: Verdict)
    ensures var c' := DoReadCertificateRequest(c, inbox, v).c;
      || c' == c.(wait := c'.wait)
      || (c' == Go(c, ReadServerHelloDone).c)
      || (CertAuth(c) && c' == Took(c.(certRequest := true), CertificateRequest, ReadServerHelloDone).c)
  {
  }

  lemma {:induction false} RequestFlow(cfg: Config, c: Client, inbox: seq<Rec>, v: Verdict)
    requires Remembers(cfg, c) && c.state.ReadCertificateRequest?
    ensures Moves(cfg, c, DoReadCertificateRequest(c, inbox, v).c)
  {
    RequestDoes(c, inbox, v);
    var c' := DoReadCertificateRequest(c, inbox, v).c;
    if c' == c.(wait := c'.wait) {
      SameFlow(cfg, c, c');
    } else if c' == Go(c, ReadServerHelloDone).c {
      PassesOver(cfg, c, Go(c, ReadServerHelloDone).c);
    } else {
      Exchanges(cfg, c, Took(c.(certRequest := true), CertificateRequest, ReadServerHelloDone).c, CertificateRequest);
    }
  }

  lemma {:induction false} HelloDoneDoes(c: Client, inbox: seq<Rec>, v: Verdict)
    ensures var c' := DoReadServerHelloDone(c, inbox, v).c;
      || c' == c.(wait := c'.wait)
      || (c' == Took(c, ServerHelloDone, SendClientCertificate).c)
  {
  }

  lemma {:induction false} HelloDoneFlow(cfg: Config, c: Client, inbox: seq<Rec>, v: Verdict)
    requires Remembers(cfg, c) && c.state.ReadServerHelloDone?
    ensures Moves(cfg, c, DoReadServerHelloDone(c, inbox, v).c)
  {
    HelloDoneDoes(c, inbox, v);
    var c' := DoReadServerHelloDone(c, inbox, v).c;
    if c' == c.(wait := c'.wait) {
      SameFlow(cfg, c, c');
    } else {
      Exchanges(cfg, c, Took(c, ServerHelloDone, SendClientCertificate).c, ServerHelloDone);
    }
  }

  lemma {:induction false} SendCertificateDoes(cfg: Config, c: Client, v: Verdict)
    ensures var c' := DoSendClientCertificate(cfg, c, v).c;
      || c' == c.(wait := c'.wait)
      || (!c.certRequest && c' == Go(c, SendClientKeyExchange).c)
      || (c.certRequest && c' == Go(Add(c, Certificate(!cfg.hasCertificate)), SendClientKeyExchange).c)
  {
  }

  lemma {:induction false} SendCertificateFlow(cfg: Config, c: Client, v: Verdict)
    requires Remembers(cfg, c) && c.state.SendClientCertificate?
    ensures Moves(cfg, c, DoSendClientCertificate(cfg, c, v).c)
  {
    SendCertificateDoes(cfg, c, v);
    var c' := DoSendClientCertificate(cfg, c, v).c;
    if c' == c.(wait := c'.wait) {
      SameFlow(cfg, c, c');
    } else if c' == Go(c, SendClientKeyExchange).c {
      PassesOver(cfg, c, Go(c, SendClientKeyExchange).c);
    } else {
      Exchanges(cfg, c, Go(Add(c, Certificate(!cfg.hasCertificate)), SendClientKeyExchange).c, Certificate(!cfg.hasCertificate));
    }
  }

  lemma {:induction false} SendKeyDoes(c: Client, v: Verdict)
    ensures var c' := DoSendClientKeyExchange(c, v).c;
      || c' == c.(wait := c'.wait)
      || (c' == Go(Log(Add(c, ClientKeyExchange), KeyExchangeAdded), SendClientCertificateVerify).c)
  {
  }

  lemma {:induction false} SendKeyFlow(cfg: Config, c: Client, v: Verdict)
    requires Remembers(cfg, c) && c.state.SendClientKeyExchange?
    ensures Moves(cfg, c, DoSendClientKeyExchange(c, v).c)
  {
    SendKeyDoes(c, v);
    var c' := DoSendClientKeyExchange(c, v).c;
    if c' == c.(wait := c'.wait) {
      SameFlow(cfg, c, c');
    } else {
      Exchanges(cfg, c, Go(Log(Add(c, ClientKeyExchange), KeyExchangeAdded), SendClientCertificateVerify).c, ClientKeyExchange);
    }
  }

  lemma {:induction false} SendVerifyDoes(cfg: Config, c: Client, v: Verdict)
    ensures var c' := DoSendClientCertificateVerify(cfg, c, v).c;
      || c' == c.(wait := c'.wait)
      || ((c.certRequest ==> !cfg.hasCertificate) && c' == Go(c, SendClientFinished).c)
      || (c.certRequest && cfg.hasCertificate && c' == Go(Add(c, CertificateVerify), SendClientFinished).c)
  {
  }

  lemma {:induction false} SendVerifyFlow(cfg: Config, c: Client, v: Verdict)
    requires Remembers(cfg, c) && c.state.SendClientCertificateVerify?
    ensures Moves(cfg, c, DoSendClientCertificateVerify(cfg, c, v).c)
  {
    SendVerifyDoes(cfg, c, v);
    var c' := DoSendClientCertificateVerify(cfg, c, v).c;
    if c' == c.(wait := c'.wait) {
      SameFlow(cfg, c, c');
    } else if c' == Go(c, SendClientFinished).c {
      PassesOver(cfg, c, Go(c, SendClientFinished).c);
    } else {
      Exchanges(cfg, c, Go(Add(c, CertificateVerify), SendClientFinished).c, CertificateVerify);
    }
  }

  /** NextProto, Channel ID and Finished, after place `n`. */
  lemma {:induction false} LastThree(cfg: Config, reused: bool, n: nat, t: seq<Msg>)
    requires n == (if reused then 4 else 10) && Legal(ClientSide(cfg), reused, n, t) && Greeted(t)
    ensures var t1 := t + if t[1].npn then [NextProto] else [];
      var t2 := t1 + if t[1].channelId then [ChannelId] else [];
      Legal(ClientSide(cfg), reused, n + 3, t2 + [Finished(false, t2)]) && (Requested(t2 + [Finished(false, t2)]) <==> Requested(t))
  {
    var side := ClientSide(cfg);
    SayIf(side, reused, n, t, t[1].npn, NextProto);
    var t1 := t + if t[1].npn then [NextProto] else [];
    assert Greeted(t1) && t1[1] == t[1];
    SayIf(side, reused, n + 1, t1, t[1].channelId, ChannelId);
    var t2 := t1 + if t[1].channelId then [ChannelId] else [];
    assert Greeted(t2) && (Requested(t2) <==> Requested(t));
    Say(side, reused, n + 2, t2, Finished(false, t2));
    RequestedWith(t2, Finished(false, t2));
  }

  lemma {:induction false} AddIfTranscript(c: Client, b: bool, m: Msg)
    ensures AddIf(c, b, m) == c.(pending := AddIf(c, b, m).pending, transcript := c.transcript + if b then [m] else [])
  {
    assert c.transcript + [] == c.transcript;
  }

  lemma {:induction false} FinishedSent(c: Client, v: Verdict)
    requires !v.Refuse? && !(v.Later? && c.channelId)
    ensures var t1 := c.transcript + if c.npn then [NextProto] else [];
      var t2 := t1 + if c.channelId then [ChannelId] else [];
      var c' := DoSendClientFinished(c, v).c;
      c' == c.(pending := c'.pending, transcript := t2 + [Finished(false, t2)], state := FinishFlight, wait := Flush)
  {
    var c0 := c.(pending := c.pending + [Ccs]);
    AddIfTranscript(c0, c.npn, NextProto);
    AddIfTranscript(AddIf(c0, c.npn, NextProto), c.channelId, ChannelId);
  }

  lemma {:induction false} SendFinishedFlow(cfg: Config, c: Client, v: Verdict)
    requires InFlow(cfg, c) && c.state.SendClientFinished?
    ensures InFlow(cfg, DoSendClientFinished(c, v).c)
  {
    var out := DoSendClientFinished(c, v);
    if out.c.state == c.state {
      assert out.c == c.(wait := out.c.wait);
    } else {
      FinishedSent(c, v);
      FinishedInFlow(cfg, c, out.c);
    }
  }

  lemma {:induction false} FinishedInFlow(cfg: Config, c: Client, c': Client)
    requires InFlow(cfg, c) && c.state.SendClientFinished?
    requires var t1 := c.transcript + if c.npn then [NextProto] else [];
      var t2 := t1 + if c.channelId then [ChannelId] else [];
      c' == c.(pending := c'.pending, transcript := t2 + [Finished(false, t2)], state := FinishFlight, wait := Flush)
    ensures InFlow(cfg, c')
  {
    var (n, t) := (PlaceOf(c.reused, c.state), c.transcript);
    assert Greeted(t) && t[1].npn == c.npn && t[1].channelId == c.channelId;
    LastThree(cfg, c.reused, n, t);
    assert Remembers(cfg, c') by {
      assert c'.transcript[1] == t[1];
    }
  }

  lemma {:induction false} TicketDoes(c: Client, inbox: seq<Rec>, v: Verdict)
    ensures var c' := DoReadSessionTicket(c, inbox, v).c;
      || c' == c.(wait := c'.wait)
      || (!c.ticketExpected && c' == Go(c.(wait := ReadCcs), ProcessChangeCipherSpec).c)
      || (c.ticketExpected && c' == Took(c.(wait := ReadCcs), NewSessionTicket, ProcessChangeCipherSpec).c)
  {
  }

  lemma {:induction false} TicketFlow(cfg: Config, c: Client, inbox: seq<Rec>, v: Verdict)
    requires Remembers(cfg, c) && c.state.ReadSessionTicket?
    ensures Moves(cfg, c, DoReadSessionTicket(c, inbox, v).c)
  {
    TicketDoes(c, inbox, v);
    var c' := DoReadSessionTicket(c, inbox, v).c;
    if c' == c.(wait := c'.wait) {
      SameFlow(cfg, c, c');
    } else if c' == Go(c.(wait := ReadCcs), ProcessChangeCipherSpec).c {
      PassesOver(cfg, c, Go(c.(wait := ReadCcs), ProcessChangeCipherSpec).c);
    } else {
      Exchanges(cfg, c, Took(c.(wait := ReadCcs), NewSessionTicket, ProcessChangeCipherSpec).c, NewSessionTicket);
    }
  }

  /** The client that has taken the Finished message it expects. */
  function MatchedFinished(c: Client): Client {
    Took(Log(c, FinishedMatched), Finished(true, c.transcript), if c.reused then SendClientFinished else FinishClientHandshake).c
  }

  lemma {:induction false} FinishedDoes(c: Client, inbox: seq<Rec>)
    ensures var c' := DoReadServerFinished(c, inbox).c;
      || c' == c.(wait := c'.wait)
      || (c' == MatchedFinished(c))
  {
  }

  lemma {:induction false} FinishedFlow(cfg: Config, c: Client, inbox: seq<Rec>)
    requires Remembers(cfg, c) && c.state.ReadServerFinished?
    ensures Moves(cfg, c, DoReadServerFinished(c, inbox).c)
  {
    FinishedDoes(c, inbox);
    var c' := DoReadServerFinished(c, inbox).c;
    if c' == c.(wait := c'.wait) {
      SameFlow(cfg, c, c');
    } else {
      Exchanges(cfg, c, MatchedFinished(c), Finished(true, c.transcript));
    }
  }

  /** Where a state that neither sends nor reads leads. */
  function AfterPlain(c: Client): State {
    match c.state
    case EnterEarlyData => ReadServerHello
    case VerifyServerCertificate => ReadServerKeyExchange
    case FinishFlight => if c.reused then FinishClientHandshake else ReadSessionTicket
    case ProcessChangeCipherSpec => ReadServerFinished
    case _ => Done
  }

  predicate Plain(state: State) {
    || state.EnterEarlyData? || state.VerifyServerCertificate? || state.FinishFlight? || state.ProcessChangeCipherSpec?
    || state.FinishClientHandshake? || state.Done?
  }

  lemma {:induction false} PlainDo(cfg: Config, c: Client, inbox: seq<Rec>, v: Verdict)
    requires Plain(c.state)
    ensures var c' := Do(cfg, c, inbox, v).c;
      c' == c.(wait := c'.wait) || c' == c.(state := AfterPlain(c), log := c'.log)
  {
    match c.state
    case VerifyServerCertificate =>
      VerifyDoes(c, v);
      assert Do(cfg, c, inbox, v) == DoVerifyServerCertificate(c, v);
    case FinishFlight =>
      FlightDoes(c, v);
      assert Do(cfg, c, inbox, v) == DoFinishFlight(c, v);
    case ProcessChangeCipherSpec => assert Do(cfg, c, inbox, v) == DoProcessChangeCipherSpec(c, v);
    case EnterEarlyData => assert Do(cfg, c, inbox, v) == Go(c, ReadServerHello);
    case FinishClientHandshake => assert Do(cfg, c, inbox, v) == Go(c, Done);
    case Done => assert Do(cfg, c, inbox, v) == Stay(c, Ok);
  }

  lemma {:induction false} VerifyDoes(c: Client, v: Verdict)
    ensures var c' := DoVerifyServerCertificate(c, v).c;
      c' == c.(wait := c'.wait) || c' == c.(state := ReadServerKeyExchange, log := c'.log)
  {
  }

  lemma {:induction false} FlightDoes(c: Client, v: Verdict)
    ensures var c' := DoFinishFlight(c, v).c;
      c' == c.(wait := c'.wait) || c' == c.(state := if c.reused then FinishClientHandshake else ReadSessionTicket)
  {
  }

  lemma {:induction false} PlainFlow(cfg: Config, c: Client, inbox: seq<Rec>, v: Verdict)
    requires Remembers(cfg, c) && Plain(c.state)
    ensures Moves(cfg, c, Do(cfg, c, inbox, v).c)
  {
    PlainDo(cfg, c, inbox, v);
    var c' := Do(cfg, c, inbox, v).c;
    if c' == c.(wait := c'.wait) {
      SameFlow(cfg, c, c');
    } else {
      PlainPasses(cfg, c, c');
    }
  }

  lemma {:induction false} PlainPasses(cfg: Config, c: Client, c': Client)
    requires Remembers(cfg, c) && Plain(c.state) && c' == c.(state := AfterPlain(c), log := c'.log)
    ensures Moves(cfg, c, c')
  {
    PassesOver(cfg, c, c');
  }

  lemma {:induction false} DoMoves(cfg: Config, c: Client, inbox: seq<Rec>, v: Verdict)
    requires Remembers(cfg, c) && !c.state.ReadServerHello? && !c.state.SendClientFinished?
    ensures Moves(cfg, c, Do(cfg, c, inbox, v).c)
  {
    match c.state
    case StartConnect => StartFlow(cfg, c, v);
    case ReadServerCertificate => CertificateFlow(cfg, c, inbox, v);
    case ReadCertificateStatus => StatusFlow(cfg, c, inbox, v);
    case ReadServerKeyExchange => KeyExchangeFlow(cfg, c, inbox, v);
    case ReadCertificateRequest => RequestFlow(cfg, c, inbox, v);
    case ReadServerHelloDone => HelloDoneFlow(cfg, c, inbox, v);
    case SendClientCertificate => SendCertificateFlow(cfg, c, v);
    case SendClientKeyExchange => SendKeyFlow(cfg, c, v);
    case SendClientCertificateVerify => SendVerifyFlow(cfg, c, v);
    case ReadSessionTicket => TicketFlow(cfg, c, inbox, v);
    case ReadServerFinished => FinishedFlow(cfg, c, inbox);
    case _ => PlainFlow(cfg, c, inbox, v);
  }

  lemma {:induction false} DoFlow(cfg: Config, c: Client, inbox: seq<Rec>, v: Verdict)
    requires InFlow(cfg, c)
    ensures InFlow(cfg, Do(cfg, c, inbox, v).c)
  {
    if c.state.ReadServerHello? {
      HelloFlow(cfg, c, inbox, v);
    } else if c.state.SendClientFinished? {
      SendFinishedFlow(cfg, c, v);
    } else {
      DoMoves(cfg, c, inbox, v);
      MovesInFlow(cfg, c, Do(cfg, c, inbox, v).c);
    }
  }

  lemma {:induction false} ReactFlow(cfg: Config, s: Seat, input: Input)
    requires InFlow(cfg, s.c)
    ensures InFlow(cfg, React(cfg, s, input).c)
  {
    if input.Move? && s.c.wait.Ok? {
      DoFlow(cfg, s.c, s.inbox, input.v);
    } else {
      ReactResolves(cfg, s, input);
      SameFlow(cfg, s.c, React(cfg, s, input).c);
      MovesInFlow(cfg, s.c, React(cfg, s, input).c);
    }
  }

  lemma {:induction false} RunFlow(cfg: Config, s: Seat, inputs: seq<Input>)
    requires InFlow(cfg, s.c)
    ensures InFlow(cfg, ReactAll(cfg, s, inputs).c)
    decreases |inputs|
  {
    if inputs != [] {
      ReactFlow(cfg, s, inputs[0]);
      RunFlow(cfg, React(cfg, s, inputs[0]), inputs[1..]);
    }
  }

  /** Whatever the peer does: the transcript of a client that is done is a legal handshake, with a Finished message of each side
      that covers exactly what came before it. */
  lemma {:induction false} DoneIsLegal(cfg: Config, inputs: seq<Input>)
    requires ReactAll(cfg, Seat(INITIAL, []), inputs).c.state.Done?
    ensures var c := ReactAll(cfg, Seat(INITIAL, []), inputs).c;
      && Legal(ClientSide(cfg), c.reused, Places(c.reused), c.transcript)
      && HasFinished(c.transcript, true) && HasFinished(c.transcript, false)
      && Greeted(c.transcript) && c.cipher == Some(c.transcript[1].cipher) && c.cipher.value in cfg.ciphers
      && c.reused == Resumes(cfg, c.transcript[1].sessionId) && (c.reused ==> c.cipher.value == cfg.session.value.cipher)
  {
    RunFlow(cfg, Seat(INITIAL, []), inputs);
    var c := ReactAll(cfg, Seat(INITIAL, []), inputs).c;
    LongEnough(ClientSide(cfg), c.reused, Places(c.reused), c.transcript);
    FinishedIsThere(ClientSide(cfg), c.reused, Places(c.reused), c.transcript, true);
    FinishedIsThere(ClientSide(cfg), c.reused, Places(c.reused), c.transcript, false);
  }

  // ---- The checks ----

  /** Where the client is after the first `j` inputs. */
  function At(cfg: Config, inputs: seq<Input>, j: nat): Seat
    requires j <= |inputs|
  {
    ReactAll(cfg, Seat(INITIAL, []), inputs[..j])
  }

  lemma {:induction false} ReactAppend(cfg: Config, s: Seat, inputs: seq<Input>, input: Input)
    ensures ReactAll(cfg, s, inputs + [input]) == React(cfg, ReactAll(cfg, s, inputs), input)
    decreases |inputs|
  {
    if inputs == [] {
      assert inputs + [input] == [input];
      assert ReactAll(cfg, React(cfg, s, input), []) == React(cfg, s, input);
    } else {
      assert (inputs + [input])[1..] == inputs[1..] + [input];
      ReactAppend(cfg, React(cfg, s, inputs[0]), inputs[1..], input);
    }
  }

  lemma {:induction false} AtNext(cfg: Config, inputs: seq<Input>, j: nat)
    requires j < |inputs|
    ensures At(cfg, inputs, j + 1) == React(cfg, At(cfg, inputs, j), inputs[j])
  {
    assert inputs[..j + 1] == inputs[..j] + [inputs[j]];
    ReactAppend(cfg, Seat(INITIAL, []), inputs[..j], inputs[j]);
  }

  /** The client asks a callback, or checks a message, a signature, a certificate or a key of its own. */
  predicate Asks(cfg: Config, s: Seat) {
    var (c, m) := (s.c, Peek(s.inbox));
    c.wait.Ok? &&
    match c.state
    case StartConnect => true
    case ReadServerHello => m.Some?
    case ReadServerCertificate => CertAuth(c) && m.Some?
    case ReadCertificateStatus => c.statusExpected && m == Some(CertificateStatus)
    case VerifyServerCertificate => CertAuth(c)
    case ReadServerKeyExchange => m == Some(ServerKeyExchange)
    case ReadCertificateRequest => CertAuth(c) && m == Some(CertificateRequest)
    case ReadServerHelloDone => m.Some?
    case SendClientCertificate => c.certRequest
    case SendClientKeyExchange => true
    case SendClientCertificateVerify => c.certRequest && cfg.hasCertificate
    case SendClientFinished => true
    case FinishFlight => !c.reused
    case ReadSessionTicket => c.ticketExpected && m.Some?
    case ProcessChangeCipherSpec => true
    case _ => false
  }

  lemma {:induction false} RefusalFails(cfg: Config, s: Seat)
    requires Asks(cfg, s)
    ensures React(cfg, s, Move(Refuse)).c == s.c.(wait := Failed)
  {
    assert Do(cfg, s.c, s.inbox, Refuse) == Stay(s.c, Failed);
  }

  lemma {:induction false} FailedStays(cfg: Config, inputs: seq<Input>, j: nat, n: nat)
    requires j <= n <= |inputs| && At(cfg, inputs, j).c.wait.Failed?
    ensures At(cfg, inputs, n).c == At(cfg, inputs, j).c
    decreases n - j
  {
    if j < n {
      AtNext(cfg, inputs, j);
      FailedStays(cfg, inputs, j + 1, n);
    }
  }

  /** A client that is done was not refused anywhere where it asked. */
  lemma {:induction false} DoneWasNotRefused(cfg: Config, inputs: seq<Input>, j: nat)
    requires At(cfg, inputs, |inputs|).c.state.Done? && j < |inputs| && inputs[j] == Move(Refuse)
    ensures !Asks(cfg, At(cfg, inputs, j))
  {
    if Asks(cfg, At(cfg, inputs, j)) {
      RefusalFails(cfg, At(cfg, inputs, j));
      AtNext(cfg, inputs, j);
      FailedStays(cfg, inputs, j + 1, |inputs|);
    }
  }

  /** The chain of the server was found good at input `j`. */
  predicate VerifiedAt(cfg: Config, inputs: seq<Input>, j: nat)
    requires j < |inputs|
  {
    var c := At(cfg, inputs, j).c;
    c.state.VerifyServerCertificate? && c.wait.Ok? && inputs[j] == Move(Pass)
  }

  ghost predicate Verified(cfg: Config, inputs: seq<Input>) {
    exists j: nat | j < |inputs| :: VerifiedAt(cfg, inputs, j)
  }

  /** A ServerKeyExchange was taken at input `j`, and its signature not refused. */
  predicate CheckedAt(cfg: Config, inputs: seq<Input>, j: nat)
    requires j < |inputs|
  {
    var s := At(cfg, inputs, j);
    && s.c.state.ReadServerKeyExchange? && s.c.wait.Ok? && Peek(s.inbox) == Some(ServerKeyExchange)
    && inputs[j].Move? && !inputs[j].v.Refuse?
  }

  ghost predicate Checked(cfg: Config, inputs: seq<Input>) {
    exists j: nat | j < |inputs| :: CheckedAt(cfg, inputs, j)
  }

  /** The ClientKeyExchange was added at input `k`. */
  predicate SentAt(cfg: Config, inputs: seq<Input>, k: nat)
    requires k < |inputs|
  {
    var c := At(cfg, inputs, k).c;
    c.state.SendClientKeyExchange? && c.wait.Ok? && inputs[k].Move? && !inputs[k].v.Refuse?
  }

  /** The ClientKeyExchange was added, and with a certificate cipher only after the chain had been verified and, if the key
      exchange is ephemeral, the signature of the ServerKeyExchange. */
  ghost predicate KeySent(cfg: Config, inputs: seq<Input>, cipher: Option<Cipher>) {
    exists k: nat | k < |inputs| ::
      && SentAt(cfg, inputs, k)
      && (cipher.Some? && cipher.value.certAuth ==>
            Verified(cfg, inputs[..k]) && (cipher.value.ecdhe ==> Checked(cfg, inputs[..k])))
  }

  /** How far the client has come, and what has been checked by then. */
  ghost predicate Warranted(cfg: Config, inputs: seq<Input>) {
    var c := At(cfg, inputs, |inputs|).c;
    var phase := Phase(false, c.state);
    !c.reused ==>
      && (phase >= 1 && CertAuth(c) ==> Verified(cfg, inputs))
      && (phase >= 2 && CertAuth(c) && Ecdhe(c) ==> Checked(cfg, inputs))
      && (phase >= 3 ==> KeySent(cfg, inputs, c.cipher))
  }

  lemma {:induction false} AtInLonger(cfg: Config, inputs: seq<Input>, x: Input, j: nat)
    requires j <= |inputs|
    ensures At(cfg, inputs + [x], j) == At(cfg, inputs, j)
  {
    assert (inputs + [x])[..j] == inputs[..j];
  }

  lemma {:induction false} StillVerified(cfg: Config, inputs: seq<Input>, x: Input)
    ensures Verified(cfg, inputs) ==> Verified(cfg, inputs + [x])
    ensures Checked(cfg, inputs) ==> Checked(cfg, inputs + [x])
  {
    if Verified(cfg, inputs) {
      var j: nat :| j < |inputs| && VerifiedAt(cfg, inputs, j);
      AtInLonger(cfg, inputs, x, j);
      assert VerifiedAt(cfg, inputs + [x], j);
    }
    if Checked(cfg, inputs) {
      var j: nat :| j < |inputs| && CheckedAt(cfg, inputs, j);
      AtInLonger(cfg, inputs, x, j);
      assert CheckedAt(cfg, inputs + [x], j);
    }
  }

  lemma {:induction false} StillSent(cfg: Config, inputs: seq<Input>, x: Input, cipher: Option<Cipher>)
    ensures KeySent(cfg, inputs, cipher) ==> KeySent(cfg, inputs + [x], cipher)
  {
    if KeySent(cfg, inputs, cipher) {
      var k: nat :| k < |inputs| && SentAt(cfg, inputs, k)
        && (cipher.Some? && cipher.value.certAuth ==>
              Verified(cfg, inputs[..k]) && (cipher.value.ecdhe ==> Checked(cfg, inputs[..k])));
      AtInLonger(cfg, inputs, x, k);
      assert (inputs + [x])[..k] == inputs[..k];
      assert SentAt(cfg, inputs + [x], k);
    }
  }

  /** What a step needs that brings a full handshake from one phase to the next. */
  predicate Earns(c: Client, inbox: seq<Rec>, v: Verdict) {
    match Phase(false, c.state)
    case 0 => c.state.VerifyServerCertificate? && (CertAuth(c) ==> v.Pass?)
    case 1 => c.state.ReadServerKeyExchange? && (Ecdhe(c) ==> Peek(inbox) == Some(ServerKeyExchange) && !v.Refuse?)
    case 2 => c.state.SendClientKeyExchange? && !v.Refuse?
    case _ => true
  }

  predicate Rises(c: Client, inbox: seq<Rec>, v: Verdict, c': Client) {
    var (p, p') := (Phase(false, c.state), Phase(false, c'.state));
    !c'.reused ==>
      && (p' <= p || (p' == p + 1 && Earns(c, inbox, v)))
      && (p' >= 1 ==> c'.cipher == c.cipher && !c.reused)
  }

  lemma {:induction false} RisesSlowly(cfg: Config, c: Client, inbox: seq<Rec>, v: Verdict)
    requires c.reused ==> Short(c.state)
    ensures Rises(c, inbox, v, Do(cfg, c, inbox, v).c)
  {
    if Plain(c.state) {
      PlainRises(cfg, c, inbox, v);
    } else if Phase(false, c.state) == 0 {
      EarlyRises(cfg, c, inbox, v);
    } else {
      LateRises(cfg, c, inbox, v);
    }
  }

  /** A step that changes no more than is given here does not rise by more than one phase. */
  lemma {:induction false} StepRises(c: Client, inbox: seq<Rec>, v: Verdict, c': Client, next: State)
    requires (c'.state == c.state || c'.state == next) && c'.cipher == c.cipher && c'.reused == c.reused
    requires var (p, p') := (Phase(false, c.state), Phase(false, next)); p' <= p || (p' == p + 1 && Earns(c, inbox, v))
    requires c.reused ==> Short(c.state)
    ensures Rises(c, inbox, v, c')
  {
  }

  lemma {:induction false} CertificateRises(c: Client, inbox: seq<Rec>, v: Verdict)
    requires (c.reused ==> Short(c.state)) && c.state.ReadServerCertificate?
    ensures Rises(c, inbox, v, DoReadServerCertificate(c, inbox, v).c)
  {
    CertificateDoes(c, inbox, v);
    StepRises(c, inbox, v, DoReadServerCertificate(c, inbox, v).c, ReadCertificateStatus);
  }

  lemma {:induction false} StatusRises(c: Client, inbox: seq<Rec>, v: Verdict)
    requires (c.reused ==> Short(c.state)) && c.state.ReadCertificateStatus?
    ensures Rises(c, inbox, v, DoReadCertificateStatus(c, inbox, v).c)
  {
    StatusDoes(c, inbox, v);
    StepRises(c, inbox, v, DoReadCertificateStatus(c, inbox, v).c, VerifyServerCertificate);
  }

  lemma {:induction false} RequestRises(c: Client, inbox: seq<Rec>, v: Verdict)
    requires (c.reused ==> Short(c.state)) && c.state.ReadCertificateRequest?
    ensures Rises(c, inbox, v, DoReadCertificateRequest(c, inbox, v).c)
  {
    RequestDoes(c, inbox, v);
    StepRises(c, inbox, v, DoReadCertificateRequest(c, inbox, v).c, ReadServerHelloDone);
  }

  lemma {:induction false} HelloDoneRises(c: Client, inbox: seq<Rec>, v: Verdict)
    requires (c.reused ==> Short(c.state)) && c.state.ReadServerHelloDone?
    ensures Rises(c, inbox, v, DoReadServerHelloDone(c, inbox, v).c)
  {
    HelloDoneDoes(c, inbox, v);
    StepRises(c, inbox, v, DoReadServerHelloDone(c, inbox, v).c, SendClientCertificate);
  }

  lemma {:induction false} SendCertificateRises(cfg: Config, c: Client, inbox: seq<Rec>, v: Verdict)
    requires (c.reused ==> Short(c.state)) && c.state.SendClientCertificate?
    ensures Rises(c, inbox, v, DoSendClientCertificate(cfg, c, v).c)
  {
    SendCertificateDoes(cfg, c, v);
    StepRises(c, inbox, v, DoSendClientCertificate(cfg, c, v).c, SendClientKeyExchange);
  }

  lemma {:induction false} SendVerifyRises(cfg: Config, c: Client, inbox: seq<Rec>, v: Verdict)
    requires (c.reused ==> Short(c.state)) && c.state.SendClientCertificateVerify?
    ensures Rises(c, inbox, v, DoSendClientCertificateVerify(cfg, c, v).c)
  {
    SendVerifyDoes(cfg, c, v);
    StepRises(c, inbox, v, DoSendClientCertificateVerify(cfg, c, v).c, SendClientFinished);
  }

  lemma {:induction false} TicketRises(c: Client, inbox: seq<Rec>, v: Verdict)
    requires (c.reused ==> Short(c.state)) && c.state.ReadSessionTicket?
    ensures Rises(c, inbox, v, DoReadSessionTicket(c, inbox, v).c)
  {
    TicketDoes(c, inbox, v);
    StepRises(c, inbox, v, DoReadSessionTicket(c, inbox, v).c, ProcessChangeCipherSpec);
  }

  lemma {:induction false} SendKeyRises(c: Client, inbox: seq<Rec>, v: Verdict)
    requires (c.reused ==> Short(c.state)) && c.state.SendClientKeyExchange?
    ensures Rises(c, inbox, v, DoSendClientKeyExchange(c, v).c)
  {
  }

  lemma {:induction false} HelloRises(cfg: Config, c: Client, inbox: seq<Rec>, v: Verdict)
    requires !c.reused && c.state.ReadServerHello?
    ensures Rises(c, inbox, v, DoReadServerHello(cfg, c, inbox, v).c)
  {
    HelloDoes(cfg, c, inbox, v);
  }

  lemma {:induction false} MatchRises(c: Client, inbox: seq<Rec>, v: Verdict)
    requires c.state.ReadServerFinished?
    ensures Rises(c, inbox, v, DoReadServerFinished(c, inbox).c)
  {
    FinishedDoes(c, inbox);
  }

  lemma {:induction false} StartRises(cfg: Config, c: Client, inbox: seq<Rec>, v: Verdict)
    requires !c.reused && c.state.StartConnect?
    ensures Rises(c, inbox, v, DoStartConnect(cfg, c, v).c)
  {
  }

  lemma {:induction false} EarlyRises(cfg: Config, c: Client, inbox: seq<Rec>, v: Verdict)
    requires (c.reused ==> Short(c.state)) && !Plain(c.state) && Phase(false, c.state) == 0
    ensures Rises(c, inbox, v, Do(cfg, c, inbox, v).c)
  {
    match c.state
    case StartConnect => StartRises(cfg, c, inbox, v);
    case ReadServerHello => HelloRises(cfg, c, inbox, v);
    case ReadServerCertificate => CertificateRises(c, inbox, v);
    case ReadCertificateStatus => StatusRises(c, inbox, v);
  }

  lemma {:induction false} LateRises(cfg: Config, c: Client, inbox: seq<Rec>, v: Verdict)
    requires (c.reused ==> Short(c.state)) && !Plain(c.state) && Phase(false, c.state) > 0
    ensures Rises(c, inbox, v, Do(cfg, c, inbox, v).c)
  {
    match c.state
    case ReadServerKeyExchange => KeyExchangeRises(c, inbox, v);
    case ReadCertificateRequest => RequestRises(c, inbox, v);
    case ReadServerHelloDone => HelloDoneRises(c, inbox, v);
    case SendClientCertificate => SendCertificateRises(cfg, c, inbox, v);
    case SendClientKeyExchange => SendKeyRises(c, inbox, v);
    case SendClientCertificateVerify => SendVerifyRises(cfg, c, inbox, v);
    case SendClientFinished => SendFinishedRises(c, inbox, v);
    case ReadSessionTicket => TicketRises(c, inbox, v);
    case ReadServerFinished => MatchRises(c, inbox, v);
  }

  lemma {:induction false} SendFinishedRises(c: Client, inbox: seq<Rec>, v: Verdict)
    requires c.state.SendClientFinished?
    ensures Rises(c, inbox, v, DoSendClientFinished(c, v).c)
  {
    FinishedRises(c, v);
  }

  lemma {:induction false} VerifyRises(c: Client, inbox: seq<Rec>, v: Verdict)
    requires !c.reused && c.state.VerifyServerCertificate?
    ensures Rises(c, inbox, v, DoVerifyServerCertificate(c, v).c)
  {
  }

  lemma {:induction false} PlainRises(cfg: Config, c: Client, inbox: seq<Rec>, v: Verdict)
    requires (c.reused ==> Short(c.state)) && Plain(c.state)
    ensures Rises(c, inbox, v, Do(cfg, c, inbox, v).c)
  {
    if c.state.VerifyServerCertificate? {
      VerifyRises(c, inbox, v);
      assert Do(cfg, c, inbox, v) == DoVerifyServerCertificate(c, v);
    } else {
      PlainDo(cfg, c, inbox, v);
      PlainStepRises(c, inbox, v, Do(cfg, c, inbox, v).c);
    }
  }

  lemma {:induction false} PlainStepRises(c: Client, inbox: seq<Rec>, v: Verdict, c': Client)
    requires (c.reused ==> Short(c.state)) && Plain(c.state) && !c.state.VerifyServerCertificate?
    requires c' == c.(wait := c'.wait) || c' == c.(state := AfterPlain(c), log := c'.log)
    ensures Rises(c, inbox, v, c')
  {
    StepRises(c, inbox, v, c', AfterPlain(c));
  }

  lemma {:induction false} KeyExchangeRises(c: Client, inbox: seq<Rec>, v: Verdict)
    requires c.state.ReadServerKeyExchange? && !c.reused
    ensures Rises(c, inbox, v, DoReadServerKeyExchange(c, inbox, v).c)
  {
  }

  lemma {:induction false} FinishedRises(c: Client, v: Verdict)
    requires c.state.SendClientFinished?
    ensures var c' := DoSendClientFinished(c, v).c;
      c'.reused == c.reused && c'.cipher == c.cipher && (c'.state == c.state || c'.state == FinishFlight)
  {
    if !v.Refuse? && !(v.Later? && c.channelId) {
      FinishedSent(c, v);
    }
  }

  lemma {:induction false} WarrantedStep(cfg: Config, inputs: seq<Input>, x: Input)
    requires Warranted(cfg, inputs)
    ensures Warranted(cfg, inputs + [x])
  {
    var (n, more) := (|inputs|, inputs + [x]);
    var s := At(cfg, inputs, n);
    AtInLonger(cfg, inputs, x, n);
    AtNext(cfg, more, n);
    assert more[..n] == inputs && At(cfg, more, n + 1) == React(cfg, s, x);
    StillVerified(cfg, inputs, x);
    StillSent(cfg, inputs, x, s.c.cipher);
    RunFlow(cfg, Seat(INITIAL, []), inputs);
    assert inputs[..n] == inputs;
    if x.Move? && s.c.wait.Ok? {
      RisesSlowly(cfg, s.c, s.inbox, x.v);
      EarnedIsWarranted(cfg, inputs, x);
    } else {
      ReactResolves(cfg, s, x);
    }
  }

  /** A step that rises by a phase does what the phase asks for. */
  lemma {:induction false} EarnedIsWarranted(cfg: Config, inputs: seq<Input>, x: Input)
    requires Warranted(cfg, inputs) && x.Move?
    requires var s := At(cfg, inputs, |inputs|);
      && s.c.wait.Ok? && Rises(s.c, s.inbox, x.v, Do(cfg, s.c, s.inbox, x.v).c)
      && At(cfg, inputs + [x], |inputs| + 1).c == Do(cfg, s.c, s.inbox, x.v).c
    ensures Warranted(cfg, inputs + [x])
  {
    var (n, more) := (|inputs|, inputs + [x]);
    var s := At(cfg, inputs, n);
    var c' := Do(cfg, s.c, s.inbox, x.v).c;
    AtInLonger(cfg, inputs, x, n);
    StillVerified(cfg, inputs, x);
    StillSent(cfg, inputs, x, s.c.cipher);
    assert more[..n] == inputs && more[n] == x;
    if !c'.reused && Phase(false, c'.state) > Phase(false, s.c.state) {
      match Phase(false, s.c.state)
      case 0 => if CertAuth(s.c) { assert VerifiedAt(cfg, more, n); }
      case 1 => if Ecdhe(s.c) { assert CheckedAt(cfg, more, n); }
      case 2 => assert SentAt(cfg, more, n);
      case _ =>
    }
  }

  lemma {:induction false} RunIsWarranted(cfg: Config, inputs: seq<Input>)
    ensures Warranted(cfg, inputs)
    decreases |inputs|
  {
    if inputs != [] {
      var front := inputs[..|inputs| - 1];
      RunIsWarranted(cfg, front);
      WarrantedStep(cfg, front, inputs[|inputs| - 1]);
      assert front + [inputs[|inputs| - 1]] == inputs;
    }
  }

  /** Whatever the peer does, and over every sequence of inputs: a client that is done has a legal transcript with both Finished
      messages; was refused nothing; and in a full handshake added its ClientKeyExchange, with a certificate cipher only after
      the chain and the signature had been found good. None of this is said by the client itself. */
  lemma {:induction false} DoneWasChecked(cfg: Config, inputs: seq<Input>)
    requires ReactAll(cfg, Seat(INITIAL, []), inputs).c.state.Done?
    ensures var c := ReactAll(cfg, Seat(INITIAL, []), inputs).c;
      && Legal(ClientSide(cfg), c.reused, Places(c.reused), c.transcript)
      && HasFinished(c.transcript, true) && HasFinished(c.transcript, false)
      && (!c.reused ==> KeySent(cfg, inputs, c.cipher))
    ensures forall j | 0 <= j < |inputs| && inputs[j] == Move(Refuse) :: !Asks(cfg, At(cfg, inputs, j))
  {
    assert inputs[..|inputs|] == inputs;
    DoneIsLegal(cfg, inputs);
    RunIsWarranted(cfg, inputs);
    forall j | 0 <= j < |inputs| && inputs[j] == Move(Refuse)
      ensures !Asks(cfg, At(cfg, inputs, j))
    {
      DoneWasNotRefused(cfg, inputs, j);
    }
  }

  // ---- The driver ----

  /** A client connection and the records that have come in. */
  class Connection {
    const cfg: Config
    var hs: Client
    var inbox: seq<Rec>
    ghost var history: seq<Input>

    ghost predicate Valid()
      reads this
    {
      Seat(hs, inbox) == ReactAll(cfg, Seat(INITIAL, []), history)
    }

    constructor (cfg: Config)
      ensures Valid() && this.cfg == cfg && history == []
    {
      this.cfg, hs, inbox, history := cfg, INITIAL, [], [];
    }

    method Deliver(rec: Rec)
      requires Valid()
      modifies this
      ensures Valid() && hs == old(hs) && inbox == old(inbox) + [rec]
    {
      ReactAppend(cfg, Seat(INITIAL, []), history, Input.Deliver(rec));
      history := history + [Input.Deliver(rec)];
      inbox := inbox + [rec];
    }

    /** `ssl_run_handshake`: it goes on until the handshake is done, has failed or must wait. What it returns as done
        has had the server's Finished message matched and, with certificates, the server authenticated first. */
    method RunHandshake(verdicts: seq<Verdict>) returns (ret: int)
      requires Valid()
      modifies this
      ensures Valid() && old(history) <= history
      ensures ret > 0 ==> hs.state.Done? && FinishedMatched in hs.log
      ensures ret > 0 ==> Legal(ClientSide(cfg), hs.reused, Places(hs.reused), hs.transcript) && HasFinished(hs.transcript, true)
      ensures ret > 0 && !hs.reused ==> KeySent(cfg, history, hs.cipher)
      ensures ret > 0 ==> forall j | 0 <= j < |history| && history[j] == Move(Refuse) :: !Asks(cfg, At(cfg, history, j))
      ensures ret > 0 && !hs.reused && CertAuth(hs) ==> PrecededBy(hs.log, KeyExchangeAdded, ChainVerified)
      ensures ret > 0 && !hs.reused && CertAuth(hs) && Ecdhe(hs) ==>
        PrecededBy(hs.log, KeyExchangeAdded, SignatureVerified)
    {
      for i := 0 to |verdicts|
        invariant Valid() && old(history) <= history
      {
        if hs.state.Done? {
          DoneIsSafe(cfg, history);
          DoneWasChecked(cfg, history);
          return 1;
        }
        if hs.wait.Failed? || ((hs.wait.ReadMessage? || hs.wait.ReadCcs?) && inbox == []) {
          return -1;
        }
        var move := Move(verdicts[i]);
        ReactAppend(cfg, Seat(INITIAL, []), history, move);
        var next := React(cfg, Seat(hs, inbox), move);
        hs, inbox, history := next.c, next.inbox, history + [move];
        if hs.wait.Paused? {
          return -1;
        }
      }
      if hs.state.Done? {
        DoneIsSafe(cfg, history);
        DoneWasChecked(cfg, history);
        return 1;
      }
      return -1;
    }
  }
}
