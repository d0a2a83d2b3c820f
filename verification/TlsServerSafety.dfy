/** A server that is done, against any peer. */
module TlsServerSafety {
  import opened Basics
  import opened TlsMessages
  import opened TlsFlow
  import opened TlsServer

  /** A record of the peer arrives, or the server moves on and its check or callback comes out in some way. */
  datatype Input = Deliver(rec: Rec) | Move(v: Verdict)

  datatype Seat = Seat(s: Server, inbox: seq<Rec>)

  /** One turn of `ssl_run_handshake`; flights leave at once. */
  function React(cfg: Config, seat: Seat, input: Input): Seat {
    if input.Deliver? then seat.(inbox := seat.inbox + [input.rec])
    else match seat.s.wait
      case Failed => seat
      case Flush => seat.(s := seat.s.(wait := Ok, pending := []))
      case ReadMessage =>
        if seat.inbox == [] then seat else seat.(s := seat.s.(wait := if seat.inbox[0].Hs? then Ok else Failed))
      case ReadCcs =>
        if seat.inbox == [] then seat
        else if seat.inbox[0].Ccs? then Seat(seat.s.(wait := Ok), seat.inbox[1..])
        else seat.(s := seat.s.(wait := Failed))
      case Paused => seat.(s := seat.s.(wait := Ok))
      case Ok =>
        var out := Do(cfg, seat.s, seat.inbox, input.v);
        Seat(out.s, if out.pop && seat.inbox != [] then seat.inbox[1..] else seat.inbox)
  }

  function ReactAll(cfg: Config, seat: Seat, inputs: seq<Input>): Seat
    decreases |inputs|
  {
    if inputs == [] then seat else ReactAll(cfg, React(cfg, seat, inputs[0]), inputs[1..])
  }

  lemma {:induction false} ReactResolves(cfg: Config, seat: Seat, input: Input)
    requires input.Deliver? || !seat.s.wait.Ok?
    ensures var s' := React(cfg, seat, input).s; s' == seat.s.(wait := s'.wait, pending := s'.pending)
  {
    if input.Move? {
      match seat.s.wait
      case ReadCcs =>
        if seat.inbox != [] {
          var w := if seat.inbox[0].Ccs? then Ok else Failed;
          assert React(cfg, seat, input).s == seat.s.(wait := w);
        }
      case ReadMessage =>
        if seat.inbox != [] {
          var w := if seat.inbox[0].Hs? then Ok else Failed;
          assert React(cfg, seat, input).s == seat.s.(wait := w);
        }
      case Flush => assert React(cfg, seat, input).s == seat.s.(wait := Ok, pending := []);
      case Paused => assert React(cfg, seat, input).s == seat.s.(wait := Ok);
      case Failed =>
    }
  }

  // ---- The transcript ----

  /** The place in the grammar that a state has reached. */
  function PlaceOf(reused: bool, state: State): nat {
    match state
    case StartAccept => 0
    case ReadClientHello => 0
    case SelectCertificate => 0
    case SelectParameters => 0
    case SendServerHello => 1
    case SendServerCertificate => 2
    case SendServerKeyExchange => 4
    case SendServerHelloDone => 5
    case ReadClientCertificate => 7
    case VerifyClientCertificate => 8
    case ReadClientKeyExchange => 8
    case ReadClientCertificateVerify => 9
    case ReadChangeCipherSpec => if reused then 4 else 10
    case ProcessChangeCipherSpec => if reused then 4 else 10
    case ReadNextProto => if reused then 4 else 10
    case ReadChannelId => if reused then 5 else 11
    case ReadClientFinished => if reused then 6 else 12
    case SendServerFinished => if reused then 2 else 13
    case FinishServerHandshake => Places(reused)
    case Done => Places(reused)
  }

  predicate Resumed(cfg: Config) {
    cfg.found.Some? && cfg.found.value.cipher == cfg.cipher
  }

  predicate Wants(cfg: Config) {
    !Resumed(cfg) && cfg.verifyPeer && !(cfg.unlessChannelId && cfg.channelId) && cfg.cipher.certAuth
  }

  /** The states of a full handshake only. */
  predicate FullOnly(state: State) {
    || state.SendServerCertificate? || state.SendServerKeyExchange? || state.SendServerHelloDone? || state.ReadClientCertificate?
    || state.VerifyClientCertificate? || state.ReadClientKeyExchange? || state.ReadClientCertificateVerify?
  }

  /** The hello messages are behind the server, and it remembers them. */
  predicate Settled(cfg: Config, s: Server) {
    var t := s.transcript;
    && Greeted(t) && HelloAt(ServerSide(cfg), s.reused, 1, t[1]) && s.channelId == t[1].channelId
    && s.cipher == Some(cfg.cipher) && s.reused == Resumed(cfg) && s.certRequest == Wants(cfg)
    && (s.reused ==> !FullOnly(s.state))
    && (s.state.SendServerKeyExchange? ==> s.params == (cfg.cipher.ecdhe || (!cfg.cipher.certAuth && cfg.pskHint)))
    && Requested(t) == (s.certRequest && (s.reused || PlaceOf(s.reused, s.state) >= 6))
  }

  /** What the server knows of the client's certificate is what its transcript says; one that it needs is there; and its
      CertificateVerify follows. */
  predicate KnowsPeer(cfg: Config, s: Server) {
    var (t, n) := (s.transcript, PlaceOf(s.reused, s.state));
    && (s.reused || n < 8 ==> !s.peerKey)
    && (!s.reused && n >= 8 && cfg.needCertificate && s.certRequest ==> s.peerKey)
    && (!s.reused && n == 8 ==> s.peerKey == (s.certRequest && t != [] && t[|t| - 1] == Certificate(false)))
    && (!s.reused && n == 9 ==> s.peerKey == (s.certRequest && |t| >= 2 && t[|t| - 2] == Certificate(false)))
    && (CertificateVerify in t <==> s.peerKey && n >= 10)
  }

  predicate Remembers(cfg: Config, s: Server) {
    && KnowsPeer(cfg, s)
    && match PlaceOf(s.reused, s.state)
       case 0 => s.transcript == [] && s.channelId == cfg.channelId && (s.state.SelectParameters? ==> s.cipher == Some(cfg.cipher))
       case 1 =>
         && |s.transcript| == 1 && s.transcript[0].ClientHello? && s.channelId == cfg.channelId && s.cipher == Some(cfg.cipher)
         && s.reused == Resumed(cfg) && s.certRequest == Wants(cfg)
       case _ => Settled(cfg, s)
  }

  predicate InFlow(cfg: Config, s: Server) {
    Legal(ServerSide(cfg), s.reused, PlaceOf(s.reused, s.state), s.transcript) && Remembers(cfg, s)
  }

  /** A step that stays at its place or goes to the next one, over nothing or over the message that belongs there. */
  ghost predicate Moves(cfg: Config, s: Server, s': Server) {
    var (side, n, n') := (ServerSide(cfg), PlaceOf(s.reused, s.state), PlaceOf(s.reused, s'.state));
    && Remembers(cfg, s') && s'.reused == s.reused
    && if |s'.transcript| == |s.transcript| then
         s'.transcript == s.transcript && (n' == n || (n' == n + 1 && !NeedAt(side, s.reused, n, s.transcript).Must?))
       else
         && |s'.transcript| == |s.transcript| + 1 && s.transcript <= s'.transcript && n' == n + 1
         && !NeedAt(side, s.reused, n, s.transcript).Never?
         && SaysAt(side, s.reused, n, s.transcript, s'.transcript[|s.transcript|])
  }

  lemma {:induction false} MovesInFlow(cfg: Config, s: Server, s': Server)
    requires InFlow(cfg, s) && Moves(cfg, s, s')
    ensures InFlow(cfg, s')
  {
    var (side, n) := (ServerSide(cfg), PlaceOf(s.reused, s.state));
    if |s'.transcript| == |s.transcript| {
      if PlaceOf(s.reused, s'.state) == n + 1 {
        Omit(side, s.reused, n, s.transcript);
      }
    } else {
      var m := s'.transcript[|s.transcript|];
      assert s'.transcript == s.transcript + [m];
      Say(side, s.reused, n, s.transcript, m);
    }
  }

  lemma {:induction false} SameFlow(cfg: Config, s: Server, s': Server)
    requires Remembers(cfg, s) && s' == s.(wait := s'.wait, pending := s'.pending)
    ensures Moves(cfg, s, s')
  {
  }

  lemma {:induction false} RequestedWith(t: seq<Msg>, m: Msg)
    ensures Requested(t + [m]) <==> Requested(t) || m == CertificateRequest
  {
  }

  /** The server goes on without a message, once the hello messages are behind it. */
  lemma {:induction false} PassesOver(cfg: Config, s: Server, s': Server)
    requires Remembers(cfg, s) && s' == s.(state := s'.state, wait := s'.wait, pending := s'.pending)
    requires PlaceOf(s.reused, s.state) >= 2 && KnowsPeer(cfg, s') && (s.reused ==> !FullOnly(s'.state)) && !s'.state.SendServerKeyExchange?
    requires var (n, n') := (PlaceOf(s.reused, s.state), PlaceOf(s.reused, s'.state));
      && n' >= 2 && (s.reused || (n >= 6 <==> n' >= 6))
      && (n' == n || (n' == n + 1 && !NeedAt(ServerSide(cfg), s.reused, n, s.transcript).Must?))
    ensures Moves(cfg, s, s')
  {
  }

  /** The server sends or takes `m`, the message of its place, and goes on. */
  lemma {:induction false} Exchanges(cfg: Config, s: Server, s': Server, m: Msg)
    requires Remembers(cfg, s) && PlaceOf(s.reused, s.state) >= 2 && (s.reused ==> !FullOnly(s'.state))
    requires s' == s.(state := s'.state, wait := s'.wait, pending := s'.pending, params := s'.params, peerKey := s'.peerKey,
                      transcript := s.transcript + [m])
    requires m != CertificateRequest && KnowsPeer(cfg, s') && !s'.state.SendServerKeyExchange?
    requires var n := PlaceOf(s.reused, s.state);
      && PlaceOf(s.reused, s'.state) == n + 1 && (s.reused || n != 5)
      && !NeedAt(ServerSide(cfg), s.reused, n, s.transcript).Never? && SaysAt(ServerSide(cfg), s.reused, n, s.transcript, m)
    ensures Moves(cfg, s, s')
  {
    RequestedWith(s.transcript, m);
  }

  lemma {:induction false} SendKeyDoes(s: Server, v: Verdict)
    ensures var s' := DoSendServerKeyExchange(s, v).s;
      || s' == s.(wait := s'.wait)
      || (!s.params && s' == Go(s, SendServerHelloDone).s)
      || (s.params && s' == Go(Add(s, ServerKeyExchange).(params := false), SendServerHelloDone).s)
  {
  }

  lemma {:induction false} SendKeyFlow(cfg: Config, s: Server, v: Verdict)
    requires Remembers(cfg, s) && s.state.SendServerKeyExchange?
    ensures Moves(cfg, s, DoSendServerKeyExchange(s, v).s)
  {
    SendKeyDoes(s, v);
    var s' := DoSendServerKeyExchange(s, v).s;
    if s' == s.(wait := s'.wait) {
      SameFlow(cfg, s, s');
    } else if s' == Go(s, SendServerHelloDone).s {
      PassesOver(cfg, s, Go(s, SendServerHelloDone).s);
    } else {
      Exchanges(cfg, s, Go(Add(s, ServerKeyExchange).(params := false), SendServerHelloDone).s, ServerKeyExchange);
    }
  }

  lemma {:induction false} ReadKeyDoes(s: Server, inbox: seq<Rec>, v: Verdict)
    ensures var s' := DoReadClientKeyExchange(s, inbox, v).s;
      || s' == s.(wait := s'.wait)
      || (s' == Took(s, ClientKeyExchange, ReadClientCertificateVerify).s)
  {
  }

  lemma {:induction false} ReadKeyFlow(cfg: Config, s: Server, inbox: seq<Rec>, v: Verdict)
    requires Remembers(cfg, s) && s.state.ReadClientKeyExchange?
    ensures Moves(cfg, s, DoReadClientKeyExchange(s, inbox, v).s)
  {
    ReadKeyDoes(s, inbox, v);
    var s' := DoReadClientKeyExchange(s, inbox, v).s;
    if s' == s.(wait := s'.wait) {
      SameFlow(cfg, s, s');
    } else {
      Exchanges(cfg, s, Took(s, ClientKeyExchange, ReadClientCertificateVerify).s, ClientKeyExchange);
    }
  }

  lemma {:induction false} ReadVerifyDoes(s: Server, inbox: seq<Rec>, v: Verdict)
    ensures var s' := DoReadClientCertificateVerify(s, inbox, v).s;
      || s' == s.(wait := s'.wait)
      || (!s.peerKey && s' == Go(s, ReadChangeCipherSpec).s)
      || (s.peerKey && s' == Took(s, CertificateVerify, ReadChangeCipherSpec).s)
  {
  }

  lemma {:induction false} ReadVerifyFlow(cfg: Config, s: Server, inbox: seq<Rec>, v: Verdict)
    requires Remembers(cfg, s) && s.state.ReadClientCertificateVerify?
    ensures Moves(cfg, s, DoReadClientCertificateVerify(s, inbox, v).s)
  {
    ReadVerifyDoes(s, inbox, v);
    var s' := DoReadClientCertificateVerify(s, inbox, v).s;
    if s' == s.(wait := s'.wait) {
      SameFlow(cfg, s, s');
    } else if s' == Go(s, ReadChangeCipherSpec).s {
      PassesOver(cfg, s, Go(s, ReadChangeCipherSpec).s);
    } else {
      Exchanges(cfg, s, Took(s, CertificateVerify, ReadChangeCipherSpec).s, CertificateVerify);
    }
  }

  lemma {:induction false} NextProtoDoes(cfg: Config, s: Server, inbox: seq<Rec>, v: Verdict)
    ensures var s' := DoReadNextProto(cfg, s, inbox, v).s;
      || s' == s.(wait := s'.wait)
      || (!cfg.npn && s' == Go(s, ReadChannelId).s)
      || (cfg.npn && s' == Took(s, NextProto, ReadChannelId).s)
  {
  }

  lemma {:induction false} NextProtoFlow(cfg: Config, s: Server, inbox: seq<Rec>, v: Verdict)
    requires Remembers(cfg, s) && s.state.ReadNextProto?
    ensures Moves(cfg, s, DoReadNextProto(cfg, s, inbox, v).s)
  {
    NextProtoDoes(cfg, s, inbox, v);
    var s' := DoReadNextProto(cfg, s, inbox, v).s;
    if s' == s.(wait := s'.wait) {
      SameFlow(cfg, s, s');
    } else if s' == Go(s, ReadChannelId).s {
      PassesOver(cfg, s, Go(s, ReadChannelId).s);
    } else {
      NextProtoTaken(cfg, s);
    }
  }

  lemma {:induction false} NextProtoTaken(cfg: Config, s: Server)
    requires Remembers(cfg, s) && s.state.ReadNextProto? && cfg.npn
    ensures Moves(cfg, s, Took(s, NextProto, ReadChannelId).s)
  {
    Exchanges(cfg, s, Took(s, NextProto, ReadChannelId).s, NextProto);
  }

  lemma {:induction false} ChannelIdDoes(s: Server, inbox: seq<Rec>, v: Verdict)
    ensures var s' := DoReadChannelId(s, inbox, v).s;
      || s' == s.(wait := s'.wait)
      || (!s.channelId && s' == Go(s, ReadClientFinished).s)
      || (s.channelId && s' == Took(s, ChannelId, ReadClientFinished).s)
  {
  }

  lemma {:induction false} ChannelIdFlow(cfg: Config, s: Server, inbox: seq<Rec>, v: Verdict)
    requires Remembers(cfg, s) && s.state.ReadChannelId?
    ensures Moves(cfg, s, DoReadChannelId(s, inbox, v).s)
  {
    ChannelIdDoes(s, inbox, v);
    var s' := DoReadChannelId(s, inbox, v).s;
    if s' == s.(wait := s'.wait) {
      SameFlow(cfg, s, s');
    } else if s' == Go(s, ReadClientFinished).s {
      PassesOver(cfg, s, Go(s, ReadClientFinished).s);
    } else {
      ChannelIdTaken(cfg, s);
    }
  }

  lemma {:induction false} ChannelIdTaken(cfg: Config, s: Server)
    requires Remembers(cfg, s) && s.state.ReadChannelId? && s.channelId
    ensures Moves(cfg, s, Took(s, ChannelId, ReadClientFinished).s)
  {
    Exchanges(cfg, s, Took(s, ChannelId, ReadClientFinished).s, ChannelId);
  }

  /** The server that has taken the Finished message it expects. */
  function MatchedFinished(s: Server): Server {
    Took(s, Finished(false, s.transcript), if s.reused then FinishServerHandshake else SendServerFinished).s
  }

  lemma {:induction false} FinishedDoes(s: Server, inbox: seq<Rec>)
    ensures var s' := DoReadClientFinished(s, inbox).s;
      || s' == s.(wait := s'.wait)
      || (s' == MatchedFinished(s))
  {
  }

  lemma {:induction false} FinishedFlow(cfg: Config, s: Server, inbox: seq<Rec>)
    requires Remembers(cfg, s) && s.state.ReadClientFinished?
    ensures Moves(cfg, s, DoReadClientFinished(s, inbox).s)
  {
    FinishedDoes(s, inbox);
    var s' := DoReadClientFinished(s, inbox).s;
    if s' == s.(wait := s'.wait) {
      SameFlow(cfg, s, s');
    } else {
      FinishedTaken(cfg, s);
    }
  }

  lemma {:induction false} FinishedTaken(cfg: Config, s: Server)
    requires Remembers(cfg, s) && s.state.ReadClientFinished?
    ensures Moves(cfg, s, MatchedFinished(s))
  {
    Exchanges(cfg, s, MatchedFinished(s), Finished(false, s.transcript));
  }

  // ---- The hello messages ----

  lemma {:induction false} EarlyFlow(cfg: Config, s: Server, inbox: seq<Rec>, v: Verdict)
    requires Remembers(cfg, s) && (s.state.StartAccept? || s.state.ReadClientHello? || s.state.SelectCertificate?)
    ensures Moves(cfg, s, Do(cfg, s, inbox, v).s)
  {
    EarlyDoes(cfg, s, inbox, v);
  }

  lemma {:induction false} EarlyDoes(cfg: Config, s: Server, inbox: seq<Rec>, v: Verdict)
    requires s.state.StartAccept? || s.state.ReadClientHello? || s.state.SelectCertificate?
    ensures var s' := Do(cfg, s, inbox, v).s;
      || s' == s.(wait := s'.wait)
      || (s.state.StartAccept? && s' == s.(state := ReadClientHello))
      || (s.state.ReadClientHello? && Peek(inbox).Some? && Peek(inbox).value.ClientHello? && s' == s.(state := SelectCertificate))
      || (s.state.SelectCertificate? && s' == s.(state := SelectParameters, cipher := Some(cfg.cipher)))
    ensures !Do(cfg, s, inbox, v).pop
  {
    match s.state
    case StartAccept => assert Do(cfg, s, inbox, v) == Go(s, ReadClientHello);
    case ReadClientHello => assert Do(cfg, s, inbox, v) == DoReadClientHello(s, inbox, v);
    case SelectCertificate => assert Do(cfg, s, inbox, v) == DoSelectCertificate(cfg, s, inbox, v);
  }

  lemma {:induction false} ParametersDoes(cfg: Config, s: Server, inbox: seq<Rec>, v: Verdict)
    requires s.cipher == Some(cfg.cipher) && s.channelId == cfg.channelId && Peek(inbox).Some?
    ensures var s' := DoSelectParameters(cfg, s, inbox, v).s;
      || s' == s.(wait := s'.wait)
      || s' == s.(reused := Resumed(cfg), certRequest := Wants(cfg), transcript := s.transcript + [Peek(inbox).value],
                  state := SendServerHello)
  {
  }

  lemma {:induction false} ParametersFlow(cfg: Config, s: Server, inbox: seq<Rec>, v: Verdict)
    requires InFlow(cfg, s) && s.state.SelectParameters? && Peek(inbox).Some? && Peek(inbox).value.ClientHello?
    ensures InFlow(cfg, DoSelectParameters(cfg, s, inbox, v).s)
  {
    ParametersDoes(cfg, s, inbox, v);
    var s' := DoSelectParameters(cfg, s, inbox, v).s;
    if s' != s.(wait := s'.wait) {
      ParametersInFlow(cfg, s, s', Peek(inbox).value);
    }
  }

  lemma {:induction false} ParametersInFlow(cfg: Config, s: Server, s': Server, m: Msg)
    requires Remembers(cfg, s) && s.state.SelectParameters? && m.ClientHello?
    requires s' == s.(reused := Resumed(cfg), certRequest := Wants(cfg), transcript := s.transcript + [m], state := SendServerHello)
    ensures InFlow(cfg, s')
  {
    assert s.transcript == [] && s'.transcript == [m];
    assert Legal(ServerSide(cfg), s'.reused, 0, []);
    Say(ServerSide(cfg), s'.reused, 0, [], m);
    assert [] + [m] == [m];
  }

  /** The ServerHello that the configuration calls for. */
  function Hello(cfg: Config): Msg {
    ServerHello(if Resumed(cfg) then cfg.found.value.id else cfg.newId, cfg.cipher, cfg.ocsp, cfg.ticket, cfg.npn,
                cfg.channelId && cfg.cipher.ecdhe && (Resumed(cfg) ==> cfg.hasHashes))
  }

  lemma {:induction false} SendHelloDoes(cfg: Config, s: Server, v: Verdict)
    requires s.cipher == Some(cfg.cipher) && s.channelId == cfg.channelId && s.reused == Resumed(cfg)
    ensures var s' := DoSendServerHello(cfg, s, v).s;
      || s' == s.(wait := s'.wait)
      || s' == s.(pending := s'.pending, channelId := Hello(cfg).channelId, transcript := s.transcript + [Hello(cfg)],
                  state := if s.reused then SendServerFinished else SendServerCertificate)
  {
  }

  lemma {:induction false} SendHelloFlow(cfg: Config, s: Server, v: Verdict)
    requires Remembers(cfg, s) && s.state.SendServerHello?
    ensures Moves(cfg, s, DoSendServerHello(cfg, s, v).s)
  {
    SendHelloDoes(cfg, s, v);
    var s' := DoSendServerHello(cfg, s, v).s;
    if s' == s.(wait := s'.wait) {
      SameFlow(cfg, s, s');
    } else {
      HelloSent(cfg, s, s');
    }
  }

  lemma {:induction false} HelloSent(cfg: Config, s: Server, s': Server)
    requires Remembers(cfg, s) && s.state.SendServerHello?
    requires s' == s.(pending := s'.pending, channelId := Hello(cfg).channelId, transcript := s.transcript + [Hello(cfg)],
                      state := if s.reused then SendServerFinished else SendServerCertificate)
    ensures Moves(cfg, s, s')
  {
    RequestedWith(s.transcript, Hello(cfg));
  }

  // ---- Two places at once ----

  lemma {:induction false} AddIfTranscript(s: Server, b: bool, m: Msg)
    ensures AddIf(s, b, m) == s.(pending := AddIf(s, b, m).pending, transcript := s.transcript + if b then [m] else [])
  {
    assert s.transcript + [] == s.transcript;
  }

  /** What may be said at `n`, and at the place after it. */
  function Both(t: seq<Msg>, b: bool, m: Msg, d: bool, k: Msg): seq<Msg> {
    t + (if b then [m] else []) + if d then [k] else []
  }

  lemma {:induction false} TwoPlaces(cfg: Config, reused: bool, n: nat, t: seq<Msg>, b: bool, m: Msg, d: bool, k: Msg)
    requires Legal(ServerSide(cfg), reused, n, t) && NeedAt(ServerSide(cfg), reused, n, t) == Iff(b)
    requires b ==> SaysAt(ServerSide(cfg), reused, n, t, m)
    requires var t1 := t + if b then [m] else [];
      NeedAt(ServerSide(cfg), reused, n + 1, t1) == Iff(d) && (d ==> SaysAt(ServerSide(cfg), reused, n + 1, t1, k))
    ensures Legal(ServerSide(cfg), reused, n + 2, Both(t, b, m, d, k))
    ensures Requested(Both(t, b, m, d, k)) <==> Requested(t) || (b && m == CertificateRequest) || (d && k == CertificateRequest)
  {
    SayIf(ServerSide(cfg), reused, n, t, b, m);
    SayIf(ServerSide(cfg), reused, n + 1, t + if b then [m] else [], d, k);
    BothRequested(t, b, m, d, k);
  }

  lemma {:induction false} BothRequested(t: seq<Msg>, b: bool, m: Msg, d: bool, k: Msg)
    ensures Requested(Both(t, b, m, d, k)) <==> Requested(t) || (b && m == CertificateRequest) || (d && k == CertificateRequest)
  {
  }

  lemma {:induction false} SendCertificateDoes(cfg: Config, s: Server, v: Verdict)
    requires s.cipher == Some(cfg.cipher)
    ensures var (s', auth) := (DoSendServerCertificate(cfg, s, v).s, cfg.cipher.certAuth);
      || s' == s.(wait := s'.wait)
      || s' == s.(pending := s'.pending, params := cfg.cipher.ecdhe || (!auth && cfg.pskHint), state := SendServerKeyExchange,
                  transcript := Both(s.transcript, auth, Certificate(false), auth && cfg.ocsp, CertificateStatus))
  {
    AddIfTranscript(s, CertAuth(s), Certificate(false));
    AddIfTranscript(AddIf(s, CertAuth(s), Certificate(false)), CertAuth(s) && cfg.ocsp, CertificateStatus);
  }

  lemma {:induction false} SendCertificateFlow(cfg: Config, s: Server, v: Verdict)
    requires InFlow(cfg, s) && s.state.SendServerCertificate?
    ensures InFlow(cfg, DoSendServerCertificate(cfg, s, v).s)
  {
    SendCertificateDoes(cfg, s, v);
    var (s', auth) := (DoSendServerCertificate(cfg, s, v).s, cfg.cipher.certAuth);
    if s' != s.(wait := s'.wait) {
      CertificatesInFlow(cfg, s, s');
    }
  }

  lemma {:induction false} CertificatesInFlow(cfg: Config, s: Server, s': Server)
    requires InFlow(cfg, s) && s.state.SendServerCertificate?
    requires var auth := cfg.cipher.certAuth;
      s' == s.(pending := s'.pending, params := cfg.cipher.ecdhe || (!auth && cfg.pskHint), state := SendServerKeyExchange,
               transcript := Both(s.transcript, auth, Certificate(false), auth && cfg.ocsp, CertificateStatus))
    ensures InFlow(cfg, s')
  {
    var auth := cfg.cipher.certAuth;
    TwoPlaces(cfg, false, 2, s.transcript, auth, Certificate(false), auth && cfg.ocsp, CertificateStatus);
    SettledStill(cfg, s, s');
  }

  lemma {:induction false} SettledStill(cfg: Config, s: Server, s': Server)
    requires Settled(cfg, s) && s.transcript <= s'.transcript && s'.channelId == s.channelId && s'.cipher == s.cipher
    requires s'.reused == s.reused && s'.certRequest == s.certRequest && (s.reused ==> !FullOnly(s'.state))
    requires s'.state.SendServerKeyExchange? ==> s'.params == (cfg.cipher.ecdhe || (!cfg.cipher.certAuth && cfg.pskHint))
    requires Requested(s'.transcript) == (s.certRequest && (s.reused || PlaceOf(s.reused, s'.state) >= 6))
    ensures Settled(cfg, s')
  {
    assert s'.transcript[1] == s.transcript[1];
  }

  lemma {:induction false} HelloDoneDoes(s: Server, v: Verdict)
    ensures var s' := DoSendServerHelloDone(s, v).s;
      || s' == s.(wait := s'.wait)
      || s' == s.(pending := s'.pending, wait := Flush, state := ReadClientCertificate,
                  transcript := Both(s.transcript, s.certRequest, CertificateRequest, true, ServerHelloDone))
  {
    AddIfTranscript(s, s.certRequest, CertificateRequest);
  }

  lemma {:induction false} HelloDoneFlow(cfg: Config, s: Server, v: Verdict)
    requires InFlow(cfg, s) && s.state.SendServerHelloDone?
    ensures InFlow(cfg, DoSendServerHelloDone(s, v).s)
  {
    HelloDoneDoes(s, v);
    var s' := DoSendServerHelloDone(s, v).s;
    if s' != s.(wait := s'.wait) {
      HelloDoneInFlow(cfg, s, s');
    }
  }

  lemma {:induction false} HelloDoneInFlow(cfg: Config, s: Server, s': Server)
    requires InFlow(cfg, s) && s.state.SendServerHelloDone?
    requires s' == s.(pending := s'.pending, wait := Flush, state := ReadClientCertificate,
                      transcript := Both(s.transcript, s.certRequest, CertificateRequest, true, ServerHelloDone))
    ensures InFlow(cfg, s')
  {
    TwoPlaces(cfg, false, 5, s.transcript, s.certRequest, CertificateRequest, true, ServerHelloDone);
    SettledStill(cfg, s, s');
  }

  lemma {:induction false} SendFinishedDoes(cfg: Config, s: Server, v: Verdict)
    ensures var s' := DoSendServerFinished(cfg, s, v).s;
      var t1 := s.transcript + if cfg.ticket then [NewSessionTicket] else [];
      || s' == s.(wait := s'.wait)
      || s' == s.(pending := s'.pending, wait := Flush, state := if s.reused then ReadChangeCipherSpec else FinishServerHandshake,
                  transcript := Both(s.transcript, cfg.ticket, NewSessionTicket, true, Finished(true, t1)))
  {
    AddIfTranscript(s, cfg.ticket, NewSessionTicket);
  }

  lemma {:induction false} SendFinishedFlow(cfg: Config, s: Server, v: Verdict)
    requires InFlow(cfg, s) && s.state.SendServerFinished?
    ensures InFlow(cfg, DoSendServerFinished(cfg, s, v).s)
  {
    SendFinishedDoes(cfg, s, v);
    var s' := DoSendServerFinished(cfg, s, v).s;
    if s' != s.(wait := s'.wait) {
      FinishedInFlow(cfg, s, s');
    }
  }

  lemma {:induction false} FinishedInFlow(cfg: Config, s: Server, s': Server)
    requires InFlow(cfg, s) && s.state.SendServerFinished?
    requires var t1 := s.transcript + if cfg.ticket then [NewSessionTicket] else [];
      s' == s.(pending := s'.pending, wait := Flush, state := if s.reused then ReadChangeCipherSpec else FinishServerHandshake,
               transcript := Both(s.transcript, cfg.ticket, NewSessionTicket, true, Finished(true, t1)))
    ensures InFlow(cfg, s')
  {
    FinishedRemembered(cfg, s, s');
    FinishedLegal(cfg, s.reused, s.transcript);
  }

  lemma {:induction false} FinishedLegal(cfg: Config, reused: bool, t: seq<Msg>)
    requires Greeted(t) && t[1].ticket == cfg.ticket && Legal(ServerSide(cfg), reused, if reused then 2 else 13, t)
    ensures var t1 := t + if cfg.ticket then [NewSessionTicket] else [];
      Legal(ServerSide(cfg), reused, if reused then 4 else 15, Both(t, cfg.ticket, NewSessionTicket, true, Finished(true, t1)))
  {
    var t1 := t + if cfg.ticket then [NewSessionTicket] else [];
    FinishedNeeded(cfg, reused, t);
    TwoPlaces(cfg, reused, if reused then 2 else 13, t, cfg.ticket, NewSessionTicket, true, Finished(true, t1));
  }

  lemma {:induction false} FinishedRemembered(cfg: Config, s: Server, s': Server)
    requires Remembers(cfg, s) && s.state.SendServerFinished?
    requires var t1 := s.transcript + if cfg.ticket then [NewSessionTicket] else [];
      s' == s.(pending := s'.pending, wait := Flush, state := if s.reused then ReadChangeCipherSpec else FinishServerHandshake,
               transcript := Both(s.transcript, cfg.ticket, NewSessionTicket, true, Finished(true, t1)))
    ensures Remembers(cfg, s')
  {
    SettledStill(cfg, s, s');
  }

  /** The ticket and the Finished message are what is needed at the end of the server's last flight. */
  lemma {:induction false} FinishedNeeded(cfg: Config, reused: bool, t: seq<Msg>)
    requires Greeted(t) && t[1].ticket == cfg.ticket
    ensures var (n, t1) := (if reused then 2 else 13, t + if cfg.ticket then [NewSessionTicket] else []);
      && NeedAt(ServerSide(cfg), reused, n, t) == Iff(cfg.ticket) && SaysAt(ServerSide(cfg), reused, n, t, NewSessionTicket)
      && NeedAt(ServerSide(cfg), reused, n + 1, t1) == Must && SaysAt(ServerSide(cfg), reused, n + 1, t1, Finished(true, t1))
  {
  }

  // ---- The client's certificate ----

  lemma {:induction false} ClientCertificateDoes(cfg: Config, s: Server, inbox: seq<Rec>, v: Verdict)
    ensures var (s', m) := (DoReadClientCertificate(cfg, s, inbox, v).s, Peek(inbox));
      || s' == s.(wait := s'.wait)
      || (!s.certRequest && s' == Go(s, VerifyClientCertificate).s)
      || (s.certRequest && m.Some? && m.value.Certificate? && (cfg.needCertificate ==> !m.value.empty)
          && s' == Took(s.(peerKey := !m.value.empty), m.value, VerifyClientCertificate).s)
  {
  }

  lemma {:induction false} ClientCertificateFlow(cfg: Config, s: Server, inbox: seq<Rec>, v: Verdict)
    requires Remembers(cfg, s) && s.state.ReadClientCertificate?
    ensures Moves(cfg, s, DoReadClientCertificate(cfg, s, inbox, v).s)
  {
    ClientCertificateDoes(cfg, s, inbox, v);
    var s' := DoReadClientCertificate(cfg, s, inbox, v).s;
    if s' == s.(wait := s'.wait) {
      SameFlow(cfg, s, s');
    } else if !s.certRequest {
      PassesOver(cfg, s, Go(s, VerifyClientCertificate).s);
    } else {
      var m := Peek(inbox).value;
      Exchanges(cfg, s, Took(s.(peerKey := !m.empty), m, VerifyClientCertificate).s, m);
    }
  }

  // ---- The rest ----

  predicate Plain(state: State) {
    || state.VerifyClientCertificate? || state.ReadChangeCipherSpec? || state.ProcessChangeCipherSpec?
    || state.FinishServerHandshake? || state.Done?
  }

  function AfterPlain(state: State): State {
    match state
    case VerifyClientCertificate => ReadClientKeyExchange
    case ReadChangeCipherSpec => ProcessChangeCipherSpec
    case ProcessChangeCipherSpec => ReadNextProto
    case _ => Done
  }

  lemma {:induction false} VerifyDoes(s: Server, v: Verdict)
    ensures var s' := DoVerifyClientCertificate(s, v).s;
      s' == s.(wait := s'.wait) || ((s.peerKey ==> v.Pass?) && s' == s.(state := ReadClientKeyExchange))
  {
  }

  lemma {:induction false} PlainDoes(cfg: Config, s: Server, inbox: seq<Rec>, v: Verdict)
    requires Plain(s.state)
    ensures var s' := Do(cfg, s, inbox, v).s; s' == s.(wait := s'.wait) || s' == s.(state := AfterPlain(s.state), wait := s'.wait)
  {
    match s.state
    case VerifyClientCertificate =>
      VerifyDoes(s, v);
      assert Do(cfg, s, inbox, v) == DoVerifyClientCertificate(s, v);
    case ReadChangeCipherSpec => assert Do(cfg, s, inbox, v) == Out(s.(state := ProcessChangeCipherSpec, wait := ReadCcs), false);
    case ProcessChangeCipherSpec =>
      assert Do(cfg, s, inbox, v) == if v.Refuse? then Stay(s, Failed) else Go(s, ReadNextProto);
    case FinishServerHandshake => assert Do(cfg, s, inbox, v) == Go(s, Done);
    case Done => assert Do(cfg, s, inbox, v) == Stay(s, Ok);
  }

  lemma {:induction false} PlainFlow(cfg: Config, s: Server, inbox: seq<Rec>, v: Verdict)
    requires Remembers(cfg, s) && Plain(s.state)
    ensures Moves(cfg, s, Do(cfg, s, inbox, v).s)
  {
    PlainDoes(cfg, s, inbox, v);
    var s' := Do(cfg, s, inbox, v).s;
    if s' == s.(wait := s'.wait) {
      SameFlow(cfg, s, s');
    } else {
      PlainPasses(cfg, s, s');
    }
  }

  lemma {:induction false} PlainPasses(cfg: Config, s: Server, s': Server)
    requires Remembers(cfg, s) && Plain(s.state) && s' == s.(state := AfterPlain(s.state), wait := s'.wait)
    ensures Moves(cfg, s, s')
  {
    PassesOver(cfg, s, s');
  }

  /** The states that go over two places at once, or settle whether the session is resumed. */
  predicate Leaps(state: State) {
    state.SelectParameters? || state.SendServerCertificate? || state.SendServerHelloDone? || state.SendServerFinished?
  }

  lemma {:induction false} DoMoves(cfg: Config, s: Server, inbox: seq<Rec>, v: Verdict)
    requires Remembers(cfg, s) && !Leaps(s.state)
    ensures Moves(cfg, s, Do(cfg, s, inbox, v).s)
  {
    match s.state
    case SendServerHello => SendHelloFlow(cfg, s, v);
    case SendServerKeyExchange => SendKeyFlow(cfg, s, v);
    case ReadClientCertificate => ClientCertificateFlow(cfg, s, inbox, v);
    case ReadClientKeyExchange => ReadKeyFlow(cfg, s, inbox, v);
    case ReadClientCertificateVerify => ReadVerifyFlow(cfg, s, inbox, v);
    case ReadNextProto => NextProtoFlow(cfg, s, inbox, v);
    case ReadChannelId => ChannelIdFlow(cfg, s, inbox, v);
    case ReadClientFinished => FinishedFlow(cfg, s, inbox);
    case _ =>
      if Plain(s.state) {
        PlainFlow(cfg, s, inbox, v);
      } else {
        EarlyFlow(cfg, s, inbox, v);
      }
  }

  lemma {:induction false} LeapFlow(cfg: Config, s: Server, inbox: seq<Rec>, v: Verdict)
    requires InFlow(cfg, s) && Leaps(s.state)
    requires s.state.SelectParameters? ==> Peek(inbox).Some? && Peek(inbox).value.ClientHello?
    ensures InFlow(cfg, Do(cfg, s, inbox, v).s)
  {
    match s.state
    case SelectParameters =>
      assert Do(cfg, s, inbox, v) == DoSelectParameters(cfg, s, inbox, v);
      ParametersFlow(cfg, s, inbox, v);
    case SendServerCertificate =>
      assert Do(cfg, s, inbox, v) == DoSendServerCertificate(cfg, s, v);
      SendCertificateFlow(cfg, s, v);
    case SendServerHelloDone =>
      assert Do(cfg, s, inbox, v) == DoSendServerHelloDone(s, v);
      HelloDoneFlow(cfg, s, v);
    case SendServerFinished =>
      assert Do(cfg, s, inbox, v) == DoSendServerFinished(cfg, s, v);
      SendFinishedFlow(cfg, s, v);
  }

  lemma {:induction false} DoFlow(cfg: Config, s: Server, inbox: seq<Rec>, v: Verdict)
    requires InFlow(cfg, s) && (s.state.SelectParameters? ==> Peek(inbox).Some? && Peek(inbox).value.ClientHello?)
    ensures InFlow(cfg, Do(cfg, s, inbox, v).s)
  {
    if Leaps(s.state) {
      LeapFlow(cfg, s, inbox, v);
    } else {
      DoMoves(cfg, s, inbox, v);
      MovesInFlow(cfg, s, Do(cfg, s, inbox, v).s);
    }
  }

  /** The ClientHello waits at the head of the inbox until the parameters are selected. */
  predicate HelloWaits(seat: Seat) {
    seat.s.state.SelectCertificate? || seat.s.state.SelectParameters? ==>
      Peek(seat.inbox).Some? && Peek(seat.inbox).value.ClientHello?
  }

  /** The transcript never shrinks. */
  lemma {:induction false} Grows(cfg: Config, s: Server, inbox: seq<Rec>, v: Verdict)
    requires Remembers(cfg, s) && (s.state.SelectParameters? ==> Peek(inbox).Some?)
    ensures |s.transcript| <= |Do(cfg, s, inbox, v).s.transcript|
  {
    if Leaps(s.state) {
      LeapsFar(cfg, s, inbox, v);
    } else {
      DoMoves(cfg, s, inbox, v);
    }
  }

  /** What a leap does to the transcript and the place. */
  lemma {:induction false} LeapsFar(cfg: Config, s: Server, inbox: seq<Rec>, v: Verdict)
    requires Leaps(s.state) && s.cipher == Some(cfg.cipher)
    requires s.state.SelectParameters? ==> s.channelId == cfg.channelId && Peek(inbox).Some?
    ensures Far(s, Do(cfg, s, inbox, v).s)
  {
    match s.state
    case SelectParameters =>
      assert Do(cfg, s, inbox, v) == DoSelectParameters(cfg, s, inbox, v);
      ParametersFar(cfg, s, inbox, v);
    case SendServerCertificate =>
      assert Do(cfg, s, inbox, v) == DoSendServerCertificate(cfg, s, v);
      CertificateFar(cfg, s, inbox, v);
    case SendServerHelloDone =>
      assert Do(cfg, s, inbox, v) == DoSendServerHelloDone(s, v);
      HelloDoneFar(cfg, s, inbox, v);
    case SendServerFinished =>
      assert Do(cfg, s, inbox, v) == DoSendServerFinished(cfg, s, v);
      FinishedFar(cfg, s, inbox, v);
  }

  predicate Far(s: Server, s': Server) {
    && |s.transcript| <= |s'.transcript|
    && (!s'.reused ==> PlaceOf(false, s'.state) <= PlaceOf(s.reused, s.state) + 2)
  }

  lemma {:induction false} ParametersFar(cfg: Config, s: Server, inbox: seq<Rec>, v: Verdict)
    requires s.state.SelectParameters? && s.cipher == Some(cfg.cipher) && s.channelId == cfg.channelId && Peek(inbox).Some?
    ensures Far(s, DoSelectParameters(cfg, s, inbox, v).s)
  {
    ParametersDoes(cfg, s, inbox, v);
  }

  lemma {:induction false} CertificateFar(cfg: Config, s: Server, inbox: seq<Rec>, v: Verdict)
    requires s.state.SendServerCertificate? && s.cipher == Some(cfg.cipher)
    ensures Far(s, DoSendServerCertificate(cfg, s, v).s)
  {
    SendCertificateDoes(cfg, s, v);
  }

  lemma {:induction false} HelloDoneFar(cfg: Config, s: Server, inbox: seq<Rec>, v: Verdict)
    requires s.state.SendServerHelloDone?
    ensures Far(s, DoSendServerHelloDone(s, v).s)
  {
    HelloDoneDoes(s, v);
  }

  lemma {:induction false} FinishedFar(cfg: Config, s: Server, inbox: seq<Rec>, v: Verdict)
    requires s.state.SendServerFinished?
    ensures Far(s, DoSendServerFinished(cfg, s, v).s)
  {
    SendFinishedDoes(cfg, s, v);
  }

  lemma {:induction false} WaitsThrough(cfg: Config, s: Server, inbox: seq<Rec>, v: Verdict)
    requires InFlow(cfg, s) && HelloWaits(Seat(s, inbox))
    ensures var out := Do(cfg, s, inbox, v);
      out.s.state.SelectCertificate? || out.s.state.SelectParameters? ==>
        !out.pop && Peek(inbox).Some? && Peek(inbox).value.ClientHello?
  {
    if PlaceOf(s.reused, s.state) == 0 {
      if s.state.SelectParameters? {
        assert Do(cfg, s, inbox, v) == DoSelectParameters(cfg, s, inbox, v);
      } else {
        EarlyDoes(cfg, s, inbox, v);
      }
    } else {
      Grows(cfg, s, inbox, v);
      DoFlow(cfg, s, inbox, v);
    }
  }

  lemma {:induction false} ReactFlow(cfg: Config, seat: Seat, input: Input)
    requires InFlow(cfg, seat.s) && HelloWaits(seat)
    ensures InFlow(cfg, React(cfg, seat, input).s) && HelloWaits(React(cfg, seat, input))
  {
    if input.Move? && seat.s.wait.Ok? {
      DoFlow(cfg, seat.s, seat.inbox, input.v);
      WaitsThrough(cfg, seat.s, seat.inbox, input.v);
    } else {
      ReactResolves(cfg, seat, input);
      SameFlow(cfg, seat.s, React(cfg, seat, input).s);
      MovesInFlow(cfg, seat.s, React(cfg, seat, input).s);
      InboxResolves(cfg, seat, input);
    }
  }

  lemma {:induction false} InboxResolves(cfg: Config, seat: Seat, input: Input)
    requires HelloWaits(seat) && (input.Deliver? || !seat.s.wait.Ok?)
    ensures HelloWaits(React(cfg, seat, input))
  {
    ReactResolves(cfg, seat, input);
  }

  lemma {:induction false} RunFlow(cfg: Config, seat: Seat, inputs: seq<Input>)
    requires InFlow(cfg, seat.s) && HelloWaits(seat)
    ensures InFlow(cfg, ReactAll(cfg, seat, inputs).s)
    decreases |inputs|
  {
    if inputs != [] {
      ReactFlow(cfg, seat, inputs[0]);
      RunFlow(cfg, React(cfg, seat, inputs[0]), inputs[1..]);
    }
  }

  /** Whatever the peer does: the transcript of a server that is done is a legal handshake, with a Finished message of each side
      that covers exactly what came before it. */
  lemma {:induction false} DoneIsLegal(cfg: Config, inputs: seq<Input>)
    requires ReactAll(cfg, Seat(Initial(cfg), []), inputs).s.state.Done?
    ensures var s := ReactAll(cfg, Seat(Initial(cfg), []), inputs).s;
      && Legal(ServerSide(cfg), s.reused, Places(s.reused), s.transcript)
      && HasFinished(s.transcript, true) && HasFinished(s.transcript, false)
      && s.reused == Resumed(cfg) && s.cipher == Some(cfg.cipher)
  {
    RunFlow(cfg, Seat(Initial(cfg), []), inputs);
    var s := ReactAll(cfg, Seat(Initial(cfg), []), inputs).s;
    FinishedIsThere(ServerSide(cfg), s.reused, Places(s.reused), s.transcript, true);
    FinishedIsThere(ServerSide(cfg), s.reused, Places(s.reused), s.transcript, false);
  }

  // ---- The checks ----

  /** Where the server is after the first `j` inputs. */
  function At(cfg: Config, inputs: seq<Input>, j: nat): Seat
    requires j <= |inputs|
  {
    ReactAll(cfg, Seat(Initial(cfg), []), inputs[..j])
  }

  lemma {:induction false} ReactAppend(cfg: Config, seat: Seat, inputs: seq<Input>, input: Input)
    ensures ReactAll(cfg, seat, inputs + [input]) == React(cfg, ReactAll(cfg, seat, inputs), input)
    decreases |inputs|
  {
    if inputs == [] {
      assert inputs + [input] == [input];
      assert ReactAll(cfg, React(cfg, seat, input), []) == React(cfg, seat, input);
    } else {
      assert (inputs + [input])[1..] == inputs[1..] + [input];
      ReactAppend(cfg, React(cfg, seat, inputs[0]), inputs[1..], input);
    }
  }

  lemma {:induction false} AtNext(cfg: Config, inputs: seq<Input>, j: nat)
    requires j < |inputs|
    ensures At(cfg, inputs, j + 1) == React(cfg, At(cfg, inputs, j), inputs[j])
  {
    assert inputs[..j + 1] == inputs[..j] + [inputs[j]];
    ReactAppend(cfg, Seat(Initial(cfg), []), inputs[..j], inputs[j]);
  }

  /** The server asks a callback, or checks a message, a signature, a certificate or a key of its own. */
  predicate Asks(cfg: Config, seat: Seat) {
    var (s, m) := (seat.s, Peek(seat.inbox));
    s.wait.Ok? &&
    match s.state
    case ReadClientHello => m.Some?
    case SelectCertificate => m.Some?
    case SelectParameters => m.Some?
    case SendServerHello => true
    case SendServerCertificate => true
    case SendServerKeyExchange => s.params
    case SendServerHelloDone => true
    case ReadClientCertificate => s.certRequest && m.Some?
    case VerifyClientCertificate => s.peerKey
    case ReadClientKeyExchange => m.Some?
    case ReadClientCertificateVerify => s.peerKey && m.Some?
    case ProcessChangeCipherSpec => true
    case ReadNextProto => cfg.npn && m.Some?
    case ReadChannelId => s.channelId && m.Some?
    case SendServerFinished => true
    case _ => false
  }

  lemma {:induction false} RefusalFails(cfg: Config, seat: Seat)
    requires Asks(cfg, seat)
    ensures React(cfg, seat, Move(Refuse)).s == seat.s.(wait := Failed)
  {
    assert Do(cfg, seat.s, seat.inbox, Refuse) == Stay(seat.s, Failed);
  }

  lemma {:induction false} FailedStays(cfg: Config, inputs: seq<Input>, j: nat, n: nat)
    requires j <= n <= |inputs| && At(cfg, inputs, j).s.wait.Failed?
    ensures At(cfg, inputs, n).s == At(cfg, inputs, j).s
    decreases n - j
  {
    if j < n {
      AtNext(cfg, inputs, j);
      FailedStays(cfg, inputs, j + 1, n);
    }
  }

  lemma {:induction false} DoneWasNotRefused(cfg: Config, inputs: seq<Input>, j: nat)
    requires At(cfg, inputs, |inputs|).s.state.Done? && j < |inputs| && inputs[j] == Move(Refuse)
    ensures !Asks(cfg, At(cfg, inputs, j))
  {
    if Asks(cfg, At(cfg, inputs, j)) {
      RefusalFails(cfg, At(cfg, inputs, j));
      AtNext(cfg, inputs, j);
      FailedStays(cfg, inputs, j + 1, |inputs|);
    }
  }

  /** The chain of the client was found good at input `j`. */
  predicate VerifiedAt(cfg: Config, inputs: seq<Input>, j: nat)
    requires j < |inputs|
  {
    var s := At(cfg, inputs, j).s;
    s.state.VerifyClientCertificate? && s.wait.Ok? && inputs[j] == Move(Pass)
  }

  ghost predicate Verified(cfg: Config, inputs: seq<Input>) {
    exists j: nat | j < |inputs| :: VerifiedAt(cfg, inputs, j)
  }

  /** The certificate of the client has not been verified yet. */
  predicate Unverified(state: State) {
    || state.StartAccept? || state.ReadClientHello? || state.SelectCertificate? || state.SelectParameters? || state.SendServerHello?
    || state.SendServerCertificate? || state.SendServerKeyExchange? || state.SendServerHelloDone?
    || state.ReadClientCertificate? || state.VerifyClientCertificate?
  }

  ghost predicate Warranted(cfg: Config, inputs: seq<Input>) {
    var s := At(cfg, inputs, |inputs|).s;
    s.peerKey ==> Unverified(s.state) || Verified(cfg, inputs)
  }

  lemma {:induction false} PlaceAdvances(cfg: Config, s: Server, inbox: seq<Rec>, v: Verdict)
    requires Remembers(cfg, s) && (s.state.SelectParameters? ==> Peek(inbox).Some?)
    ensures var s' := Do(cfg, s, inbox, v).s; !s'.reused ==> PlaceOf(s'.reused, s'.state) <= PlaceOf(s.reused, s.state) + 2
  {
    if Leaps(s.state) {
      LeapsFar(cfg, s, inbox, v);
    } else {
      DoMoves(cfg, s, inbox, v);
    }
  }

  /** The server gets past the verification of a client certificate only if it comes out well. */
  lemma {:induction false} PastVerification(cfg: Config, s: Server, inbox: seq<Rec>, v: Verdict)
    requires InFlow(cfg, s) && HelloWaits(Seat(s, inbox)) && Unverified(s.state)
    ensures var s' := Do(cfg, s, inbox, v).s;
      s'.peerKey && !Unverified(s'.state) ==> s.state.VerifyClientCertificate? && v.Pass?
  {
    var s' := Do(cfg, s, inbox, v).s;
    DoFlow(cfg, s, inbox, v);
    if s.state.VerifyClientCertificate? {
      VerifyDoes(s, v);
    } else if s.state.ReadClientCertificate? {
      ClientCertificateDoes(cfg, s, inbox, v);
    } else {
      PlaceAdvances(cfg, s, inbox, v);
    }
  }

  lemma {:induction false} WarrantedStep(cfg: Config, inputs: seq<Input>, x: Input)
    requires Warranted(cfg, inputs)
    requires var seat := At(cfg, inputs, |inputs|); InFlow(cfg, seat.s) && HelloWaits(seat)
    ensures Warranted(cfg, inputs + [x])
  {
    var (n, more) := (|inputs|, inputs + [x]);
    var seat := At(cfg, inputs, n);
    assert more[..n] == inputs[..n];
    AtNext(cfg, more, n);
    if Verified(cfg, inputs) {
      var j: nat :| j < |inputs| && VerifiedAt(cfg, inputs, j);
      assert more[..j] == inputs[..j];
      assert VerifiedAt(cfg, more, j);
    } else if x.Move? && seat.s.wait.Ok? {
      if Unverified(seat.s.state) {
        PastVerification(cfg, seat.s, seat.inbox, x.v);
        assert seat.s.state.VerifyClientCertificate? && x.v.Pass? ==> VerifiedAt(cfg, more, n);
      } else {
        NoNewKey(cfg, seat.s, seat.inbox, x.v);
      }
    } else {
      ReactResolves(cfg, seat, x);
    }
  }

  /** Past its place a client certificate does not appear any more. */
  lemma {:induction false} NoNewKey(cfg: Config, s: Server, inbox: seq<Rec>, v: Verdict)
    requires !Unverified(s.state)
    ensures SameKey(s, Do(cfg, s, inbox, v).s)
  {
    if s.state.ReadClientKeyExchange? || s.state.ReadClientCertificateVerify? {
      NoNewKeyReading(cfg, s, inbox, v);
    } else if s.state.ReadClientFinished? {
      assert Do(cfg, s, inbox, v) == DoReadClientFinished(s, inbox);
      FinishedDoes(s, inbox);
    } else if s.state.SendServerFinished? {
      assert Do(cfg, s, inbox, v) == DoSendServerFinished(cfg, s, v);
      SendFinishedDoes(cfg, s, v);
    } else {
      NoNewKeyLater(cfg, s, inbox, v);
    }
  }

  lemma {:induction false} NoNewKeyReading(cfg: Config, s: Server, inbox: seq<Rec>, v: Verdict)
    requires s.state.ReadClientKeyExchange? || s.state.ReadClientCertificateVerify?
    ensures SameKey(s, Do(cfg, s, inbox, v).s)
  {
    if s.state.ReadClientKeyExchange? {
      assert Do(cfg, s, inbox, v) == DoReadClientKeyExchange(s, inbox, v);
      ReadKeyDoes(s, inbox, v);
    } else {
      assert Do(cfg, s, inbox, v) == DoReadClientCertificateVerify(s, inbox, v);
      ReadVerifyDoes(s, inbox, v);
    }
  }

  predicate SameKey(s: Server, s': Server) {
    s'.peerKey == s.peerKey
  }

  lemma {:induction false} NoNewKeyLater(cfg: Config, s: Server, inbox: seq<Rec>, v: Verdict)
    requires s.state.ReadNextProto? || s.state.ReadChannelId? || Plain(s.state)
    ensures SameKey(s, Do(cfg, s, inbox, v).s)
  {
    if s.state.ReadNextProto? {
      assert Do(cfg, s, inbox, v) == DoReadNextProto(cfg, s, inbox, v);
      NextProtoDoes(cfg, s, inbox, v);
    } else if s.state.ReadChannelId? {
      assert Do(cfg, s, inbox, v) == DoReadChannelId(s, inbox, v);
      ChannelIdDoes(s, inbox, v);
    } else {
      PlainDoes(cfg, s, inbox, v);
    }
  }

  lemma {:induction false} RunIsWarranted(cfg: Config, inputs: seq<Input>)
    ensures Warranted(cfg, inputs)
    ensures var seat := At(cfg, inputs, |inputs|); InFlow(cfg, seat.s) && HelloWaits(seat)
    decreases |inputs|
  {
    if inputs != [] {
      var (front, x) := (inputs[..|inputs| - 1], inputs[|inputs| - 1]);
      RunIsWarranted(cfg, front);
      WarrantedStep(cfg, front, x);
      assert front + [x] == inputs && front[..|front|] == front;
      AtNext(cfg, inputs, |inputs| - 1);
      ReactFlow(cfg, At(cfg, front, |front|), x);
    }
  }

  /** Whatever the peer does, and over every sequence of inputs: a server that is done has a legal transcript with both Finished
      messages, and was refused nothing. If the client showed a certificate, then its chain was found good and a
      CertificateVerify followed; and if one was requested and needed, the client did. */
  lemma {:induction false} DoneWasChecked(cfg: Config, inputs: seq<Input>)
    requires ReactAll(cfg, Seat(Initial(cfg), []), inputs).s.state.Done?
    ensures var s := ReactAll(cfg, Seat(Initial(cfg), []), inputs).s;
      && Legal(ServerSide(cfg), s.reused, Places(s.reused), s.transcript)
      && HasFinished(s.transcript, true) && HasFinished(s.transcript, false)
      && (s.peerKey ==> Verified(cfg, inputs) && CertificateVerify in s.transcript)
      && (!s.reused && Requested(s.transcript) && cfg.needCertificate ==> s.peerKey)
    ensures forall j | 0 <= j < |inputs| && inputs[j] == Move(Refuse) :: !Asks(cfg, At(cfg, inputs, j))
  {
    assert inputs[..|inputs|] == inputs;
    DoneIsLegal(cfg, inputs);
    RunIsWarranted(cfg, inputs);
    forall j | 0 <= j < |inputs| && inputs[j] == Move(Refuse)
      ensures !Asks(cfg, At(cfg, inputs, j))
    {
      DoneWasNotRefused(cfg, inputs, j);
    }
  }
}
