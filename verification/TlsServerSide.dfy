/** The server keeps to the script. */
module TlsServerSide {
  import opened Basics
  import opened TlsMessages
  import opened TlsScript
  import S = TlsServer

  /** What is true of the server in a state: its place in the order of states, how many groups of the
      script are behind it; whether it has chosen the
      cipher, settled the parameters, sent its hello and read the client's certificate; whether it may be collecting
      a flight; whether it reads; and whether the abbreviated handshake has the state. */
  datatype Row = Row(
    rank: nat, pos: nat, chosen: bool, settled: bool, greeted: bool, keyed: bool, sends: bool, listens: bool, common: bool)

  function At(d: Deal, state: S.State): (row: Row)
    ensures row.rank <= 19 && (d.reused && row.common ==> row.pos <= 9)
    ensures !d.reused ==> row.pos <= 17
  {
    match state
    case StartAccept => Row(0, 0, false, false, false, false, false, false, true)
    case ReadClientHello => Row(1, 0, false, false, false, false, false, true, true)
    case SelectCertificate => Row(2, 0, false, false, false, false, false, true, true)
    case SelectParameters => Row(3, 0, true, false, false, false, false, true, true)
    case SendServerHello => Row(4, 1, true, true, false, false, false, false, true)
    case SendServerCertificate => Row(5, 2, true, true, true, false, true, false, false)
    case SendServerKeyExchange => Row(6, 4, true, true, true, false, true, false, false)
    case SendServerHelloDone => Row(7, 5, true, true, true, false, true, false, false)
    case ReadClientCertificate => Row(8, 7, true, true, true, false, false, true, false)
    case VerifyClientCertificate => Row(9, 8, true, true, true, true, false, false, false)
    case ReadClientKeyExchange => Row(10, 8, true, true, true, true, false, true, false)
    case ReadClientCertificateVerify => Row(11, 9, true, true, true, true, false, true, false)
    case ReadChangeCipherSpec => Row(12, if d.reused then 5 else 10, true, true, true, true, false, false, true)
    case ProcessChangeCipherSpec => Row(13, if d.reused then 6 else 11, true, true, true, true, false, false, true)
    case ReadNextProto => Row(14, if d.reused then 6 else 11, true, true, true, true, false, true, true)
    case ReadChannelId => Row(15, if d.reused then 7 else 12, true, true, true, true, false, true, true)
    case ReadClientFinished => Row(16, if d.reused then 8 else 13, true, true, true, true, false, true, true)
    case SendServerFinished => Row(if d.reused then 5 else 17, if d.reused then 2 else 14, true, true, true, true, true, false, true)
    case FinishServerHandshake => Row(18, Size(d), true, true, true, true, false, false, true)
    case Done => Row(19, Size(d), true, true, true, true, false, false, true)
  }

  function Pos(d: Deal, s: S.Server): nat {
    var pos := At(d, s.state).pos;
    if s.wait.ReadCcs? && pos > 0 then pos - 1 else pos
  }

  predicate WaitOk(row: Row, s: S.Server) {
    match s.wait
    case Ok => s.pending == [] || row.sends
    case Flush => s.state.ReadClientCertificate? || s.state.ReadChangeCipherSpec? || s.state.FinishServerHandshake?
    case ReadMessage => row.listens && s.pending == []
    case ReadCcs => s.state.ProcessChangeCipherSpec? && s.pending == []
    case Paused => s.pending == [] || row.sends
    case Failed => false
  }

  /** The server and the deal belong together. */
  predicate Fits(d: Deal, cfg: S.Config) {
    && d.cipher == cfg.cipher && d.ocsp == cfg.ocsp && d.ticket == cfg.ticket && d.npn == cfg.npn
    && d.reused == (cfg.found.Some? && cfg.found.value.cipher == cfg.cipher)
    && d.sessionId == (if d.reused then cfg.found.value.id else cfg.newId)
    && d.channelId == (cfg.channelId && cfg.cipher.ecdhe && (d.reused ==> cfg.hasHashes))
    && d.keyExchange == (cfg.cipher.ecdhe || (!cfg.cipher.certAuth && cfg.pskHint))
    && d.certRequest ==
       (!d.reused && cfg.verifyPeer && !(cfg.unlessChannelId && cfg.channelId) && cfg.cipher.certAuth)
    && (d.certRequest && cfg.needCertificate ==> d.clientCertificate)
  }

  predicate FlagsOk(d: Deal, cfg: S.Config, row: Row, s: S.Server) {
    && (row.chosen ==> s.cipher == Some(d.cipher))
    && (row.settled ==> s.reused == d.reused && s.certRequest == d.certRequest)
    && s.channelId == (if row.greeted then d.channelId else cfg.channelId)
    && s.peerKey == (row.keyed && d.certRequest && d.clientCertificate)
    && (s.state.SendServerKeyExchange? ==> s.params == d.keyExchange)
  }

  predicate ServerOk(d: Deal, gs: seq<Group>, cfg: S.Config, s: S.Server)
    requires |gs| == Size(d)
  {
    var row := At(d, s.state);
    && WaitOk(row, s)
    && (d.reused ==> row.common)
    && FlagsOk(d, cfg, row, s)
    && s.transcript == Hashed(gs, Pos(d, s))
    && WaitsFor(gs, s.wait, Pos(d, s))
  }

  /** What the server waits for is what the client sends next. */
  predicate WaitsFor(gs: seq<Group>, wait: Wait, p: nat) {
    && (wait.ReadMessage? ==> Awaits(gs, false, p))
    && (wait.ReadCcs? ==> p < |gs| && gs[p] == Group(false, [Ccs]))
  }

  /** A step that sends the groups from `p` on, or passes over empty ones. */
  predicate Sent(d: Deal, gs: seq<Group>, s: S.Server, out: S.Out)
    requires |gs| == Size(d)
  {
    var (p, p') := (Pos(d, s), Pos(d, out.s));
    && !out.pop && p <= p' <= |gs|
    && if p == p' then out.s.pending == s.pending
       else out.s.pending == s.pending + Recs(gs, p, p') && AllFrom(gs, true, p, p')
  }

  /** A step that takes the group at `p`. */
  predicate Received(d: Deal, gs: seq<Group>, s: S.Server, inbox: seq<Rec>, out: S.Out)
    requires |gs| == Size(d)
  {
    var p := Pos(d, s);
    && out.pop && inbox != [] && p < |gs| && gs[p].recs == [inbox[0]]
    && Pos(d, out.s) == p + 1 && out.s.pending == s.pending
  }

  /** A step only waits, or goes to a state that comes later. */
  predicate Advances(d: Deal, s: S.Server, v: Verdict, out: S.Out) {
    if out.s.state == s.state then
      !out.pop && out.s.pending == s.pending && (out.s.wait.ReadMessage? || (out.s.wait.Paused? && v.Later?))
    else
      && At(d, s.state).rank < At(d, out.s.state).rank && |out.s.pending| <= |s.pending| + 4
      && (out.s.wait.Ok? || out.s.wait.Flush? || out.s.wait.ReadCcs?)
  }

  /** A step leaves the server in order, and moves it along the script. */
  predicate Kept(d: Deal, gs: seq<Group>, cfg: S.Config, s: S.Server, inbox: seq<Rec>, v: Verdict, out: S.Out)
    requires |gs| == Size(d)
  {
    && ServerOk(d, gs, cfg, out.s) && (if out.pop then Received(d, gs, s, inbox, out) else Sent(d, gs, s, out))
    && (out.s.wait.ReadMessage? ==> inbox == []) && Advances(d, s, v, out)
  }

  // ---- The shapes of a step ----

  /** A server about to make a step. */
  predicate Ready(d: Deal, gs: seq<Group>, cfg: S.Config, s: S.Server) {
    |gs| == Size(d) && ServerOk(d, gs, cfg, s) && s.wait.Ok?
  }

  lemma {:induction false} Stays(d: Deal, gs: seq<Group>, cfg: S.Config, s: S.Server, inbox: seq<Rec>, v: Verdict, wait: Wait)
    requires Ready(d, gs, cfg, s)
    requires (wait.Paused? && v.Later?)
      || (wait.ReadMessage? && inbox == [] && At(d, s.state).listens && s.pending == [] && Awaits(gs, false, At(d, s.state).pos))
    ensures Kept(d, gs, cfg, s, inbox, v, S.Stay(s, wait))
  {
  }

  lemma {:induction false} Goes(d: Deal, gs: seq<Group>, cfg: S.Config, s: S.Server, s1: S.Server, inbox: seq<Rec>, v: Verdict, state: S.State)
    requires Ready(d, gs, cfg, s) && s1.wait.Ok? && s1.pending == s.pending && s1.transcript == s.transcript
    requires var (row, next) := (At(d, s.state), At(d, state));
      && row.rank < next.rank && FlagsOk(d, cfg, next, s1.(state := state)) && (d.reused ==> next.common) && (s.pending == [] || next.sends)
      && (next.pos == row.pos || (next.pos == row.pos + 1 && row.pos < |gs| && gs[row.pos].recs == []))
    ensures Kept(d, gs, cfg, s, inbox, v, S.Go(s1, state))
  {
    var (row, next) := (At(d, s.state), At(d, state));
    if next.pos == row.pos + 1 {
      EmptyGroup(gs, row.pos, true);
      assert s.pending + [] == s.pending;
    }
  }

  lemma {:induction false} Adds(d: Deal, gs: seq<Group>, cfg: S.Config, s: S.Server, s1: S.Server, inbox: seq<Rec>, v: Verdict, m: Msg, state: S.State)
    requires Ready(d, gs, cfg, s) && s1.wait.Ok?
    requires s1.pending == s.pending + [Hs(m)] && s1.transcript == s.transcript + [m]
    requires var (row, next) := (At(d, s.state), At(d, state));
      && row.rank < next.rank && FlagsOk(d, cfg, next, s1.(state := state)) && (d.reused ==> next.common)
      && next.sends && next.pos == row.pos + 1 && row.pos < |gs| && gs[row.pos] == One(true, true, m)
    ensures Kept(d, gs, cfg, s, inbox, v, S.Go(s1, state))
  {
    SingleGroup(gs, At(d, s.state).pos, Hs(m));
    var out := S.Go(s1, state);
    InOrder(d, gs, cfg, out.s);
    AddedMoves(d, gs, s, v, m, out);
  }

  /** The end of a flight: the groups up to the place of the next state. */
  lemma {:induction false} Flushes(d: Deal, gs: seq<Group>, cfg: S.Config, s: S.Server, inbox: seq<Rec>, v: Verdict, state: S.State)
    requires Ready(d, gs, cfg, s)
    requires state.ReadClientCertificate? || state.ReadChangeCipherSpec? || state.FinishServerHandshake?
    requires var (row, next) := (At(d, s.state), At(d, state));
      && row.rank < next.rank && FlagsOk(d, cfg, next, s.(state := state)) && (d.reused ==> next.common)
      && row.pos < next.pos <= |gs| && AllFrom(gs, true, row.pos, next.pos) && |Recs(gs, row.pos, next.pos)| <= 4
    ensures var (p, p') := (At(d, s.state).pos, At(d, state).pos);
      Kept(d, gs, cfg, s, inbox, v, S.Out(s.(pending := s.pending + Recs(gs, p, p'), transcript := Hashed(gs, p'),
                                          state := state, wait := Flush), false))
  {
  }

  /** What makes a server that does not wait be in order. */
  lemma {:induction false} InOrder(d: Deal, gs: seq<Group>, cfg: S.Config, s: S.Server)
    requires |gs| == Size(d) && s.wait.Ok? && (s.pending == [] || At(d, s.state).sends)
    requires var row := At(d, s.state);
      (d.reused ==> row.common) && FlagsOk(d, cfg, row, s) && s.transcript == Hashed(gs, row.pos)
    ensures ServerOk(d, gs, cfg, s)
  {
  }

  lemma {:induction false} AddedMoves(d: Deal, gs: seq<Group>, s: S.Server, v: Verdict, m: Msg, out: S.Out)
    requires |gs| == Size(d) && s.wait.Ok? && out.s.wait.Ok? && !out.pop && out.s.pending == s.pending + [Hs(m)]
    requires var (row, next) := (At(d, s.state), At(d, out.s.state));
      && row.pos < |gs| && next.pos == row.pos + 1 && row.rank < next.rank
      && gs[row.pos] == One(true, true, m) && Recs(gs, row.pos, row.pos + 1) == [Hs(m)]
    ensures Sent(d, gs, s, out) && Advances(d, s, v, out)
  {
  }

  lemma {:induction false} TookMoves(d: Deal, gs: seq<Group>, s: S.Server, inbox: seq<Rec>, v: Verdict, out: S.Out)
    requires |gs| == Size(d) && s.wait.Ok? && out.s.wait.Ok? && out.pop && inbox != [] && out.s.pending == s.pending
    requires var (row, next) := (At(d, s.state), At(d, out.s.state));
      row.pos < |gs| && gs[row.pos].recs == [inbox[0]] && next.pos == row.pos + 1 && row.rank < next.rank
    ensures Received(d, gs, s, inbox, out) && Advances(d, s, v, out)
  {
  }

  lemma {:induction false} TookHashes(d: Deal, gs: seq<Group>, cfg: S.Config, s: S.Server, m: Msg)
    requires Ready(d, gs, cfg, s) && At(d, s.state).pos < |gs| && gs[At(d, s.state).pos].recs == [Hs(m)]
    ensures s.transcript + [m] == Hashed(gs, At(d, s.state).pos + 1)
  {
    SingleGroup(gs, At(d, s.state).pos, Hs(m));
  }

  /** `s1` is the server with what it learns from the message. */
  lemma {:induction false} Takes(d: Deal, gs: seq<Group>, cfg: S.Config, s: S.Server, s1: S.Server, inbox: seq<Rec>, v: Verdict, m: Msg, state: S.State)
    requires Ready(d, gs, cfg, s) && inbox != [] && inbox[0] == Hs(m)
    requires s1.wait.Ok? && s1.transcript == s.transcript && s1.pending == s.pending == []
    requires var (row, next) := (At(d, s.state), At(d, state));
      && row.pos < |gs| && gs[row.pos].recs == [inbox[0]] && next.pos == row.pos + 1
      && row.rank < next.rank && FlagsOk(d, cfg, next, s1.(state := state)) && (d.reused ==> next.common)
    ensures Kept(d, gs, cfg, s, inbox, v, S.Took(s1, m, state))
  {
    TookHashes(d, gs, cfg, s, m);
    var out := S.Took(s1, m, state);
    InOrder(d, gs, cfg, out.s);
    TookMoves(d, gs, s, inbox, v, out);
  }

  // ---- The steps ----

  lemma {:induction false} ClientHelloStep(d: Deal, gs: seq<Group>, cfg: S.Config, s: S.Server, inbox: seq<Rec>, v: Verdict, hi: nat)
    requires Ready(d, gs, cfg, s) && Fits(d, cfg) && !v.Refuse? && Opening(d, gs) && Expected(gs, false, 0, inbox, hi)
    requires s.state.ReadClientHello? || s.state.SelectCertificate?
    ensures Kept(d, gs, cfg, s, inbox, v, S.Do(cfg, s, inbox, v))
  {
    if inbox == [] {
      assert Upcoming(gs, false, 0, 0);
      Stays(d, gs, cfg, s, inbox, v, ReadMessage);
    } else {
      var _ := Found(gs, false, 0, inbox, hi);
      if v.Later? {
        Stays(d, gs, cfg, s, inbox, v, Paused);
      } else if s.state.ReadClientHello? {
        Goes(d, gs, cfg, s, s, inbox, v, S.SelectCertificate);
      } else {
        Goes(d, gs, cfg, s, s.(cipher := Some(cfg.cipher)), inbox, v, S.SelectParameters);
      }
    }
  }

  lemma {:induction false} ParametersStep(d: Deal, gs: seq<Group>, cfg: S.Config, s: S.Server, inbox: seq<Rec>, v: Verdict, hi: nat)
    requires Ready(d, gs, cfg, s) && Fits(d, cfg) && !v.Refuse? && Opening(d, gs) && Expected(gs, false, 0, inbox, hi)
    requires s.state.SelectParameters?
    ensures Kept(d, gs, cfg, s, inbox, v, S.DoSelectParameters(cfg, s, inbox, v))
  {
    if inbox == [] {
      assert Upcoming(gs, false, 0, 0);
      Stays(d, gs, cfg, s, inbox, v, ReadMessage);
    } else {
      var _ := Found(gs, false, 0, inbox, hi);
      if v.Later? {
        Stays(d, gs, cfg, s, inbox, v, Paused);
      } else {
        Takes(d, gs, cfg, s, s.(reused := d.reused, certRequest := d.certRequest), inbox, v, ClientHello(d.offered),
              S.SendServerHello);
      }
    }
  }

  lemma {:induction false} SendHelloStep(d: Deal, gs: seq<Group>, cfg: S.Config, s: S.Server, inbox: seq<Rec>, v: Verdict)
    requires Ready(d, gs, cfg, s) && Fits(d, cfg) && !v.Refuse? && s.state.SendServerHello?
    requires gs[1] == One(true, true, Hello(d))
    ensures Kept(d, gs, cfg, s, inbox, v, S.DoSendServerHello(cfg, s, v))
  {
    var s1 := S.Add(s.(channelId := d.channelId), Hello(d));
    if d.reused {
      assert S.DoSendServerHello(cfg, s, v) == S.Go(s1, S.SendServerFinished);
      Adds(d, gs, cfg, s, s1, inbox, v, Hello(d), S.SendServerFinished);
    } else {
      assert S.DoSendServerHello(cfg, s, v) == S.Go(s1, S.SendServerCertificate);
      Adds(d, gs, cfg, s, s1, inbox, v, Hello(d), S.SendServerCertificate);
    }
  }

  lemma {:induction false} AddIfIs(s: S.Server, condition: bool, m: Msg)
    ensures S.AddIf(s, condition, m)
         == s.(pending := s.pending + RecIf(condition, m), transcript := s.transcript + If(condition, m))
  {
    assert s.pending + [] == s.pending && s.transcript + [] == s.transcript;
  }

  /** Two groups of the server. */
  lemma {:induction false} Two(gs: seq<Group>, i: nat, a: bool, m: Msg, b: bool, n: Msg)
    requires i + 2 <= |gs| && gs[i] == One(true, a, m) && gs[i + 1] == One(true, b, n)
    ensures Recs(gs, i, i + 2) == RecIf(a, m) + RecIf(b, n) && AllFrom(gs, true, i, i + 2)
    ensures Hashed(gs, i + 2) == Hashed(gs, i) + If(a, m) + If(b, n)
  {
    AnyGroup(gs, i, true, a, m);
    AnyGroup(gs, i + 1, true, b, n);
    RecsSplit(gs, i, i + 1, i + 2);
  }

  lemma {:induction false} CertificatesAre(d: Deal, gs: seq<Group>, cfg: S.Config, s: S.Server, v: Verdict)
    requires Fits(d, cfg) && !v.Refuse? && s.cipher == Some(d.cipher) && |gs| > 3 && s.transcript == Hashed(gs, 2)
    requires gs[2] == One(true, d.cipher.certAuth, Certificate(false))
    requires gs[3] == One(true, d.cipher.certAuth && d.ocsp, CertificateStatus)
    ensures AllFrom(gs, true, 2, 4) && |Recs(gs, 2, 4)| <= 4
    ensures S.DoSendServerCertificate(cfg, s, v)
         == S.Go(s.(pending := s.pending + Recs(gs, 2, 4), transcript := Hashed(gs, 4), params := d.keyExchange),
                 S.SendServerKeyExchange)
  {
    var (a, b) := (d.cipher.certAuth, d.cipher.certAuth && d.ocsp);
    Two(gs, 2, a, Certificate(false), b, CertificateStatus);
    AddIfIs(s, a, Certificate(false));
    AddIfIs(S.AddIf(s, a, Certificate(false)), b, CertificateStatus);
    var (x, y) := (RecIf(a, Certificate(false)), RecIf(b, CertificateStatus));
    assert s.pending + x + y == s.pending + (x + y);
  }

  lemma {:induction false} SendCertificateStep(d: Deal, gs: seq<Group>, cfg: S.Config, s: S.Server, inbox: seq<Rec>, v: Verdict)
    requires Ready(d, gs, cfg, s) && Fits(d, cfg) && !v.Refuse? && s.state.SendServerCertificate?
    requires |gs| > 3 && gs[2] == One(true, d.cipher.certAuth, Certificate(false))
    requires gs[3] == One(true, d.cipher.certAuth && d.ocsp, CertificateStatus)
    ensures Kept(d, gs, cfg, s, inbox, v, S.DoSendServerCertificate(cfg, s, v))
  {
    assert s.transcript == Hashed(gs, 2) && s.cipher == Some(d.cipher);
    CertificatesAre(d, gs, cfg, s, v);
    CertificatesKept(d, gs, cfg, s, inbox, v);
  }

  lemma {:induction false} CertificatesKept(d: Deal, gs: seq<Group>, cfg: S.Config, s: S.Server, inbox: seq<Rec>, v: Verdict)
    requires Ready(d, gs, cfg, s) && s.state.SendServerCertificate?
    requires |gs| > 3 && AllFrom(gs, true, 2, 4) && |Recs(gs, 2, 4)| <= 4
    ensures Kept(d, gs, cfg, s, inbox, v,
                 S.Go(s.(pending := s.pending + Recs(gs, 2, 4), transcript := Hashed(gs, 4), params := d.keyExchange),
                      S.SendServerKeyExchange))
  {
  }

  lemma {:induction false} SendKeyExchangeStep(d: Deal, gs: seq<Group>, cfg: S.Config, s: S.Server, inbox: seq<Rec>, v: Verdict)
    requires Ready(d, gs, cfg, s) && Fits(d, cfg) && !v.Refuse? && s.state.SendServerKeyExchange?
    requires |gs| > 4 && gs[4] == One(true, d.keyExchange, ServerKeyExchange)
    ensures Kept(d, gs, cfg, s, inbox, v, S.DoSendServerKeyExchange(s, v))
  {
    if !d.keyExchange {
      Goes(d, gs, cfg, s, s, inbox, v, S.SendServerHelloDone);
    } else if v.Later? && d.cipher.certAuth {
      Stays(d, gs, cfg, s, inbox, v, Paused);
    } else {
      Adds(d, gs, cfg, s, S.Add(s, ServerKeyExchange).(params := false), inbox, v, ServerKeyExchange, S.SendServerHelloDone);
    }
  }

  lemma {:induction false} SendHelloDoneStep(d: Deal, gs: seq<Group>, cfg: S.Config, s: S.Server, inbox: seq<Rec>, v: Verdict)
    requires Ready(d, gs, cfg, s) && Fits(d, cfg) && !v.Refuse? && s.state.SendServerHelloDone?
    requires |gs| > 6 && gs[5] == One(true, d.certRequest, CertificateRequest) && gs[6] == One(true, true, ServerHelloDone)
    ensures Kept(d, gs, cfg, s, inbox, v, S.DoSendServerHelloDone(s, v))
  {
    Two(gs, 5, d.certRequest, CertificateRequest, true, ServerHelloDone);
    AddIfIs(s, d.certRequest, CertificateRequest);
    var x := RecIf(d.certRequest, CertificateRequest);
    assert s.pending + x + [Hs(ServerHelloDone)] == s.pending + (x + [Hs(ServerHelloDone)]);
    assert S.DoSendServerHelloDone(s, v)
        == S.Out(s.(pending := s.pending + Recs(gs, 5, 7), transcript := Hashed(gs, 7),
                    state := S.ReadClientCertificate, wait := Flush), false);
    Flushes(d, gs, cfg, s, inbox, v, S.ReadClientCertificate);
  }

  lemma {:induction false} ClientCertificateStep(d: Deal, gs: seq<Group>, cfg: S.Config, s: S.Server, inbox: seq<Rec>, v: Verdict, hi: nat)
    requires Ready(d, gs, cfg, s) && Fits(d, cfg) && !v.Refuse? && s.state.ReadClientCertificate?
    requires |gs| > 7 && gs[7] == One(false, d.certRequest, Certificate(!d.clientCertificate))
    requires Expected(gs, false, 7, inbox, hi)
    ensures Kept(d, gs, cfg, s, inbox, v, S.DoReadClientCertificate(cfg, s, inbox, v))
  {
    if !d.certRequest {
      Goes(d, gs, cfg, s, s, inbox, v, S.VerifyClientCertificate);
    } else if inbox == [] {
      assert Upcoming(gs, false, 7, 7);
      Stays(d, gs, cfg, s, inbox, v, ReadMessage);
    } else {
      var _ := Found(gs, false, 7, inbox, hi);
      Takes(d, gs, cfg, s, s.(peerKey := d.clientCertificate), inbox, v, Certificate(!d.clientCertificate),
            S.VerifyClientCertificate);
    }
  }

  lemma {:induction false} VerifyStep(d: Deal, gs: seq<Group>, cfg: S.Config, s: S.Server, inbox: seq<Rec>, v: Verdict)
    requires Ready(d, gs, cfg, s) && !v.Refuse? && s.state.VerifyClientCertificate?
    ensures Kept(d, gs, cfg, s, inbox, v, S.DoVerifyClientCertificate(s, v))
  {
    if s.peerKey && v.Later? {
      Stays(d, gs, cfg, s, inbox, v, Paused);
    } else {
      Goes(d, gs, cfg, s, s, inbox, v, S.ReadClientKeyExchange);
    }
  }

  lemma {:induction false} KeyExchangeStep(d: Deal, gs: seq<Group>, cfg: S.Config, s: S.Server, inbox: seq<Rec>, v: Verdict, hi: nat)
    requires Ready(d, gs, cfg, s) && !v.Refuse? && s.state.ReadClientKeyExchange?
    requires |gs| > 8 && gs[8] == One(false, true, ClientKeyExchange) && Expected(gs, false, 8, inbox, hi)
    ensures Kept(d, gs, cfg, s, inbox, v, S.DoReadClientKeyExchange(s, inbox, v))
  {
    if inbox == [] {
      assert Upcoming(gs, false, 8, 8);
      Stays(d, gs, cfg, s, inbox, v, ReadMessage);
    } else {
      var _ := Found(gs, false, 8, inbox, hi);
      if v.Later? && S.CertAuth(s) && !S.Ecdhe(s) {
        Stays(d, gs, cfg, s, inbox, v, Paused);
      } else {
        Takes(d, gs, cfg, s, s, inbox, v, ClientKeyExchange, S.ReadClientCertificateVerify);
      }
    }
  }

  lemma {:induction false} CertificateVerifyStep(d: Deal, gs: seq<Group>, cfg: S.Config, s: S.Server, inbox: seq<Rec>, v: Verdict, hi: nat)
    requires Ready(d, gs, cfg, s) && !v.Refuse? && s.state.ReadClientCertificateVerify?
    requires |gs| > 9 && gs[9] == One(false, d.certRequest && d.clientCertificate, CertificateVerify)
    requires Expected(gs, false, 9, inbox, hi)
    ensures Kept(d, gs, cfg, s, inbox, v, S.DoReadClientCertificateVerify(s, inbox, v))
  {
    if !(d.certRequest && d.clientCertificate) {
      Goes(d, gs, cfg, s, s, inbox, v, S.ReadChangeCipherSpec);
    } else if inbox == [] {
      assert Upcoming(gs, false, 9, 9);
      Stays(d, gs, cfg, s, inbox, v, ReadMessage);
    } else {
      var _ := Found(gs, false, 9, inbox, hi);
      Takes(d, gs, cfg, s, s, inbox, v, CertificateVerify, S.ReadChangeCipherSpec);
    }
  }

  lemma {:induction false} NextProtoStep(d: Deal, gs: seq<Group>, cfg: S.Config, s: S.Server, inbox: seq<Rec>, v: Verdict, hi: nat)
    requires Ready(d, gs, cfg, s) && Fits(d, cfg) && !v.Refuse? && s.state.ReadNextProto?
    requires var p := At(d, s.state).pos;
      p < |gs| && gs[p] == One(false, d.npn, NextProto) && Expected(gs, false, p, inbox, hi)
    ensures Kept(d, gs, cfg, s, inbox, v, S.DoReadNextProto(cfg, s, inbox, v))
  {
    if !d.npn {
      Goes(d, gs, cfg, s, s, inbox, v, S.ReadChannelId);
    } else if inbox == [] {
      assert Upcoming(gs, false, At(d, s.state).pos, At(d, s.state).pos);
      Stays(d, gs, cfg, s, inbox, v, ReadMessage);
    } else {
      var _ := Found(gs, false, At(d, s.state).pos, inbox, hi);
      Takes(d, gs, cfg, s, s, inbox, v, NextProto, S.ReadChannelId);
    }
  }

  lemma {:induction false} ChannelIdStep(d: Deal, gs: seq<Group>, cfg: S.Config, s: S.Server, inbox: seq<Rec>, v: Verdict, hi: nat)
    requires Ready(d, gs, cfg, s) && !v.Refuse? && s.state.ReadChannelId?
    requires var p := At(d, s.state).pos;
      p < |gs| && gs[p] == One(false, d.channelId, ChannelId) && Expected(gs, false, p, inbox, hi)
    ensures Kept(d, gs, cfg, s, inbox, v, S.DoReadChannelId(s, inbox, v))
  {
    if !d.channelId {
      Goes(d, gs, cfg, s, s, inbox, v, S.ReadClientFinished);
    } else if inbox == [] {
      assert Upcoming(gs, false, At(d, s.state).pos, At(d, s.state).pos);
      Stays(d, gs, cfg, s, inbox, v, ReadMessage);
    } else {
      var _ := Found(gs, false, At(d, s.state).pos, inbox, hi);
      Takes(d, gs, cfg, s, s, inbox, v, ChannelId, S.ReadClientFinished);
    }
  }

  lemma {:induction false} ReadFinishedStep(d: Deal, gs: seq<Group>, cfg: S.Config, s: S.Server, inbox: seq<Rec>, v: Verdict)
    requires Ready(d, gs, cfg, s) && s.state.ReadClientFinished? && Awaits(gs, false, At(d, s.state).pos)
    requires inbox != [] ==> At(d, s.state).pos < |gs| && gs[At(d, s.state).pos].recs == [inbox[0]]
    requires inbox != [] ==> inbox[0] == Hs(Finished(false, s.transcript))
    ensures Kept(d, gs, cfg, s, inbox, v, S.DoReadClientFinished(s, inbox))
  {
    if inbox == [] {
      Stays(d, gs, cfg, s, inbox, v, ReadMessage);
    } else if d.reused {
      Takes(d, gs, cfg, s, s, inbox, v, Finished(false, s.transcript), S.FinishServerHandshake);
    } else {
      Takes(d, gs, cfg, s, s, inbox, v, Finished(false, s.transcript), S.SendServerFinished);
    }
  }

  /** The flight and the transcript with the end of the server's last flight. */
  lemma {:induction false} LastFlight(d: Deal, gs: seq<Group>, cfg: S.Config, s: S.Server, i: nat, v: Verdict)
    requires ServerEnd(d, gs, i) && s.transcript == Hashed(gs, i) && cfg.ticket == d.ticket && !v.Refuse?
    ensures S.DoSendServerFinished(cfg, s, v)
         == S.Out(s.(pending := s.pending + Recs(gs, i, i + 3), transcript := Hashed(gs, i + 3),
                     state := if s.reused then S.ReadChangeCipherSpec else S.FinishServerHandshake, wait := Flush), false)
  {
    ServerEndRecs(d, gs, i);
    AddIfIs(s, cfg.ticket, NewSessionTicket);
    var (t, f) := (RecIf(d.ticket, NewSessionTicket), [Hs(Finished(true, Hashed(gs, i + 2)))]);
    assert s.pending + t + [Ccs] + f == s.pending + (t + [Ccs] + f);
  }

  /** The place and the state after the server's last flight. */
  function LastPlace(d: Deal): nat {
    if d.reused then 2 else 14
  }

  function AfterLast(d: Deal): S.State {
    if d.reused then S.ReadChangeCipherSpec else S.FinishServerHandshake
  }

  lemma {:induction false} LastFlightKept(d: Deal, gs: seq<Group>, cfg: S.Config, s: S.Server, inbox: seq<Rec>, v: Verdict)
    requires Ready(d, gs, cfg, s) && s.state.SendServerFinished?
    requires var i := LastPlace(d); AllFrom(gs, true, i, i + 3) && |Recs(gs, i, i + 3)| <= 4
    ensures var i := LastPlace(d);
      Kept(d, gs, cfg, s, inbox, v, S.Out(s.(pending := s.pending + Recs(gs, i, i + 3), transcript := Hashed(gs, i + 3),
                                          state := AfterLast(d), wait := Flush), false))
  {
    if d.reused {
      Flushes(d, gs, cfg, s, inbox, v, S.ReadChangeCipherSpec);
    } else {
      Flushes(d, gs, cfg, s, inbox, v, S.FinishServerHandshake);
    }
  }

  lemma {:induction false} SendFinishedStep(d: Deal, gs: seq<Group>, cfg: S.Config, s: S.Server, inbox: seq<Rec>, v: Verdict)
    requires Ready(d, gs, cfg, s) && !v.Refuse? && s.state.SendServerFinished? && cfg.ticket == d.ticket
    requires ServerEnd(d, gs, LastPlace(d))
    ensures Kept(d, gs, cfg, s, inbox, v, S.DoSendServerFinished(cfg, s, v))
  {
    var i := LastPlace(d);
    assert s.transcript == Hashed(gs, i) && s.reused == d.reused;
    ServerEndFrom(d, gs, i);
    ServerEndRecs(d, gs, i);
    LastFlight(d, gs, cfg, s, i, v);
    assert S.DoSendServerFinished(cfg, s, v)
        == S.Out(s.(pending := s.pending + Recs(gs, i, i + 3), transcript := Hashed(gs, i + 3),
                    state := AfterLast(d), wait := Flush), false);
    LastFlightKept(d, gs, cfg, s, inbox, v);
  }

  lemma {:induction false} CcsStep(d: Deal, gs: seq<Group>, cfg: S.Config, s: S.Server, inbox: seq<Rec>, v: Verdict)
    requires Ready(d, gs, cfg, s) && s.state.ReadChangeCipherSpec?
    requires At(d, s.state).pos < |gs| && gs[At(d, s.state).pos] == Group(false, [Ccs])
    ensures Kept(d, gs, cfg, s, inbox, v, S.Do(cfg, s, inbox, v))
  {
    assert S.Do(cfg, s, inbox, v) == S.Out(s.(state := S.ProcessChangeCipherSpec, wait := ReadCcs), false);
  }

  // ---- All steps ----

  predicate Opens(state: S.State) {
    state.ReadClientHello? || state.SelectCertificate? || state.SelectParameters? || state.SendServerHello?
  }

  lemma {:induction false} OpeningStep(d: Deal, gs: seq<Group>, cfg: S.Config, s: S.Server, inbox: seq<Rec>, v: Verdict, hi: nat)
    requires Ready(d, gs, cfg, s) && Fits(d, cfg) && !v.Refuse? && Opens(s.state) && Opening(d, gs)
    requires Expected(gs, false, At(d, s.state).pos, inbox, hi)
    ensures Kept(d, gs, cfg, s, inbox, v, S.Do(cfg, s, inbox, v))
  {
    if s.state.SelectParameters? {
      assert S.Do(cfg, s, inbox, v) == S.DoSelectParameters(cfg, s, inbox, v);
      ParametersStep(d, gs, cfg, s, inbox, v, hi);
    } else if s.state.SendServerHello? {
      assert S.Do(cfg, s, inbox, v) == S.DoSendServerHello(cfg, s, v);
      SendHelloStep(d, gs, cfg, s, inbox, v);
    } else {
      ClientHelloStep(d, gs, cfg, s, inbox, v, hi);
    }
  }

  predicate SendsFlight(state: S.State) {
    state.SendServerCertificate? || state.SendServerKeyExchange? || state.SendServerHelloDone?
  }

  lemma {:induction false} ServerFlightStep(d: Deal, gs: seq<Group>, cfg: S.Config, s: S.Server, inbox: seq<Rec>, v: Verdict)
    requires Ready(d, gs, cfg, s) && Fits(d, cfg) && !v.Refuse? && SendsFlight(s.state) && ServerPart(d, gs)
    ensures Kept(d, gs, cfg, s, inbox, v, S.Do(cfg, s, inbox, v))
  {
    if s.state.SendServerCertificate? {
      assert S.Do(cfg, s, inbox, v) == S.DoSendServerCertificate(cfg, s, v);
      SendCertificateStep(d, gs, cfg, s, inbox, v);
    } else if s.state.SendServerKeyExchange? {
      assert S.Do(cfg, s, inbox, v) == S.DoSendServerKeyExchange(s, v);
      SendKeyExchangeStep(d, gs, cfg, s, inbox, v);
    } else {
      assert S.Do(cfg, s, inbox, v) == S.DoSendServerHelloDone(s, v);
      SendHelloDoneStep(d, gs, cfg, s, inbox, v);
    }
  }

  predicate ReadsClientFlight(state: S.State) {
    state.ReadClientCertificate? || state.ReadClientKeyExchange? || state.ReadClientCertificateVerify?
  }

  lemma {:induction false} ClientFlightStep(d: Deal, gs: seq<Group>, cfg: S.Config, s: S.Server, inbox: seq<Rec>, v: Verdict, hi: nat)
    requires Ready(d, gs, cfg, s) && Fits(d, cfg) && !v.Refuse? && ReadsClientFlight(s.state) && ClientPart(d, gs)
    requires Expected(gs, false, At(d, s.state).pos, inbox, hi)
    ensures Kept(d, gs, cfg, s, inbox, v, S.Do(cfg, s, inbox, v))
  {
    if s.state.ReadClientCertificate? {
      assert S.Do(cfg, s, inbox, v) == S.DoReadClientCertificate(cfg, s, inbox, v);
      ClientCertificateStep(d, gs, cfg, s, inbox, v, hi);
    } else if s.state.ReadClientKeyExchange? {
      assert S.Do(cfg, s, inbox, v) == S.DoReadClientKeyExchange(s, inbox, v);
      KeyExchangeStep(d, gs, cfg, s, inbox, v, hi);
    } else {
      assert S.Do(cfg, s, inbox, v) == S.DoReadClientCertificateVerify(s, inbox, v);
      CertificateVerifyStep(d, gs, cfg, s, inbox, v, hi);
    }
  }

  predicate ReadsClientEnd(state: S.State) {
    state.ReadNextProto? || state.ReadChannelId? || state.ReadClientFinished?
  }

  lemma {:induction false} ClientEndStep(d: Deal, gs: seq<Group>, cfg: S.Config, s: S.Server, inbox: seq<Rec>, v: Verdict, hi: nat)
    requires Ready(d, gs, cfg, s) && Fits(d, cfg) && !v.Refuse? && ReadsClientEnd(s.state)
    requires ClientEnd(d, gs, if d.reused then 5 else 10) && Expected(gs, false, At(d, s.state).pos, inbox, hi)
    ensures Kept(d, gs, cfg, s, inbox, v, S.Do(cfg, s, inbox, v))
  {
    if s.state.ReadNextProto? {
      assert S.Do(cfg, s, inbox, v) == S.DoReadNextProto(cfg, s, inbox, v);
      NextProtoStep(d, gs, cfg, s, inbox, v, hi);
    } else if s.state.ReadChannelId? {
      assert S.Do(cfg, s, inbox, v) == S.DoReadChannelId(s, inbox, v);
      ChannelIdStep(d, gs, cfg, s, inbox, v, hi);
    } else {
      var p := At(d, s.state).pos;
      assert Upcoming(gs, false, p, p);
      if inbox != [] {
        var _ := Found(gs, false, p, inbox, hi);
      }
      assert S.Do(cfg, s, inbox, v) == S.DoReadClientFinished(s, inbox);
      ReadFinishedStep(d, gs, cfg, s, inbox, v);
    }
  }

  predicate Plain(state: S.State) {
    state.StartAccept? || state.ProcessChangeCipherSpec? || state.FinishServerHandshake?
  }

  /** Where such a state leads. */
  function AfterPlain(state: S.State): S.State {
    match state
    case StartAccept => S.ReadClientHello
    case ProcessChangeCipherSpec => S.ReadNextProto
    case _ => S.Done
  }

  lemma {:induction false} PlainDo(cfg: S.Config, s: S.Server, inbox: seq<Rec>, v: Verdict)
    requires Plain(s.state) && !v.Refuse?
    ensures S.Do(cfg, s, inbox, v) == S.Go(s, AfterPlain(s.state))
  {
  }

  lemma {:induction false} PlainStep(d: Deal, gs: seq<Group>, cfg: S.Config, s: S.Server, inbox: seq<Rec>, v: Verdict)
    requires Ready(d, gs, cfg, s) && !v.Refuse? && Plain(s.state)
    ensures Kept(d, gs, cfg, s, inbox, v, S.Do(cfg, s, inbox, v))
  {
    PlainDo(cfg, s, inbox, v);
    PlainGoes(d, gs, cfg, s, inbox, v);
  }

  lemma {:induction false} PlainGoes(d: Deal, gs: seq<Group>, cfg: S.Config, s: S.Server, inbox: seq<Rec>, v: Verdict)
    requires Ready(d, gs, cfg, s) && Plain(s.state)
    ensures Kept(d, gs, cfg, s, inbox, v, S.Go(s, AfterPlain(s.state)))
  {
    match s.state
    case StartAccept => Goes(d, gs, cfg, s, s, inbox, v, S.ReadClientHello);
    case ProcessChangeCipherSpec => Goes(d, gs, cfg, s, s, inbox, v, S.ReadNextProto);
    case FinishServerHandshake => Goes(d, gs, cfg, s, s, inbox, v, S.Done);
  }

  lemma {:induction false} SendFinishedIs(cfg: S.Config, s: S.Server, inbox: seq<Rec>, v: Verdict)
    requires s.state.SendServerFinished?
    ensures S.Do(cfg, s, inbox, v) == S.DoSendServerFinished(cfg, s, v)
  {
  }

  lemma {:induction false} SendFinishedDo(d: Deal, gs: seq<Group>, cfg: S.Config, s: S.Server, inbox: seq<Rec>, v: Verdict)
    requires Ready(d, gs, cfg, s) && Fits(d, cfg) && !v.Refuse? && s.state.SendServerFinished?
    requires ServerEnd(d, gs, LastPlace(d))
    ensures Kept(d, gs, cfg, s, inbox, v, S.Do(cfg, s, inbox, v))
  {
    SendFinishedIs(cfg, s, inbox, v);
    SendFinishedStep(d, gs, cfg, s, inbox, v);
  }

  /** Every step of the server keeps to the script. */
  lemma {:induction false} ServerStep(d: Deal, gs: seq<Group>, cfg: S.Config, s: S.Server, inbox: seq<Rec>, v: Verdict, hi: nat)
    requires IsScript(d, gs) && Fits(d, cfg) && Ready(d, gs, cfg, s) && !s.state.Done? && !v.Refuse?
    requires Expected(gs, false, At(d, s.state).pos, inbox, hi)
    ensures Kept(d, gs, cfg, s, inbox, v, S.Do(cfg, s, inbox, v))
  {
    if Opens(s.state) {
      OpeningStep(d, gs, cfg, s, inbox, v, hi);
    } else if SendsFlight(s.state) {
      ServerFlightStep(d, gs, cfg, s, inbox, v);
    } else if ReadsClientFlight(s.state) {
      ClientFlightStep(d, gs, cfg, s, inbox, v, hi);
    } else if ReadsClientEnd(s.state) {
      ClientEndStep(d, gs, cfg, s, inbox, v, hi);
    } else if s.state.SendServerFinished? {
      SendFinishedDo(d, gs, cfg, s, inbox, v);
    } else if s.state.VerifyClientCertificate? {
      assert S.Do(cfg, s, inbox, v) == S.DoVerifyClientCertificate(s, v);
      VerifyStep(d, gs, cfg, s, inbox, v);
    } else if s.state.ReadChangeCipherSpec? {
      CcsStep(d, gs, cfg, s, inbox, v);
    } else {
      PlainStep(d, gs, cfg, s, inbox, v);
    }
  }
}
