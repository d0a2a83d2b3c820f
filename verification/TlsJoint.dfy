/** A client and a server connected by two FIFO channels. */
module TlsJoint {
  import opened Basics
  import opened TlsMessages
  import opened TlsScript
  import C = TlsClient
  import S = TlsServer
  import CS = TlsClientSide
  import SS = TlsServerSide

  /** `patience` bounds how often an operation may still be put off. */
  datatype Sys = Sys(c: C.Client, s: S.Server, toClient: seq<Rec>, toServer: seq<Rec>, patience: nat)

  function Initial(scfg: S.Config, patience: nat): Sys {
    Sys(C.INITIAL, S.Initial(scfg), [], [], patience)
  }

  /** The system after a state of the client has run. */
  function AfterClient(sys: Sys, out: C.Out, patience: nat): Sys {
    sys.(c := out.c, patience := patience,
         toClient := if out.pop && sys.toClient != [] then sys.toClient[1..] else sys.toClient)
  }

  function AfterServer(sys: Sys, out: S.Out, patience: nat): Sys {
    sys.(s := out.s, patience := patience,
         toServer := if out.pop && sys.toServer != [] then sys.toServer[1..] else sys.toServer)
  }

  /** One turn of `ssl_run_handshake` at the client: it resolves what the handshake waits for, or runs a state. The
      flight leaves record by record. Nothing can happen while it waits for a record, or when it is done. */
  function ClientMove(cfg: C.Config, sys: Sys, v: Verdict): Option<Sys> {
    var c := sys.c;
    match c.wait
    case Failed => None
    case Flush =>
      if c.pending == [] then Some(sys.(c := c.(wait := Ok)))
      else Some(sys.(c := c.(pending := c.pending[1..]), toServer := sys.toServer + [c.pending[0]]))
    case ReadMessage =>
      if sys.toClient == [] then None
      else Some(sys.(c := c.(wait := if sys.toClient[0].Hs? then Ok else Failed)))
    case ReadCcs =>
      if sys.toClient == [] then None
      else if sys.toClient[0].Ccs? then Some(sys.(c := c.(wait := Ok), toClient := sys.toClient[1..]))
      else Some(sys.(c := c.(wait := Failed)))
    case Paused => Some(sys.(c := c.(wait := Ok)))
    case Ok =>
      if c.state.Done? || (v.Later? && sys.patience == 0) then None
      else
        Some(AfterClient(sys, C.Do(cfg, c, sys.toClient, v), if v.Later? then sys.patience - 1 else sys.patience))
  }

  /** The same at the server. */
  function ServerMove(cfg: S.Config, sys: Sys, v: Verdict): Option<Sys> {
    var s := sys.s;
    match s.wait
    case Failed => None
    case Flush =>
      if s.pending == [] then Some(sys.(s := s.(wait := Ok)))
      else Some(sys.(s := s.(pending := s.pending[1..]), toClient := sys.toClient + [s.pending[0]]))
    case ReadMessage =>
      if sys.toServer == [] then None
      else Some(sys.(s := s.(wait := if sys.toServer[0].Hs? then Ok else Failed)))
    case ReadCcs =>
      if sys.toServer == [] then None
      else if sys.toServer[0].Ccs? then Some(sys.(s := s.(wait := Ok), toServer := sys.toServer[1..]))
      else Some(sys.(s := s.(wait := Failed)))
    case Paused => Some(sys.(s := s.(wait := Ok)))
    case Ok =>
      if s.state.Done? || (v.Later? && sys.patience == 0) then None
      else
        Some(AfterServer(sys, S.Do(cfg, s, sys.toServer, v), if v.Later? then sys.patience - 1 else sys.patience))
  }

  // ---- What is under way ----

  /** The side that is ahead has sent what lies between the two, and nothing else is under way. */
  predicate InFlight(gs: seq<Group>, p: nat, q: nat, toClient: seq<Rec>, toServer: seq<Rec>) {
    && p <= |gs| && q <= |gs|
    && if p <= q then toClient == Recs(gs, p, q) && toServer == [] && AllFrom(gs, true, p, q)
       else toServer == Recs(gs, q, p) && toClient == [] && AllFrom(gs, false, q, p)
  }

  lemma {:induction false} BothEmpty(gs: seq<Group>, lo: nat, hi: nat)
    requires hi <= |gs| && AllFrom(gs, true, lo, hi) && AllFrom(gs, false, lo, hi)
    ensures Recs(gs, lo, hi) == []
  {
    NothingMeansEmpty(gs, lo, hi);
  }

  lemma {:induction false} ClientSends(gs: seq<Group>, p: nat, p': nat, q: nat, toClient: seq<Rec>, toServer: seq<Rec>)
    requires InFlight(gs, p, q, toClient, toServer) && p <= p' <= |gs| && AllFrom(gs, false, p, p')
    ensures InFlight(gs, p', q, toClient, toServer + Recs(gs, p, p'))
  {
    if p > q {
      RecsSplit(gs, q, p, p');
    } else if p' <= q {
      BothEmpty(gs, p, p');
      RecsSplit(gs, p, p', q);
      assert toServer + [] == toServer;
    } else {
      BothEmpty(gs, p, q);
      RecsSplit(gs, p, q, p');
    }
  }

  lemma {:induction false} ServerSends(gs: seq<Group>, p: nat, q: nat, q': nat, toClient: seq<Rec>, toServer: seq<Rec>)
    requires InFlight(gs, p, q, toClient, toServer) && q <= q' <= |gs| && AllFrom(gs, true, q, q')
    ensures InFlight(gs, p, q', toClient + Recs(gs, q, q'), toServer)
  {
    if p <= q {
      RecsSplit(gs, p, q, q');
    } else if q' < p {
      BothEmpty(gs, q, q');
      RecsSplit(gs, q, q', p);
      assert toClient + [] == toClient;
    } else {
      BothEmpty(gs, q, p);
      RecsSplit(gs, q, p, q');
    }
  }

  lemma {:induction false} ClientTakes(gs: seq<Group>, p: nat, q: nat, toClient: seq<Rec>, toServer: seq<Rec>, r: Rec)
    requires InFlight(gs, p, q, toClient, toServer) && toClient != [] && p < |gs| && gs[p].recs == [r]
    ensures toClient[0] == r && InFlight(gs, p + 1, q, toClient[1..], toServer)
  {
    assert p < q;
    assert Recs(gs, p, q) == [r] + Recs(gs, p + 1, q);
  }

  lemma {:induction false} ServerTakes(gs: seq<Group>, p: nat, q: nat, toClient: seq<Rec>, toServer: seq<Rec>, r: Rec)
    requires InFlight(gs, p, q, toClient, toServer) && toServer != [] && q < |gs| && gs[q].recs == [r]
    ensures toServer[0] == r && InFlight(gs, p, q + 1, toClient, toServer[1..])
  {
    assert q < p;
    assert Recs(gs, q, p) == [r] + Recs(gs, q + 1, p);
  }

  // ---- The invariant ----

  predicate Inv(d: Deal, gs: seq<Group>, scfg: S.Config, sys: Sys) {
    && |gs| == Size(d)
    && CS.ClientOk(d, gs, sys.c) && SS.ServerOk(d, gs, scfg, sys.s)
    && InFlight(gs, CS.Pos(d, sys.c), SS.Pos(d, sys.s), sys.toClient + sys.s.pending, sys.toServer + sys.c.pending)
  }

  /** The configurations go with the deal and its script. */
  predicate Setting(d: Deal, gs: seq<Group>, ccfg: C.Config, scfg: S.Config) {
    IsScript(d, gs) && CS.Fits(d, ccfg) && SS.Fits(d, scfg)
  }

  lemma {:induction false} ClientExpects(d: Deal, gs: seq<Group>, scfg: S.Config, sys: Sys)
    requires Inv(d, gs, scfg, sys)
    ensures Expected(gs, true, CS.Pos(d, sys.c), sys.toClient, SS.Pos(d, sys.s))
  {
    assert sys.toClient <= sys.toClient + sys.s.pending;
  }

  lemma {:induction false} ServerExpects(d: Deal, gs: seq<Group>, scfg: S.Config, sys: Sys)
    requires Inv(d, gs, scfg, sys)
    ensures Expected(gs, false, SS.Pos(d, sys.s), sys.toServer, CS.Pos(d, sys.c))
  {
    assert sys.toServer <= sys.toServer + sys.c.pending;
  }

  /** One side goes from `p` to `p'` by taking the record at the head of its channel. */
  predicate Popped(gs: seq<Group>, p: nat, p': nat, channel: seq<Rec>) {
    channel != [] && p < |gs| && gs[p].recs == [channel[0]] && p' == p + 1
  }

  /** One side goes from `p` to `p'` by adding what lies between to its flight. */
  predicate Pushed(gs: seq<Group>, server: bool, p: nat, p': nat, mine: seq<Rec>, mine': seq<Rec>) {
    && p <= p' <= |gs|
    && if p == p' then mine' == mine else mine' == mine + Recs(gs, p, p') && AllFrom(gs, server, p, p')
  }

  lemma {:induction false} ClientPops(gs: seq<Group>, p: nat, p': nat, q: nat, channel: seq<Rec>, theirs: seq<Rec>, toServer: seq<Rec>)
    requires InFlight(gs, p, q, channel + theirs, toServer) && Popped(gs, p, p', channel)
    ensures InFlight(gs, p', q, channel[1..] + theirs, toServer)
  {
    ClientTakes(gs, p, q, channel + theirs, toServer, channel[0]);
    assert (channel + theirs)[1..] == channel[1..] + theirs;
  }

  lemma {:induction false} ServerPops(gs: seq<Group>, p: nat, q: nat, q': nat, toClient: seq<Rec>, channel: seq<Rec>, theirs: seq<Rec>)
    requires InFlight(gs, p, q, toClient, channel + theirs) && Popped(gs, q, q', channel)
    ensures InFlight(gs, p, q', toClient, channel[1..] + theirs)
  {
    ServerTakes(gs, p, q, toClient, channel + theirs, channel[0]);
    assert (channel + theirs)[1..] == channel[1..] + theirs;
  }

  lemma {:induction false} ClientPushes(gs: seq<Group>, p: nat, p': nat, q: nat, toClient: seq<Rec>, channel: seq<Rec>, mine: seq<Rec>, mine': seq<Rec>)
    requires InFlight(gs, p, q, toClient, channel + mine) && Pushed(gs, false, p, p', mine, mine')
    ensures InFlight(gs, p', q, toClient, channel + mine')
  {
    if p != p' {
      ClientSends(gs, p, p', q, toClient, channel + mine);
      assert channel + mine' == channel + mine + Recs(gs, p, p');
    }
  }

  lemma {:induction false} ServerPushes(gs: seq<Group>, p: nat, q: nat, q': nat, channel: seq<Rec>, mine: seq<Rec>, mine': seq<Rec>, toServer: seq<Rec>)
    requires InFlight(gs, p, q, channel + mine, toServer) && Pushed(gs, true, q, q', mine, mine')
    ensures InFlight(gs, p, q', channel + mine', toServer)
  {
    if q != q' {
      ServerSends(gs, p, q, q', channel + mine, toServer);
      assert channel + mine' == channel + mine + Recs(gs, q, q');
    }
  }

  lemma {:induction false} ClientOutcome(d: Deal, gs: seq<Group>, scfg: S.Config, sys: Sys, v: Verdict, out: C.Out, patience: nat)
    requires Inv(d, gs, scfg, sys) && CS.Kept(d, gs, sys.c, sys.toClient, v, out)
    ensures Inv(d, gs, scfg, AfterClient(sys, out, patience))
  {
    var (p, p', q) := (CS.Pos(d, sys.c), CS.Pos(d, out.c), SS.Pos(d, sys.s));
    if out.pop {
      ClientPops(gs, p, p', q, sys.toClient, sys.s.pending, sys.toServer + sys.c.pending);
    } else {
      ClientPushes(gs, p, p', q, sys.toClient + sys.s.pending, sys.toServer, sys.c.pending, out.c.pending);
    }
  }

  lemma {:induction false} ServerOutcome(d: Deal, gs: seq<Group>, scfg: S.Config, sys: Sys, v: Verdict, out: S.Out, patience: nat)
    requires Inv(d, gs, scfg, sys) && SS.Kept(d, gs, scfg, sys.s, sys.toServer, v, out)
    ensures Inv(d, gs, scfg, AfterServer(sys, out, patience))
  {
    var (p, q, q') := (CS.Pos(d, sys.c), SS.Pos(d, sys.s), SS.Pos(d, out.s));
    if out.pop {
      ServerPops(gs, p, q, q', sys.toClient + sys.s.pending, sys.toServer, sys.c.pending);
    } else {
      ServerPushes(gs, p, q, q', sys.toClient, sys.s.pending, out.s.pending, sys.toServer + sys.c.pending);
    }
  }

  /** A state of the client runs. */
  lemma {:induction false} ClientRuns(d: Deal, gs: seq<Group>, ccfg: C.Config, scfg: S.Config, sys: Sys, v: Verdict, patience: nat)
    requires Setting(d, gs, ccfg, scfg) && Inv(d, gs, scfg, sys) && !v.Refuse?
    requires sys.c.wait.Ok? && !sys.c.state.Done?
    ensures var out := C.Do(ccfg, sys.c, sys.toClient, v);
      && Inv(d, gs, scfg, AfterClient(sys, out, patience))
      && (out.c.wait.ReadMessage? ==> sys.toClient == []) && CS.Advances(d, sys.c, v, out)
  {
    ClientExpects(d, gs, scfg, sys);
    CS.ClientStep(d, gs, ccfg, sys.c, sys.toClient, v, SS.Pos(d, sys.s));
    ClientOutcome(d, gs, scfg, sys, v, C.Do(ccfg, sys.c, sys.toClient, v), patience);
  }

  lemma {:induction false} ServerRuns(d: Deal, gs: seq<Group>, ccfg: C.Config, scfg: S.Config, sys: Sys, v: Verdict, patience: nat)
    requires Setting(d, gs, ccfg, scfg) && Inv(d, gs, scfg, sys) && !v.Refuse?
    requires sys.s.wait.Ok? && !sys.s.state.Done?
    ensures var out := S.Do(scfg, sys.s, sys.toServer, v);
      && Inv(d, gs, scfg, AfterServer(sys, out, patience))
      && (out.s.wait.ReadMessage? ==> sys.toServer == []) && SS.Advances(d, sys.s, v, out)
  {
    ServerExpects(d, gs, scfg, sys);
    SS.ServerStep(d, gs, scfg, sys.s, sys.toServer, v, CS.Pos(d, sys.c));
    ServerOutcome(d, gs, scfg, sys, v, S.Do(scfg, sys.s, sys.toServer, v), patience);
  }

  // ---- Waiting ----

  /** What comes when a message is awaited is a message. */
  lemma {:induction false} MessageComes(gs: seq<Group>, server: bool, p: nat, inbox: seq<Rec>, hi: nat)
    requires Awaits(gs, server, p) && Expected(gs, server, p, inbox, hi) && inbox != []
    ensures inbox[0].Hs?
  {
    var n: nat :| n < |gs| && Upcoming(gs, server, p, n);
    var m := Found(gs, server, p, inbox, hi);
    assert m <= n;
  }

  /** The client stops waiting, in place. */
  lemma {:induction false} ClientWakes(d: Deal, gs: seq<Group>, scfg: S.Config, sys: Sys)
    requires Inv(d, gs, scfg, sys)
    requires sys.c.wait.Paused? || sys.c.wait.ReadMessage? || (sys.c.wait.Flush? && sys.c.pending == [])
    ensures Inv(d, gs, scfg, sys.(c := sys.c.(wait := Ok)))
  {
    var c' := sys.c.(wait := Ok);
    assert CS.ClientOk(d, gs, c') && CS.Pos(d, c') == CS.Pos(d, sys.c);
  }

  lemma {:induction false} ServerWakes(d: Deal, gs: seq<Group>, scfg: S.Config, sys: Sys)
    requires Inv(d, gs, scfg, sys)
    requires sys.s.wait.Paused? || sys.s.wait.ReadMessage? || (sys.s.wait.Flush? && sys.s.pending == [])
    ensures Inv(d, gs, scfg, sys.(s := sys.s.(wait := Ok)))
  {
    var s' := sys.s.(wait := Ok);
    assert SS.ServerOk(d, gs, scfg, s') && SS.Pos(d, s') == SS.Pos(d, sys.s);
  }

  /** A record of the client's flight leaves. */
  lemma {:induction false} ClientFlushes(d: Deal, gs: seq<Group>, scfg: S.Config, sys: Sys)
    requires Inv(d, gs, scfg, sys) && sys.c.wait.Flush? && sys.c.pending != []
    ensures Inv(d, gs, scfg, sys.(c := sys.c.(pending := sys.c.pending[1..]), toServer := sys.toServer + [sys.c.pending[0]]))
  {
    var c' := sys.c.(pending := sys.c.pending[1..]);
    assert CS.ClientOk(d, gs, c') && CS.Pos(d, c') == CS.Pos(d, sys.c);
    assert sys.toServer + [sys.c.pending[0]] + sys.c.pending[1..] == sys.toServer + sys.c.pending;
  }

  lemma {:induction false} ServerFlushes(d: Deal, gs: seq<Group>, scfg: S.Config, sys: Sys)
    requires Inv(d, gs, scfg, sys) && sys.s.wait.Flush? && sys.s.pending != []
    ensures Inv(d, gs, scfg, sys.(s := sys.s.(pending := sys.s.pending[1..]), toClient := sys.toClient + [sys.s.pending[0]]))
  {
    var s' := sys.s.(pending := sys.s.pending[1..]);
    assert SS.ServerOk(d, gs, scfg, s') && SS.Pos(d, s') == SS.Pos(d, sys.s);
    assert sys.toClient + [sys.s.pending[0]] + sys.s.pending[1..] == sys.toClient + sys.s.pending;
  }

  /** The client's ChangeCipherSpec comes. */
  lemma {:induction false} ClientCcs(d: Deal, gs: seq<Group>, scfg: S.Config, sys: Sys)
    requires Inv(d, gs, scfg, sys) && sys.c.wait.ReadCcs? && sys.toClient != []
    ensures sys.toClient[0] == Ccs
    ensures Inv(d, gs, scfg, sys.(c := sys.c.(wait := Ok), toClient := sys.toClient[1..]))
  {
    var (p, q) := (CS.Pos(d, sys.c), SS.Pos(d, sys.s));
    ClientExpects(d, gs, scfg, sys);
    var _ := Found(gs, true, p, sys.toClient, q);
    var c' := sys.c.(wait := Ok);
    assert CS.Pos(d, c') == p + 1;
    CcsGroup(gs, p);
    assert CS.ClientOk(d, gs, c');
    ClientPops(gs, p, p + 1, q, sys.toClient, sys.s.pending, sys.toServer + sys.c.pending);
  }

  lemma {:induction false} ServerCcs(d: Deal, gs: seq<Group>, scfg: S.Config, sys: Sys)
    requires Inv(d, gs, scfg, sys) && sys.s.wait.ReadCcs? && sys.toServer != []
    ensures sys.toServer[0] == Ccs
    ensures Inv(d, gs, scfg, sys.(s := sys.s.(wait := Ok), toServer := sys.toServer[1..]))
  {
    var (p, q) := (CS.Pos(d, sys.c), SS.Pos(d, sys.s));
    ServerExpects(d, gs, scfg, sys);
    var _ := Found(gs, false, q, sys.toServer, p);
    var s' := sys.s.(wait := Ok);
    assert SS.Pos(d, s') == q + 1;
    CcsGroup(gs, q);
    assert SS.ServerOk(d, gs, scfg, s');
    ServerPops(gs, p, q, q + 1, sys.toClient + sys.s.pending, sys.toServer, sys.c.pending);
  }

  /** Every move of the client keeps the invariant; in particular no check fails. */
  lemma {:induction false} ClientMoveKeeps(d: Deal, gs: seq<Group>, ccfg: C.Config, scfg: S.Config, sys: Sys, v: Verdict)
    requires Setting(d, gs, ccfg, scfg) && Inv(d, gs, scfg, sys) && !v.Refuse? && ClientMove(ccfg, sys, v).Some?
    ensures Inv(d, gs, scfg, ClientMove(ccfg, sys, v).value)
  {
    match sys.c.wait
    case Ok => ClientRuns(d, gs, ccfg, scfg, sys, v, if v.Later? then sys.patience - 1 else sys.patience);
    case Flush =>
      if sys.c.pending == [] {
        ClientWakes(d, gs, scfg, sys);
      } else {
        ClientFlushes(d, gs, scfg, sys);
      }
    case ReadMessage =>
      ClientExpects(d, gs, scfg, sys);
      MessageComes(gs, true, CS.Pos(d, sys.c), sys.toClient, SS.Pos(d, sys.s));
      ClientWakes(d, gs, scfg, sys);
    case ReadCcs => ClientCcs(d, gs, scfg, sys);
    case Paused => ClientWakes(d, gs, scfg, sys);
  }

  lemma {:induction false} ServerMoveKeeps(d: Deal, gs: seq<Group>, ccfg: C.Config, scfg: S.Config, sys: Sys, v: Verdict)
    requires Setting(d, gs, ccfg, scfg) && Inv(d, gs, scfg, sys) && !v.Refuse? && ServerMove(scfg, sys, v).Some?
    ensures Inv(d, gs, scfg, ServerMove(scfg, sys, v).value)
  {
    match sys.s.wait
    case Ok => ServerRuns(d, gs, ccfg, scfg, sys, v, if v.Later? then sys.patience - 1 else sys.patience);
    case Flush =>
      if sys.s.pending == [] {
        ServerWakes(d, gs, scfg, sys);
      } else {
        ServerFlushes(d, gs, scfg, sys);
      }
    case ReadMessage =>
      ServerExpects(d, gs, scfg, sys);
      MessageComes(gs, false, SS.Pos(d, sys.s), sys.toServer, CS.Pos(d, sys.c));
      ServerWakes(d, gs, scfg, sys);
    case ReadCcs => ServerCcs(d, gs, scfg, sys);
    case Paused => ServerWakes(d, gs, scfg, sys);
  }

  // ---- No deadlock ----

  /** One side waits for the other at `p`. */
  predicate Blocked(gs: seq<Group>, server: bool, p: nat, n: nat) {
    && p <= n < |gs| && gs[n].recs != []
    && forall i: nat | p <= i <= n :: gs[i].recs == [] || gs[i].fromServer == server
  }

  lemma {:induction false} NotBothBlocked(gs: seq<Group>, p: nat, q: nat, m: nat, n: nat)
    requires InFlight(gs, p, q, [], []) && Blocked(gs, true, p, m)
    ensures !Blocked(gs, false, q, n)
  {
    NothingMeansEmpty(gs, p, q);
    NothingMeansEmpty(gs, q, p);
  }

  lemma {:induction false} WhatIsAwaited(gs: seq<Group>, server: bool, wait: Wait, p: nat) returns (n: nat)
    requires wait.ReadMessage? || wait.ReadCcs?
    requires wait.ReadMessage? ==> Awaits(gs, server, p)
    requires wait.ReadCcs? ==> p < |gs| && gs[p] == Group(server, [Ccs])
    ensures Blocked(gs, server, p, n)
  {
    if wait.ReadCcs? {
      n := p;
    } else {
      n :| n < |gs| && Upcoming(gs, server, p, n);
    }
  }

  lemma {:induction false} ClientBlocked(d: Deal, gs: seq<Group>, scfg: S.Config, sys: Sys) returns (n: nat)
    requires Inv(d, gs, scfg, sys) && (sys.c.wait.ReadMessage? || sys.c.wait.ReadCcs?)
    ensures sys.c.pending == [] && Blocked(gs, true, CS.Pos(d, sys.c), n)
  {
    n := WhatIsAwaited(gs, true, sys.c.wait, CS.Pos(d, sys.c));
  }

  lemma {:induction false} ServerBlocked(d: Deal, gs: seq<Group>, scfg: S.Config, sys: Sys) returns (n: nat)
    requires Inv(d, gs, scfg, sys) && (sys.s.wait.ReadMessage? || sys.s.wait.ReadCcs?)
    ensures sys.s.pending == [] && Blocked(gs, false, SS.Pos(d, sys.s), n)
  {
    n := WhatIsAwaited(gs, false, sys.s.wait, SS.Pos(d, sys.s));
  }

  /** When one side is through, everything it sent has arrived or is on its way. */
  lemma {:induction false} NotBlockedByDone(gs: seq<Group>, p: nat, q: nat, server: bool, n: nat, toClient: seq<Rec>, toServer: seq<Rec>)
    requires InFlight(gs, p, q, toClient, toServer)
    requires if server then q == |gs| && toClient == [] else p == |gs| && toServer == []
    ensures !Blocked(gs, server, if server then p else q, n)
  {
    NothingMeansEmpty(gs, p, q);
    NothingMeansEmpty(gs, q, p);
  }

  predicate ClientStopped(sys: Sys) {
    || (sys.c.wait.Ok? && sys.c.state.Done?)
    || ((sys.c.wait.ReadMessage? || sys.c.wait.ReadCcs?) && sys.toClient == [])
  }

  predicate ServerStopped(sys: Sys) {
    || (sys.s.wait.Ok? && sys.s.state.Done?)
    || ((sys.s.wait.ReadMessage? || sys.s.wait.ReadCcs?) && sys.toServer == [])
  }

  lemma {:induction false} DoneClient(d: Deal, gs: seq<Group>, c: C.Client)
    requires |gs| == Size(d) && CS.ClientOk(d, gs, c) && c.wait.Ok? && c.state.Done?
    ensures c.pending == [] && CS.Pos(d, c) == |gs|
  {
  }

  lemma {:induction false} DoneServer(d: Deal, gs: seq<Group>, scfg: S.Config, s: S.Server)
    requires |gs| == Size(d) && SS.ServerOk(d, gs, scfg, s) && s.wait.Ok? && s.state.Done?
    ensures s.pending == [] && SS.Pos(d, s) == |gs|
  {
  }

  lemma {:induction false} StoppedMeansDone(d: Deal, gs: seq<Group>, scfg: S.Config, sys: Sys)
    requires Inv(d, gs, scfg, sys) && ClientStopped(sys) && ServerStopped(sys)
    ensures sys.c.state.Done? && sys.s.state.Done?
  {
    var (p, q) := (CS.Pos(d, sys.c), SS.Pos(d, sys.s));
    var (toClient, toServer) := (sys.toClient + sys.s.pending, sys.toServer + sys.c.pending);
    if sys.c.wait.Ok? {
      DoneClient(d, gs, sys.c);
      if !sys.s.wait.Ok? {
        var n := ServerBlocked(d, gs, scfg, sys);
        NotBlockedByDone(gs, p, q, false, n, toClient, toServer);
      }
    } else {
      var m := ClientBlocked(d, gs, scfg, sys);
      if sys.s.wait.Ok? {
        DoneServer(d, gs, scfg, sys.s);
        NotBlockedByDone(gs, p, q, true, m, toClient, toServer);
      } else {
        var n := ServerBlocked(d, gs, scfg, sys);
        NotBothBlocked(gs, p, q, m, n);
      }
    }
  }

  /** No deadlock: while one side is not done, one side can move. */
  lemma {:induction false} Progress(d: Deal, gs: seq<Group>, ccfg: C.Config, scfg: S.Config, sys: Sys)
    requires Inv(d, gs, scfg, sys)
    ensures ClientMove(ccfg, sys, Pass).Some? || ServerMove(scfg, sys, Pass).Some? || (sys.c.state.Done? && sys.s.state.Done?)
  {
    if ClientMove(ccfg, sys, Pass).None? && ServerMove(scfg, sys, Pass).None? {
      assert ClientStopped(sys) && ServerStopped(sys);
      StoppedMeansDone(d, gs, scfg, sys);
    }
  }
}
