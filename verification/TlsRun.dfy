/** Whole runs of a client and a server: they end, and they end in agreement. */
module TlsRun {
  import opened Basics
  import opened TlsMessages
  import opened TlsScript
  import opened TlsJoint
  import C = TlsClient
  import S = TlsServer
  import CS = TlsClientSide
  import SS = TlsServerSide

  // ---- Every move brings the end nearer ----

  function Weight(wait: Wait, inbox: seq<Rec>): nat {
    match wait
    case Ok => if inbox == [] then 3 else 1
    case ReadMessage => 2
    case Failed => 0
    case _ => 4
  }

  function ClientMeasure(d: Deal, c: C.Client, inbox: seq<Rec>): nat {
    20 * (19 - CS.At(d, c.state).rank) + Weight(c.wait, inbox) + |c.pending|
  }

  function ServerMeasure(d: Deal, s: S.Server, inbox: seq<Rec>): nat {
    20 * (19 - SS.At(d, s.state).rank) + Weight(s.wait, inbox) + |s.pending|
  }

  function Measure(d: Deal, sys: Sys): nat {
    ClientMeasure(d, sys.c, sys.toClient) + ServerMeasure(d, sys.s, sys.toServer) + 10 * sys.patience
  }

  /** A state has run; a verdict of `Later` has cost some patience. */
  lemma {:induction false} ClientRunDecreases(d: Deal, c: C.Client, inbox: seq<Rec>, v: Verdict, out: C.Out, inbox': seq<Rec>)
    requires c.wait.Ok? && CS.Advances(d, c, v, out)
    requires out.c.state == c.state ==> inbox' == inbox
    requires out.c.wait.ReadMessage? ==> inbox == []
    ensures ClientMeasure(d, out.c, inbox') < ClientMeasure(d, c, inbox) + if v.Later? then 10 else 0
  {
  }

  lemma {:induction false} ServerRunDecreases(d: Deal, s: S.Server, inbox: seq<Rec>, v: Verdict, out: S.Out, inbox': seq<Rec>)
    requires s.wait.Ok? && SS.Advances(d, s, v, out)
    requires out.s.state == s.state ==> inbox' == inbox
    requires out.s.wait.ReadMessage? ==> inbox == []
    ensures ServerMeasure(d, out.s, inbox') < ServerMeasure(d, s, inbox) + if v.Later? then 10 else 0
  {
  }

  /** Waiting ends. */
  lemma {:induction false} ClientMoveDecreases(d: Deal, gs: seq<Group>, ccfg: C.Config, scfg: S.Config, sys: Sys, v: Verdict)
    requires Setting(d, gs, ccfg, scfg) && Inv(d, gs, scfg, sys) && !v.Refuse? && ClientMove(ccfg, sys, v).Some?
    ensures Measure(d, ClientMove(ccfg, sys, v).value) < Measure(d, sys)
  {
    if sys.c.wait.Ok? {
      var patience: nat := if v.Later? then sys.patience - 1 else sys.patience;
      ClientRuns(d, gs, ccfg, scfg, sys, v, patience);
      var out := C.Do(ccfg, sys.c, sys.toClient, v);
      ClientRunDecreases(d, sys.c, sys.toClient, v, out, AfterClient(sys, out, patience).toClient);
    } else {
      ClientResolves(d, ccfg, sys, v);
    }
  }

  lemma {:induction false} ClientFlushDecreases(d: Deal, sys: Sys)
    requires sys.c.wait.Flush? && sys.c.pending != []
    ensures Measure(d, sys.(c := sys.c.(pending := sys.c.pending[1..]), toServer := sys.toServer + [sys.c.pending[0]]))
          < Measure(d, sys)
  {
    WeightWithMore(sys.s.wait, sys.toServer, sys.c.pending[0]);
  }

  lemma {:induction false} ClientWakeDecreases(d: Deal, sys: Sys, wait: Wait, inbox: seq<Rec>)
    requires Weight(wait, inbox) < Weight(sys.c.wait, sys.toClient)
    ensures Measure(d, sys.(c := sys.c.(wait := wait), toClient := inbox)) < Measure(d, sys)
  {
  }

  lemma {:induction false} ClientResolves(d: Deal, ccfg: C.Config, sys: Sys, v: Verdict)
    requires !sys.c.wait.Ok? && ClientMove(ccfg, sys, v).Some?
    ensures Measure(d, ClientMove(ccfg, sys, v).value) < Measure(d, sys)
  {
    if sys.c.wait.Flush? && sys.c.pending != [] {
      ClientFlushDecreases(d, sys);
    } else {
      var w := if sys.c.wait.ReadMessage? && sys.toClient[0].Ccs? then Failed
        else if sys.c.wait.ReadCcs? && sys.toClient[0].Hs? then Failed else Ok;
      var inbox := if sys.c.wait.ReadCcs? && w.Ok? then sys.toClient[1..] else sys.toClient;
      assert ClientMove(ccfg, sys, v).value == sys.(c := sys.c.(wait := w), toClient := inbox);
      ClientWakeDecreases(d, sys, w, inbox);
    }
  }

  lemma {:induction false} WeightWithMore(wait: Wait, inbox: seq<Rec>, r: Rec)
    ensures Weight(wait, inbox + [r]) <= Weight(wait, inbox)
  {
  }

  lemma {:induction false} ServerMoveDecreases(d: Deal, gs: seq<Group>, ccfg: C.Config, scfg: S.Config, sys: Sys, v: Verdict)
    requires Setting(d, gs, ccfg, scfg) && Inv(d, gs, scfg, sys) && !v.Refuse? && ServerMove(scfg, sys, v).Some?
    ensures Measure(d, ServerMove(scfg, sys, v).value) < Measure(d, sys)
  {
    if sys.s.wait.Ok? {
      var patience: nat := if v.Later? then sys.patience - 1 else sys.patience;
      ServerRuns(d, gs, ccfg, scfg, sys, v, patience);
      var out := S.Do(scfg, sys.s, sys.toServer, v);
      ServerRunDecreases(d, sys.s, sys.toServer, v, out, AfterServer(sys, out, patience).toServer);
    } else {
      ServerResolves(d, scfg, sys, v);
    }
  }

  lemma {:induction false} ServerFlushDecreases(d: Deal, sys: Sys)
    requires sys.s.wait.Flush? && sys.s.pending != []
    ensures Measure(d, sys.(s := sys.s.(pending := sys.s.pending[1..]), toClient := sys.toClient + [sys.s.pending[0]]))
          < Measure(d, sys)
  {
    WeightWithMore(sys.c.wait, sys.toClient, sys.s.pending[0]);
  }

  lemma {:induction false} ServerWakeDecreases(d: Deal, sys: Sys, wait: Wait, inbox: seq<Rec>)
    requires Weight(wait, inbox) < Weight(sys.s.wait, sys.toServer)
    ensures Measure(d, sys.(s := sys.s.(wait := wait), toServer := inbox)) < Measure(d, sys)
  {
  }

  lemma {:induction false} ServerResolves(d: Deal, scfg: S.Config, sys: Sys, v: Verdict)
    requires !sys.s.wait.Ok? && ServerMove(scfg, sys, v).Some?
    ensures Measure(d, ServerMove(scfg, sys, v).value) < Measure(d, sys)
  {
    if sys.s.wait.Flush? && sys.s.pending != [] {
      ServerFlushDecreases(d, sys);
    } else {
      var w := if sys.s.wait.ReadMessage? && sys.toServer[0].Ccs? then Failed
        else if sys.s.wait.ReadCcs? && sys.toServer[0].Hs? then Failed else Ok;
      var inbox := if sys.s.wait.ReadCcs? && w.Ok? then sys.toServer[1..] else sys.toServer;
      assert ServerMove(scfg, sys, v).value == sys.(s := sys.s.(wait := w), toServer := inbox);
      ServerWakeDecreases(d, sys, w, inbox);
    }
  }

  // ---- The end ----

  /** Both are done, and agree on resumption, cipher and transcript. */
  predicate Agree(ccfg: C.Config, scfg: S.Config, sys: Sys) {
    && sys.c.state.Done? && sys.s.state.Done?
    && sys.c.reused == sys.s.reused && sys.c.cipher == sys.s.cipher == Some(scfg.cipher)
    && sys.c.transcript == sys.s.transcript
    && sys.c.npn == scfg.npn && sys.c.channelId == sys.s.channelId
    && (sys.c.reused ==> ccfg.session == scfg.found)
  }

  /** Each side has in its transcript the messages of the first groups of the script, each once; of all of them when it is
      done. */
  predicate Follows(d: Deal, gs: seq<Group>, sys: Sys) {
    && IsScript(d, gs)
    && (exists n: nat | n <= |gs| :: sys.c.transcript == Hashed(gs, n))
    && (exists n: nat | n <= |gs| :: sys.s.transcript == Hashed(gs, n))
    && (sys.c.state.Done? ==> sys.c.transcript == Hashed(gs, |gs|))
    && (sys.s.state.Done? ==> sys.s.transcript == Hashed(gs, |gs|))
  }

  lemma {:induction false} InvFollows(d: Deal, gs: seq<Group>, scfg: S.Config, sys: Sys)
    requires IsScript(d, gs) && Inv(d, gs, scfg, sys)
    ensures Follows(d, gs, sys)
  {
    assert sys.c.transcript == Hashed(gs, CS.Pos(d, sys.c)) && sys.s.transcript == Hashed(gs, SS.Pos(d, sys.s));
    if sys.c.state.Done? {
      DoneClientHas(d, gs, sys.c);
    }
    if sys.s.state.Done? {
      DoneServerHas(d, gs, scfg, sys.s);
    }
  }

  lemma {:induction false} DoneClientHas(d: Deal, gs: seq<Group>, c: C.Client)
    requires |gs| == Size(d) && CS.ClientOk(d, gs, c) && c.state.Done?
    ensures c.pending == [] && CS.Pos(d, c) == |gs| && CS.Told(d, c) && c.transcript == Hashed(gs, |gs|)
  {
  }

  lemma {:induction false} DoneServerHas(d: Deal, gs: seq<Group>, scfg: S.Config, s: S.Server)
    requires |gs| == Size(d) && SS.ServerOk(d, gs, scfg, s) && s.state.Done?
    ensures s.pending == [] && SS.Pos(d, s) == |gs| && s.transcript == Hashed(gs, |gs|)
    ensures s.cipher == Some(d.cipher) && s.reused == d.reused && s.channelId == d.channelId
  {
  }

  lemma {:induction false} DoneAgrees(d: Deal, gs: seq<Group>, ccfg: C.Config, scfg: S.Config, sys: Sys)
    requires IsScript(d, gs) && Inv(d, gs, scfg, sys) && sys.c.state.Done? && sys.s.state.Done?
    requires d.cipher == scfg.cipher && d.npn == scfg.npn && (d.reused ==> ccfg.session == scfg.found)
    ensures Agree(ccfg, scfg, sys)
    ensures Follows(d, gs, sys) && sys.c.transcript == Hashed(gs, |gs|) && sys.toClient == sys.toServer == []
  {
    DoneClientHas(d, gs, sys.c);
    DoneServerHas(d, gs, scfg, sys.s);
    InvFollows(d, gs, scfg, sys);
    assert sys.toClient + sys.s.pending == [] && sys.toServer + sys.c.pending == [];
  }

  lemma {:induction false} AgreedFits(ccfg: C.Config, scfg: S.Config)
    requires Compatible(ccfg, scfg)
    ensures CS.Fits(Agreed(ccfg, scfg), ccfg) && SS.Fits(Agreed(ccfg, scfg), scfg)
  {
  }

  lemma {:induction false} InitialInv(d: Deal, gs: seq<Group>, scfg: S.Config, patience: nat)
    requires |gs| == Size(d)
    ensures Inv(d, gs, scfg, Initial(scfg, patience))
  {
    var sys := Initial(scfg, patience);
    assert sys.toClient + sys.s.pending == [] && sys.toServer + sys.c.pending == [];
  }

  // ---- Any run ----

  /** A choice of the side that moves and of how its operation comes out. */
  datatype Choice = Choice(client: bool, v: Verdict)

  function MoveOf(ccfg: C.Config, scfg: S.Config, sys: Sys, x: Choice): Option<Sys> {
    if x.client then ClientMove(ccfg, sys, x.v) else ServerMove(scfg, sys, x.v)
  }

  function After(ccfg: C.Config, scfg: S.Config, sys: Sys, xs: seq<Choice>): Option<Sys>
    decreases |xs|
  {
    if xs == [] then Some(sys)
    else
      var next := MoveOf(ccfg, scfg, sys, xs[0]);
      if next.None? then None else After(ccfg, scfg, next.value, xs[1..])
  }

  predicate NoneRefused(xs: seq<Choice>) {
    forall i | 0 <= i < |xs| :: !xs[i].v.Refuse?
  }

  /** The states of both sides only go forward, so that none is entered twice. */
  predicate Forward(d: Deal, sys: Sys, sys': Sys) {
    && CS.At(d, sys.c.state).rank <= CS.At(d, sys'.c.state).rank
    && (sys'.c.state != sys.c.state ==> CS.At(d, sys.c.state).rank < CS.At(d, sys'.c.state).rank)
    && SS.At(d, sys.s.state).rank <= SS.At(d, sys'.s.state).rank
    && (sys'.s.state != sys.s.state ==> SS.At(d, sys.s.state).rank < SS.At(d, sys'.s.state).rank)
  }

  lemma {:induction false} ClientOnlyForward(d: Deal, sys: Sys, sys': Sys)
    requires sys'.s.state == sys.s.state
    requires sys'.c.state == sys.c.state || CS.At(d, sys.c.state).rank < CS.At(d, sys'.c.state).rank
    ensures Forward(d, sys, sys')
  {
  }

  lemma {:induction false} ServerOnlyForward(d: Deal, sys: Sys, sys': Sys)
    requires sys'.c.state == sys.c.state
    requires sys'.s.state == sys.s.state || SS.At(d, sys.s.state).rank < SS.At(d, sys'.s.state).rank
    ensures Forward(d, sys, sys')
  {
  }

  lemma {:induction false} ClientResolveStays(ccfg: C.Config, sys: Sys, v: Verdict)
    requires !sys.c.wait.Ok? && ClientMove(ccfg, sys, v).Some?
    ensures var sys' := ClientMove(ccfg, sys, v).value; sys'.c.state == sys.c.state && sys'.s == sys.s
  {
  }

  lemma {:induction false} ServerResolveStays(scfg: S.Config, sys: Sys, v: Verdict)
    requires !sys.s.wait.Ok? && ServerMove(scfg, sys, v).Some?
    ensures var sys' := ServerMove(scfg, sys, v).value; sys'.s.state == sys.s.state && sys'.c == sys.c
  {
  }

  lemma {:induction false} ClientMoveForward(d: Deal, gs: seq<Group>, ccfg: C.Config, scfg: S.Config, sys: Sys, v: Verdict)
    requires Setting(d, gs, ccfg, scfg) && Inv(d, gs, scfg, sys) && !v.Refuse? && ClientMove(ccfg, sys, v).Some?
    ensures Forward(d, sys, ClientMove(ccfg, sys, v).value)
  {
    if sys.c.wait.Ok? {
      var patience: nat := if v.Later? then sys.patience - 1 else sys.patience;
      ClientRuns(d, gs, ccfg, scfg, sys, v, patience);
      var out := C.Do(ccfg, sys.c, sys.toClient, v);
      ClientOnlyForward(d, sys, AfterClient(sys, out, patience));
    } else {
      ClientResolveStays(ccfg, sys, v);
      ClientOnlyForward(d, sys, ClientMove(ccfg, sys, v).value);
    }
  }

  lemma {:induction false} ServerMoveForward(d: Deal, gs: seq<Group>, ccfg: C.Config, scfg: S.Config, sys: Sys, v: Verdict)
    requires Setting(d, gs, ccfg, scfg) && Inv(d, gs, scfg, sys) && !v.Refuse? && ServerMove(scfg, sys, v).Some?
    ensures Forward(d, sys, ServerMove(scfg, sys, v).value)
  {
    if sys.s.wait.Ok? {
      var patience: nat := if v.Later? then sys.patience - 1 else sys.patience;
      ServerRuns(d, gs, ccfg, scfg, sys, v, patience);
      var out := S.Do(scfg, sys.s, sys.toServer, v);
      ServerOnlyForward(d, sys, AfterServer(sys, out, patience));
    } else {
      ServerResolveStays(scfg, sys, v);
      ServerOnlyForward(d, sys, ServerMove(scfg, sys, v).value);
    }
  }

  lemma {:induction false} ForwardTrans(d: Deal, a: Sys, b: Sys, c: Sys)
    requires Forward(d, a, b) && Forward(d, b, c)
    ensures Forward(d, a, c)
  {
  }

  lemma {:induction false} RunKeeps(d: Deal, gs: seq<Group>, ccfg: C.Config, scfg: S.Config, sys: Sys, xs: seq<Choice>)
    requires Setting(d, gs, ccfg, scfg) && Inv(d, gs, scfg, sys) && NoneRefused(xs)
    requires After(ccfg, scfg, sys, xs).Some?
    ensures var sys' := After(ccfg, scfg, sys, xs).value;
      Inv(d, gs, scfg, sys') && |xs| + Measure(d, sys') <= Measure(d, sys) && Forward(d, sys, sys')
    decreases |xs|
  {
    if xs != [] {
      var next := MoveOf(ccfg, scfg, sys, xs[0]).value;
      if xs[0].client {
        ClientMoveKeeps(d, gs, ccfg, scfg, sys, xs[0].v);
        ClientMoveDecreases(d, gs, ccfg, scfg, sys, xs[0].v);
        ClientMoveForward(d, gs, ccfg, scfg, sys, xs[0].v);
      } else {
        ServerMoveKeeps(d, gs, ccfg, scfg, sys, xs[0].v);
        ServerMoveDecreases(d, gs, ccfg, scfg, sys, xs[0].v);
        ServerMoveForward(d, gs, ccfg, scfg, sys, xs[0].v);
      }
      RunKeeps(d, gs, ccfg, scfg, next, xs[1..]);
      ForwardTrans(d, sys, next, After(ccfg, scfg, sys, xs).value);
    }
  }

  lemma {:induction false} HashedGrows(gs: seq<Group>, lo: nat, hi: nat)
    requires lo <= hi <= |gs|
    ensures Hashed(gs, lo) <= Hashed(gs, hi)
    decreases hi - lo
  {
    if lo < hi {
      HashedGrows(gs, lo, hi - 1);
    }
  }

  lemma {:induction false} PosInScript(d: Deal, gs: seq<Group>, scfg: S.Config, sys: Sys)
    requires Inv(d, gs, scfg, sys)
    ensures sys.c.transcript <= sys.s.transcript || sys.s.transcript <= sys.c.transcript
    ensures !sys.c.wait.Failed? && !sys.s.wait.Failed?
  {
    var (p, q) := (CS.Pos(d, sys.c), SS.Pos(d, sys.s));
    if p <= q {
      HashedGrows(gs, p, q);
    } else {
      HashedGrows(gs, q, p);
    }
  }

  /** In every reachable state of a compatible pair, whatever operations are put off: neither side has failed, each
      handshake message so far is once in each side's transcript, one transcript is a prefix of the other, each
      Finished message covers the transcript of the side that is about to check it, and when no side can move, both
      are done and agree. No run is longer than a bound that the patience gives. */
  lemma {:induction false} EveryRun(ccfg: C.Config, scfg: S.Config, patience: nat, xs: seq<Choice>)
    requires Compatible(ccfg, scfg) && NoneRefused(xs)
    requires After(ccfg, scfg, Initial(scfg, patience), xs).Some?
    ensures |xs| <= 800 + 10 * patience
    ensures var sys := After(ccfg, scfg, Initial(scfg, patience), xs).value;
      && !sys.c.wait.Failed? && !sys.s.wait.Failed?
      && (sys.c.transcript <= sys.s.transcript || sys.s.transcript <= sys.c.transcript)
      && (exists gs :: Follows(Agreed(ccfg, scfg), gs, sys))
      && (sys.s.state.ReadClientFinished? && sys.toServer != [] ==>
            sys.toServer[0] == Hs(Finished(false, sys.s.transcript)))
      && (sys.c.state.ReadServerFinished? && sys.toClient != [] ==>
            sys.toClient[0] == Hs(Finished(true, sys.c.transcript)))
      && (ClientMove(ccfg, sys, Pass).None? && ServerMove(scfg, sys, Pass).None? ==> Agree(ccfg, scfg, sys))
  {
    var d := Agreed(ccfg, scfg);
    var gs := ScriptExists(d);
    AgreedFits(ccfg, scfg);
    InitialInv(d, gs, scfg, patience);
    RunKeeps(d, gs, ccfg, scfg, Initial(scfg, patience), xs);
    var sys := After(ccfg, scfg, Initial(scfg, patience), xs).value;
    PosInScript(d, gs, scfg, sys);
    InvFollows(d, gs, scfg, sys);
    FinishedCovers(d, gs, scfg, sys);
    Progress(d, gs, ccfg, scfg, sys);
    if sys.c.state.Done? && sys.s.state.Done? {
      DoneAgrees(d, gs, ccfg, scfg, sys);
    }
  }

  /** No state is entered twice: if a side is in the same state before and after a part of a run, it has been in that
      state all the time between. */
  lemma {:induction false} NoStateTwice(ccfg: C.Config, scfg: S.Config, patience: nat, xs: seq<Choice>, ys: seq<Choice>, zs: seq<Choice>)
    requires Compatible(ccfg, scfg) && NoneRefused(xs) && NoneRefused(ys) && NoneRefused(zs)
    requires After(ccfg, scfg, Initial(scfg, patience), xs).Some?
    requires var a := After(ccfg, scfg, Initial(scfg, patience), xs).value;
      After(ccfg, scfg, a, ys).Some? && After(ccfg, scfg, After(ccfg, scfg, a, ys).value, zs).Some?
    ensures
      var a := After(ccfg, scfg, Initial(scfg, patience), xs).value;
      var b := After(ccfg, scfg, a, ys).value;
      var c := After(ccfg, scfg, b, zs).value;
      (a.c.state == c.c.state ==> b.c.state == a.c.state) && (a.s.state == c.s.state ==> b.s.state == a.s.state)
  {
    var d := Agreed(ccfg, scfg);
    var gs := ScriptExists(d);
    AgreedFits(ccfg, scfg);
    InitialInv(d, gs, scfg, patience);
    RunKeeps(d, gs, ccfg, scfg, Initial(scfg, patience), xs);
    var a := After(ccfg, scfg, Initial(scfg, patience), xs).value;
    RunKeeps(d, gs, ccfg, scfg, a, ys);
    RunKeeps(d, gs, ccfg, scfg, After(ccfg, scfg, a, ys).value, zs);
  }

  // ---- Finished messages ----

  lemma {:induction false} FinishedAt(gs: seq<Group>, server: bool, p: nat, inbox: seq<Rec>, hi: nat)
    requires Expected(gs, server, p, inbox, hi) && inbox != []
    requires p < |gs| && gs[p] == One(server, true, Finished(server, Hashed(gs, p)))
    ensures inbox[0] == Hs(Finished(server, Hashed(gs, p)))
  {
    var _ := Found(gs, server, p, inbox, hi);
  }

  lemma {:induction false} FinishedGroups(d: Deal, gs: seq<Group>)
    requires IsScript(d, gs)
    ensures var p := if d.reused then 8 else 13; gs[p] == One(false, true, Finished(false, Hashed(gs, p)))
    ensures var p := if d.reused then 4 else 16; gs[p] == One(true, true, Finished(true, Hashed(gs, p)))
  {
  }

  lemma {:induction false} ServerPlace(d: Deal, gs: seq<Group>, scfg: S.Config, s: S.Server)
    requires |gs| == Size(d) && SS.ServerOk(d, gs, scfg, s) && s.state.ReadClientFinished?
    ensures var p := if d.reused then 8 else 13; SS.Pos(d, s) == p && s.transcript == Hashed(gs, p)
  {
  }

  lemma {:induction false} ClientPlace(d: Deal, gs: seq<Group>, c: C.Client)
    requires |gs| == Size(d) && CS.ClientOk(d, gs, c) && c.state.ReadServerFinished?
    ensures var p := if d.reused then 4 else 16; CS.Pos(d, c) == p && c.transcript == Hashed(gs, p)
  {
  }

  lemma {:induction false} ClientFinishedCovers(d: Deal, gs: seq<Group>, scfg: S.Config, sys: Sys, p: nat)
    requires Inv(d, gs, scfg, sys) && sys.s.state.ReadClientFinished? && sys.toServer != []
    requires p == (if d.reused then 8 else 13) && gs[p] == One(false, true, Finished(false, Hashed(gs, p)))
    ensures sys.toServer[0] == Hs(Finished(false, sys.s.transcript))
  {
    ServerPlace(d, gs, scfg, sys.s);
    ServerExpects(d, gs, scfg, sys);
    FinishedAt(gs, false, p, sys.toServer, CS.Pos(d, sys.c));
  }

  lemma {:induction false} ServerFinishedCovers(d: Deal, gs: seq<Group>, scfg: S.Config, sys: Sys, p: nat)
    requires Inv(d, gs, scfg, sys) && sys.c.state.ReadServerFinished? && sys.toClient != []
    requires p == (if d.reused then 4 else 16) && gs[p] == One(true, true, Finished(true, Hashed(gs, p)))
    ensures sys.toClient[0] == Hs(Finished(true, sys.c.transcript))
  {
    ClientPlace(d, gs, sys.c);
    ClientExpects(d, gs, scfg, sys);
    FinishedAt(gs, true, p, sys.toClient, SS.Pos(d, sys.s));
  }

  /** Each Finished message that arrives to be checked covers the transcript of the side that checks it. */
  lemma {:induction false} FinishedCovers(d: Deal, gs: seq<Group>, scfg: S.Config, sys: Sys)
    requires IsScript(d, gs) && Inv(d, gs, scfg, sys)
    ensures sys.s.state.ReadClientFinished? && sys.toServer != [] ==>
      sys.toServer[0] == Hs(Finished(false, sys.s.transcript))
    ensures sys.c.state.ReadServerFinished? && sys.toClient != [] ==>
      sys.toClient[0] == Hs(Finished(true, sys.c.transcript))
  {
    FinishedGroups(d, gs);
    if sys.s.state.ReadClientFinished? && sys.toServer != [] {
      ClientFinishedCovers(d, gs, scfg, sys, if d.reused then 8 else 13);
    }
    if sys.c.state.ReadServerFinished? && sys.toClient != [] {
      ServerFinishedCovers(d, gs, scfg, sys, if d.reused then 4 else 16);
    }
  }

  // ---- The driver ----

  datatype Move = Move(client: bool, later: bool)

  /** A client and a server, run by any schedule that lets one of them move whenever one can; `schedule` also says when
      an operation is put off. */
  class Pair {
    const ccfg: C.Config
    const scfg: S.Config
    var sys: Sys

    constructor (ccfg: C.Config, scfg: S.Config, patience: nat)
      ensures this.ccfg == ccfg && this.scfg == scfg && sys == Initial(scfg, patience)
    {
      this.ccfg, this.scfg, sys := ccfg, scfg, Initial(scfg, patience);
    }

    /** One move of the schedule, or of the side that can move. */
    method Turn(move: Move, ghost d: Deal, ghost gs: seq<Group>) returns (moved: bool)
      requires Setting(d, gs, ccfg, scfg) && Inv(d, gs, scfg, sys)
      modifies this
      ensures Inv(d, gs, scfg, sys)
      ensures moved ==> Measure(d, sys) < Measure(d, old(sys))
      ensures !moved ==> sys == old(sys) && sys.c.state.Done? && sys.s.state.Done?
    {
      var v := if move.later && sys.patience > 0 then Later else Pass;
      var next := if move.client then ClientMove(ccfg, sys, v) else ServerMove(scfg, sys, v);
      if next.None? {
        next := ClientMove(ccfg, sys, Pass);
        if next.None? {
          next := ServerMove(scfg, sys, Pass);
          if next.None? {
            Progress(d, gs, ccfg, scfg, sys);
            return false;
          }
          ServerMoveKeeps(d, gs, ccfg, scfg, sys, Pass);
          ServerMoveDecreases(d, gs, ccfg, scfg, sys, Pass);
        } else {
          ClientMoveKeeps(d, gs, ccfg, scfg, sys, Pass);
          ClientMoveDecreases(d, gs, ccfg, scfg, sys, Pass);
        }
      } else if move.client {
        ClientMoveKeeps(d, gs, ccfg, scfg, sys, v);
        ClientMoveDecreases(d, gs, ccfg, scfg, sys, v);
      } else {
        ServerMoveKeeps(d, gs, ccfg, scfg, sys, v);
        ServerMoveDecreases(d, gs, ccfg, scfg, sys, v);
      }
      sys := next.value;
      return true;
    }

    /** Every run ends, with both sides done and in agreement, and with all records delivered. */
    method Handshake(schedule: seq<Move>) returns (moves: nat)
      requires Compatible(ccfg, scfg) && sys == Initial(scfg, sys.patience)
      modifies this
      ensures Agree(ccfg, scfg, sys) && sys.toClient == sys.toServer == []
      ensures exists gs :: Follows(Agreed(ccfg, scfg), gs, sys)
    {
      ghost var d := Agreed(ccfg, scfg);
      ghost var gs := ScriptExists(d);
      AgreedFits(ccfg, scfg);
      InitialInv(d, gs, scfg, sys.patience);
      moves := 0;
      var moved := true;
      while moved
        invariant Inv(d, gs, scfg, sys)
        invariant !moved ==> sys.c.state.Done? && sys.s.state.Done?
        decreases moved, Measure(d, sys)
      {
        var move := if moves < |schedule| then schedule[moves] else Move(true, false);
        moved := Turn(move, d, gs);
        moves := moves + 1;
      }
      DoneAgrees(d, gs, ccfg, scfg, sys);
    }
  }
}
