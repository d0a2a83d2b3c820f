/** What a client and a server that go together exchange, as one sequence of groups. */
module TlsScript {
  import opened Basics
  import opened TlsMessages
  import C = TlsClient
  import S = TlsServer

  /** What the two sides agree on. */
  datatype Deal = Deal(
    offered: nat, sessionId: nat, reused: bool, cipher: Cipher, ocsp: bool, ticket: bool, npn: bool, channelId: bool,
    keyExchange: bool, certRequest: bool, clientCertificate: bool)

  function Agreed(ccfg: C.Config, scfg: S.Config): Deal {
    var reused := scfg.found.Some? && scfg.found.value.cipher == scfg.cipher;
    Deal(
      if ccfg.session.Some? then ccfg.session.value.id else 0,
      if reused then scfg.found.value.id else scfg.newId,
      reused, scfg.cipher, scfg.ocsp, scfg.ticket, scfg.npn,
      scfg.channelId && scfg.cipher.ecdhe && (reused ==> scfg.hasHashes),
      scfg.cipher.ecdhe || (!scfg.cipher.certAuth && scfg.pskHint),
      !reused && scfg.verifyPeer && !(scfg.unlessChannelId && scfg.channelId) && scfg.cipher.certAuth,
      ccfg.hasCertificate)
  }

  /** The server chose a cipher that the client allows; it resumes the client's session or a new one that the client
      does not take for its own; and a certificate that it insists on is there. */
  predicate Compatible(ccfg: C.Config, scfg: S.Config) {
    var d := Agreed(ccfg, scfg);
    && d.cipher in ccfg.ciphers
    && (if d.reused then ccfg.session == scfg.found && d.sessionId != 0
        else ccfg.session.Some? && ccfg.session.value.id != 0 ==> ccfg.session.value.id != d.sessionId)
    && (d.certRequest && scfg.needCertificate ==> d.clientCertificate)
  }

  /** The records that one side sends at one point: at most one. */
  datatype Group = Group(fromServer: bool, recs: seq<Rec>)

  function One(fromServer: bool, condition: bool, m: Msg): Group {
    Group(fromServer, if condition then [Hs(m)] else [])
  }

  /** The number of groups. */
  function Size(d: Deal): nat {
    if d.reused then 9 else 17
  }

  function Hello(d: Deal): Msg {
    ServerHello(d.sessionId, d.cipher, d.ocsp, d.ticket, d.npn, d.channelId)
  }

  function MsgsIn(recs: seq<Rec>): seq<Msg> {
    if recs == [] then []
    else (if recs[0].Hs? then [recs[0].msg] else []) + MsgsIn(recs[1..])
  }

  /** The transcript after the first `n` groups. */
  function Hashed(gs: seq<Group>, n: nat): seq<Msg>
    requires n <= |gs|
  {
    if n == 0 then [] else Hashed(gs, n - 1) + MsgsIn(gs[n - 1].recs)
  }

  /** The hello messages. */
  predicate Opening(d: Deal, gs: seq<Group>) {
    && |gs| >= 2
    && gs[0] == One(false, true, ClientHello(d.offered))
    && gs[1] == One(true, true, Hello(d))
  }

  /** The server's part of the full handshake, up to ServerHelloDone. */
  predicate ServerPart(d: Deal, gs: seq<Group>) {
    && |gs| >= 7
    && gs[2] == One(true, d.cipher.certAuth, Certificate(false))
    && gs[3] == One(true, d.cipher.certAuth && d.ocsp, CertificateStatus)
    && gs[4] == One(true, d.keyExchange, ServerKeyExchange)
    && gs[5] == One(true, d.certRequest, CertificateRequest)
    && gs[6] == One(true, true, ServerHelloDone)
  }

  /** The client's answer. */
  predicate ClientPart(d: Deal, gs: seq<Group>) {
    && |gs| >= 10
    && gs[7] == One(false, d.certRequest, Certificate(!d.clientCertificate))
    && gs[8] == One(false, true, ClientKeyExchange)
    && gs[9] == One(false, d.certRequest && d.clientCertificate, CertificateVerify)
  }

  /** The end of a client's last flight, at `i`. */
  predicate ClientEnd(d: Deal, gs: seq<Group>, i: nat) {
    && |gs| >= i + 4
    && gs[i] == Group(false, [Ccs])
    && gs[i + 1] == One(false, d.npn, NextProto)
    && gs[i + 2] == One(false, d.channelId, ChannelId)
    && gs[i + 3] == One(false, true, Finished(false, Hashed(gs, i + 3)))
  }

  /** The end of a server's last flight, at `i`. */
  predicate ServerEnd(d: Deal, gs: seq<Group>, i: nat) {
    && |gs| >= i + 3
    && gs[i] == One(true, d.ticket, NewSessionTicket)
    && gs[i + 1] == Group(true, [Ccs])
    && gs[i + 2] == One(true, true, Finished(true, Hashed(gs, i + 2)))
  }

  /** Section 7.3 of RFC 5246. In the abbreviated handshake the server finishes first. */
  predicate IsScript(d: Deal, gs: seq<Group>) {
    && |gs| == Size(d) && Opening(d, gs)
    && if d.reused then ServerEnd(d, gs, 2) && ClientEnd(d, gs, 5)
       else ServerPart(d, gs) && ClientPart(d, gs) && ClientEnd(d, gs, 10) && ServerEnd(d, gs, 14)
  }

  /** The records of the groups from `lo` up to `hi`. */
  function Recs(gs: seq<Group>, lo: nat, hi: nat): seq<Rec>
    requires hi <= |gs|
    decreases hi - lo
  {
    if lo >= hi then [] else gs[lo].recs + Recs(gs, lo + 1, hi)
  }

  /** Whatever is sent from `lo` up to `hi` comes from one side. */
  predicate AllFrom(gs: seq<Group>, server: bool, lo: nat, hi: nat)
    requires hi <= |gs|
  {
    forall i: nat | lo <= i < hi :: gs[i].recs == [] || gs[i].fromServer == server
  }

  lemma {:induction false} RecsSplit(gs: seq<Group>, lo: nat, mid: nat, hi: nat)
    requires lo <= mid <= hi <= |gs|
    ensures Recs(gs, lo, hi) == Recs(gs, lo, mid) + Recs(gs, mid, hi)
    decreases mid - lo
  {
    if lo < mid {
      RecsSplit(gs, lo + 1, mid, hi);
    }
  }

  /** The first group from `lo` on that is not empty. */
  lemma {:induction false} Head(gs: seq<Group>, lo: nat, hi: nat) returns (n: nat)
    requires hi <= |gs| && Recs(gs, lo, hi) != []
    ensures lo <= n < hi && gs[n].recs != [] && gs[n].recs[0] == Recs(gs, lo, hi)[0]
    ensures forall i: nat | lo <= i < n :: gs[i].recs == []
    decreases hi - lo
  {
    if gs[lo].recs != [] {
      n := lo;
    } else {
      n := Head(gs, lo + 1, hi);
    }
  }

  lemma {:induction false} NothingMeansEmpty(gs: seq<Group>, lo: nat, hi: nat)
    requires hi <= |gs|
    ensures Recs(gs, lo, hi) == [] <==> forall i: nat | lo <= i < hi :: gs[i].recs == []
    decreases hi - lo
  {
    if lo < hi {
      NothingMeansEmpty(gs, lo + 1, hi);
    }
  }

  lemma {:induction false} HashedPrefix(gs: seq<Group>, more: seq<Group>, n: nat)
    requires n <= |gs|
    ensures Hashed(gs + more, n) == Hashed(gs, n)
  {
    if n > 0 {
      HashedPrefix(gs, more, n - 1);
    }
  }

  function WithClientEnd(d: Deal, gs: seq<Group>): seq<Group> {
    var gs1 := gs + [Group(false, [Ccs]), One(false, d.npn, NextProto), One(false, d.channelId, ChannelId)];
    gs1 + [One(false, true, Finished(false, Hashed(gs1, |gs1|)))]
  }

  function WithServerEnd(d: Deal, gs: seq<Group>): seq<Group> {
    var gs1 := gs + [One(true, d.ticket, NewSessionTicket), Group(true, [Ccs])];
    gs1 + [One(true, true, Finished(true, Hashed(gs1, |gs1|)))]
  }

  lemma {:induction false} ClientEndIs(d: Deal, gs: seq<Group>, more: seq<Group>)
    ensures ClientEnd(d, WithClientEnd(d, gs) + more, |gs|)
  {
    var gs1 := gs + [Group(false, [Ccs]), One(false, d.npn, NextProto), One(false, d.channelId, ChannelId)];
    var last := [One(false, true, Finished(false, Hashed(gs1, |gs1|)))];
    HashedPrefix(gs1, last + more, |gs1|);
    assert gs1 + last + more == gs1 + (last + more);
  }

  lemma {:induction false} ServerEndIs(d: Deal, gs: seq<Group>, more: seq<Group>)
    ensures ServerEnd(d, WithServerEnd(d, gs) + more, |gs|)
  {
    var gs1 := gs + [One(true, d.ticket, NewSessionTicket), Group(true, [Ccs])];
    var last := [One(true, true, Finished(true, Hashed(gs1, |gs1|)))];
    HashedPrefix(gs1, last + more, |gs1|);
    assert gs1 + last + more == gs1 + (last + more);
  }

  function Hellos(d: Deal): seq<Group> {
    [One(false, true, ClientHello(d.offered)), One(true, true, Hello(d))]
  }

  function FullStart(d: Deal): seq<Group> {
    [One(false, true, ClientHello(d.offered)),
     One(true, true, Hello(d)),
     One(true, d.cipher.certAuth, Certificate(false)),
     One(true, d.cipher.certAuth && d.ocsp, CertificateStatus),
     One(true, d.keyExchange, ServerKeyExchange),
     One(true, d.certRequest, CertificateRequest),
     One(true, true, ServerHelloDone),
     One(false, d.certRequest, Certificate(!d.clientCertificate)),
     One(false, true, ClientKeyExchange),
     One(false, d.certRequest && d.clientCertificate, CertificateVerify)]
  }

  lemma {:induction false} FullStartIs(d: Deal, more: seq<Group>)
    ensures |FullStart(d)| == 10
    ensures Opening(d, FullStart(d) + more) && ServerPart(d, FullStart(d) + more) && ClientPart(d, FullStart(d) + more)
  {
  }

  /** There is such a script for every deal. */
  lemma {:induction false} ScriptExists(d: Deal) returns (gs: seq<Group>)
    ensures IsScript(d, gs)
  {
    if d.reused {
      var gs1 := WithServerEnd(d, Hellos(d));
      gs := WithClientEnd(d, gs1);
      ClientEndIs(d, gs1, []);
      assert gs + [] == gs;
      var more := gs[5..];
      assert gs == gs1 + more;
      ServerEndIs(d, Hellos(d), more);
    } else {
      gs := FullScript(d);
    }
  }

  lemma {:induction false} FullScript(d: Deal) returns (gs: seq<Group>)
    requires !d.reused
    ensures IsScript(d, gs)
  {
    var gs1 := FullStart(d);
    var gs2 := WithClientEnd(d, gs1);
    gs := WithServerEnd(d, gs2);
    assert |gs1| == 10 && |gs2| == 14 && |gs| == 17;
    assert ServerEnd(d, gs, 14) by {
      ServerEndIs(d, gs2, []);
      assert gs + [] == gs;
    }
    assert ClientEnd(d, gs, 10) by {
      assert gs == gs2 + gs[14..];
      ClientEndIs(d, gs1, gs[14..]);
    }
    assert Opening(d, gs) && ServerPart(d, gs) && ClientPart(d, gs) by {
      assert gs == gs1 + gs[10..];
      FullStartIs(d, gs[10..]);
    }
  }

  /** What tells the messages of a script apart, apart from who sends them. */
  function Code(r: Rec): nat {
    if r.Ccs? then 0
    else
      match r.msg
      case ClientHello(_) => 1
      case ServerHello(_, _, _, _, _, _) => 2
      case Certificate(_) => 3
      case CertificateStatus => 4
      case ServerKeyExchange => 5
      case CertificateRequest => 6
      case ServerHelloDone => 7
      case ClientKeyExchange => 8
      case CertificateVerify => 9
      case NextProto => 10
      case ChannelId => 11
      case NewSessionTicket => 12
      case Finished(_, _) => 13
  }

  /** The codes of the groups, in the order of the script; those of the server from 20 on. */
  function Codes(d: Deal): seq<nat> {
    if d.reused then [1, 22, 32, 20, 33, 0, 10, 11, 13]
    else [1, 22, 23, 24, 25, 26, 27, 3, 8, 9, 0, 10, 11, 13, 32, 20, 33]
  }

  predicate Coded(g: Group, code: nat) {
    |g.recs| <= 1 && (g.recs != [] ==> code == Code(g.recs[0]) + if g.fromServer then 20 else 0)
  }

  lemma {:induction false} FlightsCoded(d: Deal, gs: seq<Group>)
    requires ServerPart(d, gs) && ClientPart(d, gs)
    ensures Coded(gs[2], 23) && Coded(gs[3], 24) && Coded(gs[4], 25) && Coded(gs[5], 26) && Coded(gs[6], 27)
    ensures Coded(gs[7], 3) && Coded(gs[8], 8) && Coded(gs[9], 9)
  {
  }

  lemma {:induction false} EndsCoded(d: Deal, gs: seq<Group>, c: nat, s: nat)
    requires ClientEnd(d, gs, c) && ServerEnd(d, gs, s)
    ensures Coded(gs[c], 0) && Coded(gs[c + 1], 10) && Coded(gs[c + 2], 11) && Coded(gs[c + 3], 13)
    ensures Coded(gs[s], 32) && Coded(gs[s + 1], 20) && Coded(gs[s + 2], 33)
  {
  }

  lemma {:induction false} FullCoded(d: Deal, gs: seq<Group>, i: nat)
    requires IsScript(d, gs) && !d.reused && i < |gs|
    ensures Coded(gs[i], Codes(d)[i])
  {
    if i < 2 {
    } else if i < 10 {
      FlightsCoded(d, gs);
    } else {
      EndsCoded(d, gs, 10, 14);
    }
  }

  lemma {:induction false} ScriptCoded(d: Deal, gs: seq<Group>, i: nat)
    requires IsScript(d, gs) && i < |gs|
    ensures Coded(gs[i], Codes(d)[i])
  {
    if !d.reused {
      FullCoded(d, gs, i);
    } else if i >= 2 {
      EndsCoded(d, gs, 5, 2);
    }
  }

  /** No side sends the same message twice: each group has at most one record, and no two groups of one side have the same,
      even up to its contents. */
  lemma {:induction false} EachMessageOnce(d: Deal, gs: seq<Group>, i: nat, j: nat)
    requires IsScript(d, gs) && i < j < |gs| && gs[i].fromServer == gs[j].fromServer
    requires gs[i].recs != [] && gs[j].recs != []
    ensures |gs[i].recs| == |gs[j].recs| == 1 && Code(gs[i].recs[0]) != Code(gs[j].recs[0])
  {
    ScriptCoded(d, gs, i);
    ScriptCoded(d, gs, j);
  }

  // ---- One group, and the head of what is to come ----

  lemma {:induction false} EmptyGroup(gs: seq<Group>, p: nat, server: bool)
    requires p < |gs| && gs[p].recs == []
    ensures Recs(gs, p, p + 1) == [] && AllFrom(gs, server, p, p + 1) && Hashed(gs, p + 1) == Hashed(gs, p)
  {
  }

  lemma {:induction false} SingleGroup(gs: seq<Group>, p: nat, r: Rec)
    requires p < |gs| && gs[p].recs == [r]
    ensures Recs(gs, p, p + 1) == [r]
    ensures Hashed(gs, p + 1) == Hashed(gs, p) + if r.Hs? then [r.msg] else []
  {
    assert Recs(gs, p + 1, p + 1) == [];
    assert MsgsIn([r]) == if r.Hs? then [r.msg] else [];
  }

  /** The next records in the inbox are those of the script, all from the other side. */
  predicate Expected(gs: seq<Group>, server: bool, p: nat, inbox: seq<Rec>, hi: nat) {
    inbox == [] || (p <= hi <= |gs| && inbox <= Recs(gs, p, hi) && AllFrom(gs, server, p, hi))
  }

  /** The first thing from `p` on that is not empty is a message of one side, at `n` at the latest. */
  predicate Upcoming(gs: seq<Group>, server: bool, p: nat, n: nat) {
    && p <= n < |gs| && gs[n].recs != []
    && forall i: nat | p <= i <= n :: gs[i].recs == [] || (gs[i].fromServer == server && gs[i].recs[0].Hs?)
  }

  predicate Awaits(gs: seq<Group>, server: bool, p: nat) {
    exists n: nat | n < |gs| :: Upcoming(gs, server, p, n)
  }

  /** The record that is found, when there is one. */
  lemma {:induction false} Found(gs: seq<Group>, server: bool, p: nat, inbox: seq<Rec>, hi: nat) returns (n: nat)
    requires Expected(gs, server, p, inbox, hi) && inbox != []
    ensures p <= n < |gs| && gs[n].recs != [] && gs[n].recs[0] == inbox[0] && gs[n].fromServer == server
    ensures forall i: nat | p <= i < n :: gs[i].recs == []
  {
    n := Head(gs, p, hi);
  }

  function If(condition: bool, m: Msg): seq<Msg> {
    if condition then [m] else []
  }

  function RecIf(condition: bool, m: Msg): seq<Rec> {
    if condition then [Hs(m)] else []
  }

  lemma {:induction false} AnyGroup(gs: seq<Group>, p: nat, server: bool, condition: bool, m: Msg)
    requires p < |gs| && gs[p] == One(server, condition, m)
    ensures Recs(gs, p, p + 1) == RecIf(condition, m)
    ensures Hashed(gs, p + 1) == Hashed(gs, p) + If(condition, m)
  {
    if condition {
      SingleGroup(gs, p, Hs(m));
    } else {
      EmptyGroup(gs, p, server);
      assert Hashed(gs, p) + [] == Hashed(gs, p);
    }
  }

  lemma {:induction false} CcsGroup(gs: seq<Group>, p: nat)
    requires p < |gs| && gs[p].recs == [Ccs]
    ensures Recs(gs, p, p + 1) == [Ccs] && Hashed(gs, p + 1) == Hashed(gs, p)
  {
    SingleGroup(gs, p, Ccs);
    assert Hashed(gs, p) + [] == Hashed(gs, p);
  }

  lemma {:induction false} Four(gs: seq<Group>, i: nat, a: seq<Rec>, b: seq<Rec>, c: seq<Rec>, e: seq<Rec>)
    requires i + 4 <= |gs|
    requires Recs(gs, i, i + 1) == a && Recs(gs, i + 1, i + 2) == b
    requires Recs(gs, i + 2, i + 3) == c && Recs(gs, i + 3, i + 4) == e
    ensures Recs(gs, i, i + 3) == a + b + c && Recs(gs, i, i + 4) == a + b + c + e
  {
    RecsSplit(gs, i, i + 1, i + 2);
    RecsSplit(gs, i, i + 2, i + 3);
    RecsSplit(gs, i, i + 3, i + 4);
  }

  /** The last four groups of the client together. */
  lemma {:induction false} ClientEndRecs(d: Deal, gs: seq<Group>, i: nat)
    requires ClientEnd(d, gs, i)
    ensures Hashed(gs, i + 3) == Hashed(gs, i) + If(d.npn, NextProto) + If(d.channelId, ChannelId)
    ensures Hashed(gs, i + 4) == Hashed(gs, i + 3) + [Finished(false, Hashed(gs, i + 3))]
    ensures Recs(gs, i, i + 4)
         == [Ccs] + RecIf(d.npn, NextProto) + RecIf(d.channelId, ChannelId) + [Hs(Finished(false, Hashed(gs, i + 3)))]
  {
    var f := Finished(false, Hashed(gs, i + 3));
    CcsGroup(gs, i);
    AnyGroup(gs, i + 1, false, d.npn, NextProto);
    AnyGroup(gs, i + 2, false, d.channelId, ChannelId);
    SingleGroup(gs, i + 3, Hs(f));
    Four(gs, i, [Ccs], RecIf(d.npn, NextProto), RecIf(d.channelId, ChannelId), [Hs(f)]);
  }

  lemma {:induction false} ClientEndFrom(d: Deal, gs: seq<Group>, i: nat)
    requires ClientEnd(d, gs, i)
    ensures AllFrom(gs, false, i, i + 4)
  {
  }

  lemma {:induction false} ServerEndFrom(d: Deal, gs: seq<Group>, i: nat)
    requires ServerEnd(d, gs, i)
    ensures AllFrom(gs, true, i, i + 3)
  {
  }

  /** The last three groups of the server together. */
  lemma {:induction false} ServerEndRecs(d: Deal, gs: seq<Group>, i: nat)
    requires ServerEnd(d, gs, i)
    ensures Hashed(gs, i + 2) == Hashed(gs, i) + If(d.ticket, NewSessionTicket)
    ensures Hashed(gs, i + 3) == Hashed(gs, i + 2) + [Finished(true, Hashed(gs, i + 2))]
    ensures Recs(gs, i, i + 3) == RecIf(d.ticket, NewSessionTicket) + [Ccs] + [Hs(Finished(true, Hashed(gs, i + 2)))]
  {
    var f := Finished(true, Hashed(gs, i + 2));
    AnyGroup(gs, i, true, d.ticket, NewSessionTicket);
    CcsGroup(gs, i + 1);
    SingleGroup(gs, i + 2, Hs(f));
    RecsSplit(gs, i, i + 1, i + 2);
    RecsSplit(gs, i, i + 2, i + 3);
  }
}
