/** The order of messages that each side insists on, whatever the other side does: section 7.3 of RFC 5246, as a grammar of
    transcripts. It says nothing of states. */
module TlsFlow {
  import opened Basics
  import opened TlsMessages
  import C = TlsClient
  import S = TlsServer

  datatype Side = ClientSide(ccfg: C.Config) | ServerSide(scfg: S.Config)

  /** Whether a message has to come at a place, may come, or must not. */
  datatype Need = Never | May | Must

  function Iff(b: bool): Need {
    if b then Must else Never
  }

  /** The ServerHello of a transcript. */
  predicate Greeted(t: seq<Msg>) {
    |t| >= 2 && t[1].ServerHello?
  }

  /** Does the client take a ServerHello for the resumption of its session? */
  predicate Resumes(cfg: C.Config, sessionId: nat) {
    cfg.session.Some? && cfg.session.value.id != 0 && cfg.session.value.id == sessionId
  }

  predicate Requested(t: seq<Msg>) {
    CertificateRequest in t
  }

  /** What has to come at place `i` after `t`. A client lets the server leave out the CertificateStatus, the key exchange of a
      plain pre-shared key and the CertificateRequest. */
  function NeedAt(side: Side, reused: bool, i: nat, t: seq<Msg>): Need {
    if i < 2 then Must
    else if !Greeted(t) then Never
    else
      var hello := t[1];
      if reused then
        match i
        case 2 => Iff(hello.ticket)
        case 3 => Must
        case 4 => Iff(hello.npn)
        case 5 => Iff(hello.channelId)
        case 6 => Must
        case _ => Never
      else
        match i
        case 2 => Iff(hello.cipher.certAuth)
        case 3 => if side.ServerSide? then Iff(hello.cipher.certAuth && hello.ocsp) else if hello.ocsp then May else Never
        case 4 =>
          if side.ServerSide? then Iff(hello.cipher.ecdhe || (!hello.cipher.certAuth && side.scfg.pskHint))
          else if hello.cipher.ecdhe then Must else if hello.cipher.certAuth then Never else May
        case 5 =>
          if side.ClientSide? then if hello.cipher.certAuth then May else Never
          else Iff(side.scfg.verifyPeer && !(side.scfg.unlessChannelId && side.scfg.channelId) && hello.cipher.certAuth)
        case 6 => Must
        case 7 => Iff(Requested(t))
        case 8 => Must
        case 9 => Iff(Requested(t) && |t| >= 2 && t[|t| - 2] == Certificate(false))
        case 10 => Iff(hello.npn)
        case 11 => Iff(hello.channelId)
        case 12 => Must
        case 13 => Iff(hello.ticket)
        case 14 => Must
        case _ => Never
  }

  /** The hello messages that a side sends or takes. */
  predicate HelloAt(side: Side, reused: bool, i: nat, m: Msg) {
    match side
    case ClientSide(cfg) =>
      if i == 0 then m == ClientHello(if cfg.session.Some? then cfg.session.value.id else 0)
      else
        && m.ServerHello? && m.cipher in cfg.ciphers && reused == Resumes(cfg, m.sessionId)
        && (reused ==> m.cipher == cfg.session.value.cipher)
    case ServerSide(cfg) =>
      if i == 0 then m.ClientHello?
      else
        && m.ServerHello? && m.cipher == cfg.cipher && m.ocsp == cfg.ocsp && m.ticket == cfg.ticket && m.npn == cfg.npn
        && reused == (cfg.found.Some? && cfg.found.value.cipher == cfg.cipher)
        && m.sessionId == (if reused then cfg.found.value.id else cfg.newId)
        && m.channelId == (cfg.channelId && cfg.cipher.ecdhe && (reused ==> cfg.hasHashes))
  }

  /** The message that comes at place `i` after `t`: a Finished message covers what was before it. */
  predicate SaysAt(side: Side, reused: bool, i: nat, t: seq<Msg>, m: Msg) {
    if i < 2 then HelloAt(side, reused, i, m)
    else if reused then
      match i
      case 2 => m == NewSessionTicket
      case 3 => m == Finished(true, t)
      case 4 => m == NextProto
      case 5 => m == ChannelId
      case _ => m == Finished(false, t)
    else
      match i
      case 2 => m == Certificate(false)
      case 3 => m == CertificateStatus
      case 4 => m == ServerKeyExchange
      case 5 => m == CertificateRequest
      case 6 => m == ServerHelloDone
      case 7 =>
        if side.ClientSide? then m == Certificate(!side.ccfg.hasCertificate)
        else m.Certificate? && (side.scfg.needCertificate ==> !m.empty)
      case 8 => m == ClientKeyExchange
      case 9 => m == CertificateVerify
      case 10 => m == NextProto
      case 11 => m == ChannelId
      case 12 => m == Finished(false, t)
      case 13 => m == NewSessionTicket
      case _ => m == Finished(true, t)
  }

  /** `t` is a legal beginning of a handshake, up to place `n`. */
  predicate Legal(side: Side, reused: bool, n: nat, t: seq<Msg>) {
    if n == 0 then t == []
    else
      || (Legal(side, reused, n - 1, t) && !NeedAt(side, reused, n - 1, t).Must?)
      || (t != [] &&
          var (front, m) := (t[..|t| - 1], t[|t| - 1]);
          Legal(side, reused, n - 1, front) && !NeedAt(side, reused, n - 1, front).Never? && SaysAt(side, reused, n - 1, front, m))
  }

  function Places(reused: bool): nat {
    if reused then 7 else 15
  }

  /** The places of the Finished messages: the server finishes first if the session is resumed. */
  function FinishedPlace(reused: bool, fromServer: bool): nat {
    if reused then if fromServer then 3 else 6
    else if fromServer then 14 else 12
  }

  lemma {:induction false} Omit(side: Side, reused: bool, n: nat, t: seq<Msg>)
    requires Legal(side, reused, n, t) && !NeedAt(side, reused, n, t).Must?
    ensures Legal(side, reused, n + 1, t)
  {
  }

  lemma {:induction false} Say(side: Side, reused: bool, n: nat, t: seq<Msg>, m: Msg)
    requires Legal(side, reused, n, t) && !NeedAt(side, reused, n, t).Never? && SaysAt(side, reused, n, t, m)
    ensures Legal(side, reused, n + 1, t + [m])
  {
    assert (t + [m])[..|t|] == t;
  }

  lemma {:induction false} SayIf(side: Side, reused: bool, n: nat, t: seq<Msg>, b: bool, m: Msg)
    requires Legal(side, reused, n, t) && NeedAt(side, reused, n, t) == Iff(b) && (b ==> SaysAt(side, reused, n, t, m))
    ensures Legal(side, reused, n + 1, t + if b then [m] else [])
  {
    if b {
      Say(side, reused, n, t, m);
    } else {
      Omit(side, reused, n, t);
      assert t + [] == t;
    }
  }

  /** A transcript has a Finished message of one side that covers exactly what was before it. */
  ghost predicate HasFinished(t: seq<Msg>, fromServer: bool) {
    exists i :: 0 <= i < |t| && t[i] == Finished(fromServer, t[..i])
  }

  lemma {:induction false} HasFinishedWithMore(t: seq<Msg>, fromServer: bool)
    requires t != [] && HasFinished(t[..|t| - 1], fromServer)
    ensures HasFinished(t, fromServer)
  {
    var front := t[..|t| - 1];
    var i :| 0 <= i < |front| && front[i] == Finished(fromServer, front[..i]);
    assert front[..i] == t[..i];
  }

  /** A legal transcript that is past the place of a Finished message has it. */
  lemma {:induction false} FinishedIsThere(side: Side, reused: bool, n: nat, t: seq<Msg>, fromServer: bool)
    requires Legal(side, reused, n, t) && FinishedPlace(reused, fromServer) < n <= Places(reused)
    ensures HasFinished(t, fromServer)
  {
    var place := FinishedPlace(reused, fromServer);
    LongEnough(side, reused, n - 1, t);
    if n == place + 1 {
      var front := t[..|t| - 1];
      assert t[|t| - 1] == Finished(fromServer, front);
    } else if Legal(side, reused, n - 1, t) && !NeedAt(side, reused, n - 1, t).Must? {
      FinishedIsThere(side, reused, n - 1, t, fromServer);
    } else {
      FinishedIsThere(side, reused, n - 1, t[..|t| - 1], fromServer);
      HasFinishedWithMore(t, fromServer);
    }
  }

  /** From the second place on there is a ServerHello. */
  lemma {:induction false} LongEnough(side: Side, reused: bool, n: nat, t: seq<Msg>)
    ensures Legal(side, reused, n, t) && n >= 2 ==> Greeted(t) && HelloAt(side, reused, 1, t[1])
    decreases n
  {
    if n > 2 && Legal(side, reused, n, t) {
      if Legal(side, reused, n - 1, t) && !NeedAt(side, reused, n - 1, t).Must? {
        LongEnough(side, reused, n - 1, t);
      } else {
        LongEnough(side, reused, n - 1, t[..|t| - 1]);
      }
    } else if n == 2 && Legal(side, reused, n, t) {
      var front := t[..|t| - 1];
      assert Legal(side, reused, 1, front) && front != [];
      assert Legal(side, reused, 0, front[..|front| - 1]);
      assert |front| == 1;
    }
  }
}
