/** The server's state machine below TLS 1.3. */
module TlsServer {
  import opened Basics
  import opened TlsMessages

  datatype State =
    | StartAccept | ReadClientHello | SelectCertificate | SelectParameters | SendServerHello | SendServerCertificate
    | SendServerKeyExchange | SendServerHelloDone | ReadClientCertificate | VerifyClientCertificate
    | ReadClientKeyExchange | ReadClientCertificateVerify | ReadChangeCipherSpec | ProcessChangeCipherSpec
    | ReadNextProto | ReadChannelId | ReadClientFinished | SendServerFinished | FinishServerHandshake | Done

  /** What the configuration, the extensions and the session lookup come to: the session found, if any, and whether
      it has the hashes that Channel ID needs; the cipher chosen; the identifier of a new session; when a client
      certificate is requested and whether it is needed; and which extensions are agreed. */
  datatype Config = Config(
    found: Option<Session>, hasHashes: bool, cipher: Cipher, newId: nat,
    verifyPeer: bool, unlessChannelId: bool, needCertificate: bool,
    pskHint: bool, ocsp: bool, ticket: bool, npn: bool, channelId: bool)

  datatype Server = Server(
    state: State, wait: Wait, transcript: seq<Msg>, pending: seq<Rec>,
    cipher: Option<Cipher>, reused: bool, certRequest: bool, channelId: bool, params: bool, peerKey: bool)

  datatype Out = Out(s: Server, pop: bool)

  function Initial(cfg: Config): Server {
    Server(StartAccept, Ok, [], [], None, false, false, cfg.channelId, false, false)
  }

  function Stay(s: Server, wait: Wait): Out {
    Out(s.(wait := wait), false)
  }

  function Go(s: Server, state: State): Out {
    Out(s.(state := state), false)
  }

  function Add(s: Server, m: Msg): Server {
    s.(pending := s.pending + [Hs(m)], transcript := s.transcript + [m])
  }

  function AddIf(s: Server, condition: bool, m: Msg): Server {
    if condition then Add(s, m) else s
  }

  function Took(s: Server, m: Msg, state: State): Out {
    Out(s.(transcript := s.transcript + [m], state := state), true)
  }

  predicate CertAuth(s: Server) {
    s.cipher.Some? && s.cipher.value.certAuth
  }

  predicate Ecdhe(s: Server) {
    s.cipher.Some? && s.cipher.value.ecdhe
  }

  /** The ClientHello stays in the inbox until the parameters are selected. */
  function DoReadClientHello(s: Server, inbox: seq<Rec>, v: Verdict): Out {
    var m := Peek(inbox);
    if m.None? then Stay(s, ReadMessage)
    else if !m.value.ClientHello? || v.Refuse? then Stay(s, Failed)
    else if v.Later? then Stay(s, Paused)
    else Go(s, SelectCertificate)
  }

  function DoSelectCertificate(cfg: Config, s: Server, inbox: seq<Rec>, v: Verdict): Out {
    var m := Peek(inbox);
    if m.None? then Stay(s, ReadMessage)
    else match v
      case Refuse => Stay(s, Failed)
      case Later => Stay(s, Paused)
      case Pass => Go(s.(cipher := Some(cfg.cipher)), SelectParameters)
  }

  function DoSelectParameters(cfg: Config, s: Server, inbox: seq<Rec>, v: Verdict): Out {
    var m := Peek(inbox);
    if m.None? then Stay(s, ReadMessage)
    else match v
      case Refuse => Stay(s, Failed)
      case Later => Stay(s, Paused)
      case Pass =>
        var reused := cfg.found.Some? && Some(cfg.found.value.cipher) == s.cipher;
        var request := !reused && cfg.verifyPeer && !(cfg.unlessChannelId && s.channelId) && CertAuth(s);
        Took(s.(reused := reused, certRequest := request), m.value, SendServerHello)
  }

  function DoSendServerHello(cfg: Config, s: Server, v: Verdict): Out {
    if v.Refuse? || s.cipher.None? || (s.reused && cfg.found.None?) then Stay(s, Failed)
    else
      var channelId := s.channelId && Ecdhe(s) && (s.reused ==> cfg.hasHashes);
      var id := if s.reused then cfg.found.value.id else cfg.newId;
      var hello := ServerHello(id, s.cipher.value, cfg.ocsp, cfg.ticket, cfg.npn, channelId);
      Go(Add(s.(channelId := channelId), hello), if s.reused then SendServerFinished else SendServerCertificate)
  }

  function DoSendServerCertificate(cfg: Config, s: Server, v: Verdict): Out {
    if v.Refuse? then Stay(s, Failed)
    else
      var s1 := AddIf(AddIf(s, CertAuth(s), Certificate(false)), CertAuth(s) && cfg.ocsp, CertificateStatus);
      Go(s1.(params := Ecdhe(s) || (!CertAuth(s) && cfg.pskHint)), SendServerKeyExchange)
  }

  function DoSendServerKeyExchange(s: Server, v: Verdict): Out {
    if !s.params then Go(s, SendServerHelloDone)
    else if v.Refuse? then Stay(s, Failed)
    else if v.Later? && CertAuth(s) then Stay(s, Paused)
    else Go(Add(s, ServerKeyExchange).(params := false), SendServerHelloDone)
  }

  function DoSendServerHelloDone(s: Server, v: Verdict): Out {
    if v.Refuse? then Stay(s, Failed)
    else
      var s1 := Add(AddIf(s, s.certRequest, CertificateRequest), ServerHelloDone);
      Out(s1.(state := ReadClientCertificate, wait := Flush), false)
  }

  function DoReadClientCertificate(cfg: Config, s: Server, inbox: seq<Rec>, v: Verdict): Out {
    if !s.certRequest then Go(s, VerifyClientCertificate)
    else
      var m := Peek(inbox);
      if m.None? then Stay(s, ReadMessage)
      else if !m.value.Certificate? || v.Refuse? || (m.value.empty && cfg.needCertificate) then Stay(s, Failed)
      else Took(s.(peerKey := !m.value.empty), m.value, VerifyClientCertificate)
  }

  function DoVerifyClientCertificate(s: Server, v: Verdict): Out {
    if !s.peerKey then Go(s, ReadClientKeyExchange)
    else match v
      case Refuse => Stay(s, Failed)
      case Later => Stay(s, Paused)
      case Pass => Go(s, ReadClientKeyExchange)
  }

  /** The private key is used, perhaps later, for an RSA key exchange. */
  function DoReadClientKeyExchange(s: Server, inbox: seq<Rec>, v: Verdict): Out {
    var m := Peek(inbox);
    if m.None? then Stay(s, ReadMessage)
    else if !m.value.ClientKeyExchange? || v.Refuse? then Stay(s, Failed)
    else if v.Later? && CertAuth(s) && !Ecdhe(s) then Stay(s, Paused)
    else Took(s, m.value, ReadClientCertificateVerify)
  }

  function DoReadClientCertificateVerify(s: Server, inbox: seq<Rec>, v: Verdict): Out {
    if !s.peerKey then Go(s, ReadChangeCipherSpec)
    else
      var m := Peek(inbox);
      if m.None? then Stay(s, ReadMessage)
      else if !m.value.CertificateVerify? || v.Refuse? then Stay(s, Failed)
      else Took(s, m.value, ReadChangeCipherSpec)
  }

  function DoReadNextProto(cfg: Config, s: Server, inbox: seq<Rec>, v: Verdict): Out {
    if !cfg.npn then Go(s, ReadChannelId)
    else
      var m := Peek(inbox);
      if m.None? then Stay(s, ReadMessage)
      else if !m.value.NextProto? || v.Refuse? then Stay(s, Failed)
      else Took(s, m.value, ReadChannelId)
  }

  function DoReadChannelId(s: Server, inbox: seq<Rec>, v: Verdict): Out {
    if !s.channelId then Go(s, ReadClientFinished)
    else
      var m := Peek(inbox);
      if m.None? then Stay(s, ReadMessage)
      else if !m.value.ChannelId? || v.Refuse? then Stay(s, Failed)
      else Took(s, m.value, ReadClientFinished)
  }

  /** `ssl_get_finished`. */
  function DoReadClientFinished(s: Server, inbox: seq<Rec>): Out {
    var m := Peek(inbox);
    if m.None? then Stay(s, ReadMessage)
    else if m.value != Finished(false, s.transcript) then Stay(s, Failed)
    else Took(s, m.value, if s.reused then FinishServerHandshake else SendServerFinished)
  }

  function DoSendServerFinished(cfg: Config, s: Server, v: Verdict): Out {
    if v.Refuse? then Stay(s, Failed)
    else
      var s1 := AddIf(s, cfg.ticket, NewSessionTicket);
      var s2 := Add(s1.(pending := s1.pending + [Ccs]), Finished(true, s1.transcript));
      Out(s2.(state := if s.reused then ReadChangeCipherSpec else FinishServerHandshake, wait := Flush), false)
  }

  /** The switch in `ssl_server_handshake`. */
  function Do(cfg: Config, s: Server, inbox: seq<Rec>, v: Verdict): Out {
    match s.state
    case StartAccept => Go(s, ReadClientHello)
    case ReadClientHello => DoReadClientHello(s, inbox, v)
    case SelectCertificate => DoSelectCertificate(cfg, s, inbox, v)
    case SelectParameters => DoSelectParameters(cfg, s, inbox, v)
    case SendServerHello => DoSendServerHello(cfg, s, v)
    case SendServerCertificate => DoSendServerCertificate(cfg, s, v)
    case SendServerKeyExchange => DoSendServerKeyExchange(s, v)
    case SendServerHelloDone => DoSendServerHelloDone(s, v)
    case ReadClientCertificate => DoReadClientCertificate(cfg, s, inbox, v)
    case VerifyClientCertificate => DoVerifyClientCertificate(s, v)
    case ReadClientKeyExchange => DoReadClientKeyExchange(s, inbox, v)
    case ReadClientCertificateVerify => DoReadClientCertificateVerify(s, inbox, v)
    case ReadChangeCipherSpec => Out(s.(state := ProcessChangeCipherSpec, wait := ReadCcs), false)
    case ProcessChangeCipherSpec => if v.Refuse? then Stay(s, Failed) else Go(s, ReadNextProto)
    case ReadNextProto => DoReadNextProto(cfg, s, inbox, v)
    case ReadChannelId => DoReadChannelId(s, inbox, v)
    case ReadClientFinished => DoReadClientFinished(s, inbox)
    case SendServerFinished => DoSendServerFinished(cfg, s, v)
    case FinishServerHandshake => Go(s, Done)
    case Done => Stay(s, Ok)
  }
}
