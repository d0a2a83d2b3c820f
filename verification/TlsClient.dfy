/** The client's state machine below TLS 1.3. */
module TlsClient {
  import opened Basics
  import opened TlsMessages

  datatype State =
    | StartConnect | EnterEarlyData | ReadServerHello | ReadServerCertificate | ReadCertificateStatus
    | VerifyServerCertificate | ReadServerKeyExchange | ReadCertificateRequest | ReadServerHelloDone
    | SendClientCertificate | SendClientKeyExchange | SendClientCertificateVerify | SendClientFinished
    | FinishFlight | ReadSessionTicket | ProcessChangeCipherSpec | ReadServerFinished | FinishClientHandshake | Done

  /** The session it offers, the ciphers it allows, and whether it has a certificate. */
  datatype Config = Config(session: Option<Session>, ciphers: set<Cipher>, hasCertificate: bool)

  /** The security-relevant things that have happened. */
  datatype Event = ChainVerified | SignatureVerified | ServerKeyExchangeRead | KeyExchangeAdded | FinishedMatched

  datatype Client = Client(
    state: State, wait: Wait, transcript: seq<Msg>, pending: seq<Rec>,
    reused: bool, cipher: Option<Cipher>, statusExpected: bool, ticketExpected: bool, npn: bool, channelId: bool,
    certRequest: bool, log: seq<Event>)

  /** The new state, and whether the message at the head of the inbox was used up (`next_message`). */
  datatype Out = Out(c: Client, pop: bool)

  const INITIAL: Client :=
    Client(StartConnect, Ok, [], [], false, None, false, false, false, false, false, [])

  function Stay(c: Client, wait: Wait): Out {
    Out(c.(wait := wait), false)
  }

  function Go(c: Client, state: State): Out {
    Out(c.(state := state), false)
  }

  /** `ssl_add_message_cbb`: into the flight and into the transcript. */
  function Add(c: Client, m: Msg): Client {
    c.(pending := c.pending + [Hs(m)], transcript := c.transcript + [m])
  }

  function AddIf(c: Client, condition: bool, m: Msg): Client {
    if condition then Add(c, m) else c
  }

  /** `ssl_hash_message`, `next_message`, and on to another state. */
  function Took(c: Client, m: Msg, state: State): Out {
    Out(c.(transcript := c.transcript + [m], state := state), true)
  }

  function Log(c: Client, e: Event): Client {
    c.(log := c.log + [e])
  }

  predicate CertAuth(c: Client) {
    c.cipher.Some? && c.cipher.value.certAuth
  }

  predicate Ecdhe(c: Client) {
    c.cipher.Some? && c.cipher.value.ecdhe
  }

  function DoStartConnect(cfg: Config, c: Client, v: Verdict): Out {
    if v.Refuse? then Stay(c, Failed)
    else
      var hello := ClientHello(if cfg.session.Some? then cfg.session.value.id else 0);
      Out(Add(c, hello).(reused := false, state := EnterEarlyData, wait := Flush), false)
  }

  function DoReadServerHello(cfg: Config, c: Client, inbox: seq<Rec>, v: Verdict): Out {
    var m := Peek(inbox);
    if m.None? then Stay(c, ReadMessage)
    else if v.Refuse? || !m.value.ServerHello? then Stay(c, Failed)
    else
      var hello := m.value;
      var reused := cfg.session.Some? && cfg.session.value.id != 0 && cfg.session.value.id == hello.sessionId;
      if hello.cipher !in cfg.ciphers then Stay(c, Failed)
      else if reused && cfg.session.value.cipher != hello.cipher then Stay(c, Failed)
      else
        var c1 := c.(reused := reused, cipher := Some(hello.cipher), statusExpected := hello.ocsp,
                     ticketExpected := hello.ticket, npn := hello.npn, channelId := hello.channelId);
        Took(c1, hello, if reused then ReadSessionTicket else ReadServerCertificate)
  }

  function DoReadServerCertificate(c: Client, inbox: seq<Rec>, v: Verdict): Out {
    if !CertAuth(c) then Go(c, ReadCertificateStatus)
    else
      var m := Peek(inbox);
      if m.None? then Stay(c, ReadMessage)
      else if !m.value.Certificate? || v.Refuse? || m.value.empty then Stay(c, Failed)
      else Took(c, m.value, ReadCertificateStatus)
  }

  /** A server may announce a CertificateStatus and not send it. */
  function DoReadCertificateStatus(c: Client, inbox: seq<Rec>, v: Verdict): Out {
    if !c.statusExpected then Go(c, VerifyServerCertificate)
    else
      var m := Peek(inbox);
      if m.None? then Stay(c, ReadMessage)
      else if !m.value.CertificateStatus? then Go(c, VerifyServerCertificate)
      else if v.Refuse? then Stay(c, Failed)
      else Took(c, m.value, VerifyServerCertificate)
  }

  function DoVerifyServerCertificate(c: Client, v: Verdict): Out {
    if !CertAuth(c) then Go(c, ReadServerKeyExchange)
    else match v
      case Refuse => Stay(c, Failed)
      case Later => Stay(c, Paused)
      case Pass => Go(Log(c, ChainVerified), ReadServerKeyExchange)
  }

  /** A ServerKeyExchange may be left out with plain PSK, and is not allowed with RSA. */
  function DoReadServerKeyExchange(c: Client, inbox: seq<Rec>, v: Verdict): Out {
    var m := Peek(inbox);
    if m.None? then Stay(c, ReadMessage)
    else if !m.value.ServerKeyExchange? then
      if Ecdhe(c) then Stay(c, Failed) else Go(c, ReadCertificateRequest)
    else if v.Refuse? || (!Ecdhe(c) && CertAuth(c)) then Stay(c, Failed)
    else
      var c1 := Log(c, ServerKeyExchangeRead);
      Took(if CertAuth(c) then Log(c1, SignatureVerified) else c1, m.value, ReadCertificateRequest)
  }

  function DoReadCertificateRequest(c: Client, inbox: seq<Rec>, v: Verdict): Out {
    if !CertAuth(c) then Go(c, ReadServerHelloDone)
    else
      var m := Peek(inbox);
      if m.None? then Stay(c, ReadMessage)
      else if m.value.ServerHelloDone? then Go(c, ReadServerHelloDone)
      else if !m.value.CertificateRequest? || v.Refuse? then Stay(c, Failed)
      else Took(c.(certRequest := true), m.value, ReadServerHelloDone)
  }

  function DoReadServerHelloDone(c: Client, inbox: seq<Rec>, v: Verdict): Out {
    var m := Peek(inbox);
    if m.None? then Stay(c, ReadMessage)
    else if !m.value.ServerHelloDone? || v.Refuse? then Stay(c, Failed)
    else Took(c, m.value, SendClientCertificate)
  }

  function DoSendClientCertificate(cfg: Config, c: Client, v: Verdict): Out {
    if !c.certRequest then Go(c, SendClientKeyExchange)
    else match v
      case Refuse => Stay(c, Failed)
      case Later => Stay(c, Paused)
      case Pass => Go(Add(c, Certificate(!cfg.hasCertificate)), SendClientKeyExchange)
  }

  function DoSendClientKeyExchange(c: Client, v: Verdict): Out {
    if v.Refuse? then Stay(c, Failed)
    else Go(Log(Add(c, ClientKeyExchange), KeyExchangeAdded), SendClientCertificateVerify)
  }

  function DoSendClientCertificateVerify(cfg: Config, c: Client, v: Verdict): Out {
    if !c.certRequest || !cfg.hasCertificate then Go(c, SendClientFinished)
    else match v
      case Refuse => Stay(c, Failed)
      case Later => Stay(c, Paused)
      case Pass => Go(Add(c, CertificateVerify), SendClientFinished)
  }

  /** The Channel ID key is resolved before anything is added. */
  function DoSendClientFinished(c: Client, v: Verdict): Out {
    if v.Refuse? then Stay(c, Failed)
    else if v.Later? && c.channelId then Stay(c, Paused)
    else
      var c1 := AddIf(AddIf(c.(pending := c.pending + [Ccs]), c.npn, NextProto), c.channelId, ChannelId);
      Out(Add(c1, Finished(false, c1.transcript)).(state := FinishFlight, wait := Flush), false)
  }

  function DoFinishFlight(c: Client, v: Verdict): Out {
    if c.reused then Go(c, FinishClientHandshake)
    else if v.Refuse? then Stay(c, Failed)
    else Go(c, ReadSessionTicket)
  }

  function DoReadSessionTicket(c: Client, inbox: seq<Rec>, v: Verdict): Out {
    if !c.ticketExpected then Out(c.(state := ProcessChangeCipherSpec, wait := ReadCcs), false)
    else
      var m := Peek(inbox);
      if m.None? then Stay(c, ReadMessage)
      else if !m.value.NewSessionTicket? || v.Refuse? then Stay(c, Failed)
      else Took(c.(wait := ReadCcs), m.value, ProcessChangeCipherSpec)
  }

  function DoProcessChangeCipherSpec(c: Client, v: Verdict): Out {
    if v.Refuse? then Stay(c, Failed) else Go(c, ReadServerFinished)
  }

  /** `ssl_get_finished`. */
  function DoReadServerFinished(c: Client, inbox: seq<Rec>): Out {
    var m := Peek(inbox);
    if m.None? then Stay(c, ReadMessage)
    else if m.value != Finished(true, c.transcript) then Stay(c, Failed)
    else Took(Log(c, FinishedMatched), m.value, if c.reused then SendClientFinished else FinishClientHandshake)
  }

  /** The switch in `ssl_client_handshake`. */
  function Do(cfg: Config, c: Client, inbox: seq<Rec>, v: Verdict): Out {
    match c.state
    case StartConnect => DoStartConnect(cfg, c, v)
    case EnterEarlyData => Go(c, ReadServerHello)
    case ReadServerHello => DoReadServerHello(cfg, c, inbox, v)
    case ReadServerCertificate => DoReadServerCertificate(c, inbox, v)
    case ReadCertificateStatus => DoReadCertificateStatus(c, inbox, v)
    case VerifyServerCertificate => DoVerifyServerCertificate(c, v)
    case ReadServerKeyExchange => DoReadServerKeyExchange(c, inbox, v)
    case ReadCertificateRequest => DoReadCertificateRequest(c, inbox, v)
    case ReadServerHelloDone => DoReadServerHelloDone(c, inbox, v)
    case SendClientCertificate => DoSendClientCertificate(cfg, c, v)
    case SendClientKeyExchange => DoSendClientKeyExchange(c, v)
    case SendClientCertificateVerify => DoSendClientCertificateVerify(cfg, c, v)
    case SendClientFinished => DoSendClientFinished(c, v)
    case FinishFlight => DoFinishFlight(c, v)
    case ReadSessionTicket => DoReadSessionTicket(c, inbox, v)
    case ProcessChangeCipherSpec => DoProcessChangeCipherSpec(c, v)
    case ReadServerFinished => DoReadServerFinished(c, inbox)
    case FinishClientHandshake => Go(c, Done)
    case Done => Stay(c, Ok)
  }
}
