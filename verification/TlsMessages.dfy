/** The records of a TLS 1.2 handshake, and what the two sides keep in common. */
module TlsMessages {
  import opened Basics

  /** A cipher suite: it uses certificates or a pre-shared key, and an ephemeral key exchange or none. */
  datatype Cipher = Cipher(value: nat, certAuth: bool, ecdhe: bool)

  /** The empty session identifier is 0. */
  datatype Session = Session(id: nat, cipher: Cipher)

  /** A Finished message stands for the transcript that its keyed hash covers and for the side that made it. */
  datatype Msg =
    | ClientHello(sessionId: nat)
    | ServerHello(sessionId: nat, cipher: Cipher, ocsp: bool, ticket: bool, npn: bool, channelId: bool)
    | Certificate(empty: bool)
    | CertificateStatus
    | ServerKeyExchange
    | CertificateRequest
    | ServerHelloDone
    | ClientKeyExchange
    | CertificateVerify
    | NextProto
    | ChannelId
    | NewSessionTicket
    | Finished(fromServer: bool, covers: seq<Msg>)

  datatype Rec = Hs(msg: Msg) | Ccs

  /** What the state machine waits for (`ssl_hs_wait_t`). All operations that an application resumes are `Paused`. */
  datatype Wait = Ok | Flush | ReadMessage | ReadCcs | Paused | Failed

  /** How a callback, a check of a certificate, a signature or a message body comes out. */
  datatype Verdict = Pass | Refuse | Later

  /** `get_message`: the next record, if it is a handshake message. */
  function Peek(inbox: seq<Rec>): Option<Msg> {
    if inbox != [] && inbox[0].Hs? then Some(inbox[0].msg) else None
  }
}
