/** The byte layout of a DTLS handshake fragment: writing and parsing the twelve-byte header. */
module HandshakeWire {
  import opened Basics

  /** `DTLS1_HM_HEADER_LENGTH`. */
  const HEADER_LENGTH: nat := 12

  /** A handshake message as the sender numbers it. */
  datatype Message = Message(typ: byte, body: seq<byte>)

  /** A parsed fragment: `hm_header_st` and the fragment body. */
  datatype Piece = Piece(typ: byte, msgLen: nat, num: nat, off: nat, body: seq<byte>)

  /** Lengths are written in 24 bits and message numbers in 16. */
  predicate FitsHeader(msgLen: nat, num: nat) {
    msgLen < 0x100_0000 && num < 0x1_0000
  }

  function U16(n: nat): (s: seq<byte>)
    requires n < 0x1_0000
    ensures |s| == 2 && ReadU16(s) == n
  {
    [n / 256, n % 256]
  }

  function U24(n: nat): (s: seq<byte>)
    requires n < 0x100_0000
    ensures |s| == 3 && ReadU24(s) == n
  {
    var s := U16(n / 256) + [n % 256];
    assert s[..2] == U16(n / 256);
    s
  }

  function ReadU16(s: seq<byte>): (n: nat)
    requires |s| == 2
    ensures n < 0x1_0000
  {
    (s[0] as int) * 256 + s[1]
  }

  function ReadU24(s: seq<byte>): (n: nat)
    requires |s| == 3
    ensures n < 0x100_0000
  {
    ReadU16(s[..2]) * 256 + s[2]
  }

  function Header(typ: byte, msgLen: nat, num: nat, off: nat, len: nat): (h: seq<byte>)
    requires FitsHeader(msgLen, num) && off < 0x100_0000 && len < 0x100_0000
    ensures |h| == HEADER_LENGTH
  {
    [typ] + U24(msgLen) + U16(num) + U24(off) + U24(len)
  }

  /** `dtls1_parse_fragment`: the fragment at the front of `s` and what follows it. */
  function ParsePiece(s: seq<byte>): (r: Option<(Piece, seq<byte>)>)
    ensures r.Some? ==> |r.value.1| < |s| && FitsHeader(r.value.0.msgLen, r.value.0.num)
  {
    if |s| < HEADER_LENGTH then None
    else
      var len := ReadU24(s[9..12]);
      if |s| - HEADER_LENGTH < len then None
      else
        Some((Piece(s[0], ReadU24(s[1..4]), ReadU16(s[4..6]), ReadU24(s[6..9]),
                    s[HEADER_LENGTH..HEADER_LENGTH + len]),
              s[HEADER_LENGTH + len..]))
  }

  /** The lengths and numbers of a fragment fit the header fields. */
  predicate Fits(p: Piece) {
    FitsHeader(p.msgLen, p.num) && p.off < 0x100_0000 && |p.body| < 0x100_0000
  }

  /** The bytes of a fragment. */
  function WritePiece(p: Piece): (s: seq<byte>)
    requires Fits(p)
  {
    Header(p.typ, p.msgLen, p.num, p.off, |p.body|) + p.body
  }

  /** The fragment of message number `num` that starts at `off` and carries `len` body bytes. */
  function PieceOf(m: Message, num: nat, off: nat, len: nat): (p: Piece)
    requires FitsHeader(|m.body|, num) && off + len <= |m.body|
    ensures Fits(p)
  {
    Piece(m.typ, |m.body|, num, off, m.body[off..off + len])
  }

  /** `dtls1_init_message` and `dtls1_finish_message`: the whole message as one fragment. */
  function WriteMessage(m: Message, num: nat): (s: seq<byte>)
    requires FitsHeader(|m.body|, num)
  {
    WritePiece(PieceOf(m, num, 0, |m.body|))
  }

  lemma {:induction false} HeaderParts(typ: byte, msgLen: nat, num: nat, off: nat, len: nat)
    requires FitsHeader(msgLen, num) && off < 0x100_0000 && len < 0x100_0000
    ensures var h := Header(typ, msgLen, num, off, len);
      h[0] == typ && h[1..4] == U24(msgLen) && h[4..6] == U16(num) && h[6..9] == U24(off) && h[9..12] == U24(len)
  {
    var (a, b) := ([typ] + U24(msgLen), U24(off) + U24(len));
    var h := Header(typ, msgLen, num, off, len);
    assert h == a + U16(num) + b;
    assert h[1..4] == a[1..4] && h[6..9] == b[..3] && h[9..12] == b[3..6];
  }

  /** Parsing inverts writing, whatever follows the fragment. */
  lemma {:induction false} ParseWritten(p: Piece, rest: seq<byte>)
    requires Fits(p)
    ensures ParsePiece(WritePiece(p) + rest) == Some((p, rest))
  {
    var s := WritePiece(p) + rest;
    var len := |p.body|;
    HeaderParts(p.typ, p.msgLen, p.num, p.off, len);
    var h := Header(p.typ, p.msgLen, p.num, p.off, len);
    assert s[..HEADER_LENGTH] == h;
    assert s[1..4] == h[1..4] && s[4..6] == h[4..6] && s[6..9] == h[6..9] && s[9..12] == h[9..12];
    assert s[1..4] == U24(p.msgLen);
    assert s[4..6] == U16(p.num);
    assert s[6..9] == U24(p.off);
    assert s[9..12] == U24(len);
    assert s[HEADER_LENGTH..HEADER_LENGTH + len] == p.body;
    assert s[HEADER_LENGTH + len..] == rest;
  }

  /** The twelve bytes of the header by position, the most significant one of each number first, and then the body. */
  lemma {:induction false} PieceBytes(p: Piece)
    requires Fits(p)
    ensures var (s, len) := (WritePiece(p), |p.body|);
      && |s| == 12 + len && s[0] == p.typ
      && s[1] == p.msgLen / 0x1_0000 && s[2] == p.msgLen / 0x100 % 0x100 && s[3] == p.msgLen % 0x100
      && s[4] == p.num / 0x100 && s[5] == p.num % 0x100
      && s[6] == p.off / 0x1_0000 && s[7] == p.off / 0x100 % 0x100 && s[8] == p.off % 0x100
      && s[9] == len / 0x1_0000 && s[10] == len / 0x100 % 0x100 && s[11] == len % 0x100
      && s[12..] == p.body
  {
    U24Bytes(p.msgLen);
    U24Bytes(p.off);
    U24Bytes(|p.body|);
    var s := WritePiece(p);
    HeaderParts(p.typ, p.msgLen, p.num, p.off, |p.body|);
    var h := Header(p.typ, p.msgLen, p.num, p.off, |p.body|);
    assert s[1..4] == h[1..4] && s[4..6] == h[4..6] && s[6..9] == h[6..9] && s[9..12] == h[9..12];
    assert s[1..4] == U24(p.msgLen);
    assert s[4..6] == U16(p.num);
    assert s[6..9] == U24(p.off);
    assert s[9..12] == U24(|p.body|);
    assert s[12..] == p.body;
  }

  lemma {:induction false} U24Bytes(n: nat)
    requires n < 0x100_0000
    ensures U24(n) == [n / 0x1_0000, n / 0x100 % 0x100, n % 0x100]
  {
    assert n / 0x100 / 0x100 == n / 0x1_0000;
  }

  /** What is parsed from any bytes: a fragment if and only if the header is there and as much of a body as it says. */
  lemma {:induction false} ParsedBytes(s: seq<byte>)
    ensures ParsePiece(s).Some? <==> |s| >= 12 && |s| - 12 >= Three(s[9], s[10], s[11])
    ensures ParsePiece(s).Some? ==>
      var (p, rest) := ParsePiece(s).value;
      && p.typ == s[0] && p.msgLen == Three(s[1], s[2], s[3]) && p.num == Three(0, s[4], s[5])
      && p.off == Three(s[6], s[7], s[8]) && |p.body| == Three(s[9], s[10], s[11])
      && s[12..] == p.body + rest
  {
    if |s| >= 12 {
      U24Value(s[1..4]);
      U24Value(s[6..9]);
      U24Value(s[9..12]);
    }
  }

  function Three(a: nat, b: nat, c: nat): nat {
    0x1_0000 * a + 0x100 * b + c
  }

  lemma {:induction false} U24Value(s: seq<byte>)
    requires |s| == 3
    ensures ReadU24(s) == Three(s[0], s[1], s[2])
  {
  }
}
