/** The frames on the wire and the two readers. */
module Frame {
  import opened Wrappers
  import opened Cbc

  const UINT32: int := 0x1_0000_0000

  type UInt32 = x: int | 0 <= x < UINT32

  // The members of EnMsgType that the server sends.
  const LOGIN_MSG_ACK: UInt32 := 3
  const REG_MSG: UInt32 := 4
  const REG_MSG_ACK: UInt32 := 5
  const ONE_CHAT_MSG: UInt32 := 6
  const GROUP_CHAT_MSG: UInt32 := 10
  const CREATE_GROUP_MSG_ACK: UInt32 := 11
  const ADD_GROUP_MSG_ACK: UInt32 := 12
  const ACK_MSG: UInt32 := 102

  datatype MsgHeader = MsgHeader(msgLength: UInt32, msgType: UInt32, msgId: UInt32, isEncrypted: UInt32)

  const HEADER: nat := 16

  // ---------- little-endian words ----------

  function Word(n: UInt32): (r: Bytes)
    ensures |r| == 4
  {
    var n1 := n / 256;
    var n2 := n1 / 256;
    [n % 256, n1 % 256, n2 % 256, n2 / 256]
  }

  function WordValue(b: Bytes): UInt32
    requires |b| == 4
  {
    b[0] as int + 256 * (b[1] as int + 256 * (b[2] as int + 256 * (b[3] as int)))
  }

  lemma WordValueAfterWord(n: UInt32)
    ensures WordValue(Word(n)) == n
  {
  }

  lemma WordAfterWordValue(b: Bytes)
    requires |b| == 4
    ensures Word(WordValue(b)) == b
  {
    var n2: int := b[2] as int + 256 * (b[3] as int);
    var n1: int := b[1] as int + 256 * n2;
    assert WordValue(b) / 256 == n1 && n1 / 256 == n2;
  }

  /** The lowest byte comes first. */
  lemma LittleEndian(n: UInt32)
    ensures Word(n)[0] == n % 0x100 && Word(n)[1] == n / 0x100 % 0x100
    ensures Word(n)[2] == n / 0x1_0000 % 0x100 && Word(n)[3] == n / 0x100_0000
  {
    assert n / 256 / 256 == n / 0x1_0000 && n / 256 / 256 / 256 == n / 0x100_0000;
  }

  function HeaderBytes(h: MsgHeader): (r: Bytes)
    ensures |r| == HEADER
  {
    Word(h.msgLength) + Word(h.msgType) + Word(h.msgId) + Word(h.isEncrypted)
  }

  function ParseHeader(b: Bytes): MsgHeader
    requires |b| >= HEADER
  {
    MsgHeader(WordValue(b[..4]), WordValue(b[4..8]), WordValue(b[8..12]), WordValue(b[12..16]))
  }

  lemma ParseAfterHeaderBytes(h: MsgHeader, rest: Bytes)
    ensures ParseHeader(HeaderBytes(h) + rest) == h
  {
    var b := HeaderBytes(h) + rest;
    assert b[..4] == Word(h.msgLength);
    assert b[4..8] == Word(h.msgType);
    assert b[8..12] == Word(h.msgId);
    assert b[12..16] == Word(h.isEncrypted);
    WordValueAfterWord(h.msgLength);
    WordValueAfterWord(h.msgType);
    WordValueAfterWord(h.msgId);
    WordValueAfterWord(h.isEncrypted);
  }

  /** The fields of `MsgHeader` in the order of their declaration, without gaps. */
  lemma HeaderLayout(h: MsgHeader)
    ensures var b := HeaderBytes(h);
            && b[0..4] == Word(h.msgLength) && b[4..8] == Word(h.msgType)
            && b[8..12] == Word(h.msgId) && b[12..16] == Word(h.isEncrypted)
  {
  }

  // ---------- writing ----------

  /** The frame around a cipher text. The length field is 32 bits wide. */
  function MakeFrame(cipher: Bytes, msgType: UInt32, msgId: UInt32): Bytes {
    HeaderBytes(MsgHeader((HEADER + |cipher|) % UINT32, msgType, msgId, 1)) + cipher
  }

  function MessageFrame(c: Cipher, iv: Block, p: Bytes, msgType: UInt32, msgId: UInt32): Bytes {
    MakeFrame(Encrypted(c, iv, p), msgType, msgId)
  }

  // ---------- reading ----------

  /** How a reader ends: the connection is closed, an exception leaves the reader, or it has a text for
      the JSON parser. */
  datatype ReadEnd = Closed | Thrown | Text(text: Bytes)

  function DecryptedText(c: Cipher, payload: Bytes): ReadEnd {
    match Decrypted(c, payload)
    case None => Thrown
    case Some(p) => Text(p)
  }

  /** `ChatServer::onMessage`: all bytes of the buffer are one frame, whatever the length field says. */
  function ServerRead(c: Cipher, buffer: Bytes): ReadEnd {
    if |buffer| < HEADER then Closed
    else if ParseHeader(buffer).isEncrypted == 1 then
      match DecryptedText(c, buffer[HEADER..])
      case Text(p) => if p == [] then Closed else Text(p)
      case other => other
    else Text(buffer[HEADER..])
  }

  const RECV_MAX: nat := 4096

  /** One round of `readTaskHandler`: a single `recv` of at most 4096 bytes must bring the whole frame. A
      length field below the header size wraps around and selects the rest of the buffer. */
  function ClientRead(c: Cipher, arrived: Bytes): ReadEnd {
    var buffer := if |arrived| > RECV_MAX then arrived[..RECV_MAX] else arrived;
    if |buffer| < HEADER then Closed
    else
      var h := ParseHeader(buffer);
      if |buffer| < h.msgLength then Closed
      else
        var payload := if h.msgLength < HEADER then buffer[HEADER..] else buffer[HEADER..h.msgLength];
        if h.isEncrypted == 1 then DecryptedText(c, payload) else Text(payload)
  }

  lemma FrameShape(c: Cipher, iv: Block, p: Bytes, msgType: UInt32, msgId: UInt32)
    ensures var f := MessageFrame(c, iv, p, msgType, msgId);
            && |f| == HEADER + BLOCK + BLOCK * (|p| / BLOCK + 1)
            && ParseHeader(f) == MsgHeader(|f| % UINT32, msgType, msgId, 1)
            && f[HEADER..] == Encrypted(c, iv, p)
  {
    var cipher := Encrypted(c, iv, p);
    ParseAfterHeaderBytes(MsgHeader((HEADER + |cipher|) % UINT32, msgType, msgId, 1), cipher);
  }

  /** The server recovers every text from its frame, except the empty one. */
  lemma ServerRecovers(c: Cipher, iv: Block, p: Bytes, msgType: UInt32, msgId: UInt32)
    requires c.Valid()
    ensures ServerRead(c, MessageFrame(c, iv, p, msgType, msgId)) == if p == [] then Closed else Text(p)
  {
    FrameShape(c, iv, p, msgType, msgId);
    RoundTrip(c, iv, p);
  }

  /** What the server makes of a frame does not depend on the length, type and id in its header. */
  lemma ServerReadsOnlyTheFlag(c: Cipher, h: MsgHeader, k: MsgHeader, payload: Bytes)
    requires h.isEncrypted == k.isEncrypted
    ensures ServerRead(c, HeaderBytes(h) + payload) == ServerRead(c, HeaderBytes(k) + payload)
    ensures h.isEncrypted != 1 ==> ServerRead(c, HeaderBytes(h) + payload) == Text(payload)
  {
    ParseAfterHeaderBytes(h, payload);
    ParseAfterHeaderBytes(k, payload);
    assert (HeaderBytes(h) + payload)[HEADER..] == payload && (HeaderBytes(k) + payload)[HEADER..] == payload;
    hide ParseHeader, HeaderBytes, DecryptedText;
  }

  /** The client reads an unencrypted text back exactly when the frame fits one `recv` and the length field
      is right, or wraps around below the header size. */
  lemma ClientReadsPlain(c: Cipher, h: MsgHeader, payload: Bytes)
    requires h.isEncrypted != 1
    ensures ClientRead(c, HeaderBytes(h) + payload) == Text(payload) <==>
            HEADER + |payload| <= RECV_MAX && (h.msgLength < HEADER || h.msgLength == HEADER + |payload|)
  {
    var f := HeaderBytes(h) + payload;
    ParseAfterHeaderBytes(h, payload);
    assert f[HEADER..] == payload;
    if |f| >= RECV_MAX { HeaderOfPrefix(f); }
    hide ParseHeader, HeaderBytes;
    if |f| <= RECV_MAX && HEADER <= h.msgLength <= |f| {
      assert |f[HEADER..h.msgLength]| == h.msgLength - HEADER;
      if h.msgLength == |f| { assert f[HEADER..h.msgLength] == payload; }
    }
  }

  lemma DecryptedIsShorter(c: Cipher, q: Bytes)
    ensures Decrypted(c, q).Some? ==> |Decrypted(c, q).value| < |q|
  {
  }

  lemma ShortFrame(n: nat)
    ensures HEADER + BLOCK + BLOCK * (n / BLOCK + 1) <= RECV_MAX <==> n <= 4063
  {
  }

  lemma HeaderOfPrefix(f: Bytes)
    requires |f| >= RECV_MAX
    ensures ParseHeader(f[..RECV_MAX]) == ParseHeader(f)
  {
    var b := f[..RECV_MAX];
    assert b[..4] == f[..4] && b[4..8] == f[4..8] && b[8..12] == f[8..12] && b[12..16] == f[12..16];
  }

  /** The client recovers exactly the texts of at most 4063 bytes: longer frames do not fit one `recv`. */
  lemma ClientRecovers(c: Cipher, iv: Block, p: Bytes, msgType: UInt32, msgId: UInt32)
    requires c.Valid()
    ensures ClientRead(c, MessageFrame(c, iv, p, msgType, msgId)) == Text(p) <==> |p| <= 4063
  {
    hide Decrypted, Encrypted, MessageFrame, ParseHeader;
    var f := MessageFrame(c, iv, p, msgType, msgId);
    FrameShape(c, iv, p, msgType, msgId);
    ShortFrame(|p|);
    if |p| <= 4063 {
      assert f[HEADER..|f|] == f[HEADER..];
      RoundTrip(c, iv, p);
    } else {
      HeaderOfPrefix(f);
      var buffer, length := f[..RECV_MAX], |f| % UINT32;
      DecryptedIsShorter(c, if length < HEADER || length > RECV_MAX then buffer[HEADER..] else buffer[HEADER..length]);
    }
  }
}
