/** Frames on the wire and the one-shot parser the incremental receiver is measured against. */
module Wire {
  import opened Codec

  const MESSAGE_MAGIC_NO: uint32 := 0xdeadbeef
  const MAX_MSG_PAYLOAD_SIZE: uint32 := 0x400_0000
  const HEADER_SIZE: nat := 12

  /** Message::Header with 32-bit ids, the default build. */
  datatype Header = Header(magic: uint32, id: uint32, len: uint32)

  datatype Message = Message(id: uint32, payload: seq<byte>)

  datatype Option<+T> = None | Some(value: T)

  /** What Encode accepts. */
  predicate Sendable(m: Message) {
    1 <= |m.payload| <= MAX_MSG_PAYLOAD_SIZE
  }

  function HeaderBytes(h: Header): (s: seq<byte>)
    ensures |s| == HEADER_SIZE
  {
    Bytes(h.magic, 4) + Bytes(h.id, 4) + Bytes(h.len, 4)
  }

  /** The header Encode gives a message; the length is a 32-bit word. */
  function HeaderOf(m: Message): Header {
    Header(MESSAGE_MAGIC_NO, m.id, |m.payload| % 0x1_0000_0000)
  }

  function Frame(m: Message): seq<byte> {
    HeaderBytes(HeaderOf(m)) + m.payload
  }

  function Frames(ms: seq<Message>): seq<byte> {
    if ms == [] then [] else Frame(ms[0]) + Frames(ms[1..])
  }

  /** DecodeMsgHeader on twelve bytes: the magic number must match and the length must not exceed 64 MiB. */
  function Decode(s: seq<byte>): Option<Header>
    requires |s| == HEADER_SIZE
  {
    ReadThenWrite(s[0..4]); ReadThenWrite(s[4..8]); ReadThenWrite(s[8..12]); Ranges();
    var h := Header(Value(s[0..4]), Value(s[4..8]), Value(s[8..12]));
    if h.magic != MESSAGE_MAGIC_NO || h.len > MAX_MSG_PAYLOAD_SIZE then None else Some(h)
  }

  /** Round trip of the header: every id, every length up to the limit. */
  lemma DecodeEncoded(h: Header)
    ensures Decode(HeaderBytes(h))
            == if h.magic == MESSAGE_MAGIC_NO && h.len <= MAX_MSG_PAYLOAD_SIZE then Some(h) else None
  {
    Ranges();
    WriteThenRead(h.magic, 4); WriteThenRead(h.id, 4); WriteThenRead(h.len, 4);
    var s := HeaderBytes(h);
    assert s[0..4] == Bytes(h.magic, 4) && s[4..8] == Bytes(h.id, 4) && s[8..12] == Bytes(h.len, 4);
  }

  /** A header the receiver accepts is the encoding of what it read. */
  lemma EncodeDecoded(s: seq<byte>)
    requires |s| == HEADER_SIZE && Decode(s).Some?
    ensures HeaderBytes(Decode(s).value) == s
  {
    ReadThenWrite(s[0..4]); ReadThenWrite(s[4..8]); ReadThenWrite(s[8..12]);
    assert s == s[0..4] + s[4..8] + s[8..12];
  }

  // The layout, byte by byte.

  const MAGIC_BYTES: seq<byte> := [0xde, 0xad, 0xbe, 0xef]

  lemma MagicBytes(s: seq<byte>)
    requires |s| == 4
    ensures Value(s) == 0xdeadbeef <==> s == MAGIC_BYTES
  {
    QuadOf(s, 0);
    QuadOf(MAGIC_BYTES, 0);
    assert s[0..4] == s && MAGIC_BYTES[0..4] == MAGIC_BYTES;
    ReadThenWrite(s);
    ReadThenWrite(MAGIC_BYTES);
  }

  /** A frame: the magic bytes, the id, the length of the payload, each most significant byte first; the payload. */
  lemma FrameLayout(m: Message)
    requires 1 <= |m.payload| <= 0x400_0000
    ensures Sendable(m) && |Frame(m)| == 12 + |m.payload|
    ensures Frame(m)[..4] == [0xde, 0xad, 0xbe, 0xef]
    ensures Quad(Frame(m), 4) == m.id && Quad(Frame(m), 8) == |m.payload| && Frame(m)[12..] == m.payload
  {
    hide HeaderBytes, Quad;
    var h, s := HeaderOf(m), Frame(m);
    HeaderLayout(h);
    var t := HeaderBytes(h);
    SameQuad(s, t, 4);
    SameQuad(s, t, 8);
    assert s[..4] == t[..4];
    QuadOf(t, 0);
    assert t[0..0 + 4] == t[..4];
    MagicBytes(t[..4]);
  }

  lemma SameQuad(s: seq<byte>, t: seq<byte>, i: nat)
    requires i + 4 <= |t| <= |s| && s[..|t|] == t
    ensures Quad(s, i) == Quad(t, i)
  {
    forall j | 0 <= j < |t|
      ensures s[j] == t[j]
    {
      assert s[..|t|][j] == s[j];
    }
  }

  /** The three words of a header: magic, id, length. */
  lemma HeaderLayout(h: Header)
    ensures Quad(HeaderBytes(h), 0) == h.magic && Quad(HeaderBytes(h), 4) == h.id && Quad(HeaderBytes(h), 8) == h.len
  {
    hide Quad;
    var t := HeaderBytes(h);
    Ranges();
    WriteThenRead(h.magic, 4); WriteThenRead(h.id, 4); WriteThenRead(h.len, 4);
    assert t[0..0 + 4] == Bytes(h.magic, 4) && t[4..4 + 4] == Bytes(h.id, 4) && t[8..8 + 4] == Bytes(h.len, 4);
    QuadOf(t, 0); QuadOf(t, 4); QuadOf(t, 8);
  }

  /** A header is accepted exactly for the magic bytes and a length of at most 64 MiB, and read from these places. */
  lemma DecodeLayout(s: seq<byte>)
    requires |s| == 12
    ensures Decode(s).Some? <==> s[..4] == [0xde, 0xad, 0xbe, 0xef] && Quad(s, 8) <= 0x400_0000
    ensures Decode(s).Some? ==> Decode(s).value == Header(0xdeadbeef, Quad(s, 4), Quad(s, 8))
  {
    assert s[0..4] == s[..4];
    MagicBytes(s[..4]);
    assert s[4..4 + 4] == s[4..8] && s[8..8 + 4] == s[8..12];
    QuadOf(s, 4);
    QuadOf(s, 8);
  }

  /** How a parse ends: more bytes needed; a header refused; or a zero-length payload, on which the memory pool's
      assertion stops the program. */
  datatype Status = More | Refused | Abort

  datatype Parsed = Parsed(msgs: seq<Message>, rest: seq<byte>, status: Status)

  /** What a stream starts with. */
  datatype Front = Incomplete | BadHeader | Zero | Whole(m: Message, rest: seq<byte>)

  function FrontOf(s: seq<byte>): (f: Front)
    ensures f.Whole? ==> |f.rest| < |s|
  {
    if |s| < HEADER_SIZE then Incomplete
    else match Decode(s[..HEADER_SIZE])
      case None => BadHeader
      case Some(h) =>
        if h.len == 0 then Zero
        else if |s| < HEADER_SIZE + h.len then Incomplete
        else Whole(Message(h.id, s[HEADER_SIZE..HEADER_SIZE + h.len]), s[HEADER_SIZE + h.len..])
  }

  /** Cut a stream into messages in one go. */
  function Parse(s: seq<byte>): Parsed
    decreases |s|, 1
  {
    ParseFront(s, FrontOf(s))
  }

  function ParseFront(s: seq<byte>, f: Front): Parsed
    requires f.Whole? ==> |f.rest| < |s|
    decreases |s|, 0
  {
    match f
    case Incomplete => Parsed([], s, More)
    case BadHeader => Parsed([], s, Refused)
    case Zero => Parsed([], s, Abort)
    case Whole(m, rest) => Prepend([m], Parse(rest))
  }

  function Prepend(ms: seq<Message>, p: Parsed): Parsed {
    p.(msgs := ms + p.msgs)
  }
}
