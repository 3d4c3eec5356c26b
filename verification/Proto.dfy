/** The peer wire messages of `src/proto`. */
module Proto {
  import opened Bytes
  import opened Wrappers

  const TWO_32 := 0x1_0000_0000
  type u32 = n: int | 0 <= n < TWO_32

  const HEADER_SIZE := 5
  const HANDSHAKE_SIZE := 68

  // Numbers, the most significant byte first.

  function Pack32(value: u32): (packed: Bytes)
    ensures |packed| == 4
  {
    [value / 0x100_0000, value / 0x1_0000 % 0x100, value / 0x100 % 0x100, value % 0x100]
  }

  function Number(b0: int, b1: int, b2: int, b3: int): int {
    b0 * 0x100_0000 + b1 * 0x1_0000 + b2 * 0x100 + b3
  }

  function Unpack32(msg: Bytes): u32
    requires |msg| >= 4
  {
    Number(msg[0], msg[1], msg[2], msg[3])
  }

  lemma Nested(n: nat)
    ensures n / 0x1_0000 == n / 0x100 / 0x100
  {
    var a := n / 0x100;
    var b := a / 0x100;
    assert 0 <= n - 0x1_0000 * b < 0x1_0000;
  }

  lemma NumberOfParts(n: nat)
    ensures Number(n / 0x100_0000, n / 0x1_0000 % 0x100, n / 0x100 % 0x100, n % 0x100) == n
  {
    var a := n / 0x100;
    var b := a / 0x100;
    var c := b / 0x100;
    Nested(n);
    assert n / 0x100_0000 == c by {
      assert 0 <= n - 0x100_0000 * c < 0x100_0000;
    }
    assert n == 0x100 * a + n % 0x100 && a == 0x100 * b + a % 0x100 && b == 0x100 * c + b % 0x100;
  }

  lemma Unpack32OfPack32(value: u32, t: Bytes)
    ensures Unpack32(Pack32(value) + t) == value
  {
    hide Number;
    var s, p := Pack32(value) + t, Pack32(value);
    NumberOfParts(value);
    assert s[0] == p[0] && s[1] == p[1] && s[2] == p[2] && s[3] == p[3];
  }

  lemma Pack32OfUnpack32(msg: Bytes)
    requires |msg| >= 4
    ensures Pack32(Unpack32(msg)) == msg[..4]
  {
    hide Number;
    PartsOfNumber(msg[0], msg[1], msg[2], msg[3]);
  }

  lemma PartsOfNumber(b0: int, b1: int, b2: int, b3: int)
    requires 0 <= b0 < 256 && 0 <= b1 < 256 && 0 <= b2 < 256 && 0 <= b3 < 256
    ensures var n := Number(b0, b1, b2, b3);
            n / 0x100_0000 == b0 && n / 0x1_0000 % 0x100 == b1 && n / 0x100 % 0x100 == b2 && n % 0x100 == b3
  {
    var n := Number(b0, b1, b2, b3);
    assert n / 0x100_0000 == b0;
    assert n / 0x1_0000 == b0 * 0x100 + b1;
    assert n / 0x100 == b0 * 0x1_0000 + b1 * 0x100 + b2;
  }

  // Messages.

  datatype MsgId = Choke | Unchoke | Interested | NotInterested | Have | Bitfield | Request | Piece | Cancel

  function IdByte(id: MsgId): (b: byte)
    ensures b < 9
  {
    match id
    case Choke => 0
    case Unchoke => 1
    case Interested => 2
    case NotInterested => 3
    case Have => 4
    case Bitfield => 5
    case Request => 6
    case Piece => 7
    case Cancel => 8
  }

  /** `enum_cast<MsgId>`. */
  function IdOf(b: byte): (id: Option<MsgId>)
    ensures id.Some? <==> b < 9
    ensures id.Some? ==> IdByte(id.value) == b
  {
    match b
    case 0 => Some(Choke)
    case 1 => Some(Unchoke)
    case 2 => Some(Interested)
    case 3 => Some(NotInterested)
    case 4 => Some(Have)
    case 5 => Some(Bitfield)
    case 6 => Some(Request)
    case 7 => Some(Piece)
    case 8 => Some(Cancel)
    case _ => None
  }

  datatype Header = Header(id: MsgId, bodyLength: u32)

  /** `OutOfBounds` is the read past the end that a bad handshake prefix causes. */
  datatype Error = IncompleteMessage | MalformedMessage | UnknownMessageId | OutOfBounds

  /** The length is cut to 32 bits. */
  function PackHeader(id: MsgId, length: nat): (packed: Bytes)
    ensures |packed| == HEADER_SIZE
  {
    Pack32(length % TWO_32) + [IdByte(id)]
  }

  function UnpackHeader(msg: Bytes): Result<Header, Error> {
    if |msg| < HEADER_SIZE then Failure(IncompleteMessage)
    else
      var length := Unpack32(msg);
      if length < 1 then Failure(MalformedMessage)
      else
        var id := IdOf(msg[4]);
        if id.None? then Failure(UnknownMessageId) else Success(Header(id.value, length - 1))
  }

  function PackInterested(): Bytes { PackHeader(Interested, 1) }

  function PackRequest(pieceIdx: u32, begin: u32, length: u32): (msg: Bytes)
    ensures |msg| == 17
  {
    var body := Pack32(pieceIdx) + Pack32(begin) + Pack32(length);
    PackHeader(Request, |body| + 1) + body
  }

  function PackHave(pieceIdx: u32): Bytes {
    var body := Pack32(pieceIdx);
    PackHeader(Have, |body| + 1) + body
  }

  datatype PieceMsg = PieceMsg(index: u32, begin: u32, block: Bytes)

  function UnpackPiece(msg: Bytes): Result<PieceMsg, Error> {
    if |msg| < 8 then Failure(IncompleteMessage)
    else Success(PieceMsg(Unpack32(msg), Unpack32(msg[4..]), msg[8..]))
  }

  /** What a peer sends for a block; the client only unpacks it. */
  function PieceBody(index: u32, begin: u32, block: Bytes): Bytes {
    Pack32(index) + Pack32(begin) + block
  }

  lemma UnpackPieceOfBody(index: u32, begin: u32, block: Bytes)
    ensures UnpackPiece(PieceBody(index, begin, block)) == Success(PieceMsg(index, begin, block))
  {
    var msg := PieceBody(index, begin, block);
    assert msg == Pack32(index) + (Pack32(begin) + block) && msg[4..] == Pack32(begin) + block && msg[8..] == block;
    Unpack32OfPack32(index, Pack32(begin) + block);
    Unpack32OfPack32(begin, block);
  }

  function UnpackHave(msg: Bytes): Result<u32, Error> {
    if |msg| < 4 then Failure(IncompleteMessage) else Success(Unpack32(msg))
  }

  lemma HaveRoundTrip(pieceIdx: u32)
    ensures var msg := PackHave(pieceIdx);
            UnpackHeader(msg[..5]) == Success(Header(Have, 4)) && UnpackHave(msg[5..]) == Success(pieceIdx)
  {
    var msg := PackHave(pieceIdx);
    HeaderRoundTrip(Have, 4, []);
    assert msg[..5] == PackHeader(Have, 5) + [];
    assert msg[5..] == Pack32(pieceIdx) + [];
    Unpack32OfPack32(pieceIdx, []);
  }

  /** What the client asks for is what a peer reads. */
  lemma RequestRoundTrip(pieceIdx: u32, begin: u32, length: u32)
    ensures var msg := PackRequest(pieceIdx, begin, length);
            && UnpackHeader(msg[..5]) == Success(Header(Request, 12))
            && Unpack32(msg[5..]) == pieceIdx && Unpack32(msg[9..]) == begin && Unpack32(msg[13..]) == length
  {
    var msg := PackRequest(pieceIdx, begin, length);
    HeaderRoundTrip(Request, 12, []);
    assert msg[..5] == PackHeader(Request, 13) + [];
    assert msg[5..] == Pack32(pieceIdx) + (Pack32(begin) + Pack32(length));
    assert msg[9..] == Pack32(begin) + Pack32(length);
    assert msg[13..] == Pack32(length) + [];
    Unpack32OfPack32(pieceIdx, Pack32(begin) + Pack32(length));
    Unpack32OfPack32(begin, Pack32(length));
    Unpack32OfPack32(length, []);
  }

  /** The messages of the client, byte for byte. */
  lemma WireFormats(pieceIdx: u32, begin: u32, length: u32)
    ensures PackInterested() == [0, 0, 0, 1, 2]
    ensures PackHave(pieceIdx) == [0, 0, 0, 5, 4] + Pack32(pieceIdx)
    ensures PackRequest(pieceIdx, begin, length)
            == [0, 0, 0, 13, 6] + (Pack32(pieceIdx) + Pack32(begin) + Pack32(length))
  {
    assert Pack32(1) == [0, 0, 0, 1] && Pack32(5) == [0, 0, 0, 5] && Pack32(13) == [0, 0, 0, 13];
  }

  /** The numbers of all message ids, on the wire and off it. */
  lemma IdNumbers(n: nat)
    requires n + 1 < TWO_32
    ensures var p := Pack32(n + 1);
            && UnpackHeader(p + [0]) == Success(Header(Choke, n)) && PackHeader(Choke, n + 1) == p + [0]
            && UnpackHeader(p + [1]) == Success(Header(Unchoke, n)) && PackHeader(Unchoke, n + 1) == p + [1]
            && UnpackHeader(p + [2]) == Success(Header(Interested, n)) && PackHeader(Interested, n + 1) == p + [2]
            && UnpackHeader(p + [3]) == Success(Header(NotInterested, n)) && PackHeader(NotInterested, n + 1) == p + [3]
            && UnpackHeader(p + [4]) == Success(Header(Have, n)) && PackHeader(Have, n + 1) == p + [4]
            && UnpackHeader(p + [5]) == Success(Header(Bitfield, n)) && PackHeader(Bitfield, n + 1) == p + [5]
            && UnpackHeader(p + [6]) == Success(Header(Request, n)) && PackHeader(Request, n + 1) == p + [6]
            && UnpackHeader(p + [7]) == Success(Header(Piece, n)) && PackHeader(Piece, n + 1) == p + [7]
            && UnpackHeader(p + [8]) == Success(Header(Cancel, n)) && PackHeader(Cancel, n + 1) == p + [8]
  {
    hide Unpack32, Pack32;
    Unpack32OfPack32(n + 1, [0]);
    Unpack32OfPack32(n + 1, [1]);
    Unpack32OfPack32(n + 1, [2]);
    Unpack32OfPack32(n + 1, [3]);
    Unpack32OfPack32(n + 1, [4]);
    Unpack32OfPack32(n + 1, [5]);
    Unpack32OfPack32(n + 1, [6]);
    Unpack32OfPack32(n + 1, [7]);
    Unpack32OfPack32(n + 1, [8]);
  }

  /** Four bytes are a number with the most significant first. */
  lemma BigEndian(msg: Bytes)
    requires |msg| >= 4
    ensures var b0: int, b1: int, b2: int, b3: int := msg[0], msg[1], msg[2], msg[3];
            Unpack32(msg) == b0 * 0x100_0000 + b1 * 0x1_0000 + b2 * 0x100 + b3
  {
  }

  /** Which header is refused, and how. */
  lemma HeaderErrors(msg: Bytes)
    ensures UnpackHeader(msg) == Failure(IncompleteMessage) <==> |msg| < 5
    ensures UnpackHeader(msg) == Failure(MalformedMessage) <==> |msg| >= 5 && msg[..4] == [0, 0, 0, 0]
    ensures UnpackHeader(msg) == Failure(UnknownMessageId) <==>
              |msg| >= 5 && msg[..4] != [0, 0, 0, 0] && msg[4] > 8
    ensures UnpackHeader(msg).Failure? ==>
              UnpackHeader(msg).error in {IncompleteMessage, MalformedMessage, UnknownMessageId}
  {
    if |msg| >= 4 {
      ZeroIsZeros(msg);
    }
  }

  lemma ZeroIsZeros(msg: Bytes)
    requires |msg| >= 4
    ensures Unpack32(msg) == 0 <==> msg[..4] == [0, 0, 0, 0]
  {
    BigEndian(msg);
    assert msg[..4] == [msg[0], msg[1], msg[2], msg[3]];
  }

  /** The body of a block: index, offset, and the rest; and of a Have: the index. */
  lemma BodyLayouts(msg: Bytes)
    ensures UnpackPiece(msg) == if |msg| < 8 then Failure(IncompleteMessage)
                                else Success(PieceMsg(Unpack32(msg[..4]), Unpack32(msg[4..8]), msg[8..]))
    ensures UnpackHave(msg) == if |msg| < 4 then Failure(IncompleteMessage) else Success(Unpack32(msg[..4]))
  {
  }

  // The handshake.

  /** "BitTorrent protocol" */
  const PROTOCOL: Bytes :=
    [0x42, 0x69, 0x74, 0x54, 0x6f, 0x72, 0x72, 0x65, 0x6e, 0x74, 0x20, 0x70, 0x72, 0x6f, 0x74, 0x6f, 0x63, 0x6f, 0x6c]

  const RESERVED: Bytes := [0, 0, 0, 0, 0, 0, 0, 0]

  datatype Handshake = Handshake(infoHash: Bytes, peerId: Bytes)

  function PackHandshake(infoHash: Bytes, peerId: Bytes): Bytes
    requires IsHexText(infoHash)
  {
    [|PROTOCOL|] + PROTOCOL + RESERVED + FromHex(infoHash) + peerId
  }

  function UnpackHandshake(msg: Bytes): Result<Handshake, Error> {
    if |msg| < HANDSHAKE_SIZE then Failure(IncompleteMessage)
    else
      var prefix: int := msg[0];
      var hash := 1 + prefix + 8;
      if hash + 40 > |msg| then Failure(OutOfBounds)
      else Success(Handshake(ToHex(msg[hash..hash + 20]), ToHex(msg[hash + 20..hash + 40])))
  }

  /** The layout of the handshake, and unpacking it gives the hash back and the peer id in hexadecimal. */
  lemma HandshakeRoundTrip(infoHash: Bytes, peerId: Bytes)
    requires IsHexText(infoHash) && |infoHash| == 40 && |peerId| == 20
    ensures var msg := PackHandshake(infoHash, peerId);
            && |msg| == HANDSHAKE_SIZE
            && msg[0] == 19 && msg[1..20] == PROTOCOL && msg[20..28] == RESERVED
            && ToHex(msg[28..48]) == infoHash && msg[48..] == peerId
            && UnpackHandshake(msg) == Success(Handshake(infoHash, ToHex(peerId)))
  {
    var msg := PackHandshake(infoHash, peerId);
    ToHexOfFromHex(infoHash);
    assert msg[28..48] == FromHex(infoHash) && msg[48..68] == peerId;
    assert msg[1..20] == PROTOCOL && msg[20..28] == RESERVED;
  }

  // The stream of messages.

  lemma FrontIs()
    ensures [|PROTOCOL|] + PROTOCOL + RESERVED
            == [19, 0x42, 0x69, 0x74, 0x54, 0x6f, 0x72, 0x72, 0x65, 0x6e, 0x74, 0x20, 0x70, 0x72, 0x6f, 0x74, 0x6f,
                0x63, 0x6f, 0x6c, 0, 0, 0, 0, 0, 0, 0, 0]
  {
  }

  /** The first twenty-eight bytes: 19, "BitTorrent protocol", and eight zeros. */
  lemma HandshakeStart(infoHash: Bytes, peerId: Bytes)
    requires IsHexText(infoHash)
    ensures PackHandshake(infoHash, peerId)
            == [19, 0x42, 0x69, 0x74, 0x54, 0x6f, 0x72, 0x72, 0x65, 0x6e, 0x74, 0x20, 0x70, 0x72, 0x6f, 0x74, 0x6f,
                0x63, 0x6f, 0x6c, 0, 0, 0, 0, 0, 0, 0, 0] + FromHex(infoHash) + peerId
  {
    hide FromHex;
    FrontIs();
  }

  /** The hash and the peer id are read behind the prefix and eight bytes, whatever these are. */
  lemma UnpackHandshakeReads(msg: Bytes)
    ensures UnpackHandshake(msg) ==
              if |msg| < 68 then Failure(IncompleteMessage)
              else
                var prefix: int := msg[0];
                if 49 + prefix > |msg| then Failure(OutOfBounds)
                else Success(Handshake(ToHex(msg[9 + prefix..29 + prefix]), ToHex(msg[29 + prefix..49 + prefix])))
  {
  }

  datatype Message = Message(id: MsgId, body: Bytes)

  predicate Fits(m: Message) {
    |m.body| + 1 < TWO_32
  }

  function Frame(m: Message): (f: Bytes)
    ensures |f| == HEADER_SIZE + |m.body|
  {
    PackHeader(m.id, |m.body| + 1) + m.body
  }

  function Frames(ms: seq<Message>): Bytes {
    if ms == [] then [] else Frame(ms[0]) + Frames(ms[1..])
  }

  /** Repeatedly a header, then as many bytes as it says. */
  function Split(s: Bytes): Option<seq<Message>>
    decreases |s|
  {
    if s == [] then Some([])
    else if |s| < HEADER_SIZE then None
    else
      var h := UnpackHeader(s[..HEADER_SIZE]);
      if h.Failure? || |s| < HEADER_SIZE + h.value.bodyLength then None
      else
        var end := HEADER_SIZE + h.value.bodyLength;
        var rest := Split(s[end..]);
        if rest.None? then None else Some([Message(h.value.id, s[HEADER_SIZE..end])] + rest.value)
  }

  lemma HeaderRoundTrip(id: MsgId, n: nat, t: Bytes)
    requires n + 1 < TWO_32
    ensures UnpackHeader(PackHeader(id, n + 1) + t) == Success(Header(id, n))
  {
    hide Pack32, Unpack32;
    var s := PackHeader(id, n + 1) + t;
    assert s == Pack32(n + 1) + ([IdByte(id)] + t);
    Unpack32OfPack32(n + 1, [IdByte(id)] + t);
  }

  /** Reading one message off the front of a stream. */
  lemma FrameAtFront(m: Message, t: Bytes)
    requires Fits(m)
    ensures var s := Frame(m) + t;
            && UnpackHeader(s[..HEADER_SIZE]) == Success(Header(m.id, |m.body|))
            && s[HEADER_SIZE..HEADER_SIZE + |m.body|] == m.body
            && s[HEADER_SIZE + |m.body|..] == t
  {
    var s := Frame(m) + t;
    assert s[..HEADER_SIZE] == PackHeader(m.id, |m.body| + 1) + [];
    HeaderRoundTrip(m.id, |m.body|, []);
  }

  /** Splitting undoes framing. */
  lemma {:induction false} SplitOfFrames(ms: seq<Message>)
    requires forall m | m in ms :: Fits(m)
    ensures Split(Frames(ms)) == Some(ms)
  {
    hide UnpackHeader, Frame, PackHeader;
    if ms != [] {
      FrameAtFront(ms[0], Frames(ms[1..]));
      SplitOfFrames(ms[1..]);
      assert ms == [Message(ms[0].id, ms[0].body)] + ms[1..];
    }
  }

  lemma FrameOfHeader(s: Bytes)
    requires |s| >= HEADER_SIZE && UnpackHeader(s[..HEADER_SIZE]).Success?
    requires |s| >= HEADER_SIZE + UnpackHeader(s[..HEADER_SIZE]).value.bodyLength
    ensures var h := UnpackHeader(s[..HEADER_SIZE]).value;
            var m := Message(h.id, s[HEADER_SIZE..HEADER_SIZE + h.bodyLength]);
            Fits(m) && Frame(m) == s[..HEADER_SIZE + h.bodyLength]
  {
    hide Pack32, Unpack32, IdByte;
    var front := s[..HEADER_SIZE];
    Pack32OfUnpack32(front);
    var h := UnpackHeader(front).value;
    assert PackHeader(h.id, h.bodyLength + 1) == front[..4] + [front[4]];
  }

  /** Whatever splits is the framing of what it splits into: the two are inverse. */
  lemma {:induction false} FramesOfSplit(s: Bytes)
    requires Split(s).Some?
    ensures Frames(Split(s).value) == s && forall m | m in Split(s).value :: Fits(m)
    decreases |s|
  {
    hide UnpackHeader, Frame;
    if s != [] {
      FrameOfHeader(s);
      var end := HEADER_SIZE + UnpackHeader(s[..HEADER_SIZE]).value.bodyLength;
      FramesOfSplit(s[end..]);
      assert Split(s).value[1..] == Split(s[end..]).value;
      assert s == s[..end] + s[end..];
    }
  }
}
