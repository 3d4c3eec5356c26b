/** Downloads from a peer that answers every request in full. */
module SessionHonest {
  import opened Bytes
  import opened Wrappers
  import opened Proto
  import opened Session
  import opened SessionStream

  /** The peer has every piece and answers a request for part of one by exactly that part. */
  ghost predicate Honest(env: Env, content: seq<Bytes>) {
    && |content| == env.count <= TWO_32
    && (forall i :: 0 <= i < env.count ==> |content[i]| == PieceLen(env, i) < TWO_32)
    && forall sent: seq<Bytes>, idx: u32, begin: u32, n: u32 ::
         idx < env.count && 0 < n && begin + n <= |content[idx]| ==> AnswersInFull(env, content, sent, idx, begin, n)
  }

  ghost predicate AnswersInFull(env: Env, content: seq<Bytes>, sent: seq<Bytes>, idx: u32, begin: u32, n: u32)
    requires idx < |content| && begin + n <= |content[idx]|
  {
    env.peer(sent + [PackRequest(idx, begin, n)])
    == Frame(Message(Piece, PieceBody(idx, begin, content[idx][begin..begin + n])))
  }

  /** No transfer fails from here on. */
  ghost predicate NoFaultsFrom(env: Env, k: nat) {
    forall j: nat :: k <= j ==> env.faults(j) == NoFault
  }

  /** Connected and with nothing unread. */
  ghost predicate Open(env: Env, s: Session) {
    && s.established && s.socket.connected && s.socket.inbox == [] && NoFaultsFrom(env, s.socket.transfers)
  }

  /** And not in have mode. */
  ghost predicate Ready(env: Env, s: Session) {
    Open(env, s) && !s.haveMode && s.havePiece.None?
  }

  function BlockCount(len: nat): nat {
    (len + MAX_BLOCK_LEN - 1) / MAX_BLOCK_LEN
  }

  lemma BlockLenIs(len: nat, received: nat)
    requires received <= len < TWO_32
    ensures BlockLen(len, received) == Least(MAX_BLOCK_LEN, len - received)
  {
  }

  /** The requests from `received` on. */
  function Requests(env: Env, idx: nat, received: nat): seq<Bytes>
    requires PieceLen(env, idx) < TWO_32
    decreases PieceLen(env, idx) - received
  {
    var len := PieceLen(env, idx);
    if received >= len then []
    else
      BlockLenIs(len, received);
      [RequestFor(env, idx, received)] + Requests(env, idx, received + BlockLen(len, received))
  }

  lemma FewerBlocks(len: nat, received: nat, n: nat)
    requires received < len && n == Least(MAX_BLOCK_LEN, len - received)
    ensures BlockCount(len - received) == BlockCount(len - received - n) + 1
  {
  }

  lemma NoBlocks()
    ensures BlockCount(0) == 0
  {
  }

  lemma RequestIs(env: Env, idx: u32, received: nat)
    requires received <= PieceLen(env, idx) < TWO_32
    ensures RequestFor(env, idx, received)
            == PackRequest(idx, received, Least(MAX_BLOCK_LEN, PieceLen(env, idx) - received))
  {
    hide PieceLen, PackRequest;
    BlockLenIs(PieceLen(env, idx), received);
  }

  /** Request `k` of these begins where the one before ends, and all but the last have the largest size. */
  ghost predicate Tiles(rs: seq<Bytes>, idx: u32, received: nat, len: u32) {
    forall k :: 0 <= k < |rs| ==>
      && received + k * MAX_BLOCK_LEN < len
      && rs[k] == PackRequest(idx, received + k * MAX_BLOCK_LEN,
                              Least(MAX_BLOCK_LEN, len - received - k * MAX_BLOCK_LEN))
  }

  lemma TilesMore(first: Bytes, rest: seq<Bytes>, idx: u32, received: nat, len: u32)
    requires received < len && first == PackRequest(idx, received, Least(MAX_BLOCK_LEN, len - received))
    requires Tiles(rest, idx, received + MAX_BLOCK_LEN, len)
    ensures Tiles([first] + rest, idx, received, len)
  {
    hide PackRequest;
    var rs := [first] + rest;
    forall k | 0 <= k < |rs|
      ensures received + k * MAX_BLOCK_LEN < len
      ensures rs[k] == PackRequest(idx, received + k * MAX_BLOCK_LEN,
                                   Least(MAX_BLOCK_LEN, len - received - k * MAX_BLOCK_LEN))
    {
      if k > 0 {
        assert rs[k] == rest[k - 1];
      }
    }
  }

  /** The requests tile the rest of the piece, and they are as many as it takes. */
  lemma {:induction false} RequestsTile(env: Env, idx: u32, received: nat)
    requires received <= PieceLen(env, idx) < TWO_32
    ensures Tiles(Requests(env, idx, received), idx, received, PieceLen(env, idx))
    ensures |Requests(env, idx, received)| == BlockCount(PieceLen(env, idx) - received)
    decreases PieceLen(env, idx) - received
  {
    hide PieceLen, PackRequest, RequestFor, BlockLen, BlockCount, Tiles;
    var len := PieceLen(env, idx);
    if received == len {
      NoBlocks();
      NoTiles(idx, received, len);
    } else {
      BlockLenIs(len, received);
      RequestIs(env, idx, received);
      var n := BlockLen(len, received);
      FewerBlocks(len, received, n);
      RequestsTile(env, idx, received + n);
      var rest := Requests(env, idx, received + n);
      if n < MAX_BLOCK_LEN {
        assert rest == [];
        NoTiles(idx, received + MAX_BLOCK_LEN, len);
      }
      TilesMore(RequestFor(env, idx, received), rest, idx, received, len);
    }
  }

  lemma NoTiles(idx: u32, received: nat, len: u32)
    ensures Tiles([], idx, received, len)
  {
  }

  /** The answer to a request of the block loop. */
  lemma HonestAnswer(env: Env, content: seq<Bytes>, sent: seq<Bytes>, idx: u32, received: nat)
    requires Honest(env, content) && idx < env.count && received < |content[idx]|
    ensures var n := BlockLen(PieceLen(env, idx), received);
            && 0 < n <= MAX_BLOCK_LEN && received + n <= |content[idx]|
            && env.peer(sent + [RequestFor(env, idx, received)])
               == Frame(Message(Piece, PieceBody(idx, received, content[idx][received..received + n])))
  {
    hide PackRequest, PieceLen, Frame, BlockLen, PieceBody;
    BlockLenIs(PieceLen(env, idx), received);
    var n: u32 := BlockLen(PieceLen(env, idx), received);
    assert AnswersInFull(env, content, sent, idx, received, n);
  }

  lemma HonestSize(env: Env, content: seq<Bytes>, idx: nat)
    requires Honest(env, content) && idx < env.count
    ensures |content| == env.count && |content[idx]| == PieceLen(env, idx) < TWO_32
  {
  }

  /** One block from an honest peer, in have mode or not. */
  lemma HonestBlock(env: Env, content: seq<Bytes>, s: Session, idx: u32, received: nat)
    requires Honest(env, content) && Open(env, s) && idx < env.count
    requires received < |content[idx]| && s.buffer == content[idx][..received]
    ensures var n := BlockLen(PieceLen(env, idx), received);
            var (step, k) := Block(env, s, idx, received);
            && step.Done? && k == n && 0 < n <= |content[idx]| - received
            && Open(env, step.session)
            && step.session == s.(socket := step.session.socket, buffer := content[idx][..received + n])
            && step.session.socket.sent == s.socket.sent + [RequestFor(env, idx, received)]
  {
    hide Block, PieceLen, Frame, BlockLen, RequestFor, PieceBody, Honest;
    HonestSize(env, content, idx);
    HonestAnswer(env, content, s.socket.sent, idx, received);
    var n := BlockLen(PieceLen(env, idx), received);
    var block := content[idx][received..received + n];
    assert content[idx][..received + n] == content[idx][..received] + block;
    AnsweredBlock(env, s, idx, received, idx, received, block);
  }

  /** The block loop ends after as many blocks as the piece needs, and has the piece; nothing else about
      the worker matters or changes. */
  lemma {:induction false} HonestBlocks(env: Env, content: seq<Bytes>, s: Session, idx: u32, received: nat)
    requires Honest(env, content) && Open(env, s) && idx < env.count
    requires received <= |content[idx]| && s.buffer == content[idx][..received]
    ensures var t := Iterate(env, InBlocks(s, idx, received), BlockCount(|content[idx]| - received) + 1);
            && t.Over? && t.ending.Full? && Open(env, t.ending.session)
            && var u := t.ending.session;
               && u == s.(socket := u.socket, havePiece := None, lastPiece := idx, buffer := content[idx])
               && u.socket.sent == s.socket.sent + Requests(env, idx, received)
    decreases |content[idx]| - received
  {
    hide Block, PieceLen, RequestFor, BlockLen;
    var len := |content[idx]|;
    var here := InBlocks(s, idx, received);
    if received == len {
      assert content[idx][..received] == content[idx];
      assert Iterate(env, here, 1) == Iterate(env, ThreadStep(env, here), 0);
      assert s.socket.sent + [] == s.socket.sent;
    } else {
      HonestBlock(env, content, s, idx, received);
      BlockLenIs(len, received);
      var n := BlockLen(len, received);
      var u := Block(env, s, idx, received).0.session;
      assert ThreadStep(env, here) == InBlocks(u, idx, received + n);
      HonestBlocks(env, content, u, idx, received + n);
      FewerBlocks(len, received, n);
      OneStep(env, here, BlockCount(len - received));
      assert s.socket.sent + ([RequestFor(env, idx, received)] + Requests(env, idx, received + n))
             == u.socket.sent + Requests(env, idx, received + n);
    }
  }

  lemma OneStep(env: Env, t: Thread, n: nat)
    ensures Iterate(env, t, n + 1) == Iterate(env, ThreadStep(env, t), n)
  {
  }

  lemma LastLook(env: Env, s: Session, idx: nat, received: nat)
    requires received == PieceLen(env, idx)
    ensures Iterate(env, ThreadStep(env, InBlocks(s, idx, received)), 0)
            == Over(Full(s.(lastPiece := idx, havePiece := None)))
  {
    hide PieceLen;
  }

  lemma TurnGoesOn(env: Env, s: Session, idx: nat, received: nat)
    requires received != PieceLen(env, idx) && Block(env, s, idx, received).0.Done?
    ensures var (step, k) := Block(env, s, idx, received);
            ThreadStep(env, InBlocks(s, idx, received)) == InBlocks(step.session, idx, (received + k) % TWO_64)
  {
    hide PieceLen, Block;
  }

  /** The steps that a download needs. */
  function StepsFor(env: Env, idx: nat): nat {
    BlockCount(PieceLen(env, idx)) + 2
  }

  /** A download from an honest peer, of whatever piece its beginning has come to: the requests tile the
      piece, exactly the piece is in the buffer and named, and the connection is open for the next. */
  lemma HonestDownload(env: Env, content: seq<Bytes>, s: Session, asked: nat, u: Session, idx: u32)
    requires Honest(env, content) && idx < env.count
    requires Begin(env, s, asked) == InBlocks(u, idx, 0) && Open(env, u) && u.buffer == []
    ensures var t := Iterate(env, Starting(s, asked), StepsFor(env, idx));
            && t.Over? && t.ending.Full? && Open(env, t.ending.session)
            && var v := t.ending.session;
               && v == u.(socket := v.socket, havePiece := None, lastPiece := idx, buffer := content[idx])
               && v.socket.sent == u.socket.sent + Requests(env, idx, 0)
  {
    hide BlockCount, PieceLen, Requests, Begin, Open;
    HonestBlocks(env, content, u, idx, 0);
    OneStep(env, Starting(s, asked), BlockCount(PieceLen(env, idx)) + 1);
  }

  // What a beginning comes to.

  /** Not in have mode: the piece asked for. */
  lemma BeginsAsked(env: Env, s: Session, idx: nat)
    requires Ready(env, s)
    ensures Begin(env, s, idx) == InBlocks(s.(buffer := []), idx, 0) && Open(env, s.(buffer := []))
  {
  }

  /** With an announcement kept: the announced piece. */
  lemma BeginsAnnounced(env: Env, s: Session, asked: nat, idx: nat)
    requires Open(env, s) && s.havePiece == Some(idx)
    ensures var u := s.(buffer := [], havePiece := None);
            Begin(env, s, asked) == InBlocks(u, idx, 0) && Open(env, u)
  {
  }

  /** In have mode with an announcement on its way: the piece it announces. */
  lemma BeginsWaited(env: Env, s: Session, asked: nat, idx: u32)
    requires s.established && s.haveMode && s.havePiece.None? && s.socket.inbox == PackHave(idx)
    requires env.faults(s.socket.transfers) == NoFault && env.faults(s.socket.transfers + 1) == NoFault
    ensures var t := Begin(env, s, asked);
            && t.InBlocks? && t.idx == idx && t.received == 0
            && t.session == s.(buffer := [], socket := t.session.socket)
            && t.session.socket.connected == s.socket.connected && t.session.socket.inbox == []
            && t.session.socket.sent == s.socket.sent && t.session.socket.transfers == s.socket.transfers + 2
  {
    hide UnpackHeader, UnpackHave, PackHave;
    HaveRoundTrip(idx);
    HaveSize(idx);
    var c := s.(buffer := []);
    var msg := PackHave(idx);
    var s1 := Read(env, c.socket, HEADER_SIZE).0;
    assert s1.inbox == msg[5..];
    assert Read(env, s1, 4).1 == Got(msg[5..]) && Read(env, s1, 4).0.inbox == [];
  }

  lemma HaveSize(idx: u32)
    ensures |PackHave(idx)| == 9
  {
  }

  /** An announced piece from an honest peer ends up in the buffer, whatever was asked for. */
  lemma HonestAnnouncement(env: Env, content: seq<Bytes>, s: Session, asked: nat, idx: u32)
    requires Honest(env, content) && idx < env.count
    requires (Open(env, s) && s.havePiece == Some(idx))
             || (s.established && s.socket.connected && s.haveMode && s.havePiece.None?
                 && s.socket.inbox == PackHave(idx) && NoFaultsFrom(env, s.socket.transfers))
    ensures var t := Iterate(env, Starting(s, asked), StepsFor(env, idx));
            && t.Over? && t.ending.Full? && Open(env, t.ending.session)
            && t.ending.session.buffer == content[idx] && t.ending.session.lastPiece == idx
            && t.ending.session.havePiece.None?
  {
    hide Honest, Begin, StepsFor, Requests, PackHave;
    if s.havePiece.Some? {
      BeginsAnnounced(env, s, asked, idx);
      HonestDownload(env, content, s, asked, s.(buffer := [], havePiece := None), idx);
    } else {
      BeginsWaited(env, s, asked, idx);
      HonestDownload(env, content, s, asked, Begin(env, s, asked).session, idx);
    }
  }

  // Connecting.

  /** The peer greets: a handshake for the same torrent, a bitfield or an unchoke, and an unchoke or an
      announcement when asked. */
  ghost predicate Welcoming(env: Env, peerId: Bytes, first: Message, second: Message) {
    && |peerId| == 20
    && WellFormed(first) && (first.id == Bitfield || first.id == Unchoke)
    && WellFormed(second) && (second.id == Have || second.id == Unchoke)
    && env.peer([]) == []
    && env.peer([PackHandshake(env.infoHash, PEER_ID)]) == PackHandshake(env.infoHash, peerId) + Frame(first)
    && env.peer([PackHandshake(env.infoHash, PEER_ID), PackInterested()]) == Frame(second)
    && forall j :: 0 <= j < Greetings(first, second) ==> env.faults(j) == NoFault
  }

  /** The transfers that connecting takes. */
  function Greetings(first: Message, second: Message): nat {
    3 + (if first.id == Bitfield then 1 else 0) + (if second.id == Have then 1 else 0)
  }

  /** A header off a stream that begins with a message. */
  lemma HeadOfFrame(env: Env, s: Session, msg: Option<Bytes>, m: Message)
    requires Fits(m) && env.faults(s.socket.transfers) == NoFault
    requires if msg.Some? then s.socket.inbox + env.peer(s.socket.sent + [msg.value]) == Frame(m)
             else s.socket.inbox == Frame(m)
    ensures var (step, h) := Head(env, s, msg);
            && step.Done? && h == Header(m.id, |m.body|)
            && step.session == s.(socket := step.session.socket)
            && step.session.socket.inbox == m.body
            && step.session.socket.connected == s.socket.connected
            && step.session.socket.sent == (if msg.Some? then s.socket.sent + [msg.value] else s.socket.sent)
            && step.session.socket.transfers == s.socket.transfers + 1
  {
    hide Frame, UnpackHeader;
    FrameAtFront(m, []);
    assert Frame(m) + [] == Frame(m);
    assert Frame(m)[HEADER_SIZE..] == m.body;
  }

  lemma HandshakeBack(infoHash: Bytes, peerId: Bytes)
    requires IsHexText(infoHash) && |infoHash| == 40 && |peerId| == 20
    ensures var msg := PackHandshake(infoHash, peerId);
            |msg| == HANDSHAKE_SIZE && UnpackHandshake(msg) == Success(Handshake(infoHash, ToHex(peerId)))
  {
    HandshakeRoundTrip(infoHash, peerId);
  }

  lemma WelcomeHandshake(env: Env, peerId: Bytes, first: Message, second: Message)
    requires Welcoming(env, peerId, first, second)
    ensures var c := FRESH.(socket := FRESH.socket.(connected := true, inbox := env.peer([])));
            var step := DoHandshake(env, c);
            && step.Done? && step.session == FRESH.(socket := step.session.socket)
            && step.session.socket.connected && step.session.socket.inbox == Frame(first)
            && step.session.socket.sent == [PackHandshake(env.infoHash, PEER_ID)]
            && step.session.socket.transfers == 1
  {
    hide Frame, UnpackHandshake, PackHandshake, ToHex;
    HandshakeBack(env.infoHash, peerId);
    var msg := PackHandshake(env.infoHash, PEER_ID);
    var answer := PackHandshake(env.infoHash, peerId);
    assert [] + [msg] == [msg];
    assert [] + env.peer([msg]) == env.peer([msg]) == answer + Frame(first);
    assert (answer + Frame(first))[..HANDSHAKE_SIZE] == answer;
    assert (answer + Frame(first))[HANDSHAKE_SIZE..] == Frame(first);
  }

  lemma WelcomeBitfield(env: Env, h: Session, first: Message)
    requires WellFormed(first) && (first.id == Bitfield || first.id == Unchoke)
    requires h.socket.inbox == Frame(first) && env.faults(h.socket.transfers) == NoFault
    requires first.id == Bitfield ==> env.faults(h.socket.transfers + 1) == NoFault
    ensures var b := DoBitfieldOrUnchoke(env, h);
            && b.Done? && b.session == h.(socket := b.session.socket)
            && b.session.socket.connected == h.socket.connected
            && b.session.socket.inbox == [] && b.session.socket.sent == h.socket.sent
            && b.session.socket.transfers == h.socket.transfers + (if first.id == Bitfield then 2 else 1)
  {
    hide Frame, Head;
    HeadOfFrame(env, h, None, first);
  }

  lemma WelcomeInterested(env: Env, b: Session, second: Message)
    requires WellFormed(second) && (second.id == Have || second.id == Unchoke)
    requires b.socket.inbox == [] && env.peer(b.socket.sent + [PackInterested()]) == Frame(second)
    requires env.faults(b.socket.transfers) == NoFault
    requires second.id == Have ==> env.faults(b.socket.transfers + 1) == NoFault
    ensures var i := DoInterested(env, b);
            && i.Done? && i.session.socket.inbox == [] && i.session.socket.connected == b.socket.connected
            && i.session.socket.transfers == b.socket.transfers + (if second.id == Have then 2 else 1)
            && i.session.socket.sent == b.socket.sent + [PackInterested()]
            && i.session == (if second.id == Have then
                               b.(socket := i.session.socket, haveMode := true,
                                  havePiece := Some(Unpack32(second.body)))
                             else b.(socket := i.session.socket))
  {
    hide Frame, Head, Unpack32, PackInterested;
    assert [] + Frame(second) == Frame(second);
    assert second.body[..|second.body|] == second.body;
    HeadOfFrame(env, b, Some(PackInterested()), second);
  }

  /** Connecting to such a peer: nothing is left unread, and have mode begins with an announcement. */
  lemma WelcomeConnects(env: Env, peerId: Bytes, first: Message, second: Message)
    requires Welcoming(env, peerId, first, second)
    ensures var step := ConnectToPeer(env, FRESH);
            && step.Done?
            && var s := step.session;
               && s.established && s.socket.connected && s.socket.inbox == []
               && s.socket.transfers == Greetings(first, second)
               && s.socket.sent == [PackHandshake(env.infoHash, PEER_ID), PackInterested()]
               && s.haveMode == (second.id == Have) && s.lastPiece == 0 && s.buffer == []
               && s.havePiece == if second.id == Have then Some(Unpack32(second.body)) else None
  {
    hide Frame, PackHandshake, DoHandshake, DoBitfieldOrUnchoke, DoInterested, PackInterested, Unpack32;
    WelcomeHandshake(env, peerId, first, second);
    var c := FRESH.(socket := FRESH.socket.(connected := true, inbox := env.peer([])));
    var h := DoHandshake(env, c).session;
    WelcomeBitfield(env, h, first);
    var hello := PackHandshake(env.infoHash, PEER_ID);
    assert [hello] + [PackInterested()] == [hello, PackInterested()];
    WelcomeInterested(env, DoBitfieldOrUnchoke(env, h).session, second);
  }

  /** And if it does not announce and nothing fails, the worker is ready. */
  lemma WelcomeMakesReady(env: Env, peerId: Bytes, first: Message, second: Message)
    requires Welcoming(env, peerId, first, second) && second.id == Unchoke && NoFaultsFrom(env, 0)
    ensures ConnectToPeer(env, FRESH).Done? && Ready(env, ConnectToPeer(env, FRESH).session)
  {
    hide Welcoming, ConnectToPeer;
    WelcomeConnects(env, peerId, first, second);
  }

  /** A worker that was not connected before it was asked for a piece, as `download_piece` in
      `src/client/client.cpp` starts it: an announcement made while connecting comes too late. */
  lemma BeginsConnecting(env: Env, peerId: Bytes, first: Message, second: Message, idx: nat)
    requires Welcoming(env, peerId, first, second) && NoFaultsFrom(env, 0)
    ensures var t := Begin(env, FRESH, idx);
            && t.InBlocks? && t.idx == idx && t.received == 0
            && Open(env, t.session) && t.session.buffer == []
            && t.session.havePiece == if second.id == Have then Some(Unpack32(second.body)) else None
  {
    hide Welcoming, ConnectToPeer, Unpack32;
    WelcomeConnects(env, peerId, first, second);
    assert FRESH.(buffer := []) == FRESH;
  }

  /** So a worker that was asked for a piece before it was connected gets that piece from an honest peer that
      greets, whatever the peer announces meanwhile. */
  lemma HonestConnecting(
    env: Env, content: seq<Bytes>, peerId: Bytes, first: Message, second: Message, idx: u32)
    requires Honest(env, content) && idx < env.count
    requires Welcoming(env, peerId, first, second) && NoFaultsFrom(env, 0)
    ensures var t := Iterate(env, Starting(FRESH, idx), StepsFor(env, idx));
            && t.Over? && t.ending.Full? && Open(env, t.ending.session)
            && t.ending.session.buffer == content[idx] && t.ending.session.lastPiece == idx
            && t.ending.session.havePiece.None?
  {
    hide Honest, Begin, StepsFor, Requests, Welcoming;
    BeginsConnecting(env, peerId, first, second, idx);
    HonestDownload(env, content, FRESH, idx, Begin(env, FRESH, idx).session, idx);
  }
}
