/** Which exception each step of a worker throws, and the numbers that it sends. */
module SessionDetails {
  import opened Bytes
  import opened Wrappers
  import opened Proto
  import opened Session
  import opened SessionStream

  predicate Throws(step: Step, x: Exception) {
    step.Thrown? && step.exception == x
  }

  /** A reply that a header can be read from. */
  predicate IsHeader(r: Reply) {
    r.Got? && UnpackHeader(r.bytes).Success?
  }

  function IdIn(r: Reply): MsgId
    requires IsHeader(r)
  {
    UnpackHeader(r.bytes).value.id
  }

  function SizeIn(r: Reply): nat
    requires IsHeader(r)
  {
    UnpackHeader(r.bytes).value.bodyLength
  }

  lemma HandshakeThrows(env: Env, s: Session)
    ensures var step := DoHandshake(env, s);
            var r := Exchange(env, s.socket, PackHandshake(env.infoHash, PEER_ID), 68).1;
            && (Throws(step, ConnectionError) <==> r.Lost?)
            && (Throws(step, UnexpectedAnswer) <==> r.Got? && UnpackHandshake(r.bytes).Failure?)
            && (Throws(step, WrongHash) <==>
                  r.Got? && UnpackHandshake(r.bytes).Success?
                  && UnpackHandshake(r.bytes).value.infoHash != env.infoHash)
            && !Throws(step, NotReady)
  {
    hide Exchange, PackHandshake, UnpackHandshake;
  }

  /** The reply that a header is read from, and the socket after it. */
  function Answered(env: Env, s: Session, msg: Option<Bytes>): (Socket, Reply) {
    if msg.Some? then Exchange(env, s.socket, msg.value, 5) else Read(env, s.socket, 5)
  }

  lemma HeadThrows(env: Env, s: Session, msg: Option<Bytes>)
    ensures var (step, h) := Head(env, s, msg);
            var (socket, r) := Answered(env, s, msg);
            && (Throws(step, ConnectionError) <==> r.Lost?)
            && (Throws(step, UnexpectedAnswer) <==> r.Got? && !IsHeader(r))
            && (step.Done? <==> IsHeader(r))
            && (step.Done? ==> step.session.socket == socket && h == Header(IdIn(r), SizeIn(r)))
            && !Throws(step, NotReady) && !Throws(step, WrongHash)
  {
    hide Read, Exchange, UnpackHeader;
    var r := Answered(env, s, msg).1;
    assert IsHeader(r) <==> r.Got? && UnpackHeader(r.bytes).Success?;
  }

  lemma BitfieldThrows(env: Env, s: Session)
    ensures var step := DoBitfieldOrUnchoke(env, s);
            var (socket, r) := Answered(env, s, None);
            && (Throws(step, ConnectionError) <==>
                  r.Lost? || (IsHeader(r) && IdIn(r) == Bitfield && Read(env, socket, SizeIn(r)).1.Lost?))
            && (Throws(step, UnexpectedAnswer) <==> r.Got? && !IsHeader(r))
            && (Throws(step, NotReady) <==> IsHeader(r) && IdIn(r) != Bitfield && IdIn(r) != Unchoke)
            && !Throws(step, WrongHash)
  {
    hide Read, UnpackHeader, Head, Answered;
    HeadThrows(env, s, None);
    var (head, h) := Head(env, s, None);
    var (socket, r) := Answered(env, s, None);
    if head.Thrown? {
      assert DoBitfieldOrUnchoke(env, s) == head;
    } else {
      assert h.id == IdIn(r) && h.bodyLength == SizeIn(r) && head.session.socket == socket;
    }
  }

  lemma InterestedThrows(env: Env, s: Session)
    ensures var step := DoInterested(env, s);
            var (socket, r) := Answered(env, s, Some(PackInterested()));
            var isHave := IsHeader(r) && IdIn(r) == Have;
            && (Throws(step, ConnectionError) <==> r.Lost? || (isHave && Read(env, socket, SizeIn(r)).1.Lost?))
            && (Throws(step, UnexpectedAnswer) <==>
                  (r.Got? && !IsHeader(r)) || (isHave && HaveIsBad(Read(env, socket, SizeIn(r)).1)))
            && (Throws(step, NotReady) <==> IsHeader(r) && IdIn(r) != Have && IdIn(r) != Unchoke)
            && !Throws(step, WrongHash)
  {
    hide Read, Exchange, UnpackHeader, UnpackHave, PackInterested, Head, Answered;
    HeadThrows(env, s, Some(PackInterested()));
    var (head, h) := Head(env, s, Some(PackInterested()));
    var (socket, r) := Answered(env, s, Some(PackInterested()));
    if head.Thrown? {
      assert DoInterested(env, s) == head;
    } else {
      assert h.id == IdIn(r) && h.bodyLength == SizeIn(r) && head.session.socket == socket;
    }
  }

  predicate HaveIsBad(r: Reply) {
    r.Got? && UnpackHave(r.bytes).Failure?
  }

  /** A time-out of a wait is no exception, any other loss of the connection is. */
  lemma WaitThrows(env: Env, s: Session)
    ensures var step := WaitHave(env, s).0;
            var (socket, r) := Read(env, s.socket, 5);
            var isHave := IsHeader(r) && IdIn(r) == Have;
            && (Throws(step, ConnectionError) <==>
                  r == Lost(Broken) || (isHave && Read(env, socket, SizeIn(r)).1.Lost?))
            && (Throws(step, UnexpectedAnswer) <==>
                  (r.Got? && !IsHeader(r)) || (isHave && HaveIsBad(Read(env, socket, SizeIn(r)).1)))
            && (Throws(step, NotReady) <==> IsHeader(r) && IdIn(r) != Have && IdIn(r) != Unchoke)
            && !Throws(step, WrongHash)
  {
    hide Read, UnpackHeader, UnpackHave;
  }

  lemma BlockThrows(env: Env, s: Session, idx: nat, received: nat)
    ensures var step := Block(env, s, idx, received).0;
            var (socket, r) := Answered(env, s, Some(RequestFor(env, idx, received)));
            var isPiece := IsHeader(r) && IdIn(r) == Piece;
            && (Throws(step, ConnectionError) <==> r.Lost? || (isPiece && Read(env, socket, SizeIn(r)).1.Lost?))
            && (Throws(step, UnexpectedAnswer) <==>
                  (r.Got? && !IsHeader(r)) || (isPiece && PieceIsBad(Read(env, socket, SizeIn(r)).1)))
            && (Throws(step, NotReady) <==> IsHeader(r) && IdIn(r) != Piece)
            && !Throws(step, WrongHash)
  {
    hide Read, Exchange, UnpackHeader, UnpackPiece, PackRequest, BlockLen, PieceLen, Head, Answered;
    var msg := RequestFor(env, idx, received);
    HeadThrows(env, s, Some(msg));
    var (head, h) := Head(env, s, Some(msg));
    var (socket, r) := Answered(env, s, Some(msg));
    if head.Thrown? {
      assert Block(env, s, idx, received).0 == head;
    } else {
      assert h.id == IdIn(r) && h.bodyLength == SizeIn(r) && head.session.socket == socket;
    }
  }

  predicate PieceIsBad(r: Reply) {
    r.Got? && UnpackPiece(r.bytes).Failure?
  }

  // The numbers.

  /** The first message, to its last byte: the peer id is "00112233445566778899". */
  lemma FirstMessage(env: Env)
    ensures PackHandshake(env.infoHash, PEER_ID)
            == [19, 0x42, 0x69, 0x74, 0x54, 0x6f, 0x72, 0x72, 0x65, 0x6e, 0x74, 0x20, 0x70, 0x72, 0x6f, 0x74, 0x6f,
                0x63, 0x6f, 0x6c, 0, 0, 0, 0, 0, 0, 0, 0] + FromHex(env.infoHash)
               + [0x30, 0x30, 0x31, 0x31, 0x32, 0x32, 0x33, 0x33, 0x34, 0x34,
                  0x35, 0x35, 0x36, 0x36, 0x37, 0x37, 0x38, 0x38, 0x39, 0x39]
  {
    hide PackHandshake, FromHex;
    HandshakeStart(env.infoHash, PEER_ID);
  }

  /** The size of the next block: what is missing, but at most 16384 bytes; and behind the end of the piece,
      what is missing modulo 2^64. */
  lemma BlockSizes(len: nat, received: nat)
    requires len < 0x1_0000_0000_0000_0000 && received < 0x1_0000_0000_0000_0000
    ensures var missing := if received <= len then len - received else len + 0x1_0000_0000_0000_0000 - received;
            BlockLen(len, received) == if missing <= 16384 then missing else 16384
  {
  }
}
