/** Peers that greet and answer, to show that what is said about peers is said about some. */
module Peers {
  import opened Bytes
  import opened Proto
  import opened Session
  import opened SessionStream
  import opened SessionHonest

  /** The answer to a message of the client, which a peer can tell by its size: to a handshake the same
      handshake and an Unchoke, to a request what `serve` makes of it, to Interested `second`. */
  function Answer(infoHash: Bytes, second: Message, serve: Bytes -> Bytes, msg: Bytes): Bytes
    requires IsHexText(infoHash)
  {
    if |msg| == HANDSHAKE_SIZE then PackHandshake(infoHash, PEER_ID) + Frame(Message(Unchoke, []))
    else if |msg| == 17 then serve(msg)
    else Frame(second)
  }

  function Peer(infoHash: Bytes, second: Message, serve: Bytes -> Bytes): seq<Bytes> -> Bytes
    requires IsHexText(infoHash)
  {
    sent => if sent == [] then [] else Answer(infoHash, second, serve, sent[|sent| - 1])
  }

  lemma PeerAnswers(infoHash: Bytes, second: Message, serve: Bytes -> Bytes, sent: seq<Bytes>, msg: Bytes)
    requires IsHexText(infoHash)
    ensures Peer(infoHash, second, serve)(sent + [msg]) == Answer(infoHash, second, serve, msg)
  {
    hide Answer, IsHexText;
    var all := sent + [msg];
    assert all[|all| - 1] == msg;
  }

  lemma PeerServes(
    infoHash: Bytes, second: Message, serve: Bytes -> Bytes, sent: seq<Bytes>, idx: u32, begin: u32, n: u32)
    requires IsHexText(infoHash)
    ensures Peer(infoHash, second, serve)(sent + [PackRequest(idx, begin, n)]) == serve(PackRequest(idx, begin, n))
  {
    hide Peer, IsHexText, PackRequest, PackHandshake;
    PeerAnswers(infoHash, second, serve, sent, PackRequest(idx, begin, n));
  }

  lemma AnswerToHandshake(infoHash: Bytes, second: Message, serve: Bytes -> Bytes)
    requires IsHexText(infoHash) && |infoHash| == 40
    ensures Answer(infoHash, second, serve, PackHandshake(infoHash, PEER_ID))
            == PackHandshake(infoHash, PEER_ID) + Frame(Message(Unchoke, []))
  {
    hide Frame, PackHandshake, IsHexText, UnpackHandshake, ToHex;
    HandshakeBack(infoHash, PEER_ID);
  }

  /** Such a peer greets as it should. */
  lemma PeerWelcomes(env: Env, second: Message, serve: Bytes -> Bytes)
    requires env.peer == Peer(env.infoHash, second, serve)
    requires WellFormed(second) && (second.id == Have || second.id == Unchoke)
    requires forall j :: 0 <= j < Greetings(Message(Unchoke, []), second) ==> env.faults(j) == NoFault
    ensures Welcoming(env, PEER_ID, Message(Unchoke, []), second)
  {
    hide Frame, PackHandshake, IsHexText, Greetings;
    var hello := PackHandshake(env.infoHash, PEER_ID);
    AnswerToHandshake(env.infoHash, second, serve);
    PeerAnswers(env.infoHash, second, serve, [], hello);
    PeerAnswers(env.infoHash, second, serve, [hello], PackInterested());
    assert [] + [hello] == [hello] && [hello] + [PackInterested()] == [hello, PackInterested()];
    assert |PackInterested()| == HEADER_SIZE;
  }

  /** An answer to a request: exactly the part that is asked for. */
  function Part(content: seq<Bytes>, msg: Bytes): Bytes {
    if |msg| < 17 then []
    else
      var idx, begin, n := Unpack32(msg[5..]), Unpack32(msg[9..]), Unpack32(msg[13..]);
      if idx < |content| && begin + n <= |content[idx]|
      then Frame(Message(Piece, PieceBody(idx, begin, content[idx][begin..begin + n])))
      else []
  }

  function Serve(content: seq<Bytes>): Bytes -> Bytes {
    msg => Part(content, msg)
  }

  lemma PartOfRequest(content: seq<Bytes>, idx: u32, begin: u32, n: u32)
    requires idx < |content| && begin + n <= |content[idx]|
    ensures Part(content, PackRequest(idx, begin, n))
            == Frame(Message(Piece, PieceBody(idx, begin, content[idx][begin..begin + n])))
  {
    hide PackRequest, Frame, PieceBody, Unpack32;
    RequestRoundTrip(idx, begin, n);
  }
}
