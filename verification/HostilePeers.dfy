/** Peers that keep whole downloads from ending, from the connection check on. */
module HostilePeers {
  import opened Bytes
  import opened Wrappers
  import opened PieceLengths
  import opened Proto
  import opened Session
  import opened SessionHonest
  import opened SessionBlocks
  import opened PieceWorkers
  import opened Scheduler
  import opened AnyPeers
  import opened Downloading
  import opened Peers
  import WholeFile

  predicate IsTorrent(infoHash: Bytes, pieceLength: nat) {
    IsHexText(infoHash) && |infoHash| == 40 && pieceLength > 0
  }

  // A peer that announces a piece and is gone.

  /** The four transfers of the greeting succeed, and no other does. */
  function GoneWorld(infoHash: Bytes, announced: u32, length: nat, pieceLength: nat, count: nat): Env
    requires IsTorrent(infoHash, pieceLength)
  {
    MakeWorld(
      Peer(infoHash, Message(Have, Pack32(announced)), _ => []), k => if k < 4 then NoFault else Fault(Broken, 0),
      infoHash, length, pieceLength, count)
  }

  /** Its worker gets into have mode and can do nothing any more, and the loop of a download that has only this
      worker goes on forever: it ends within no number of rounds, and nothing is ever written. */
  lemma GonePeerLivelocks(
    infoHash: Bytes, announced: u32, length: nat, pieceLength: nat, count: nat,
    order: seq<nat>, files: map<nat, Bytes>, steps: nat, rounds: nat)
    requires IsTorrent(infoHash, pieceLength) && order != [] && steps > 1
    requires PieceLength(length, pieceLength, count, announced) > 0
    ensures var pool := Connected([GoneWorld(infoHash, announced, length, pieceLength, count)]);
            && |pool| == 1 && Hopeless(pool[0]) && Idle(pool[0])
            && pool[0].session.havePiece == Some(announced)
            && Rounds(pool, Board(order, files, Going), steps, rounds).1 == Board(order, files, Hung)
  {
    hide IsHexText, Peer, Welcoming, ConnectToPeer, Connected, Pack32, Unpack32, Rounds;
    var env := GoneWorld(infoHash, announced, length, pieceLength, count);
    var second := Message(Have, Pack32(announced));
    PeerWelcomes(env, second, _ => []);
    WelcomeConnects(env, PEER_ID, Message(Unchoke, []), second);
    Unpack32OfPack32(announced, []);
    assert Pack32(announced) + [] == Pack32(announced);
    WholeFile.BecomesWorker(env);
    HaveModeLivelock(Connected([env]), Board(order, files, Going), steps, rounds);
  }

  // A peer that answers with blocks of one size.

  function SomeBlock(size: nat): (block: Bytes)
    ensures |block| == size
  {
    seq(size, _ => 0)
  }

  function Uniform(size: nat): Bytes -> Bytes {
    _ => Frame(Message(Piece, PieceBody(0, 0, SomeBlock(size))))
  }

  function SizedWorld(infoHash: Bytes, size: nat, length: nat, pieceLength: nat, count: nat): Env
    requires IsTorrent(infoHash, pieceLength)
  {
    MakeWorld(
      Peer(infoHash, Message(Unchoke, []), Uniform(size)), _ => NoFault, infoHash, length, pieceLength, count)
  }

  lemma SizedAnswers(infoHash: Bytes, size: nat, length: nat, pieceLength: nat, count: nat)
    requires IsTorrent(infoHash, pieceLength) && size + 9 < TWO_32
    ensures Answering(SizedWorld(infoHash, size, length, pieceLength, count), Constant(size))
  {
    hide IsHexText, Peer, Frame, PieceBody, PackRequest, SomeBlock;
    var env := SizedWorld(infoHash, size, length, pieceLength, count);
    var block := SomeBlock(size);
    forall sent: seq<Bytes>, idx: u32, begin: u32, n: u32
      ensures AnswersWith(env, Constant(size), sent + [PackRequest(idx, begin, n)], n)
    {
      PeerServes(infoHash, Message(Unchoke, []), Uniform(size), sent, idx, begin, n);
      assert AnswersSo(env, Constant(size), sent + [PackRequest(idx, begin, n)], n, 0, 0, block);
    }
  }

  lemma SizedConnects(infoHash: Bytes, size: nat, length: nat, pieceLength: nat, count: nat)
    requires IsTorrent(infoHash, pieceLength)
    ensures var env := SizedWorld(infoHash, size, length, pieceLength, count);
            && ConnectToPeer(env, FRESH).Done? && Ready(env, ConnectToPeer(env, FRESH).session)
            && Connected([env]) == [Fresh(env).(session := ConnectToPeer(env, FRESH).session)]
  {
    hide IsHexText, Peer, Welcoming, ConnectToPeer, Connected;
    var env := SizedWorld(infoHash, size, length, pieceLength, count);
    var second := Message(Unchoke, []);
    PeerWelcomes(env, second, Uniform(size));
    WelcomeMakesReady(env, PEER_ID, second, second);
    WholeFile.BecomesWorker(env);
  }

  /** No thread of such a worker ends when no number of the blocks makes up the piece. */
  lemma SizedNeverJoins(w: State, size: nat, idx: nat, steps: nat)
    requires Answering(w.env, Constant(size)) && Ready(w.env, w.session)
    requires !exists k: nat :: Multiple(k, size) % TWO_64 == PieceLen(w.env, idx)
    ensures AfterJoin(Started(w, idx), steps).None?
  {
    hide Answering, PieceLen, Iterate, Begin;
    var env, c := w.env, w.session.(buffer := []);
    BeginsAsked(env, w.session, idx);
    ConstantEndsIff(env, size, c, idx);
    if steps > 0 {
      OneStep(env, Starting(w.session, idx), steps - 1);
      assert !Iterate(env, InBlocks(c, idx, 0), steps - 1).Over?;
    } else {
      NoSteps(env, Starting(w.session, idx));
    }
  }

  /** A peer that greets as it should and answers every request by a block of one size: if no number of such
      blocks makes up the first piece, as `size_t` counts, a download from it goes on forever.  Empty blocks
      never do, nor do blocks of the largest size unless the piece is a multiple (`StarvingSizes`). */
  lemma SizedPeerStarves(
    infoHash: Bytes, size: nat, length: nat, pieceLength: nat, count: nat,
    order: seq<nat>, files: map<nat, Bytes>, steps: nat, rounds: nat)
    requires IsTorrent(infoHash, pieceLength) && size + 9 < TWO_32 && order != []
    requires !exists k: nat :: Multiple(k, size) % TWO_64 == PieceLength(length, pieceLength, count, order[0])
    ensures var pool := Connected([SizedWorld(infoHash, size, length, pieceLength, count)]);
            && |pool| == 1 && Ready(pool[0].env, pool[0].session)
            && Rounds(pool, Board(order, files, Going), steps, rounds).1 == Board(order, files, Hung)
  {
    hide IsHexText, Peer, ConnectToPeer, Connected, Answering, Ready, AfterJoin, StartAll;
    var env := SizedWorld(infoHash, size, length, pieceLength, count);
    SizedAnswers(infoHash, size, length, pieceLength, count);
    SizedConnects(infoHash, size, length, pieceLength, count);
    var pool := Connected([env]);
    if rounds > 0 {
      SizedNeverJoins(pool[0], size, order[0], steps);
      StartsFirst(pool, order);
      assert StartAll(pool, order)[0] == Started(pool[0], order[0]);
    }
  }
}
