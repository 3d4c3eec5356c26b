/** Heralds exist, for every file and every plan. */
module HeraldWorlds {
  import opened Bytes
  import opened PieceLengths
  import opened Proto
  import opened Session
  import opened SessionOrder
  import opened SessionStream
  import opened SessionHonest
  import opened Gathering
  import opened Peers
  import opened Heralds
  import opened HeraldRuns

  /** The announcement that a peer greets by. */
  function Opening(plan: seq<nat>): Message {
    Message(Have, if plan != [] && plan[0] < TWO_32 then Pack32(plan[0]) else [0, 0, 0, 0])
  }

  function HeraldPeer(infoHash: Bytes, content: seq<Bytes>, plan: seq<nat>): seq<Bytes> -> Bytes
    requires IsHexText(infoHash)
  {
    sent =>
      if sent == [] then []
      else
        Answer(infoHash, Opening(plan), Serve(content), sent[|sent| - 1])
        + (if Completes(content, sent[|sent| - 1]) then Announcement(plan, Completed(content, sent)) else [])
  }

  /** A plan that can be announced for these pieces. */
  predicate Possible(content: seq<Bytes>, plan: seq<nat>) {
    && plan != []
    && (forall i :: 0 <= i < |plan| ==> plan[i] < |content|)
    && (forall i :: 0 <= i < |plan| - 1 ==> content[plan[i]] != [])
  }

  function HeraldWorld(
    file: Bytes, pieceLength: nat, count: nat, infoHash: Bytes, plan: seq<nat>, faults: nat -> Fault): Env
    requires 0 < pieceLength && CeilDiv(|file|, pieceLength, count) && IsHexText(infoHash) && |infoHash| == 40
  {
    MakeWorld(HeraldPeer(infoHash, PiecesOf(file, pieceLength, count), plan), faults,
              infoHash, |file|, pieceLength, count)
  }

  lemma HeraldPeerAnswers(infoHash: Bytes, content: seq<Bytes>, plan: seq<nat>, sent: seq<Bytes>, msg: Bytes)
    requires IsHexText(infoHash)
    ensures HeraldPeer(infoHash, content, plan)(sent + [msg])
            == Answer(infoHash, Opening(plan), Serve(content), msg)
               + (if Completes(content, msg) then Announcement(plan, Completed(content, sent) + 1) else [])
  {
    hide Answer, IsHexText, Completes, Completed, Announcement, Opening, Serve;
    var all := sent + [msg];
    assert all[|all| - 1] == msg;
    CompletedMore(content, sent, msg);
  }

  lemma HeraldPeerServes(
    env: Env, content: seq<Bytes>, plan: seq<nat>, sent: seq<Bytes>, idx: u32, begin: u32, n: u32)
    requires env.peer == HeraldPeer(env.infoHash, content, plan)
    requires idx < |content| && 0 < n && begin + n <= |content[idx]|
    ensures ServesOn(env, content, plan, sent, idx, begin, n)
  {
    hide PackRequest, Frame, PieceBody, Part, HeraldPeer, IsHexText, Completes, Completed, Announcement, Opening;
    HeraldPeerAnswers(env.infoHash, content, plan, sent, PackRequest(idx, begin, n));
    AnswerToRequest(env.infoHash, Opening(plan), Serve(content), idx, begin, n);
    PartOfRequest(content, idx, begin, n);
    CompletesIff(content, idx, begin, n);
  }

  lemma AnswerToRequest(infoHash: Bytes, second: Message, serve: Bytes -> Bytes, idx: u32, begin: u32, n: u32)
    requires IsHexText(infoHash)
    ensures Answer(infoHash, second, serve, PackRequest(idx, begin, n)) == serve(PackRequest(idx, begin, n))
  {
    hide PackRequest, PackHandshake, IsHexText, Frame;
  }

  lemma HeraldWorldIsHerald(
    file: Bytes, pieceLength: nat, count: nat, infoHash: Bytes, plan: seq<nat>, faults: nat -> Fault)
    requires 0 < pieceLength < TWO_32 && count <= TWO_32 && CeilDiv(|file|, pieceLength, count)
    requires IsHexText(infoHash) && |infoHash| == 40 && Possible(PiecesOf(file, pieceLength, count), plan)
    ensures Herald(HeraldWorld(file, pieceLength, count, infoHash, plan, faults),
                   PiecesOf(file, pieceLength, count), plan)
  {
    hide ServesOn, CeilDiv, HeraldPeer, PieceOf, IsHexText;
    var content := PiecesOf(file, pieceLength, count);
    var env := HeraldWorld(file, pieceLength, count, infoHash, plan, faults);
    forall sent: seq<Bytes>, idx: u32, begin: u32, n: u32 |
      idx < env.count && 0 < n && begin + n <= |content[idx]|
      ensures ServesOn(env, content, plan, sent, idx, begin, n)
    {
      HeraldPeerServes(env, content, plan, sent, idx, begin, n);
    }
  }

  lemma HeraldWelcomes(env: Env, content: seq<Bytes>, plan: seq<nat>)
    requires env.peer == HeraldPeer(env.infoHash, content, plan) && plan != [] && plan[0] < TWO_32
    requires forall j :: 0 <= j < 4 ==> env.faults(j) == NoFault
    ensures Welcoming(env, PEER_ID, Message(Unchoke, []), Message(Have, Pack32(plan[0])))
  {
    hide Frame, PackHandshake, UnpackHandshake, ToHex, IsHexText, Pack32, Unpack32, Completed, Announcement;
    var hello, second := PackHandshake(env.infoHash, PEER_ID), Opening(plan);
    HandshakeBack(env.infoHash, PEER_ID);
    AnswerToHandshake(env.infoHash, second, Serve(content));
    HeraldPeerAnswers(env.infoHash, content, plan, [], hello);
    HeraldPeerAnswers(env.infoHash, content, plan, [hello], PackInterested());
    assert [] + [hello] == [hello] && [hello] + [PackInterested()] == [hello, PackInterested()];
    assert |PackInterested()| == HEADER_SIZE;
    var there := hello + Frame(Message(Unchoke, []));
    assert there + [] == there && Frame(second) + [] == Frame(second);
  }

  /** For every file that 32-bit fields can describe and every plan. */
  lemma HeraldExists(file: Bytes, pieceLength: nat, count: nat, infoHash: Bytes, plan: seq<nat>)
    requires 0 < pieceLength < TWO_32 && count <= TWO_32 && CeilDiv(|file|, pieceLength, count)
    requires IsHexText(infoHash) && |infoHash| == 40 && Possible(PiecesOf(file, pieceLength, count), plan)
    ensures Announcer(HeraldWorld(file, pieceLength, count, infoHash, plan, _ => NoFault),
                      PiecesOf(file, pieceLength, count), plan, PEER_ID, Message(Unchoke, []))
  {
    hide CeilDiv, HeraldPeer, IsHexText, Herald, Welcoming, PieceOf;
    var env := HeraldWorld(file, pieceLength, count, infoHash, plan, _ => NoFault);
    HeraldWorldIsHerald(file, pieceLength, count, infoHash, plan, _ => NoFault);
    HeraldWelcomes(env, PiecesOf(file, pieceLength, count), plan);
  }

  // A time-out inside an announcement.

  /** The transfer after the first piece times out with one byte taken. */
  function LateFault(blocks: nat): nat -> Fault {
    k => if k == 4 + 2 * blocks then Fault(TimedOut, 1) else NoFault
  }

  /** From the connection check on, a life that comes to the loss of `BrokenReadLosesBoundary`: the first piece
      is delivered, the wait for the second announcement loses its first byte to the time-out and gives up, and
      the next download fails on what is left of it. */
  lemma LifeLosesBoundary(
    file: Bytes, pieceLength: nat, count: nat, infoHash: Bytes, plan: seq<nat>,
    asked: nat, steps: nat, second: nat, third: nat)
    requires 0 < pieceLength < TWO_32 && count <= TWO_32 && CeilDiv(|file|, pieceLength, count)
    requires IsHexText(infoHash) && |infoHash| == 40 && Possible(PiecesOf(file, pieceLength, count), plan)
    requires |plan| >= 2 && plan[1] < 0x100_0000
    requires BlockCount(|PiecesOf(file, pieceLength, count)[plan[0]]|) + 2 <= steps
    ensures var content := PiecesOf(file, pieceLength, count);
            var env := HeraldWorld(file, pieceLength, count, infoHash, plan,
                                   LateFault(BlockCount(|content[plan[0]]|)));
            var s := Life(env, At(ConnectToPeer(env, FRESH)), [(asked, steps)]);
            && s.buffer == content[plan[0]] && Framed(s.socket.inbox)
            && var t := ThreadStep(env, Starting(s, second));
               && t.Over? && t.ending.Early? && !Framed(t.ending.session.socket.inbox)
               && var u := ThreadStep(env, Starting(t.ending.session, third));
                  u.Over? && u.ending.Failed? && u.ending.exception == NotReady
  {
    hide CeilDiv, HeraldPeer, IsHexText, Herald, Welcoming, PieceOf, ConnectToPeer, BlockCount, ThreadStep;
    hide Iterate, Framed, Pack32, PackHave, Completed;
    var content := PiecesOf(file, pieceLength, count);
    var blocks := BlockCount(|content[plan[0]]|);
    var env := HeraldWorld(file, pieceLength, count, infoHash, plan, LateFault(blocks));
    HeraldWorldIsHerald(file, pieceLength, count, infoHash, plan, LateFault(blocks));
    HeraldWelcomes(env, content, plan);
    HeraldConnects(env, content, plan, PEER_ID, Message(Unchoke, []));
    var c := ConnectToPeer(env, FRESH).session;
    HeraldDownloadFirst(env, content, plan, c, asked, steps);
    var s := Iterate(env, Starting(c, asked), steps).ending.session;
    OneJob(env, c, asked, steps);
    BrokenReadLosesBoundary(env, s, second, third, plan[1]);
  }

  lemma HeraldDownloadFirst(env: Env, content: seq<Bytes>, plan: seq<nat>, c: Session, asked: nat, steps: nat)
    requires Herald(env, content, plan) && AtTurn(content, plan, c, 0) && |plan| >= 2 && plan[0] < |content|
    requires BlockCount(|content[plan[0]]|) + 2 <= steps && c.socket.transfers == 4
    requires env.faults == LateFault(BlockCount(|content[plan[0]]|))
    ensures Delivered(content, plan, c, 0, Iterate(env, Starting(c, asked), steps))
  {
    hide Herald, AtTurn, Delivered, BlockCount, Iterate;
    HeraldDownload(env, content, plan, c, 0, asked, steps);
  }

  lemma OneJob(env: Env, c: Session, asked: nat, steps: nat)
    ensures Life(env, c, [(asked, steps)]) == SessionOf(Iterate(env, Starting(c, asked), steps))
  {
    hide Iterate;
    assert [(asked, steps)][1..] == [];
  }
}
