/** A peer that has not all its pieces at once: it announces one, serves it, and then announces the next. */
module Heralds {
  import opened Bytes
  import opened Wrappers
  import opened Proto
  import opened Session
  import opened SessionOrder
  import opened SessionStream
  import opened SessionHonest

  /** A request for the last part of a piece. */
  predicate Completes(content: seq<Bytes>, msg: Bytes) {
    && |msg| == 17
    && var idx, begin, n := Unpack32(msg[5..]), Unpack32(msg[9..]), Unpack32(msg[13..]);
       idx < |content| && 0 < n && begin + n == |content[idx]|
  }

  /** How many pieces have been asked for to the end. */
  function Completed(content: seq<Bytes>, sent: seq<Bytes>): nat {
    if sent == [] then 0
    else Completed(content, sent[..|sent| - 1]) + (if Completes(content, sent[|sent| - 1]) then 1 else 0)
  }

  /** What is announced after `done` pieces. */
  function Announcement(plan: seq<nat>, done: nat): Bytes {
    if done < |plan| && plan[done] < TWO_32 then PackHave(plan[done]) else []
  }

  /** The peer answers every request by exactly the part that is asked for, and after the last part of a piece
      announces the next piece of its plan.  Nothing is asked of an empty piece, so only the last can be one. */
  ghost predicate Herald(env: Env, content: seq<Bytes>, plan: seq<nat>) {
    && |content| == env.count <= TWO_32
    && (forall i :: 0 <= i < env.count ==> |content[i]| == PieceLen(env, i) < TWO_32)
    && (forall i :: 0 <= i < |plan| ==> plan[i] < env.count)
    && (forall i :: 0 <= i < |plan| - 1 ==> content[plan[i]] != [])
    && forall sent: seq<Bytes>, idx: u32, begin: u32, n: u32 ::
         idx < env.count && 0 < n && begin + n <= |content[idx]| ==>
           ServesOn(env, content, plan, sent, idx, begin, n)
  }

  ghost predicate ServesOn(
    env: Env, content: seq<Bytes>, plan: seq<nat>, sent: seq<Bytes>, idx: u32, begin: u32, n: u32)
    requires idx < |content| && begin + n <= |content[idx]|
  {
    env.peer(sent + [PackRequest(idx, begin, n)])
    == Frame(Message(Piece, PieceBody(idx, begin, content[idx][begin..begin + n])))
       + (if begin + n == |content[idx]| then Announcement(plan, Completed(content, sent) + 1) else [])
  }

  lemma CompletesIff(content: seq<Bytes>, idx: u32, begin: u32, n: u32)
    requires idx < |content| && 0 < n
    ensures Completes(content, PackRequest(idx, begin, n)) <==> begin + n == |content[idx]|
  {
    hide PackRequest, Unpack32;
    RequestRoundTrip(idx, begin, n);
  }

  lemma CompletedMore(content: seq<Bytes>, sent: seq<Bytes>, msg: Bytes)
    ensures Completed(content, sent + [msg]) == Completed(content, sent) + (if Completes(content, msg) then 1 else 0)
  {
    hide Completes;
    assert (sent + [msg])[..|sent|] == sent;
  }

  /** What follows the block at `received` in the answer. */
  function Trailer(content: seq<Bytes>, plan: seq<nat>, sent: seq<Bytes>, idx: nat, end: nat): Bytes
    requires idx < |content|
  {
    if end == |content[idx]| then Announcement(plan, Completed(content, sent) + 1) else []
  }

  lemma HeraldAnswer(
    env: Env, content: seq<Bytes>, plan: seq<nat>, sent: seq<Bytes>, idx: u32, received: nat)
    requires Herald(env, content, plan) && idx < env.count && received < |content[idx]|
    ensures var n := BlockLen(PieceLen(env, idx), received);
            && n == Least(MAX_BLOCK_LEN, |content[idx]| - received)
            && env.peer(sent + [RequestFor(env, idx, received)])
               == Frame(Message(Piece, PieceBody(idx, received, content[idx][received..received + n])))
                  + Trailer(content, plan, sent, idx, received + n)
            && Completed(content, sent + [RequestFor(env, idx, received)])
               == Completed(content, sent) + (if received + n == |content[idx]| then 1 else 0)
  {
    hide PackRequest, PieceLen, Frame, BlockLen, PieceBody, Announcement, Completes, Completed;
    BlockLenIs(PieceLen(env, idx), received);
    var n: u32 := BlockLen(PieceLen(env, idx), received);
    assert ServesOn(env, content, plan, sent, idx, received, n);
    CompletesIff(content, idx, received, n);
    CompletedMore(content, sent, PackRequest(idx, received, n));
  }

  /** A turn gets the next block and leaves unread what follows it in the answer. */
  ghost predicate TurnServed(
    env: Env, content: seq<Bytes>, plan: seq<nat>, s: Session, idx: nat, received: nat)
    requires idx < |content| && received < |content[idx]|
  {
    var end := received + Least(MAX_BLOCK_LEN, |content[idx]| - received);
    var (step, k) := Block(env, s, idx, received);
    && step.Done? && received + k == end
    && step.session == s.(socket := step.session.socket, buffer := content[idx][..end])
    && step.session.socket.connected == s.socket.connected
    && step.session.socket.transfers == s.socket.transfers + 2
    && step.session.socket.inbox == Trailer(content, plan, s.socket.sent, idx, end)
    && Completed(content, step.session.socket.sent)
       == Completed(content, s.socket.sent) + (if end == |content[idx]| then 1 else 0)
  }

  lemma TurnOnAnswer(
    env: Env, content: seq<Bytes>, plan: seq<nat>, s: Session, idx: u32, received: nat)
    requires idx < |content| && |content[idx]| < TWO_32 && s.socket.inbox == []
    requires env.faults(s.socket.transfers) == NoFault && env.faults(s.socket.transfers + 1) == NoFault
    requires received < |content[idx]| && s.buffer == content[idx][..received]
    requires var msg, n := RequestFor(env, idx, received), Least(MAX_BLOCK_LEN, |content[idx]| - received);
             && env.peer(s.socket.sent + [msg])
                == Frame(Message(Piece, PieceBody(idx, received, content[idx][received..received + n])))
                   + Trailer(content, plan, s.socket.sent, idx, received + n)
             && Completed(content, s.socket.sent + [msg])
                == Completed(content, s.socket.sent) + (if received + n == |content[idx]| then 1 else 0)
    ensures TurnServed(env, content, plan, s, idx, received)
  {
    hide Block, PieceLen, Frame, BlockLen, RequestFor, PieceBody, Trailer, Completed;
    var n := Least(MAX_BLOCK_LEN, |content[idx]| - received);
    var block := content[idx][received..received + n];
    PieceBodySize(idx, received, block);
    var m := Message(Piece, PieceBody(idx, received, block));
    var rest := Trailer(content, plan, s.socket.sent, idx, received + n);
    assert [] + (Frame(m) + rest) == Frame(m) + rest;
    assert content[idx][..received + n] == content[idx][..received] + block;
    TurnOnFrame(env, s, idx, received, m, rest);
  }

  /** No transfer from `k` on, for `n` of them, fails. */
  ghost predicate Clear(env: Env, k: nat, n: nat) {
    forall j :: k <= j < k + n ==> env.faults(j) == NoFault
  }

  lemma FirstClear(env: Env, k: nat, blocks: nat)
    requires blocks > 0 && Clear(env, k, 2 * blocks)
    ensures env.faults(k) == NoFault && env.faults(k + 1) == NoFault && Clear(env, k + 2, 2 * (blocks - 1))
  {
  }

  /** The block loop gets the piece and leaves exactly the next announcement unread. */
  ghost predicate LoopServed(
    env: Env, content: seq<Bytes>, plan: seq<nat>, s: Session, idx: nat, received: nat)
    requires idx < |content| && received < |content[idx]|
  {
    var blocks := BlockCount(|content[idx]| - received);
    var t := Iterate(env, InBlocks(s, idx, received), blocks + 1);
    && t.Over? && t.ending.Full?
    && var u := t.ending.session;
       && u == s.(socket := u.socket, havePiece := None, lastPiece := idx, buffer := content[idx])
       && u.socket.connected == s.socket.connected
       && u.socket.transfers == s.socket.transfers + 2 * blocks
       && u.socket.inbox == Announcement(plan, Completed(content, s.socket.sent) + 1)
       && Completed(content, u.socket.sent) == Completed(content, s.socket.sent) + 1
  }

  lemma LastTurn(env: Env, content: seq<Bytes>, plan: seq<nat>, s: Session, idx: nat, received: nat)
    requires idx < |content| && received < |content[idx]| == PieceLen(env, idx) < TWO_32
    requires received + MAX_BLOCK_LEN >= |content[idx]| && TurnServed(env, content, plan, s, idx, received)
    ensures LoopServed(env, content, plan, s, idx, received)
  {
    hide Block, PieceLen, Completed, Announcement, BlockCount, ThreadStep, Iterate;
    var len, here := |content[idx]|, InBlocks(s, idx, received);
    var u := Block(env, s, idx, received).0.session;
    FewerBlocks(len, received, len - received);
    NoBlocks();
    TurnGoesOn(env, s, idx, received);
    OneStep(env, here, 1);
    OneStep(env, InBlocks(u, idx, len), 0);
    LastLook(env, u, idx, len);
    assert content[idx][..len] == content[idx];
  }

  lemma OneMoreTurn(env: Env, content: seq<Bytes>, plan: seq<nat>, s: Session, idx: nat, received: nat)
    requires idx < |content| && |content[idx]| == PieceLen(env, idx) < TWO_32
    requires received + MAX_BLOCK_LEN < |content[idx]| && TurnServed(env, content, plan, s, idx, received)
    requires LoopServed(env, content, plan, Block(env, s, idx, received).0.session, idx, received + MAX_BLOCK_LEN)
    ensures LoopServed(env, content, plan, s, idx, received)
  {
    hide Block, PieceLen, Completed, Announcement, BlockCount, ThreadStep, Iterate;
    var len, here := |content[idx]|, InBlocks(s, idx, received);
    FewerBlocks(len, received, MAX_BLOCK_LEN);
    TurnGoesOn(env, s, idx, received);
    OneStep(env, here, BlockCount(len - received));
  }

  lemma HeraldSize(env: Env, content: seq<Bytes>, plan: seq<nat>, idx: nat)
    requires Herald(env, content, plan) && idx < env.count
    ensures |content| == env.count && |content[idx]| == PieceLen(env, idx) < TWO_32
  {
  }

  lemma {:induction false} HeraldBlocks(
    env: Env, content: seq<Bytes>, plan: seq<nat>, s: Session, idx: u32, received: nat)
    requires Herald(env, content, plan) && s.socket.inbox == [] && idx < env.count
    requires received < |content[idx]| && s.buffer == content[idx][..received]
    requires Clear(env, s.socket.transfers, 2 * BlockCount(|content[idx]| - received))
    ensures LoopServed(env, content, plan, s, idx, received)
    decreases |content[idx]| - received
  {
    hide Block, PieceLen, BlockLen, Herald, Completed, BlockCount, Clear, TurnServed, LoopServed, Frame, PieceBody;
    HeraldSize(env, content, plan, idx);
    var len := |content[idx]|;
    var n := Least(MAX_BLOCK_LEN, len - received);
    FewerBlocks(len, received, n);
    FirstClear(env, s.socket.transfers, BlockCount(len - received));
    HeraldAnswer(env, content, plan, s.socket.sent, idx, received);
    TurnOnAnswer(env, content, plan, s, idx, received);
    if n < MAX_BLOCK_LEN || received + n == len {
      LastTurn(env, content, plan, s, idx, received);
    } else {
      TurnLeaves(env, content, plan, s, idx, received);
      HeraldBlocks(env, content, plan, Block(env, s, idx, received).0.session, idx, received + n);
      OneMoreTurn(env, content, plan, s, idx, received);
    }
  }

  lemma TurnLeaves(env: Env, content: seq<Bytes>, plan: seq<nat>, s: Session, idx: nat, received: nat)
    requires idx < |content| && received + MAX_BLOCK_LEN < |content[idx]|
    requires TurnServed(env, content, plan, s, idx, received)
    ensures var u := Block(env, s, idx, received).0.session;
            && Block(env, s, idx, received).0.Done?
            && u.socket.inbox == [] && u.buffer == content[idx][..received + MAX_BLOCK_LEN]
            && u.socket.transfers == s.socket.transfers + 2
  {
    hide Block, Completed;
  }

  /** The worker of such a peer after `r` downloads: the next announcement is kept, before the first, or it is
      all that is unread; and the piece before it is named. */
  ghost predicate AtTurn(content: seq<Bytes>, plan: seq<nat>, s: Session, r: nat) {
    && s.established && s.socket.connected && s.haveMode && r <= |plan| && plan != []
    && (if r == 0 then s.havePiece == Some(plan[0]) && s.socket.inbox == []
        else s.havePiece.None? && s.lastPiece == plan[r - 1] && s.socket.inbox == Announcement(plan, r))
    && (r < |plan| ==> Completed(content, s.socket.sent) == r)
  }

  /** The transfers of a wait: none for the first piece, which is announced while connecting. */
  function Waiting(r: nat): nat { if r == 0 then 0 else 2 }

  lemma HeraldBegin(env: Env, content: seq<Bytes>, plan: seq<nat>, s: Session, r: nat, asked: nat)
    requires Herald(env, content, plan) && AtTurn(content, plan, s, r) && r < |plan|
    requires Clear(env, s.socket.transfers, Waiting(r))
    ensures var t := Begin(env, s, asked);
            && t.InBlocks? && t == InBlocks(t.session, plan[r], 0)
            && t.session == s.(buffer := [], havePiece := None, socket := t.session.socket)
            && t.session.socket.connected && t.session.socket.inbox == []
            && t.session.socket.sent == s.socket.sent
            && t.session.socket.transfers == s.socket.transfers + Waiting(r)
  {
    hide PackHave, ConnectToPeer, WaitHave, Completed, PieceLen;
    if r > 0 {
      BeginsWaited(env, s, asked, plan[r]);
    }
  }

  /** One download: the announced piece is in the buffer and named, and the next announcement is unread. */
  ghost predicate Delivered(content: seq<Bytes>, plan: seq<nat>, s: Session, r: nat, t: Thread)
    requires r < |plan| && plan[r] < |content|
  {
    && t.Over? && t.ending.Full?
    && t.ending.session.buffer == content[plan[r]] && t.ending.session.lastPiece == plan[r]
    && AtTurn(content, plan, t.ending.session, r + 1)
    && t.ending.session.socket.transfers
       == s.socket.transfers + Waiting(r) + 2 * BlockCount(|content[plan[r]]|)
  }

  lemma HeraldDownload(
    env: Env, content: seq<Bytes>, plan: seq<nat>, s: Session, r: nat, asked: nat, steps: nat)
    requires Herald(env, content, plan) && AtTurn(content, plan, s, r) && r < |plan|
    requires BlockCount(|content[plan[r]]|) + 2 <= steps
    requires Clear(env, s.socket.transfers, Waiting(r) + 2 * BlockCount(|content[plan[r]]|))
    ensures Delivered(content, plan, s, r, Iterate(env, Starting(s, asked), steps))
  {
    hide Begin, PieceLen, Herald, Completed, BlockCount, Iterate, ThreadStep, AtTurn, Clear, Delivered, LoopServed;
    HeraldFacts(env, content, plan, r);
    var idx := plan[r];
    BeforeBegin(env, s.socket.transfers, BlockCount(|content[idx]|), r);
    HeraldBegin(env, content, plan, s, r, asked);
    var u := Begin(env, s, asked).session;
    BeginsFirst(env, s, asked, steps - 1);
    if content[idx] != [] {
      HeraldBlocks(env, content, plan, u, idx, 0);
    }
    HeraldLoop(env, content, plan, s, u, r);
    var end := BlockCount(|content[idx]|) + 1;
    DeliveredIsOver(content, plan, s, r, Iterate(env, InBlocks(u, idx, 0), end));
    StaysOver(env, InBlocks(u, idx, 0), end, steps - 1);
  }

  lemma DeliveredIsOver(content: seq<Bytes>, plan: seq<nat>, s: Session, r: nat, t: Thread)
    requires r < |plan| && plan[r] < |content| && Delivered(content, plan, s, r, t)
    ensures t.Over?
  {
  }

  lemma StaysOver(env: Env, t: Thread, m: nat, n: nat)
    requires m <= n && Iterate(env, t, m).Over?
    ensures Iterate(env, t, n) == Iterate(env, t, m)
  {
    hide Iterate;
    IterateAdd(env, t, m, n - m);
    IterateOver(env, Iterate(env, t, m).ending, n - m);
  }

  lemma BeforeBegin(env: Env, k: nat, blocks: nat, r: nat)
    requires Clear(env, k, Waiting(r) + 2 * blocks)
    ensures Clear(env, k, Waiting(r)) && Clear(env, k + Waiting(r), 2 * blocks)
  {
  }

  lemma BeginsFirst(env: Env, s: Session, asked: nat, n: nat)
    ensures Iterate(env, Starting(s, asked), n + 1) == Iterate(env, Begin(env, s, asked), n)
  {
    hide Begin;
  }

  lemma HeraldLoop(env: Env, content: seq<Bytes>, plan: seq<nat>, s: Session, u: Session, r: nat)
    requires AtTurn(content, plan, s, r) && r < |plan| && plan[r] < |content| == env.count
    requires |content[plan[r]]| == PieceLen(env, plan[r]) && (content[plan[r]] == [] ==> r + 1 == |plan|)
    requires u == s.(buffer := [], havePiece := None, socket := u.socket)
    requires u.socket.connected && u.socket.inbox == [] && u.socket.sent == s.socket.sent
    requires u.socket.transfers == s.socket.transfers + Waiting(r)
    requires content[plan[r]] != [] ==> LoopServed(env, content, plan, u, plan[r], 0)
    ensures Delivered(content, plan, s, r,
                      Iterate(env, InBlocks(u, plan[r], 0), BlockCount(|content[plan[r]]|) + 1))
  {
    hide PieceLen, Completed, Announcement, BlockCount, Iterate, ThreadStep;
    var idx := plan[r];
    if content[idx] == [] {
      NoBlocks();
      OneStep(env, InBlocks(u, idx, 0), 0);
      LastLook(env, u, idx, 0);
      NoAnnouncement(plan);
    }
  }

  lemma HeraldFacts(env: Env, content: seq<Bytes>, plan: seq<nat>, r: nat)
    requires Herald(env, content, plan) && r < |plan|
    ensures plan[r] < |content| == env.count && |content[plan[r]]| == PieceLen(env, plan[r]) < TWO_32
    ensures plan[r] < TWO_32 && (content[plan[r]] == [] ==> r + 1 == |plan|)
  {
  }

  lemma NoAnnouncement(plan: seq<nat>)
    ensures Announcement(plan, |plan|) == []
  {
  }

  /** After the last announced piece the worker waits in vain. */
  lemma HeraldIsDone(env: Env, content: seq<Bytes>, plan: seq<nat>, s: Session)
    requires AtTurn(content, plan, s, |plan|) && env.faults(s.socket.transfers) == NoFault
    ensures FindsNothing(env, s)
  {
    hide Completed, UnpackHeader;
  }

  /** Long enough for every piece. */
  ghost predicate AllLong(content: seq<Bytes>, jobs: seq<(nat, nat)>) {
    forall j, i :: 0 <= j < |jobs| && 0 <= i < |content| ==> BlockCount(|content[i]|) + 2 <= jobs[j].1
  }

  /** Over the life of the worker, whatever is asked for: its downloads deliver the announced pieces in order. */
  lemma {:induction false} LifeDelivers(
    env: Env, content: seq<Bytes>, plan: seq<nat>, s: Session, r: nat, jobs: seq<(nat, nat)>)
    requires Herald(env, content, plan) && AtTurn(content, plan, s, r) && NoFaultsFrom(env, s.socket.transfers)
    requires r + |jobs| <= |plan| && AllLong(content, jobs)
    ensures var t := Life(env, s, jobs);
            && AtTurn(content, plan, t, r + |jobs|)
            && (jobs != [] ==>
                  && plan[r + |jobs| - 1] < |content| && t.lastPiece == plan[r + |jobs| - 1]
                  && t.buffer == content[plan[r + |jobs| - 1]])
    decreases |jobs|
  {
    hide AtTurn, BlockCount, Iterate;
    if jobs != [] {
      HeraldFacts(env, content, plan, r);
      HeraldDownload(env, content, plan, s, r, jobs[0].0, jobs[0].1);
      var t := Iterate(env, Starting(s, jobs[0].0), jobs[0].1).ending.session;
      LifeDelivers(env, content, plan, t, r + 1, jobs[1..]);
    }
  }

  /** A connection to such a peer that greets by its first announcement. */
  lemma HeraldConnects(env: Env, content: seq<Bytes>, plan: seq<nat>, peerId: Bytes, first: Message)
    requires plan != [] && plan[0] < TWO_32
    requires Welcoming(env, peerId, first, Message(Have, Pack32(plan[0])))
    ensures var step := ConnectToPeer(env, FRESH);
            && step.Done? && step.session.established && AtTurn(content, plan, step.session, 0)
            && step.session.socket.transfers == Greetings(first, Message(Have, Pack32(plan[0])))
  {
    hide Welcoming, ConnectToPeer, Pack32, Unpack32;
    var second := Message(Have, Pack32(plan[0]));
    WelcomeConnects(env, peerId, first, second);
    Unpack32OfPack32(plan[0], []);
    assert Pack32(plan[0]) + [] == Pack32(plan[0]);
    GreetingCompletesNothing(env, content);
  }

  lemma GreetingCompletesNothing(env: Env, content: seq<Bytes>)
    ensures Completed(content, [PackHandshake(env.infoHash, PEER_ID), PackInterested()]) == 0
  {
    hide PackHandshake, UnpackHandshake, ToHex, Unpack32;
    HandshakeBack(env.infoHash, PEER_ID);
    var hello, msg := PackHandshake(env.infoHash, PEER_ID), PackInterested();
    assert |msg| == HEADER_SIZE;
    assert [] + [hello] == [hello] && [hello] + [msg] == [hello, msg];
    CompletedMore(content, [], hello);
    CompletedMore(content, [hello], msg);
  }

  /** From the connection check on: any number of downloads, up to that of the announcements, delivers the
      announced pieces in order. */
  lemma HeraldLife(
    env: Env, content: seq<Bytes>, plan: seq<nat>, peerId: Bytes, first: Message, jobs: seq<(nat, nat)>)
    requires Herald(env, content, plan) && plan != [] && plan[0] < TWO_32
    requires Welcoming(env, peerId, first, Message(Have, Pack32(plan[0]))) && NoFaultsFrom(env, 0)
    requires 0 < |jobs| <= |plan| && AllLong(content, jobs)
    ensures var t := Life(env, At(ConnectToPeer(env, FRESH)), jobs);
            && plan[|jobs| - 1] < |content|
            && t.lastPiece == plan[|jobs| - 1] && t.buffer == content[plan[|jobs| - 1]]
  {
    hide Herald, Welcoming, ConnectToPeer, AtTurn, AllLong, Life;
    HeraldConnects(env, content, plan, peerId, first);
    LifeDelivers(env, content, plan, ConnectToPeer(env, FRESH).session, 0, jobs);
  }
}
