/** The block loop against any peer that answers: what the buffer holds, and when the loop ends. */
module SessionBlocks {
  import opened Bytes
  import opened Wrappers
  import opened Proto
  import opened Session
  import opened SessionOrder
  import opened SessionStream
  import opened SessionHonest

  // What the buffer holds.

  /** The answer to one request: the header and the body that were read. */
  datatype Turn = Turn(header: Bytes, body: Bytes)

  predicate IsBlock(turn: Turn) {
    && UnpackHeader(turn.header).Success? && UnpackHeader(turn.header).value.id == Piece
    && UnpackPiece(turn.body).Success?
  }

  function BlockOf(turn: Turn): Bytes
    requires IsBlock(turn)
  {
    UnpackPiece(turn.body).value.block
  }

  predicate AllBlocks(turns: seq<Turn>) {
    forall i :: 0 <= i < |turns| ==> IsBlock(turns[i])
  }

  /** The blocks one after the other. */
  function Blocks(turns: seq<Turn>): Bytes
    requires AllBlocks(turns)
  {
    if turns == [] then [] else BlockOf(turns[0]) + Blocks(turns[1..])
  }

  /** The history of these turns: each request is for the piece, at the offset the blocks before it come
      to, and is followed by its answer. */
  function History(env: Env, idx: nat, received: nat, turns: seq<Turn>): seq<Event>
    requires AllBlocks(turns)
    decreases |turns|
  {
    if turns == [] then []
    else
      [Sent(RequestFor(env, idx, received)), Received(turns[0].header), Received(turns[0].body)]
      + History(env, idx, (received + |BlockOf(turns[0])|) % TWO_64, turns[1..])
  }

  /** What the loop has done, by the history and by the buffer. */
  ghost predicate Filled(env: Env, s: Session, idx: nat, received: nat, turns: seq<Turn>, u: Session) {
    && AllBlocks(turns)
    && u.socket.log == s.socket.log + History(env, idx, received, turns)
    && u.buffer == s.buffer + Blocks(turns)
  }

  /** One turn that does not fail. */
  lemma BlockTurn(env: Env, s: Session, idx: nat, received: nat)
    requires Block(env, s, idx, received).0.Done?
    ensures var (step, n) := Block(env, s, idx, received);
            exists turn :: Taken(env, s, idx, received, turn, step.session, n)
  {
    hide UnpackHeader, UnpackPiece, PackRequest, PieceLen, BlockLen, Read, Exchange;
    var msg := RequestFor(env, idx, received);
    var (s1, header) := Exchange(env, s.socket, msg, HEADER_SIZE);
    ExchangeAdds(env, s.socket, msg, HEADER_SIZE);
    var n := UnpackHeader(header.bytes).value.bodyLength;
    ReadAdds(env, s1, n);
    var body := Read(env, s1, n).1;
    var turn := Turn(header.bytes, body.bytes);
    assert s.socket.log + [Sent(msg), Received(header.bytes)] + [Received(body.bytes)]
           == s.socket.log + [Sent(msg), Received(header.bytes), Received(body.bytes)];
    assert Taken(env, s, idx, received, turn, Block(env, s, idx, received).0.session, |BlockOf(turn)|);
  }

  ghost predicate Taken(env: Env, s: Session, idx: nat, received: nat, turn: Turn, u: Session, n: nat) {
    && IsBlock(turn) && n == |BlockOf(turn)|
    && u.socket.log
       == s.socket.log + [Sent(RequestFor(env, idx, received)), Received(turn.header), Received(turn.body)]
    && u.buffer == s.buffer + BlockOf(turn)
  }

  lemma FilledMore(
    env: Env, s: Session, idx: nat, received: nat, turn: Turn, u: Session, n: nat, turns: seq<Turn>, v: Session)
    requires Taken(env, s, idx, received, turn, u, n)
    requires Filled(env, u, idx, (received + n) % TWO_64, turns, v)
    ensures Filled(env, s, idx, received, [turn] + turns, v)
  {
    hide IsBlock, RequestFor, BlockOf;
    assert ([turn] + turns)[1..] == turns;
  }

  /** However long the loop has run, unless it has failed: its history is that of a number of turns, in which
      every request is for the same piece, and the buffer is the concatenation of their blocks.  A full
      download names that piece. */
  lemma {:induction false} LoopFills(env: Env, s: Session, idx: nat, received: nat, n: nat)
    ensures var t := Iterate(env, InBlocks(s, idx, received), n);
            && (t.InBlocks? || (t.Over? && t.ending.Full?) ==>
                  exists turns :: Filled(env, s, idx, received, turns, SessionOf(t)))
            && (t.Over? && t.ending.Full? ==> t.ending.session.lastPiece == idx)
    decreases n
  {
    hide Block, PieceLen, Taken, Filled;
    var here := InBlocks(s, idx, received);
    if n == 0 || received == PieceLen(env, idx) {
      NothingFilled(env, s, idx, received);
      if n == 0 {
        assert Iterate(env, here, n) == here;
      } else {
        OneStep(env, here, n - 1);
        IterateOver(env, ThreadStep(env, here).ending, n - 1);
        FilledStill(env, s, idx, received, [], s, ThreadStep(env, here).ending.session);
      }
      assert Filled(env, s, idx, received, [], SessionOf(Iterate(env, here, n)));
    } else {
      var next := ThreadStep(env, here);
      var (step, k) := Block(env, s, idx, received);
      if step.Thrown? {
        IterateOver(env, next.ending, n - 1);
      } else {
        BlockTurn(env, s, idx, received);
        var turn :| Taken(env, s, idx, received, turn, step.session, k);
        LoopFills(env, step.session, idx, (received + k) % TWO_64, n - 1);
        var t := Iterate(env, here, n);
        if t.InBlocks? || (t.Over? && t.ending.Full?) {
          var turns :| Filled(env, step.session, idx, (received + k) % TWO_64, turns, SessionOf(t));
          FilledMore(env, s, idx, received, turn, step.session, k, turns, SessionOf(t));
        }
      }
    }
  }

  lemma NothingFilled(env: Env, s: Session, idx: nat, received: nat)
    ensures Filled(env, s, idx, received, [], s)
  {
    assert s.socket.log + [] == s.socket.log && s.buffer + [] == s.buffer;
  }

  lemma FilledStill(env: Env, s: Session, idx: nat, received: nat, turns: seq<Turn>, u: Session, v: Session)
    requires Filled(env, s, idx, received, turns, u) && v.socket == u.socket && v.buffer == u.buffer
    ensures Filled(env, s, idx, received, turns, v)
  {
  }

  /** A full download, from its start: after what its beginning has done, only requests for the piece that is
      named at the end, and in the buffer exactly the blocks received for them, in order. */
  lemma FullDownloadFills(env: Env, s: Session, asked: nat, n: nat)
    requires var t := Iterate(env, Starting(s, asked), n); t.Over? && t.ending.Full?
    ensures var u := Iterate(env, Starting(s, asked), n).ending.session;
            var b := Begin(env, s, asked);
            && b.InBlocks? && b.received == 0 && b.session.buffer == []
            && u.lastPiece == b.idx
            && exists turns :: Filled(env, b.session, u.lastPiece, 0, turns, u)
  {
    hide Begin, Filled;
    var b := Begin(env, s, asked);
    assert Iterate(env, Starting(s, asked), n) == Iterate(env, b, n - 1);
    BeginEmpty(env, s, asked);
    if b.InBlocks? {
      LoopFills(env, b.session, b.idx, 0, n - 1);
    } else {
      IterateOver(env, b.ending, n - 1);
    }
  }

  lemma BeginEmpty(env: Env, s: Session, asked: nat)
    ensures var t := Begin(env, s, asked);
            && (t.InBlocks? ==> t.received == 0 && t.session.buffer == [])
            && !t.Starting? && (t.Over? ==> !t.ending.Full?)
  {
    hide ConnectToPeer, WaitHave;
    var c := s.(buffer := []);
    WaitHaveKeeps(env, c);
    ConnectKeepsBuffer(env, c);
    ConnectKeepsBuffer(env, c.(havePiece := None));
    ConnectKeepsBuffer(env, At(WaitHave(env, c).0).(havePiece := None));
  }

  lemma ConnectKeepsBuffer(env: Env, s: Session)
    ensures At(ConnectToPeer(env, s)).buffer == s.buffer
  {
    hide DoHandshake, DoBitfieldOrUnchoke, DoInterested;
    var c := s.(socket := s.socket.(connected := true, inbox := env.peer([])));
    GreetingKeepsHave(env, c);
    var h := At(DoHandshake(env, c));
    GreetingKeepsHave(env, h);
    InterestedKeepsBuffer(env, At(DoBitfieldOrUnchoke(env, h)));
  }

  lemma InterestedKeepsBuffer(env: Env, s: Session)
    ensures At(DoInterested(env, s)).buffer == s.buffer
  {
    hide UnpackHeader, PackInterested, Exchange, Read, UnpackHave;
  }

  /** The index and the offset in an answer are not compared with the request: two peers whose answers differ
      only in them fill the buffer alike. */
  lemma LabelsIgnored(
    env: Env, other: Env, s: Session, idx: nat, received: nat,
    index: u32, begin: u32, otherIndex: u32, otherBegin: u32, block: Bytes)
    requires Running(env, s) && Running(other, s) && |block| + 9 < TWO_32
    requires RequestFor(other, idx, received) == RequestFor(env, idx, received)
    requires env.peer(s.socket.sent + [RequestFor(env, idx, received)])
             == Frame(Message(Piece, PieceBody(index, begin, block)))
    requires other.peer(s.socket.sent + [RequestFor(env, idx, received)])
             == Frame(Message(Piece, PieceBody(otherIndex, otherBegin, block)))
    ensures var (step, n) := Block(env, s, idx, received);
            var (otherStep, m) := Block(other, s, idx, received);
            && step.Done? && otherStep.Done? && n == m == |block|
            && otherStep.session.(socket := step.session.socket) == step.session
            && step.session.buffer == s.buffer + block
  {
    hide Block, RequestFor, Frame, PieceBody;
    AnsweredBlock(env, s, idx, received, index, begin, block);
    AnsweredBlock(other, s, idx, received, otherIndex, otherBegin, block);
  }

  // When the loop ends.

  /** Nothing is unread and no transfer fails from here on. */
  ghost predicate Running(env: Env, s: Session) {
    s.socket.inbox == [] && NoFaultsFrom(env, s.socket.transfers)
  }

  /** What a block may be, by the number of bytes that were asked for. */
  type Standard = (nat, Bytes) -> bool

  /** The peer answers every request by one Piece message with a block of this kind, of whatever piece. */
  ghost predicate Answering(env: Env, ok: Standard) {
    forall sent: seq<Bytes>, idx: u32, begin: u32, n: u32 ::
      AnswersWith(env, ok, sent + [PackRequest(idx, begin, n)], n)
  }

  ghost predicate AnswersWith(env: Env, ok: Standard, sent: seq<Bytes>, n: u32) {
    exists index: u32, offset: u32, block: Bytes :: AnswersSo(env, ok, sent, n, index, offset, block)
  }

  ghost predicate AnswersSo(
    env: Env, ok: Standard, sent: seq<Bytes>, n: u32, index: u32, offset: u32, block: Bytes)
  {
    && |block| + 9 < TWO_32 && ok(n, block)
    && env.peer(sent) == Frame(Message(Piece, PieceBody(index, offset, block)))
  }

  /** One turn with such a peer. */
  lemma AnsweredTurn(env: Env, ok: Standard, s: Session, idx: nat, received: nat)
    requires Answering(env, ok) && Running(env, s)
    ensures var (step, k) := Block(env, s, idx, received);
            && step.Done? && Running(env, step.session)
            && |step.session.buffer| == |s.buffer| + k
            && exists block :: |block| == k && ok(BlockLen(PieceLen(env, idx), received), block)
  {
    hide Block, PackRequest, PieceLen, Frame, PieceBody;
    var n: u32 := BlockLen(PieceLen(env, idx), received);
    var msg := PackRequest(idx % TWO_32, received % TWO_32, n);
    assert RequestFor(env, idx, received) == msg;
    var sent := s.socket.sent + [msg];
    assert AnswersWith(env, ok, sent, n);
    var index: u32, offset: u32, block: Bytes :| AnswersSo(env, ok, sent, n, index, offset, block);
    AnsweredBlock(env, s, idx, received, index, offset, block);
  }

  /** The session and the count after `k` blocks, if the loop did not look at the length of the piece. */
  function Turns(env: Env, s: Session, idx: nat, received: nat, k: nat): (Step, nat)
    decreases k
  {
    if k == 0 then (Done(s), received)
    else
      match Block(env, s, idx, received)
      case (Thrown(u, e), _) => (Thrown(u, e), received)
      case (Done(u), n) => Turns(env, u, idx, (received + n) % TWO_64, k - 1)
  }

  /** The bytes of the first `k` blocks. */
  function PartialSum(env: Env, s: Session, idx: nat, received: nat, k: nat): nat {
    |At(Turns(env, s, idx, received, k).0).buffer|
  }

  /** Whether the `k`-th partial sum is the length of the piece, as `size_t` counts. */
  predicate Hits(env: Env, s: Session, idx: nat, received: nat, k: nat) {
    PartialSum(env, s, idx, received, k) % TWO_64 == PieceLen(env, idx)
  }

  ghost predicate NoHits(env: Env, s: Session, idx: nat, received: nat, n: nat) {
    forall k :: 0 <= k < n ==> !Hits(env, s, idx, received, k)
  }

  lemma HitsNext(env: Env, s: Session, idx: nat, received: nat, k: nat)
    requires k > 0 && Block(env, s, idx, received).0.Done?
    ensures var (step, n) := Block(env, s, idx, received);
            Hits(env, s, idx, received, k) <==> Hits(env, step.session, idx, (received + n) % TWO_64, k - 1)
  {
    hide Block, PieceLen;
  }

  /** The loop is left full after exactly `n` answered blocks if and only if the `n`-th partial sum is the
      first that equals the length of the piece, as `size_t` counts. */
  lemma {:induction false} FullIffFirstHit(env: Env, s: Session, idx: nat, received: nat, n: nat)
    requires received == |s.buffer| % TWO_64 && Turns(env, s, idx, received, n).0.Done?
    ensures var t := InBlocks(s, idx, received);
            (Iterate(env, t, n).InBlocks? && Iterate(env, t, n + 1).Over? && Iterate(env, t, n + 1).ending.Full?)
            <==> Hits(env, s, idx, received, n) && NoHits(env, s, idx, received, n)
    decreases n
  {
    hide Block, PieceLen, Hits, ThreadStep, NoHits, Turns;
    NoHitYet(env, s, idx, received);
    if n == 0 {
      FullAtOnce(env, s, idx, received);
    } else if received == PieceLen(env, idx) {
      FullBefore(env, s, idx, received, n);
    } else {
      var t := InBlocks(s, idx, received);
      TurnsNext(env, s, idx, received, n);
      var (step, k) := Block(env, s, idx, received);
      TurnGoesOn(env, s, idx, received);
      BlockKeeps(env, s, idx, received);
      OneStep(env, t, n);
      OneStep(env, t, n - 1);
      FullIffFirstHit(env, step.session, idx, (received + k) % TWO_64, n - 1);
      ShiftHits(env, s, idx, received, n);
    }
  }

  lemma TurnsNext(env: Env, s: Session, idx: nat, received: nat, n: nat)
    requires n > 0 && Turns(env, s, idx, received, n).0.Done?
    ensures var (step, k) := Block(env, s, idx, received);
            step.Done? && Turns(env, step.session, idx, (received + k) % TWO_64, n - 1).0.Done?
  {
    hide Block;
  }

  lemma FullAtOnce(env: Env, s: Session, idx: nat, received: nat)
    ensures var t := InBlocks(s, idx, received);
            && Iterate(env, t, 0) == t && NoHits(env, s, idx, received, 0)
            && (Iterate(env, t, 1).Over? && Iterate(env, t, 1).ending.Full? <==> received == PieceLen(env, idx))
  {
    hide Block, PieceLen, Hits, ThreadStep;
    var t := InBlocks(s, idx, received);
    assert Iterate(env, t, 1) == Iterate(env, ThreadStep(env, t), 0) == ThreadStep(env, t);
    if received != PieceLen(env, idx) {
      BlockEndsNothing(env, s, idx, received);
    } else {
      LastLook(env, s, idx, received);
    }
  }

  lemma FullBefore(env: Env, s: Session, idx: nat, received: nat, n: nat)
    requires n > 0 && received == PieceLen(env, idx) && Hits(env, s, idx, received, 0)
    ensures Iterate(env, InBlocks(s, idx, received), n).Over? && !NoHits(env, s, idx, received, n)
  {
    hide PieceLen, Hits, ThreadStep;
    var t := InBlocks(s, idx, received);
    LastLook(env, s, idx, received);
    OneStep(env, t, n - 1);
    assert Iterate(env, ThreadStep(env, t), 0) == ThreadStep(env, t);
    IterateOver(env, ThreadStep(env, t).ending, n - 1);
  }

  lemma NoHitYet(env: Env, s: Session, idx: nat, received: nat)
    requires received == |s.buffer| % TWO_64
    ensures Hits(env, s, idx, received, 0) <==> received == PieceLen(env, idx)
  {
    hide PieceLen;
  }

  lemma BlockEndsNothing(env: Env, s: Session, idx: nat, received: nat)
    requires received != PieceLen(env, idx)
    ensures var t := ThreadStep(env, InBlocks(s, idx, received)); t.Over? ==> t.ending.Failed?
  {
    hide Block, PieceLen;
  }

  lemma ShiftHits(env: Env, s: Session, idx: nat, received: nat, n: nat)
    requires n > 0 && Block(env, s, idx, received).0.Done? && !Hits(env, s, idx, received, 0)
    ensures var (step, m) := Block(env, s, idx, received);
            var next := (received + m) % TWO_64;
            && (Hits(env, s, idx, received, n) <==> Hits(env, step.session, idx, next, n - 1))
            && (NoHits(env, s, idx, received, n) <==> NoHits(env, step.session, idx, next, n - 1))
  {
    hide Block, Hits;
    var (step, m) := Block(env, s, idx, received);
    var next := (received + m) % TWO_64;
    HitsNext(env, s, idx, received, n);
    if NoHits(env, s, idx, received, n) {
      forall k | 0 <= k < n - 1
        ensures !Hits(env, step.session, idx, next, k)
      {
        HitsNext(env, s, idx, received, k + 1);
      }
    }
    if NoHits(env, step.session, idx, next, n - 1) {
      forall k | 0 <= k < n
        ensures !Hits(env, s, idx, received, k)
      {
        if k > 0 {
          HitsNext(env, s, idx, received, k);
        }
      }
    }
  }

  lemma {:induction false} TurnsGoOn(env: Env, ok: Standard, s: Session, idx: nat, received: nat, k: nat)
    requires Answering(env, ok) && Running(env, s)
    ensures Turns(env, s, idx, received, k).0.Done?
    decreases k
  {
    hide Answering, Running, Block, PieceLen, BlockLen;
    if k > 0 {
      AnsweredTurn(env, ok, s, idx, received);
      var (step, n) := Block(env, s, idx, received);
      TurnsGoOn(env, ok, step.session, idx, (received + n) % TWO_64, k - 1);
    }
  }

  lemma TurnCounts(env: Env, ok: Standard, s: Session, idx: nat, received: nat)
    requires Answering(env, ok) && Running(env, s) && received == |s.buffer| % TWO_64
    ensures var (step, k) := Block(env, s, idx, received);
            step.Done? && Running(env, step.session) && (received + k) % TWO_64 == |step.session.buffer| % TWO_64
  {
    hide Answering, Running, Block, PieceLen, BlockLen;
    AnsweredTurn(env, ok, s, idx, received);
    WrapAdd(|s.buffer|, Block(env, s, idx, received).1);
  }

  lemma FirstIsNoHit(env: Env, s: Session, idx: nat, received: nat, n: nat)
    requires n > 0 && NoHits(env, s, idx, received, n)
    ensures !Hits(env, s, idx, received, 0)
  {
    hide Hits;
  }

  lemma NoHitsNext(env: Env, s: Session, idx: nat, received: nat, n: nat)
    requires n > 0 && Block(env, s, idx, received).0.Done? && NoHits(env, s, idx, received, n)
    ensures var (step, k) := Block(env, s, idx, received);
            NoHits(env, step.session, idx, (received + k) % TWO_64, n - 1)
  {
    hide Block, Hits, NoHits;
    FirstIsNoHit(env, s, idx, received, n);
    ShiftHits(env, s, idx, received, n);
  }

  lemma NoHitNow(env: Env, s: Session, idx: nat, received: nat, n: nat)
    requires n > 0 && NoHits(env, s, idx, received, n) && received == |s.buffer| % TWO_64
    ensures received != PieceLen(env, idx)
  {
    hide Hits, NoHits, PieceLen;
    FirstIsNoHit(env, s, idx, received, n);
    NoHitYet(env, s, idx, received);
  }

  lemma {:induction false} NoHitNoEnd(env: Env, ok: Standard, s: Session, idx: nat, received: nat, n: nat)
    requires Answering(env, ok) && Running(env, s) && received == |s.buffer| % TWO_64
    requires NoHits(env, s, idx, received, n)
    ensures Iterate(env, InBlocks(s, idx, received), n).InBlocks?
    decreases n
  {
    hide Answering, Running, Block, PieceLen, BlockLen, Hits, NoHits, ThreadStep, Turns, At, Iterate;
    if n == 0 {
      NoSteps(env, InBlocks(s, idx, received));
    } else {
      TurnCounts(env, ok, s, idx, received);
      NoHitNow(env, s, idx, received, n);
      TurnGoesOn(env, s, idx, received);
      NoHitsNext(env, s, idx, received, n);
      var (step, k) := Block(env, s, idx, received);
      OneStep(env, InBlocks(s, idx, received), n - 1);
      NoHitNoEnd(env, ok, step.session, idx, (received + k) % TWO_64, n - 1);
    }
  }

  lemma WrapAdd(x: nat, k: nat)
    ensures (x % TWO_64 + k) % TWO_64 == (x + k) % TWO_64
  {
  }

  lemma {:induction false} FirstHit(env: Env, s: Session, idx: nat, received: nat, n: nat)
    requires Hits(env, s, idx, received, n)
    ensures exists k: nat :: Hits(env, s, idx, received, k) && NoHits(env, s, idx, received, k)
    decreases n
  {
    hide Hits;
    if !NoHits(env, s, idx, received, n) {
      var j :| 0 <= j < n && Hits(env, s, idx, received, j);
      FirstHit(env, s, idx, received, j);
    }
  }

  /** Against a peer that goes on answering, the loop ends if and only if some partial sum of the blocks
      equals the length of the piece, as `size_t` counts. */
  lemma EndsIffHit(env: Env, ok: Standard, s: Session, idx: nat, received: nat)
    requires Answering(env, ok) && Running(env, s) && received == |s.buffer| % TWO_64
    ensures (exists n: nat :: Iterate(env, InBlocks(s, idx, received), n).Over?)
            <==> exists k: nat :: Hits(env, s, idx, received, k)
  {
    hide Answering, Running, Hits, Turns, Iterate;
    if k: nat :| Hits(env, s, idx, received, k) {
      FirstHit(env, s, idx, received, k);
      var n: nat :| Hits(env, s, idx, received, n) && NoHits(env, s, idx, received, n);
      TurnsGoOn(env, ok, s, idx, received, n);
      FullIffFirstHit(env, s, idx, received, n);
    } else {
      forall n: nat
        ensures !Iterate(env, InBlocks(s, idx, received), n).Over?
      {
        NoHitNoEnd(env, ok, s, idx, received, n);
      }
    }
  }

  // Peers that answer with what was asked for, or less, or nothing, or too much.

  /** At least one byte, and no more than was asked for. */
  function Modest(): Standard {
    (n: nat, block: Bytes) => 1 <= |block| <= n
  }

  /** Against a peer whose blocks have at least one byte and at most as many as were asked for, the loop is
      full after at most as many turns as there are bytes. */
  lemma {:induction false} ModestPeersFinish(env: Env, s: Session, idx: nat, received: nat)
    requires Answering(env, Modest()) && Running(env, s)
    requires received <= PieceLen(env, idx) < TWO_64
    ensures var len := PieceLen(env, idx);
            var t := Iterate(env, InBlocks(s, idx, received), len - received + 1);
            && t.Over? && t.ending.Full? && t.ending.session.lastPiece == idx
            && |t.ending.session.buffer| == |s.buffer| + len - received
    decreases PieceLen(env, idx) - received
  {
    hide Answering, Running, Block, PieceLen, ThreadStep, Iterate, BlockLen, Modest;
    var len := PieceLen(env, idx);
    var here := InBlocks(s, idx, received);
    OneStep(env, here, len - received);
    if received == len {
      LastLook(env, s, idx, received);
    } else {
      AnsweredTurn(env, Modest(), s, idx, received);
      var (step, k) := Block(env, s, idx, received);
      ModestSize(len, received, k);
      var next := InBlocks(step.session, idx, received + k);
      TurnGoesOn(env, s, idx, received);
      ModestPeersFinish(env, step.session, idx, received + k);
      var rest := len - received - k + 1;
      IterateAdd(env, next, rest, k - 1);
      IterateOver(env, Iterate(env, next, rest).ending, k - 1);
    }
  }

  lemma ModestSize(len: nat, received: nat, k: nat)
    requires received < len < TWO_64 && exists block :: |block| == k && Modest()(BlockLen(len, received), block)
    ensures 1 <= k <= len - received
  {
  }

  /** Blocks of one size, whatever is asked for. */
  function Constant(size: nat): Standard {
    (n: nat, block: Bytes) => |block| == size
  }

  lemma {:induction false} ConstantSum(env: Env, size: nat, s: Session, idx: nat, received: nat, k: nat)
    requires Answering(env, Constant(size)) && Running(env, s)
    ensures PartialSum(env, s, idx, received, k) == |s.buffer| + k * size
    decreases k
  {
    hide Answering, Running, Block, PieceLen, BlockLen;
    if k > 0 {
      AnsweredTurn(env, Constant(size), s, idx, received);
      var (step, n) := Block(env, s, idx, received);
      ConstantSum(env, size, step.session, idx, (received + n) % TWO_64, k - 1);
      assert (k - 1) * size + size == k * size;
    }
  }

  /** Against a peer that answers every request by a block of one size, the loop ends if and only if a number
      of such blocks has the length of the piece, as `size_t` counts. */
  lemma ConstantEndsIff(env: Env, size: nat, s: Session, idx: nat)
    requires Answering(env, Constant(size)) && Running(env, s) && s.buffer == []
    ensures (exists n: nat :: Iterate(env, InBlocks(s, idx, 0), n).Over?)
            <==> exists k: nat :: Multiple(k, size) % TWO_64 == PieceLen(env, idx)
  {
    hide Answering, Running, Iterate, PieceLen;
    EndsIffHit(env, Constant(size), s, idx, 0);
    forall k: nat
      ensures Hits(env, s, idx, 0, k) <==> Multiple(k, size) % TWO_64 == PieceLen(env, idx)
    {
      ConstantSum(env, size, s, idx, 0, k);
    }
  }

  function Multiple(k: nat, size: nat): nat { k * size }

  /** Empty blocks starve the loop, and so do blocks of the largest size when the piece is no multiple of it:
      the last one jumps past the end. */
  lemma StarvingSizes(size: nat, len: nat)
    requires (size == 0 && len != 0) || (size == MAX_BLOCK_LEN && len % MAX_BLOCK_LEN != 0)
    ensures !exists k: nat :: Multiple(k, size) % TWO_64 == len
  {
    forall k: nat
      ensures Multiple(k, size) % TWO_64 != len
    {
      if size == 0 {
        assert Multiple(k, 0) == 0;
      } else {
        WrappedMultiple(k);
      }
    }
  }

  /** A multiple of the largest block size stays one when it wraps around. */
  lemma WrappedMultiple(k: nat)
    ensures Multiple(k, MAX_BLOCK_LEN) % TWO_64 % MAX_BLOCK_LEN == 0
  {
    var x := Multiple(k, MAX_BLOCK_LEN);
    var q, r := x / TWO_64, x % TWO_64;
    assert x == 16384 * k && x == TWO_64 * q + r;
    var m := k - 0x4_0000_0000_0000 * q;
    assert r == 16384 * m;
  }
}
