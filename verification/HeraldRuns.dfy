/** Whole downloads from peers that announce their pieces. */
module HeraldRuns {
  import opened Bytes
  import opened PieceLengths
  import opened Proto
  import opened Session
  import opened SessionStream
  import opened SessionHonest
  import opened PieceWorkers
  import opened Scheduler
  import opened SchedulerRuns
  import opened AnyPeers
  import opened Gathering
  import opened Downloading
  import opened WholeFile
  import opened Heralds
  import opened HostilePeers

  // One round with one worker.

  lemma AloneRound(w: State, b: Board, steps: nat)
    requires b.verdict.Going? && b.pending != [] && Idle(w)
    requires AfterJoin(Started(w, b.pending[0]), steps).Some? && Idle(AfterJoin(Started(w, b.pending[0]), steps).value)
    ensures var v := AfterJoin(Started(w, b.pending[0]), steps).value;
            Round([w], b, steps) == ([v], Take(v, b))
  {
    hide AfterJoin, Take, StartAll;
    StartsFirst([w], b.pending);
    var x := Started(w, b.pending[0]);
    assert StartAll([w], b.pending) == [x];
    var v := AfterJoin(x, steps).value;
    assert [x][0 := v] == [v];
    CollectIdle([v], 1, Take(v, b), steps);
  }

  /** The worker delivers the next announced piece, whatever it was started for. */
  lemma HeraldJoin(w: State, content: seq<Bytes>, plan: seq<nat>, r: nat, idx: nat, steps: nat)
    requires Herald(w.env, content, plan) && AtTurn(content, plan, w.session, r) && r < |plan|
    requires NoFaultsFrom(w.env, w.session.socket.transfers) && Enough(content, steps)
    ensures var v := AfterJoin(Started(w, idx), steps);
            && v.Some? && Idle(v.value) && v.value.complete && v.value.env == w.env
            && plan[r] < |content|
            && v.value.session.buffer == content[plan[r]] && v.value.session.lastPiece == plan[r]
            && AtTurn(content, plan, v.value.session, r + 1)
            && NoFaultsFrom(w.env, v.value.session.socket.transfers)
  {
    hide AtTurn, BlockCount, Iterate, Herald;
    HeraldFacts(w.env, content, plan, r);
    HeraldDownload(w.env, content, plan, w.session, r, idx, steps);
  }

  /** After the last announcement it waits in vain and counts as complete, with the piece it had before. */
  lemma HeraldJoinsEarly(w: State, content: seq<Bytes>, plan: seq<nat>, idx: nat, steps: nat)
    requires AtTurn(content, plan, w.session, |plan|) && NoFaultsFrom(w.env, w.session.socket.transfers) && steps > 0
    ensures plan != []
    ensures var v := AfterJoin(Started(w, idx), steps);
            && v.Some? && Idle(v.value) && v.value.complete && v.value.session.lastPiece == plan[|plan| - 1]
  {
    hide FindsNothing, AfterJoin, Completed;
    HeraldIsDone(w.env, content, plan, w.session);
    EarlyJoin(Started(w, idx), steps);
  }

  // The loop.

  /** How many announcements there are, from number `r` on, before one that was made already. */
  function FreshUntil(plan: seq<nat>, r: nat): (k: nat)
    ensures k >= r
    decreases |plan| - r
  {
    if r < |plan| && plan[r] !in plan[..r] then FreshUntil(plan, r + 1) else r
  }

  lemma {:induction false} FreshIff(plan: seq<nat>, r: nat, n: nat)
    requires r <= |plan| && NoRepeats(plan[..r])
    ensures FreshUntil(plan, r) <= |plan|
    ensures r <= n ==> (FreshUntil(plan, r) >= n <==> n <= |plan| && NoRepeats(plan[..n]))
    decreases |plan| - r
  {
    if r < |plan| && plan[r] !in plan[..r] {
      OneMoreFresh(plan, r);
      FreshIff(plan, r + 1, n);
    } else if r < n <= |plan| {
      var i :| 0 <= i < r && plan[..r][i] == plan[r];
      assert plan[..n][i] == plan[..n][r];
    }
  }

  lemma OneMoreFresh(plan: seq<nat>, r: nat)
    requires r < |plan| && NoRepeats(plan[..r]) && plan[r] !in plan[..r]
    ensures NoRepeats(plan[..r + 1]) && plan[..r + 1] == plan[..r] + [plan[r]]
  {
    assert plan[..r + 1] == plan[..r] + [plan[r]];
  }

  /** The board after `r` announced pieces. */
  ghost predicate BoardAt(
    content: seq<Bytes>, plan: seq<nat>, r: nat, files: map<nat, Bytes>, b: Board)
    requires r <= |plan|
  {
    && b.verdict.Going? && NoRepeats(b.pending) && |b.pending| == |content| - r
    && (forall i: nat :: i in b.pending <==> i < |content| && i !in plan[..r])
    && Written(plan[..r], Genuine(content), files, b.files)
  }

  lemma TakeNext(content: seq<Bytes>, plan: seq<nat>, r: nat, files: map<nat, Bytes>, b: Board, v: State)
    requires r < |plan| && plan[r] < |content| && BoardAt(content, plan, r, files, b)
    requires v.complete && v.session.lastPiece == plan[r] && v.session.buffer == content[plan[r]]
    ensures if plan[r] !in plan[..r] then BoardAt(content, plan, r + 1, files, Take(v, b))
            else Take(v, b) == b.(verdict := Twice(plan[r]))
  {
    hide Written;
    var idx := plan[r];
    if idx !in plan[..r] {
      Popped(b.pending, idx);
      PopTakesFirst(b.pending, idx, FirstAt(b.pending, idx));
      WrittenMore(plan[..r], Genuine(content), files, b.files, idx, content[idx]);
      assert plan[..r + 1] == plan[..r] + [idx];
    } else {
      PopTakesFirst(b.pending, idx, 0);
    }
  }

  /** How the loop ends: past all pieces, or by the exception of `pop_piece` for the first announcement made
      twice, or for the last one when there is no next. */
  ghost predicate Ends(content: seq<Bytes>, plan: seq<nat>, r: nat, files: map<nat, Bytes>, c: Board) {
    var k := FreshUntil(plan, r);
    if k >= |content| then
      && c.verdict.Going? && c.pending == []
      && |content| <= |plan| && Written(plan[..|content|], Genuine(content), files, c.files)
    else
      0 < |plan| && k <= |plan| && c.verdict == Twice(if k < |plan| then plan[k] else plan[|plan| - 1])
  }

  lemma TakeStale(content: seq<Bytes>, plan: seq<nat>, files: map<nat, Bytes>, b: Board, v: State)
    requires plan != [] && BoardAt(content, plan, |plan|, files, b)
    requires v.complete && v.session.lastPiece == plan[|plan| - 1]
    ensures Take(v, b) == b.(verdict := Twice(plan[|plan| - 1]))
  {
    hide Written;
    assert plan[|plan| - 1] in plan[..|plan|];
    PopTakesFirst(b.pending, plan[|plan| - 1], 0);
  }

  lemma {:induction false} HeraldRounds(
    w: State, content: seq<Bytes>, plan: seq<nat>, r: nat, files: map<nat, Bytes>, b: Board, steps: nat, rounds: nat)
    requires Idle(w) && Herald(w.env, content, plan) && AtTurn(content, plan, w.session, r)
    requires NoFaultsFrom(w.env, w.session.socket.transfers) && Enough(content, steps) && steps > 0
    requires r <= |plan| && r <= |content| && BoardAt(content, plan, r, files, b)
    requires Least(|content|, FreshUntil(plan, r) + 1) <= r + rounds
    ensures Ends(content, plan, r, files, Rounds([w], b, steps, rounds).1)
    decreases rounds
  {
    hide Herald, AtTurn, NoFaultsFrom, Enough, BoardAt, Ends, Round, Take, AfterJoin, Written;
    AtEnd(content, plan, r, files, b);
    if b.pending != [] {
      if r < |plan| {
        HeraldJoin(w, content, plan, r, b.pending[0], steps);
        AloneRound(w, b, steps);
        var v := AfterJoin(Started(w, b.pending[0]), steps).value;
        TakeNext(content, plan, r, files, b, v);
        if plan[r] !in plan[..r] {
          GoesOn(content, plan, r, files, Take(v, b));
          HeraldRounds(v, content, plan, r + 1, files, Take(v, b), steps, rounds - 1);
          FreshNext(content, plan, r, files, Rounds([v], Take(v, b), steps, rounds - 1).1);
        } else {
          Repeats(content, plan, r, files, Take(v, b));
        }
      } else {
        HeraldJoinsEarly(w, content, plan, b.pending[0], steps);
        AloneRound(w, b, steps);
        var v := AfterJoin(Started(w, b.pending[0]), steps).value;
        TakeStale(content, plan, files, b, v);
        Exhausted(content, plan, files, Take(v, b));
      }
    }
  }

  lemma AtEnd(content: seq<Bytes>, plan: seq<nat>, r: nat, files: map<nat, Bytes>, b: Board)
    requires r <= |plan| && r <= |content| && BoardAt(content, plan, r, files, b)
    ensures b.verdict.Going? && (b.pending == [] <==> r == |content|)
    ensures b.pending == [] ==> Ends(content, plan, r, files, b)
  {
    hide Written;
  }

  lemma GoesOn(content: seq<Bytes>, plan: seq<nat>, r: nat, files: map<nat, Bytes>, b: Board)
    requires r < |plan| && BoardAt(content, plan, r + 1, files, b)
    ensures b.verdict.Going? && r + 1 <= |content|
  {
    hide Written;
  }

  lemma FreshNext(content: seq<Bytes>, plan: seq<nat>, r: nat, files: map<nat, Bytes>, c: Board)
    requires r < |plan| && plan[r] !in plan[..r] && Ends(content, plan, r + 1, files, c)
    ensures Ends(content, plan, r, files, c)
  {
    hide Written;
  }

  lemma Repeats(content: seq<Bytes>, plan: seq<nat>, r: nat, files: map<nat, Bytes>, c: Board)
    requires r < |plan| && r < |content| && plan[r] in plan[..r] && c.verdict == Twice(plan[r])
    ensures Ends(content, plan, r, files, c)
  {
    hide Written;
  }

  lemma Exhausted(content: seq<Bytes>, plan: seq<nat>, files: map<nat, Bytes>, c: Board)
    requires plan != [] && |plan| < |content| && c.verdict == Twice(plan[|plan| - 1])
    ensures Ends(content, plan, |plan|, files, c)
  {
    hide Written;
  }

  // From the connection check on.

  /** A peer that greets by its first announcement and goes on as a herald. */
  ghost predicate Announcer(env: Env, content: seq<Bytes>, plan: seq<nat>, peerId: Bytes, first: Message) {
    && Herald(env, content, plan) && NoFaultsFrom(env, 0)
    && plan != [] && plan[0] < TWO_32 && Welcoming(env, peerId, first, Message(Have, Pack32(plan[0])))
  }

  lemma AnnouncerConnects(env: Env, content: seq<Bytes>, plan: seq<nat>, peerId: Bytes, first: Message)
    requires Announcer(env, content, plan, peerId, first)
    ensures var pool := Connected([env]);
            && |pool| == 1 && Idle(pool[0]) && pool[0].env == env && Herald(env, content, plan) && plan != []
            && pool[0] == Fresh(env).(session := pool[0].session)
            && AtTurn(content, plan, pool[0].session, 0) && NoFaultsFrom(env, pool[0].session.socket.transfers)
  {
    hide Herald, AtTurn, Connected, ConnectToPeer, Welcoming, Pack32;
    HeraldConnects(env, content, plan, peerId, first);
    BecomesWorker(env);
  }

  lemma BoardAtFirst(content: seq<Bytes>, plan: seq<nat>, order: seq<nat>, files: map<nat, Bytes>)
    requires Shuffled(order, |content|)
    ensures BoardAt(content, plan, 0, files, Board(order, files, Going))
  {
    ShuffleCovers(order, |content|);
    assert plan[..0] == [];
  }

  lemma FirstsIff(content: seq<Bytes>, plan: seq<nat>, files: map<nat, Bytes>, c: Board)
    requires Ends(content, plan, 0, files, c) && forall i :: 0 <= i < |plan| ==> plan[i] < |content|
    ensures var n := |content|;
            && (c.verdict.Going? <==> n <= |plan| && Shuffled(plan[..n], n))
            && (c.verdict.Going? ==> c.pending == [] && Written(plan[..n], Genuine(content), files, c.files))
            && (!c.verdict.Going? ==> c.verdict.Twice?)
  {
    hide Written;
    assert plan[..0] == [];
    FreshIff(plan, 0, |content|);
  }

  /** A whole download from one such peer, for every shuffle: the loop is left at its head if and only if the
      first announcements, as many as there are pieces, are a permutation of the pieces, and then the files
      hold exactly the pieces; otherwise it is left because a piece is popped twice. */
  lemma AnnouncerDownload(
    env: Env, content: seq<Bytes>, plan: seq<nat>, peerId: Bytes, first: Message,
    order: seq<nat>, files: map<nat, Bytes>, steps: nat, rounds: nat)
    requires Announcer(env, content, plan, peerId, first) && Shuffled(order, |content|)
    requires Enough(content, steps) && steps > 0 && |content| <= rounds
    ensures var pool, n := Connected([env]), |content|;
            var c := Rounds(pool, Board(order, files, Going), steps, rounds).1;
            && |pool| == 1
            && (c.verdict.Going? <==> n <= |plan| && Shuffled(plan[..n], n))
            && (c.verdict.Going? ==> c.pending == [] && Written(plan[..n], Genuine(content), files, c.files))
            && (!c.verdict.Going? ==> c.verdict.Twice?)
  {
    hide Announcer, Herald, AtTurn, Connected, Rounds, NoFaultsFrom, Enough, BoardAt, Ends, Shuffled, Written;
    AnnouncerConnects(env, content, plan, peerId, first);
    var pool := Connected([env]);
    BoardAtFirst(content, plan, order, files);
    HeraldRounds(pool[0], content, plan, 0, files, Board(order, files, Going), steps, rounds);
    PlanBelow(env, content, plan);
    assert pool == [pool[0]];
    FirstsIff(content, plan, files, Rounds(pool, Board(order, files, Going), steps, rounds).1);
  }

  lemma PlanBelow(env: Env, content: seq<Bytes>, plan: seq<nat>)
    requires Herald(env, content, plan)
    ensures forall i :: 0 <= i < |plan| ==> plan[i] < |content|
  {
  }

  /** What comes out: the file, up to the length of its pieces together, if and only if the first announcements
      are a permutation of the pieces; in any other case the exception of `pop_piece`. */
  lemma AnnouncerFile(
    env: Env, file: Bytes, pieceLength: nat, count: nat, plan: seq<nat>, peerId: Bytes, first: Message,
    order: seq<nat>, files: map<nat, Bytes>, steps: nat, rounds: nat, o: Outcome)
    requires 0 < pieceLength && CeilDiv(|file|, pieceLength, count) && Shuffled(order, count)
    requires Announcer(env, PiecesOf(file, pieceLength, count), plan, peerId, first)
    requires Enough(PiecesOf(file, pieceLength, count), steps) && steps > 0 && count <= rounds
    requires Results([env], order, files, steps, rounds, o)
    ensures var inOrder := count <= |plan| && Shuffled(plan[..count], count);
            && (o.Output? <==> inOrder)
            && (o == Output(file) <==> inOrder && (|file| % pieceLength != 0 || file == []))
            && (!inOrder ==> o.Stopped? && o.verdict.Twice?)
  {
    hide Announcer, Rounds, Connected, Shuffled, Written, Enough, CeilDiv, PiecesOf, PieceOf, Gathers;
    var content := PiecesOf(file, pieceLength, count);
    SizeOfShuffle(order, count);
    AnnouncerDownload(env, content, plan, peerId, first, order, files, steps, rounds);
    var c := Rounds(Connected([env]), Board(order, files, Going), steps, rounds).1;
    if c.verdict.Going? {
      GatheredFile(file, pieceLength, count, plan[..count], files, c.files, o);
    }
  }

  // Honest peers that announce once.

  lemma HonestIsHerald(env: Env, content: seq<Bytes>, a: nat)
    requires Honest(env, content) && a < |content|
    ensures Herald(env, content, [a])
  {
    hide PackRequest, Frame, PieceBody, PieceLen, Completed;
    forall sent: seq<Bytes>, idx: u32, begin: u32, n: u32 |
      idx < env.count && 0 < n && begin + n <= |content[idx]|
      ensures ServesOn(env, content, [a], sent, idx, begin, n)
    {
      assert AnswersInFull(env, content, sent, idx, begin, n);
    }
  }

  /** An honest peer that announces one of several pieces and then pauses past the time-out: nothing fails, and
      the download ends with that piece popped twice. */
  lemma LoneAnnouncement(
    env: Env, content: seq<Bytes>, a: nat, peerId: Bytes, first: Message,
    order: seq<nat>, files: map<nat, Bytes>, steps: nat, rounds: nat)
    requires Honest(env, content) && a < |content| && a < TWO_32 && NoFaultsFrom(env, 0)
    requires Welcoming(env, peerId, first, Message(Have, Pack32(a)))
    requires Shuffled(order, |content|) && |content| >= 2 && Enough(content, steps) && steps > 0 && rounds >= 2
    ensures |Connected([env])| == 1
    ensures Rounds(Connected([env]), Board(order, files, Going), steps, rounds).1.verdict == Twice(a)
  {
    hide Honest, Herald, AtTurn, Connected, Rounds, NoFaultsFrom, Enough, BoardAt, Shuffled, Written, Welcoming;
    HonestIsHerald(env, content, a);
    AnnouncerConnects(env, content, [a], peerId, first);
    var pool := Connected([env]);
    BoardAtFirst(content, [a], order, files);
    OneFresh(a);
    HeraldRounds(pool[0], content, [a], 0, files, Board(order, files, Going), steps, rounds);
    assert pool == [pool[0]];
  }

  lemma OneFresh(a: nat)
    ensures FreshUntil([a], 0) == 1
  {
    assert [a][..0] == [];
    assert FreshUntil([a], 0) == FreshUntil([a], 1);
  }

  /** Two honest peers that announce the same piece: in the first round nobody waits in vain and nothing fails,
      and it ends with that piece popped twice. */
  lemma TwoAnnouncements(
    env: Env, other: Env, content: seq<Bytes>, a: nat, peerId: Bytes, otherId: Bytes, first: Message,
    otherFirst: Message, order: seq<nat>, files: map<nat, Bytes>, steps: nat)
    requires Honest(env, content) && Honest(other, content) && a < |content| && a < TWO_32
    requires NoFaultsFrom(env, 0) && NoFaultsFrom(other, 0)
    requires Welcoming(env, peerId, first, Message(Have, Pack32(a)))
    requires Welcoming(other, otherId, otherFirst, Message(Have, Pack32(a)))
    requires Shuffled(order, |content|) && |content| >= 2 && Enough(content, steps)
    ensures var pool := Connected([env, other]);
            && |pool| == 2
            && !FindsNothing(pool[0].env, pool[0].session) && !FindsNothing(pool[1].env, pool[1].session)
            && Round(pool, Board(order, files, Going), steps).1.verdict.Twice?
  {
    hide Honest, Herald, AtTurn, Connected, NoFaultsFrom, Enough, Shuffled, Welcoming, Round, FindsNothing, AfterJoin;
    hide StartAll, AllJoin, Named;
    HonestIsHerald(env, content, a);
    HonestIsHerald(other, content, a);
    AnnouncerConnects(env, content, [a], peerId, first);
    AnnouncerConnects(other, content, [a], otherId, otherFirst);
    ConnectedBoth(env, other);
    var pool := Connected([env, other]);
    KeptIsFound(content, a, pool[0]);
    KeptIsFound(content, a, pool[1]);
    SizeOfShuffle(order, |content|);
    StartsFirst(pool, order);
    var ws := StartAll(pool, order);
    HeraldJoin(pool[0], content, [a], 0, order[0], steps);
    HeraldJoin(pool[1], content, [a], 0, order[1], steps);
    BothName(ws, a, steps);
    OrderHasNoRepeats(order, |content|);
    RoundTwiceIff(pool, Board(order, files, Going), steps);
  }

  lemma OrderHasNoRepeats(order: seq<nat>, n: nat)
    requires Shuffled(order, n)
    ensures NoRepeats(order)
  {
  }

  lemma KeptIsFound(content: seq<Bytes>, a: nat, w: State)
    requires AtTurn(content, [a], w.session, 0)
    ensures !FindsNothing(w.env, w.session)
  {
    hide UnpackHeader, Completed;
  }

  lemma BothName(ws: Pool, a: nat, steps: nat)
    requires |ws| == 2 && Yields(ws[0], steps) && Yields(ws[1], steps)
    requires AfterJoin(ws[0], steps).value.session.lastPiece == AfterJoin(ws[1], steps).value.session.lastPiece == a
    ensures AllJoin(ws, steps) && Named(ws, steps) == [a, a] && !NoRepeats(Named(ws, steps))
  {
    hide AfterJoin;
    assert ws[1..][0] == ws[1] && ws[1..][1..] == [];
    assert Named(ws[1..], steps) == [a] + Named([], steps) == [a];
    var names := Named(ws, steps);
    assert names == [a] + [a] && names[0] == names[1];
  }

  lemma ConnectedBoth(env: Env, other: Env)
    ensures Connected([env, other]) == Connected([env]) + Connected([other])
  {
    hide JoinedCheck;
    assert [env, other][1..] == [other] && [env][1..] == [] && Connected([]) == [];
  }
}
