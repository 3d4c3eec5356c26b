/** A download with its threads: the main thread of `download_file` and the threads it has started take
    steps in any order, and every such order comes to what `Rounds` computes. */
module Interleaving {
  import opened Bytes
  import opened Wrappers
  import opened PieceLengths
  import opened Session
  import opened SessionHonest
  import opened PieceWorkers
  import opened Scheduler
  import opened SchedulerRuns

  /** Where the main thread is: at the loop head, giving out indexes, joining, or past the loop. */
  datatype Place = Head | Assigning(at: nat, left: seq<nat>) | Joining(at: nat) | Past

  /** The fields of a started worker are in its thread until it is joined. */
  datatype Machine = Machine(pool: Pool, threads: seq<Thread>, board: Board, place: Place, round: nat)

  datatype Move = Main | Advance(i: nat)

  predicate WellShaped(m: Machine) {
    && |m.threads| == |m.pool|
    && (m.place.Assigning? ==> m.place.at <= |m.pool|)
    && (m.place.Joining? ==> m.place.at <= |m.pool|)
  }

  /** A thread that is started and not over may take a step at any time; the main thread waits for the
      thread it joins. */
  predicate Enabled(m: Machine, move: Move)
    requires WellShaped(m)
  {
    match move
    case Advance(i) => i < |m.pool| && IsDownload(m.pool[i]) && !m.threads[i].Over?
    case Main =>
      && !m.place.Past?
      && (m.place.Joining? && m.place.at < |m.pool| && m.board.verdict.Going? && IsDownload(m.pool[m.place.at]) ==>
            m.threads[m.place.at].Over?)
  }

  function MainStep(m: Machine): Machine
    requires WellShaped(m) && Enabled(m, Main)
  {
    match m.place
    case Head =>
      if !m.board.verdict.Going? || m.board.pending == [] then m.(place := Past)
      else m.(place := Assigning(0, SomeIndexes(m.board.pending, Available(m.pool))), round := m.round + 1)
    case Assigning(at, left) =>
      if at == |m.pool| || left == [] then m.(place := Joining(0))
      else if !Idle(m.pool[at]) then m.(place := Assigning(at + 1, left))
      else
        var w := Started(m.pool[at], left[0]);
        m.(pool := m.pool[at := w], threads := m.threads[at := ThreadOf(w)], place := Assigning(at + 1, left[1..]))
    case Joining(at) =>
      if at == |m.pool| || !m.board.verdict.Going? then m.(place := Head)
      else if !IsDownload(m.pool[at]) then m.(place := Joining(at + 1))
      else
        var w := Joined(m.pool[at], m.threads[at].ending);
        m.(pool := m.pool[at := w], board := Take(w, m.board), place := Joining(at + 1))
  }

  function Next(m: Machine, move: Move): Machine
    requires WellShaped(m) && Enabled(m, move)
  {
    match move
    case Main => MainStep(m)
    case Advance(i) => m.(threads := m.threads[i := ThreadStep(m.pool[i].env, m.threads[i])])
  }

  /** A run: every move is possible where it is taken. */
  ghost predicate IsRun(m: Machine, moves: seq<Move>)
    decreases |moves|
  {
    WellShaped(m) && (moves != [] ==> Enabled(m, moves[0]) && IsRun(Next(m, moves[0]), moves[1..]))
  }

  ghost function Run(m: Machine, moves: seq<Move>): Machine
    requires IsRun(m, moves)
    decreases |moves|
  {
    if moves == [] then m else Run(Next(m, moves[0]), moves[1..])
  }

  /** The board at the end, and how many rounds are left. */
  function Outcome(pool: Pool, b: Board, steps: nat, rounds: nat): (Board, nat) {
    var (_, c, left) := Rounds(pool, b, steps, rounds);
    (c, left)
  }

  /** What the rest of the download comes to when every thread runs from start to end as it is joined. */
  function Rest(m: Machine, steps: nat, rounds: nat): (Board, nat)
    requires WellShaped(m) && m.round <= rounds
  {
    match m.place
    case Past => (m.board, rounds - m.round)
    case Head => Outcome(m.pool, m.board, steps, rounds - m.round)
    case Assigning(at, left) =>
      var (p, c) := Collect(Assign(m.pool, at, left), 0, m.board, steps);
      Outcome(p, c, steps, rounds - m.round)
    case Joining(at) =>
      var (p, c) := Collect(m.pool, at, m.board, steps);
      Outcome(p, c, steps, rounds - m.round)
  }

  /** No thread checks a connection any more, and each has come where its own steps, fewer than `n`,
      bring it from the start, whatever the others did. */
  ghost predicate OnTheirWay(m: Machine, n: nat)
    requires WellShaped(m)
  {
    forall i :: 0 <= i < |m.pool| && m.pool[i].job.Some? ==> Along(m.pool[i], m.threads[i], n)
  }

  ghost predicate Along(w: State, t: Thread, n: nat) {
    && IsDownload(w)
    && exists k: nat :: k <= n && t == Iterate(w.env, ThreadOf(w), k)
  }

  lemma AlongStep(w: State, t: Thread, n: nat)
    requires Along(w, t, n)
    ensures Along(w, ThreadStep(w.env, t), n + 1) && Along(w, t, n + 1)
  {
    hide ThreadStep;
    var k: nat :| k <= n && t == Iterate(w.env, ThreadOf(w), k);
    IterateAdd(w.env, ThreadOf(w), k, 1);
    assert Iterate(w.env, t, 1) == Iterate(w.env, ThreadStep(w.env, t), 0);
    assert ThreadStep(w.env, t) == Iterate(w.env, ThreadOf(w), k + 1);
  }

  /** A thread that is over has come to the one end it can come to. */
  lemma OverIsJoined(w: State, t: Thread, n: nat, steps: nat)
    requires Along(w, t, n) && t.Over? && n <= steps
    ensures AfterJoin(w, steps) == Some(Joined(w, t.ending))
  {
    hide Iterate;
    var k: nat :| k <= n && t == Iterate(w.env, ThreadOf(w), k);
    IterateAdd(w.env, ThreadOf(w), k, steps - k);
    IterateOver(w.env, t.ending, steps - k);
  }

  lemma AlongAtFirst(w: State, n: nat)
    requires IsDownload(w)
    ensures Along(w, ThreadOf(w), n)
  {
    assert ThreadOf(w) == Iterate(w.env, ThreadOf(w), 0);
  }

  lemma MainKeepsThreads(m: Machine, n: nat)
    requires WellShaped(m) && OnTheirWay(m, n) && Enabled(m, Main)
    ensures var t := MainStep(m); WellShaped(t) && OnTheirWay(t, n)
  {
    hide Take, Iterate;
    if m.place.Assigning? && m.place.at < |m.pool| && m.place.left != [] && Idle(m.pool[m.place.at]) {
      var w := Started(m.pool[m.place.at], m.place.left[0]);
      AlongAtFirst(w, n);
    }
  }

  lemma AdvanceKeepsThreads(m: Machine, i: nat, n: nat)
    requires WellShaped(m) && OnTheirWay(m, n) && Enabled(m, Advance(i))
    ensures WellShaped(Next(m, Advance(i))) && OnTheirWay(Next(m, Advance(i)), n + 1)
  {
    hide ThreadStep, Along;
    var t := Next(m, Advance(i));
    forall j | 0 <= j < |t.pool| && t.pool[j].job.Some?
      ensures Along(t.pool[j], t.threads[j], n + 1)
    {
      AlongStep(m.pool[j], m.threads[j], n);
    }
  }

  /** A step of the main thread does not change what the rest comes to. */
  lemma MainKeepsRest(m: Machine, n: nat, steps: nat, rounds: nat)
    requires WellShaped(m) && OnTheirWay(m, n) && Enabled(m, Main) && n <= steps && MainStep(m).round <= rounds
    requires WellShaped(MainStep(m))
    ensures Rest(MainStep(m), steps, rounds) == Rest(m, steps, rounds)
  {
    hide AfterJoin, Take, Iterate;
    if m.place.Joining? && m.place.at < |m.pool| && m.board.verdict.Going? && IsDownload(m.pool[m.place.at]) {
      OverIsJoined(m.pool[m.place.at], m.threads[m.place.at], n, steps);
    }
  }

  /** What a download comes to does not depend on how its threads are interleaved. */
  lemma {:induction false} RunKeepsRest(m: Machine, moves: seq<Move>, n: nat, steps: nat, rounds: nat)
    requires WellShaped(m) && OnTheirWay(m, n) && IsRun(m, moves)
    requires n + |moves| <= steps && Run(m, moves).round <= rounds
    ensures WellShaped(Run(m, moves)) && OnTheirWay(Run(m, moves), n + |moves|)
    ensures m.round <= Run(m, moves).round && Rest(m, steps, rounds) == Rest(Run(m, moves), steps, rounds)
    decreases |moves|
  {
    hide Rest, MainStep, OnTheirWay;
    if moves != [] {
      var t := Next(m, moves[0]);
      match moves[0] {
        case Main => MainKeepsThreads(m, n);
          MoreSteps(t, n);
        case Advance(i) => AdvanceKeepsThreads(m, i, n);
      }
      RunKeepsRest(t, moves[1..], n + 1, steps, rounds);
      match moves[0] {
        case Main =>
          MainRound(m);
          MainKeepsRest(m, n, steps, rounds);
        case Advance(i) => AdvanceKeepsRest(m, i, steps, rounds);
      }
    }
  }

  lemma MainRound(m: Machine)
    requires WellShaped(m) && Enabled(m, Main)
    ensures m.round <= MainStep(m).round
  {
  }

  lemma MoreSteps(m: Machine, n: nat)
    requires WellShaped(m) && OnTheirWay(m, n)
    ensures OnTheirWay(m, n + 1)
  {
    hide Iterate, ThreadOf;
    forall i | 0 <= i < |m.pool| && m.pool[i].job.Some?
      ensures Along(m.pool[i], m.threads[i], n + 1)
    {
      assert Along(m.pool[i], m.threads[i], n);
    }
  }

  lemma AdvanceKeepsRest(m: Machine, i: nat, steps: nat, rounds: nat)
    requires WellShaped(m) && Enabled(m, Advance(i)) && m.round <= rounds
    ensures Rest(Next(m, Advance(i)), steps, rounds) == Rest(m, steps, rounds)
  {
  }

  /** Before the first round. */
  ghost predicate AtFirst(m: Machine, order: seq<nat>, files: map<nat, Bytes>) {
    m.place.Head? && m.round == 0 && |m.threads| == |m.pool| && AllIdle(m.pool) && m.board == Board(order, files, Going)
  }

  /** Every interleaving that gets past the loop does so with the board of `Rounds` and after as many
      rounds, for every bound on steps and rounds that is large enough. */
  lemma InterleavedIsSequential(m: Machine, moves: seq<Move>, steps: nat, rounds: nat)
    requires WellShaped(m) && m.place.Head? && m.round == 0 && AllIdle(m.pool)
    requires IsRun(m, moves) && |moves| <= steps && Run(m, moves).round <= rounds && Run(m, moves).place.Past?
    ensures (Run(m, moves).board, rounds - Run(m, moves).round) == Outcome(m.pool, m.board, steps, rounds)
  {
    hide Run, IsRun, Outcome;
    NobodyOnTheWay(m);
    RunKeepsRest(m, moves, 0, steps, rounds);
  }

  lemma NobodyOnTheWay(m: Machine)
    requires WellShaped(m) && AllIdle(m.pool)
    ensures OnTheirWay(m, 0)
  {
    assert forall i :: 0 <= i < |m.pool| ==> m.pool[i] in m.pool;
  }

  /** Before the end somebody can always take a step: the main thread, or the thread it waits for. */
  lemma NeverStuck(m: Machine)
    requires WellShaped(m) && !m.place.Past?
    ensures exists move :: Enabled(m, move)
  {
    if !Enabled(m, Main) {
      assert Enabled(m, Advance(m.place.at));
    }
  }

  /** With honest peers, whatever the shuffle and whatever the interleaving: past the loop no exception was
      thrown, no piece was popped twice, the files hold exactly the pieces, and there were as many rounds as
      there are pieces for each worker. */
  lemma HonestInterleaving(m: Machine, moves: seq<Move>, order: seq<nat>, content: seq<Bytes>, files: map<nat, Bytes>)
    requires AtFirst(m, order, files) && Shuffled(order, |content|)
    requires m.pool != [] && SchedulerRuns.AtHead(m.pool, HonestKind(content))
    requires WellShaped(m) && IsRun(m, moves) && Run(m, moves).place.Past?
    ensures var b := Run(m, moves).board;
            && b.verdict.Going? && b.pending == [] && Written(order, Genuine(content), files, b.files)
            && CeilDiv(|content|, |m.pool|, Run(m, moves).round)
  {
    hide CeilDiv, Run, IsRun, Rounds, HonestKind, Written, Shuffled;
    var s := StepsForAll(content);
    var steps, rounds := Larger(s, |moves|), Larger(|content|, Run(m, moves).round);
    assert |content| <= rounds * |m.pool| by { Enlarges(|content|, rounds, |m.pool|); }
    HonestDownloads(order, content, files, m.pool, steps, rounds);
    InterleavedIsSequential(m, moves, steps, rounds);
  }

  /** With workers that are not in have mode, whatever their peers send: at no point of any interleaving has
      a piece been popped twice. */
  lemma PlainInterleaving(m: Machine, moves: seq<Move>, order: seq<nat>, sizes: seq<nat>, files: map<nat, Bytes>)
    requires AtFirst(m, order, files) && Shuffled(order, |sizes|)
    requires m.pool != [] && SchedulerRuns.AtHead(m.pool, PlainKind(sizes))
    requires WellShaped(m) && IsRun(m, moves)
    ensures !Run(m, moves).board.verdict.Twice?
    ensures Run(m, moves).place.Past? ==> Books(order, Measured(sizes), files, Run(m, moves).board)
  {
    hide Run, IsRun, Rounds, PlainKind, Books, Shuffled, Rest;
    var steps, rounds := |moves|, Run(m, moves).round;
    PlainDownload(order, sizes, files, m.pool, steps, rounds);
    NobodyOnTheWay(m);
    RunKeepsRest(m, moves, 0, steps, rounds);
    RestAtHead(m, steps, rounds);
    CrashIsFinal(Run(m, moves), steps, rounds);
  }

  lemma RestAtHead(m: Machine, steps: nat, rounds: nat)
    requires WellShaped(m) && m.place.Head? && m.round == 0
    ensures Rest(m, steps, rounds) == Outcome(m.pool, m.board, steps, rounds)
  {
  }

  /** An exception ends the loop. */
  lemma CrashIsFinal(m: Machine, steps: nat, rounds: nat)
    requires WellShaped(m) && m.round <= rounds
    ensures m.board.verdict.Twice? || m.place.Past? ==> Rest(m, steps, rounds) == (m.board, rounds - m.round)
  {
  }

  function Larger(x: nat, y: nat): nat { if x <= y then y else x }

  lemma Enlarges(n: nat, rounds: nat, m: nat)
    requires n <= rounds && m > 0
    ensures n <= rounds * m
  {
    assert rounds * m >= rounds * 1;
  }

  /** Enough steps for every piece. */
  ghost function StepsForAll(content: seq<Bytes>): (s: nat)
    ensures Enough(content, s)
  {
    if content == [] then 0 else Larger(BlockCount(|content[0]|) + 2, StepsForAll(content[1..]))
  }
}
