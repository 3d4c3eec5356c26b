/** With honest peers a download ends, however its threads are interleaved. */
module InterleavingEnds {
  import opened Bytes
  import opened Wrappers
  import opened PieceLengths
  import opened Session
  import opened PieceWorkers
  import opened Scheduler
  import opened SchedulerRuns
  import opened Interleaving

  /** An honest worker, idle or at a piece that its thread has within `budget` steps. */
  ghost predicate OnTime(w: State, t: Thread, content: seq<Bytes>, budget: nat) {
    && HonestKind(content)(w)
    && (!Idle(w) ==> IsDownload(w) && w.job.value.idx < |content| && !w.complete && Iterate(w.env, t, budget).Over?)
  }

  ghost predicate AllOnTime(m: Machine, content: seq<Bytes>, budgets: seq<nat>)
    requires WellShaped(m)
  {
    && |budgets| == |m.pool|
    && forall i :: 0 <= i < |m.pool| ==> OnTime(m.pool[i], m.threads[i], content, budgets[i])
  }

  predicate AllBelow(s: seq<nat>, n: nat) {
    forall i :: 0 <= i < |s| ==> s[i] < n
  }

  /** Only pieces that exist are pending or given out. */
  predicate Existing(m: Machine, n: nat) {
    AllBelow(m.board.pending, n) && (m.place.Assigning? ==> AllBelow(m.place.left, n))
  }

  lemma {:induction false} PopBelow(pending: seq<nat>, idx: nat, n: nat)
    requires AllBelow(pending, n)
    ensures Pop(pending, idx).Some? ==> AllBelow(Pop(pending, idx).value, n)
  {
    if pending != [] && pending[0] != idx {
      PopBelow(pending[1..], idx, n);
    }
  }

  lemma MainKeepsExisting(m: Machine, n: nat)
    requires WellShaped(m) && Enabled(m, Main) && Existing(m, n)
    ensures Existing(MainStep(m), n)
  {
    hide ThreadStep, Available;
    if m.place.Joining? && m.place.at < |m.pool| && m.board.verdict.Going? && IsDownload(m.pool[m.place.at]) {
      PopBelow(m.board.pending, Joined(m.pool[m.place.at], m.threads[m.place.at].ending).session.lastPiece, n);
    }
  }

  /** Started, an honest worker is on time. */
  lemma StartsOnTime(w: State, content: seq<Bytes>, idx: nat, steps: nat)
    requires HonestKind(content)(w) && Idle(w) && idx < |content| && Enough(content, steps)
    ensures OnTime(Started(w, idx), ThreadOf(Started(w, idx)), content, steps)
  {
    hide Iterate, Enough, Genuine;
    HonestJoin(w, content, idx, steps);
    assert Starting(w.session, idx) == ThreadOf(Started(w, idx));
  }

  /** Joined, it is honest and idle again. */
  lemma JoinsOnTime(w: State, t: Thread, content: seq<Bytes>, budget: nat, n: nat, steps: nat)
    requires OnTime(w, t, content, budget) && IsDownload(w) && Along(w, t, n) && t.Over?
    requires Enough(content, steps) && n <= steps
    ensures OnTime(Joined(w, t.ending), t, content, budget)
  {
    hide Iterate, Enough, Along, Genuine;
    OverIsJoined(w, t, n, steps);
    var idle := w.(job := None);
    assert Started(idle, w.job.value.idx) == w;
    HonestJoin(idle, content, w.job.value.idx, steps);
  }

  /** What the main thread's step does to the budgets: a thread that it starts gets `steps`. */
  function Budgets(m: Machine, budgets: seq<nat>, steps: nat): (b: seq<nat>)
    requires WellShaped(m) && |budgets| == |m.pool|
    ensures |b| == |budgets|
  {
    if m.place.Assigning? && m.place.at < |m.pool| && m.place.left != [] && Idle(m.pool[m.place.at])
    then budgets[m.place.at := steps] else budgets
  }

  lemma MainKeepsTime(m: Machine, content: seq<Bytes>, budgets: seq<nat>, n: nat, steps: nat, enough: nat)
    requires WellShaped(m) && Enabled(m, Main) && OnTheirWay(m, n) && AllOnTime(m, content, budgets)
             && Existing(m, |content|)
    requires Enough(content, enough) && Enough(content, steps) && n <= steps
    requires WellShaped(MainStep(m))
    ensures AllOnTime(MainStep(m), content, Budgets(m, budgets, enough))
  {
    hide OnTime, Along, Enough, Iterate, Available, Take;
    if m.place.Assigning? && m.place.at < |m.pool| && m.place.left != [] && Idle(m.pool[m.place.at]) {
      var w := m.pool[m.place.at];
      HonestOf(w, m.threads[m.place.at], content, budgets[m.place.at]);
      StartsOnTime(w, content, m.place.left[0], enough);
    } else if m.place.Joining? && m.place.at < |m.pool| && m.board.verdict.Going? && IsDownload(m.pool[m.place.at]) {
      JoinsOnTime(m.pool[m.place.at], m.threads[m.place.at], content, budgets[m.place.at], n, steps);
    }
  }

  lemma HonestOf(w: State, t: Thread, content: seq<Bytes>, budget: nat)
    requires OnTime(w, t, content, budget)
    ensures HonestKind(content)(w)
  {
  }

  lemma AdvanceKeepsTime(m: Machine, i: nat, content: seq<Bytes>, budgets: seq<nat>)
    requires WellShaped(m) && Enabled(m, Advance(i)) && AllOnTime(m, content, budgets)
    ensures budgets[i] > 0
    ensures AllOnTime(Next(m, Advance(i)), content, budgets[i := budgets[i] - 1])
  {
    hide ThreadStep, HonestKind;
    var t := Next(m, Advance(i));
    assert OnTime(m.pool[i], m.threads[i], content, budgets[i]);
    forall j | 0 <= j < |t.pool|
      ensures OnTime(t.pool[j], t.threads[j], content, budgets[i := budgets[i] - 1][j])
    {
      assert OnTime(m.pool[j], m.threads[j], content, budgets[j]);
    }
  }

  function Sum(s: seq<nat>): nat {
    if s == [] then 0 else s[0] + Sum(s[1..])
  }

  lemma {:induction false} SumUpdate(s: seq<nat>, i: nat, x: nat)
    requires i < |s|
    ensures Sum(s[i := x]) == Sum(s) - s[i] + x
  {
    if i > 0 {
      SumUpdate(s[1..], i - 1, x);
      assert s[i := x][1..] == s[1..][i - 1 := x];
    } else {
      assert s[i := x][1..] == s[1..];
    }
  }

  /** How far the main thread is from the end, when no round begins after number `rounds`. */
  function MainLeft(m: Machine, rounds: nat): nat
    requires WellShaped(m) && m.round <= rounds
  {
    (rounds - m.round) * (2 * |m.pool| + 4)
    + match m.place
      case Past => 0
      case Head => 1
      case Joining(at) => 2 + |m.pool| - at
      case Assigning(at, _) => 3 + |m.pool| + |m.pool| - at
  }

  lemma MainGoesOn(m: Machine, rounds: nat)
    requires WellShaped(m) && Enabled(m, Main) && MainStep(m).round <= rounds && WellShaped(MainStep(m))
    ensures m.round <= rounds && MainLeft(MainStep(m), rounds) < MainLeft(m, rounds)
  {
    hide Take, Available, SomeIndexes;
    var k := 2 * |m.pool| + 4;
    assert (rounds - m.round) * k == (rounds - m.round - 1) * k + k;
  }

  /** A bound on the moves that are left. */
  function MovesLeft(m: Machine, budgets: seq<nat>, rounds: nat, enough: nat): nat
    requires WellShaped(m) && m.round <= rounds
  {
    MainLeft(m, rounds) * (enough + 1) + Sum(budgets)
  }

  lemma MovesDecrease(m: Machine, budgets: seq<nat>, rounds: nat, enough: nat)
    requires WellShaped(m) && Enabled(m, Main) && MainStep(m).round <= rounds && WellShaped(MainStep(m))
    requires |budgets| == |m.pool|
    ensures m.round <= rounds
    ensures MovesLeft(MainStep(m), Budgets(m, budgets, enough), rounds, enough) < MovesLeft(m, budgets, rounds, enough)
  {
    hide MainStep, MainLeft;
    MainGoesOn(m, rounds);
    if m.place.Assigning? && m.place.at < |m.pool| {
      SumUpdate(budgets, m.place.at, enough);
    }
    LessTimes(MainLeft(MainStep(m), rounds), MainLeft(m, rounds), enough + 1);
  }

  lemma LessTimes(x: nat, y: nat, k: nat)
    requires x < y
    ensures x * k + k <= y * k
  {
    var d := y - x - 1;
    assert y * k == (x + 1 + d) * k == (x + 1) * k + d * k;
    assert (x + 1) * k == x * k + k;
    assert d * k >= 0;
  }

  /** No round begins after the one that should be the last. */
  lemma NoRoundTooMany(m: Machine, steps: nat, rounds: nat)
    requires WellShaped(m) && Enabled(m, Main) && m.round <= rounds && Rest(m, steps, rounds).0.verdict.Going?
    ensures MainStep(m).round <= rounds
  {
  }

  lemma {:induction false} MovesBounded(
    m: Machine, moves: seq<Move>, content: seq<Bytes>, budgets: seq<nat>, n: nat, steps: nat, rounds: nat, enough: nat)
    requires WellShaped(m) && IsRun(m, moves) && OnTheirWay(m, n) && AllOnTime(m, content, budgets)
             && Existing(m, |content|)
    requires Enough(content, enough) && Enough(content, steps) && n + |moves| <= steps
    requires m.round <= rounds && Rest(m, steps, rounds).0.verdict.Going?
    ensures |moves| <= MovesLeft(m, budgets, rounds, enough)
    decreases |moves|
  {
    hide MainStep, OnTheirWay, AllOnTime, Existing, Rest, Enough, MainLeft;
    if moves != [] {
      var t := Next(m, moves[0]);
      match moves[0]
      case Main =>
        MainKeepsThreads(m, n);
        MoreSteps(t, n);
        BudgetPerWorker(m, content, budgets);
        MainKeepsTime(m, content, budgets, n, steps, enough);
        MainKeepsExisting(m, |content|);
        NoRoundTooMany(m, steps, rounds);
        MainKeepsRest(m, n, steps, rounds);
        MovesDecrease(m, budgets, rounds, enough);
        MovesBounded(t, moves[1..], content, Budgets(m, budgets, enough), n + 1, steps, rounds, enough);
      case Advance(i) =>
        AdvanceKeepsThreads(m, i, n);
        BudgetPerWorker(m, content, budgets);
        AdvanceKeepsTime(m, i, content, budgets);
        AdvanceKeepsExisting(m, i, |content|);
        AdvanceKeepsRest(m, i, steps, rounds);
        SumUpdate(budgets, i, budgets[i] - 1);
        SameMainLeft(m, i, rounds);
        MovesBounded(t, moves[1..], content, budgets[i := budgets[i] - 1], n + 1, steps, rounds, enough);
    }
  }

  lemma BudgetPerWorker(m: Machine, content: seq<Bytes>, budgets: seq<nat>)
    requires WellShaped(m) && AllOnTime(m, content, budgets)
    ensures |budgets| == |m.pool|
  {
  }

  lemma AdvanceKeepsExisting(m: Machine, i: nat, n: nat)
    requires WellShaped(m) && Enabled(m, Advance(i)) && Existing(m, n)
    ensures Existing(Next(m, Advance(i)), n)
  {
  }

  lemma SameMainLeft(m: Machine, i: nat, rounds: nat)
    requires WellShaped(m) && Enabled(m, Advance(i)) && m.round <= rounds && WellShaped(Next(m, Advance(i)))
    ensures Next(m, Advance(i)).round <= rounds && MainLeft(Next(m, Advance(i)), rounds) == MainLeft(m, rounds)
  {
  }

  lemma {:induction false} NoBudgets(n: nat)
    ensures Sum(seq(n, _ => 0)) == 0
  {
    if n > 0 {
      NoBudgets(n - 1);
      assert seq(n, _ => 0)[1..] == seq(n - 1, _ => 0);
    }
  }

  /** With honest peers no interleaving has more moves than this; and as one that is not past the loop can
      go on, every download ends. */
  lemma HonestEnds(
    m: Machine, moves: seq<Move>, order: seq<nat>, content: seq<Bytes>, files: map<nat, Bytes>, rounds: nat)
    requires AtFirst(m, order, files) && Shuffled(order, |content|)
    requires m.pool != [] && SchedulerRuns.AtHead(m.pool, HonestKind(content))
    requires WellShaped(m) && IsRun(m, moves) && CeilDiv(|content|, |m.pool|, rounds)
    ensures |moves| <= (rounds * (2 * |m.pool| + 4) + 1) * (StepsForAll(content) + 1)
  {
    hide HonestKind, IsRun, MovesLeft, CeilDiv, SchedulerRuns.AtHead, Shuffled;
    HonestMovesLeft(m, moves, order, content, files, rounds);
    MovesAtFirst(m, rounds, StepsForAll(content));
  }

  lemma HonestMovesLeft(
    m: Machine, moves: seq<Move>, order: seq<nat>, content: seq<Bytes>, files: map<nat, Bytes>, rounds: nat)
    requires AtFirst(m, order, files) && Shuffled(order, |content|)
    requires m.pool != [] && SchedulerRuns.AtHead(m.pool, HonestKind(content))
    requires WellShaped(m) && IsRun(m, moves) && CeilDiv(|content|, |m.pool|, rounds)
    ensures |moves| <= MovesLeft(m, seq(|m.pool|, _ => 0), rounds, StepsForAll(content))
  {
    hide HonestKind, Rest, IsRun, Rounds, MovesLeft, CeilDiv, Outcome;
    hide Existing, OnTheirWay, Written, AllOnTime, SchedulerRuns.AtHead, Shuffled;
    var enough := StepsForAll(content);
    var steps := Larger(enough, |moves|);
    HonestRest(m, order, content, files, steps, rounds);
    NobodyOnTheWay(m);
    AllThere(m, order, content, files);
    MovesBounded(m, moves, content, seq(|m.pool|, _ => 0), 0, steps, rounds, enough);
  }

  lemma HonestRest(m: Machine, order: seq<nat>, content: seq<Bytes>, files: map<nat, Bytes>, steps: nat, rounds: nat)
    requires AtFirst(m, order, files) && Shuffled(order, |content|) && WellShaped(m)
    requires m.pool != [] && SchedulerRuns.AtHead(m.pool, HonestKind(content))
    requires Enough(content, steps) && CeilDiv(|content|, |m.pool|, rounds)
    ensures Rest(m, steps, rounds).0.verdict.Going?
  {
    hide HonestKind, Rounds, Written, Shuffled, Enough, SchedulerRuns.AtHead;
    HonestDownloads(order, content, files, m.pool, steps, rounds);
  }

  lemma MovesAtFirst(m: Machine, rounds: nat, enough: nat)
    requires WellShaped(m) && m.place.Head? && m.round == 0
    ensures MovesLeft(m, seq(|m.pool|, _ => 0), rounds, enough) == (rounds * (2 * |m.pool| + 4) + 1) * (enough + 1)
  {
    NoBudgets(|m.pool|);
    assert rounds - m.round == rounds;
  }

  lemma AllThere(m: Machine, order: seq<nat>, content: seq<Bytes>, files: map<nat, Bytes>)
    requires AtFirst(m, order, files) && Shuffled(order, |content|) && WellShaped(m)
    requires SchedulerRuns.AtHead(m.pool, HonestKind(content))
    ensures AllOnTime(m, content, seq(|m.pool|, _ => 0)) && Existing(m, |content|)
  {
    hide HonestKind, Iterate;
    forall i | 0 <= i < |order|
      ensures order[i] < |content|
    {
      assert order[i] in order;
    }
    forall i | 0 <= i < |m.pool|
      ensures OnTime(m.pool[i], m.threads[i], content, 0)
    {
      assert Idle(m.pool[i]) && HonestKind(content)(m.pool[i]);
    }
  }
}
