/** The rounds of `download_file` (`src/client/download_file.cpp`) on the fields of its workers: pieces
    are given out, threads joined in order, and each piece that arrives is written. */
module Scheduler {
  import opened Bytes
  import opened Wrappers
  import opened Session
  import opened SessionOrder
  import opened SessionStream
  import opened PieceWorkers

  /** How the loop stands: going on, or left by an exception, by a piece that is not pending, or never. */
  datatype Verdict = Going | Raised(exception: Option<Exception>) | Twice(idx: nat) | Hung

  /** The pieces still to download, the files by piece index, and the verdict. */
  datatype Board = Board(pending: seq<nat>, files: map<nat, Bytes>, verdict: Verdict)

  type Pool = seq<State>

  predicate Idle(w: State) { w.job.None? }

  /** The pending pieces without the first occurrence of one, if it has any. */
  function Pop(pending: seq<nat>, idx: nat): Option<seq<nat>> {
    if pending == [] then None
    else if pending[0] == idx then Some(pending[1..])
    else
      match Pop(pending[1..], idx)
      case None => None
      case Some(rest) => Some([pending[0]] + rest)
  }

  predicate IsFirst(pending: seq<nat>, idx: nat, i: nat) {
    i < |pending| && pending[i] == idx && idx !in pending[..i]
  }

  function Without(pending: seq<nat>, i: nat): seq<nat>
    requires i < |pending|
  {
    pending[..i] + pending[i + 1..]
  }

  /** Popping fails exactly for a piece that is not pending, and otherwise takes out its first occurrence. */
  lemma {:induction false} PopTakesFirst(pending: seq<nat>, idx: nat, i: nat)
    ensures Pop(pending, idx).None? <==> idx !in pending
    ensures IsFirst(pending, idx, i) ==> Pop(pending, idx) == Some(Without(pending, i))
  {
    if pending != [] {
      var rest := pending[1..];
      PopTakesFirst(rest, idx, if i == 0 then 0 else i - 1);
      if IsFirst(pending, idx, i) {
        if i == 0 {
          assert Without(pending, 0) == rest;
        } else {
          assert pending[..i] == [pending[0]] + rest[..i - 1];
          assert Without(pending, i) == [pending[0]] + Without(rest, i - 1);
        }
      }
    }
  }

  function Available(pool: Pool): (n: nat)
    ensures n <= |pool|
  {
    if pool == [] then 0 else (if Idle(pool[0]) then 1 else 0) + Available(pool[1..])
  }

  function SomeIndexes(indexes: seq<nat>, upTo: nat): seq<nat> {
    if upTo <= |indexes| then indexes[..upTo] else indexes
  }

  function Started(w: State, idx: nat): State {
    w.(complete := false, job := Some(Downloading(idx)))
  }

  /** From worker `at` on, one index to each that is not started, while there are any. */
  function Assign(pool: Pool, at: nat, indexes: seq<nat>): (p: Pool)
    requires at <= |pool|
    ensures |p| == |pool|
    decreases |pool| - at
  {
    if at == |pool| || indexes == [] then pool
    else if !Idle(pool[at]) then Assign(pool, at + 1, indexes)
    else Assign(pool[at := Started(pool[at], indexes[0])], at + 1, indexes[1..])
  }

  function StartAll(pool: Pool, pending: seq<nat>): (p: Pool)
    ensures |p| == |pool|
  {
    Assign(pool, 0, SomeIndexes(pending, Available(pool)))
  }

  /** What is done about a worker that has been joined. */
  function Take(w: State, b: Board): Board {
    if !w.complete then
      if w.session.haveMode then b
      else b.(verdict := Raised(w.exception))
    else
      var idx := w.session.lastPiece;
      match Pop(b.pending, idx)
      case None => b.(verdict := Twice(idx))
      case Some(rest) => b.(pending := rest, files := b.files[idx := w.session.buffer])
  }

  /** Joins the workers from `at` on that are started, in order, each thread taking at most `steps` steps. */
  function Collect(pool: Pool, at: nat, b: Board, steps: nat): (r: (Pool, Board))
    requires at <= |pool|
    ensures |r.0| == |pool|
    decreases |pool| - at
  {
    if at == |pool| || !b.verdict.Going? then (pool, b)
    else if Idle(pool[at]) then Collect(pool, at + 1, b, steps)
    else
      match AfterJoin(pool[at], steps)
      case None => (pool, b.(verdict := Hung))
      case Some(w) => Collect(pool[at := w], at + 1, Take(w, b), steps)
  }

  function Round(pool: Pool, b: Board, steps: nat): (r: (Pool, Board))
    ensures |r.0| == |pool|
  {
    Collect(StartAll(pool, b.pending), 0, b, steps)
  }

  /** The loop, for at most `rounds` rounds, and how many of them are left. */
  function Rounds(pool: Pool, b: Board, steps: nat, rounds: nat): (Pool, Board, nat)
    decreases rounds
  {
    if !b.verdict.Going? || b.pending == [] then (pool, b, rounds)
    else if rounds == 0 then (pool, b.(verdict := Hung), 0)
    else
      var (p, c) := Round(pool, b, steps);
      Rounds(p, c, steps, rounds - 1)
  }

  // Giving out pieces.

  ghost predicate AllIdle(pool: Pool) {
    forall w | w in pool :: Idle(w)
  }

  lemma {:induction false} AllAvailable(pool: Pool)
    requires AllIdle(pool)
    ensures Available(pool) == |pool|
  {
    if pool != [] {
      AllAvailable(pool[1..]);
    }
  }

  lemma {:induction false} AssignIdle(pool: Pool, at: nat, indexes: seq<nat>)
    requires at + |indexes| <= |pool|
    requires forall i :: at <= i < |pool| ==> Idle(pool[i])
    ensures var p := Assign(pool, at, indexes);
            forall i :: 0 <= i < |pool| ==>
              p[i] == if at <= i < at + |indexes| then Started(pool[i], indexes[i - at]) else pool[i]
    decreases |indexes|
  {
    if indexes != [] {
      AssignIdle(pool[at := Started(pool[at], indexes[0])], at + 1, indexes[1..]);
    }
  }

  /** When nobody is started, the first pending pieces go to the first workers, one each. */
  lemma StartsFirst(pool: Pool, pending: seq<nat>)
    requires AllIdle(pool)
    ensures var (p, k) := (StartAll(pool, pending), Least(|pool|, |pending|));
            forall i :: 0 <= i < |pool| ==> p[i] == if i < k then Started(pool[i], pending[i]) else pool[i]
  {
    AllAvailable(pool);
    AssignIdle(pool, 0, SomeIndexes(pending, |pool|));
  }

  /** Among workers that nobody had started, no index is given to two. */
  lemma NoIndexTwice(pool: Pool, pending: seq<nat>, i: nat, j: nat)
    requires AllIdle(pool) && i < j < |pool|
    requires forall x, y :: 0 <= x < y < |pending| ==> pending[x] != pending[y]
    ensures var p := StartAll(pool, pending);
            !Idle(p[i]) && !Idle(p[j]) ==> p[i].job != p[j].job
  {
    StartsFirst(pool, pending);
  }

  // Workers that are connected and not in have mode, whatever their peers send.

  predicate Plain(s: Session) {
    s.established && !s.haveMode && s.havePiece.None?
  }

  /** A download of a plain worker under way, with the piece it is for. */
  ghost predicate PlainThread(env: Env, t: Thread, idx: nat) {
    && Plain(SessionOf(t))
    && match t
       case Starting(_, i) => i == idx
       case InBlocks(s, i, received) => i == idx && received == |s.buffer| % TWO_64
       case Over(Full(s)) => s.lastPiece == idx && |s.buffer| % TWO_64 == PieceLen(env, idx)
       case Over(Early(_)) => false
       case Over(Failed(_, _)) => true
  }

  lemma {:induction false} PlainThreads(env: Env, t: Thread, idx: nat, n: nat)
    requires PlainThread(env, t, idx)
    ensures PlainThread(env, Iterate(env, t, n), idx)
    decreases n
  {
    hide PieceLen, Block;
    if n > 0 {
      if t.InBlocks? {
        BlockKeeps(env, t.session, t.idx, t.received);
      }
      PlainThreads(env, ThreadStep(env, t), idx, n - 1);
    }
  }

  /** Such a worker, joined, is as it was but for its thread, and if it is complete it has a piece of
      the right length: the one it was asked for. */
  lemma PlainJoin(w: State, idx: nat, steps: nat)
    requires Plain(w.session) && w.job == Some(Downloading(idx)) && !w.complete
    requires AfterJoin(w, steps).Some?
    ensures var v := AfterJoin(w, steps).value;
            && v.env == w.env && Plain(v.session) && Idle(v)
            && (v.complete ==> v.session.lastPiece == idx && |v.session.buffer| % TWO_64 == PieceLen(w.env, idx))
            && (!v.complete ==> v.exception.Some?)
  {
    hide PieceLen, Iterate;
    PlainThreads(w.env, ThreadOf(w), idx, steps);
  }
}
