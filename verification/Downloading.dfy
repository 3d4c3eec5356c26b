/** `download_file` and its helpers (`src/client/download_file.cpp`), step by step on the workers. */
module Downloading {
  import opened Bytes
  import opened Wrappers
  import opened Session
  import opened PieceWorkers
  import opened Scheduler
  import opened Gathering

  /** The fields of the workers. */
  ghost function States(workers: seq<PieceWorker>): (p: Pool)
    reads workers
    ensures |p| == |workers|
  {
    seq(|workers|, i requires 0 <= i < |workers| reads workers => workers[i].Now())
  }

  ghost predicate Distinct(workers: seq<PieceWorker>) {
    forall i, j :: 0 <= i < j < |workers| ==> workers[i] != workers[j]
  }

  method PopPiece(pending: seq<nat>, idx: nat) returns (rest: Option<seq<nat>>)
    ensures rest == Pop(pending, idx)
  {
    var i := 0;
    while i < |pending| && pending[i] != idx
      invariant i <= |pending| && idx !in pending[..i]
    {
      i := i + 1;
    }
    PopTakesFirst(pending, idx, i);
    return if i == |pending| then None else Some(pending[..i] + pending[i + 1..]);
  }

  method CountAvailable(workers: seq<PieceWorker>) returns (n: nat)
    ensures n == Available(States(workers))
  {
    n := 0;
    ghost var pool := States(workers);
    assert pool[0..] == pool;
    for i := 0 to |workers|
      invariant n + Available(pool[i..]) == Available(pool)
    {
      assert pool[i..][1..] == pool[i + 1..];
      if !workers[i].Started() {
        n := n + 1;
      }
    }
  }

  /** Starts the workers that are not started on the first pending pieces, one each. */
  method StartWorkers(pending: seq<nat>, workers: seq<PieceWorker>) returns (count: nat)
    requires Distinct(workers)
    modifies workers
    ensures States(workers) == StartAll(old(States(workers)), pending)
    ensures count == |SomeIndexes(pending, Available(old(States(workers))))|
  {
    var available := CountAvailable(workers);
    var indexes := SomeIndexes(pending, available);
    var at, left := 0, indexes;
    count := 0;
    assert States(workers)[0..] == States(workers);
    while at < |workers| && left != []
      invariant at <= |workers|
      invariant Assign(States(workers), at, left) == StartAll(old(States(workers)), pending)
      invariant count + |left| == |indexes| && |left| <= Available(States(workers)[at..])
    {
      ghost var was := States(workers);
      assert was[at..][1..] == was[at + 1..];
      if !workers[at].Started() {
        var ok := workers[at].DownloadPieceAsync(left[0]);
        assert States(workers) == was[at := Started(was[at], left[0])];
        assert States(workers)[at + 1..] == was[at + 1..];
        left := left[1..];
        count := count + 1;
      }
      at := at + 1;
    }
  }

  /** Joins the started workers in order and writes each piece that arrives, until something throws. */
  method JoinWorkers(board: Board, workers: seq<PieceWorker>, steps: nat) returns (b: Board)
    requires Distinct(workers) && board.verdict.Going? && steps > 0
    modifies workers
    ensures var (p, c) := Collect(old(States(workers)), 0, board, steps);
            b == c && (!b.verdict.Hung? ==> States(workers) == p)
  {
    hide AfterJoin, Pop;
    b := board;
    var at := 0;
    while at < |workers| && b.verdict.Going?
      invariant at <= |workers|
      invariant !b.verdict.Hung? ==>
                  Collect(States(workers), at, b, steps) == Collect(old(States(workers)), 0, board, steps)
      invariant b.verdict.Hung? ==> b == Collect(old(States(workers)), 0, board, steps).1
      decreases |workers| - at
    {
      ghost var was := States(workers);
      var w := workers[at];
      if w.Started() {
        var r := w.WaitPieceTransfer(steps);
        assert States(workers) == was[at := w.Now()];
        if r.StillRunning? {
          b := b.(verdict := Hung);
        } else if !r.value && !w.haveMode {
          b := b.(verdict := Raised(w.exception));
        } else if r.value {
          var idx := w.lastPiece;
          var rest := PopPiece(b.pending, idx);
          match rest
          case None => b := b.(verdict := Twice(idx));
          case Some(pending) => b := b.(pending := pending, files := b.files[idx := w.buffer]);
        }
      }
      at := at + 1;
    }
  }

  lemma RoundsStep(pool: Pool, b: Board, steps: nat, left: nat)
    ensures b.verdict.Going? && b.pending != [] && left > 0 ==>
              Rounds(pool, b, steps, left) == Rounds(Round(pool, b, steps).0, Round(pool, b, steps).1, steps, left - 1)
    ensures !b.verdict.Going? || b.pending == [] ==> Rounds(pool, b, steps, left).1 == b
    ensures b.verdict.Going? && b.pending != [] ==> Rounds(pool, b, steps, 0).1 == b.(verdict := Hung)
  {
    hide Round;
  }

  /** The loop, for at most `rounds` rounds. */
  method RunRounds(order: seq<nat>, files: map<nat, Bytes>, workers: seq<PieceWorker>, steps: nat, rounds: nat)
    returns (b: Board)
    requires Distinct(workers) && steps > 0
    modifies workers
    ensures b == Rounds(old(States(workers)), Board(order, files, Going), steps, rounds).1
  {
    hide Collect, StartAll, Rounds;
    b := Board(order, files, Going);
    ghost var end := Rounds(States(workers), b, steps, rounds).1;
    var left: nat := rounds;
    while b.verdict.Going? && b.pending != [] && left > 0
      invariant !b.verdict.Hung? ==> Rounds(States(workers), b, steps, left).1 == end
      invariant b.verdict.Hung? ==> b == end
      decreases left
    {
      ghost var pool, was := States(workers), b;
      RoundsStep(pool, was, steps, left);
      var count := StartWorkers(b.pending, workers);
      b := JoinWorkers(b, workers, steps);
      left := left - 1;
      RoundsStep(Round(pool, was, steps).0, b, steps, left);
    }
    RoundsStep(States(workers), b, steps, left);
    if b.verdict.Going? && b.pending != [] {
      b := b.(verdict := Hung);
    }
  }

  /** The workers whose peers could be connected to, in order. */
  function Connected(envs: seq<Env>): Pool {
    if envs == [] then []
    else
      var w := JoinedCheck(Fresh(envs[0]).(job := Some(Connecting)));
      (if w.session.established then [w] else []) + Connected(envs[1..])
  }

  method CheckedWorker(env: Env, steps: nat) returns (worker: PieceWorker, ok: bool)
    requires steps > 0
    ensures fresh(worker) && worker.Now() == JoinedCheck(Fresh(env).(job := Some(Connecting)))
    ensures ok == worker.Now().session.established
  {
    hide JoinedCheck;
    worker := new PieceWorker(env);
    var started := worker.CheckConnectionAsync();
    var r := worker.WaitConnectionEstablished(steps);
    ok := r == Returned(true);
  }

  method SetupWorkers(envs: seq<Env>, steps: nat) returns (workers: seq<PieceWorker>)
    requires steps > 0
    ensures fresh(workers) && Distinct(workers)
    ensures States(workers) == Connected(envs)
  {
    hide JoinedCheck;
    workers := [];
    assert envs[0..] == envs;
    for i := 0 to |envs|
      invariant fresh(workers) && Distinct(workers)
      invariant States(workers) + Connected(envs[i..]) == Connected(envs)
    {
      ghost var was := States(workers);
      var worker, ok := CheckedWorker(envs[i], steps);
      assert envs[i..][1..] == envs[i + 1..];
      assert States(workers) == was;
      if ok {
        workers := workers + [worker];
        assert States(workers) == was + [worker.Now()];
        assert was + ([worker.Now()] + Connected(envs[i + 1..])) == was + [worker.Now()] + Connected(envs[i + 1..]);
      } else {
        assert [] + Connected(envs[i + 1..]) == Connected(envs[i + 1..]);
      }
    }
    assert States(workers) + [] == States(workers);
  }

  datatype Outcome = NoPeers | Stopped(verdict: Verdict) | Missing(piece: nat, partial: Bytes) | Output(bytes: Bytes)

  /** What gathering comes to. */
  ghost predicate Gathers(files: map<nat, Bytes>, count: nat, o: Outcome) {
    if AllPresent(files, count) then o == Output(Concat(files, count))
    else
      && o.Missing? && o.piece < count && o.piece !in files
      && AllPresent(files, o.piece) && o.partial == Concat(files, o.piece)
  }

  /** What a download comes to, for workers whose threads take at most `steps` steps and a loop of at most
      `rounds` rounds. */
  ghost predicate Results(
    envs: seq<Env>, order: seq<nat>, files: map<nat, Bytes>, steps: nat, rounds: nat, o: Outcome)
  {
    var b := Rounds(Connected(envs), Board(order, files, Going), steps, rounds).1;
    if Connected(envs) == [] then o == NoPeers
    else if !b.verdict.Going? then o == Stopped(b.verdict)
    else Gathers(b.files, |order|, o)
  }

  /** A whole download. */
  method DownloadFile(
    envs: seq<Env>, order: seq<nat>, files: map<nat, Bytes>, steps: nat, rounds: nat, ready: (nat, nat) -> nat)
    returns (o: Outcome)
    requires steps > 0
    ensures Results(envs, order, files, steps, rounds, o)
  {
    hide Rounds, Connected;
    var workers := SetupWorkers(envs, steps);
    if workers == [] {
      return NoPeers;
    }
    var b := RunRounds(order, files, workers, steps, rounds);
    if !b.verdict.Going? {
      return Stopped(b.verdict);
    }
    var output, missing := GatherPieces(|order|, b.files, ready);
    return if missing.Some? then Missing(missing.value, output) else Output(output);
  }
}
