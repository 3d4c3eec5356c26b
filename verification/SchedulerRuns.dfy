/** Whole downloads with workers that are connected and not in have mode. */
module SchedulerRuns {
  import opened Bytes
  import opened Wrappers
  import opened PieceLengths
  import opened Session
  import opened SessionHonest
  import opened PieceWorkers
  import opened Scheduler

  /** A shuffle of the numbers below `n`. */
  ghost predicate Shuffled(order: seq<nat>, n: nat) {
    && |order| == n
    && (forall i | i in order :: i < n)
    && forall i, j :: 0 <= i < j < n ==> order[i] != order[j]
  }

  lemma SizeOfShuffle(order: seq<nat>, n: nat)
    requires Shuffled(order, n)
    ensures |order| == n
  {
  }

  /** The pieces of the torrent have these lengths. */
  ghost predicate Sized(env: Env, sizes: seq<nat>) {
    env.count == |sizes| && forall i :: 0 <= i < |sizes| ==> PieceLen(env, i) == sizes[i]
  }

  /** What a file must be, by the index of its piece. */
  type Standard = (nat, Bytes) -> bool

  /** The right length, as `size_t` counts it. */
  function Measured(sizes: seq<nat>): Standard {
    (i: nat, f: Bytes) => i < |sizes| && |f| % TWO_64 == sizes[i]
  }

  /** The right bytes. */
  function Genuine(content: seq<Bytes>): Standard {
    (i: nat, f: Bytes) => i < |content| && f == content[i]
  }

  /** The books of a download are in order: pieces are done in the order of the shuffle, what is not
      pending was written and is up to standard, and no other file was touched. */
  ghost predicate Books(order: seq<nat>, ok: Standard, files: map<nat, Bytes>, b: Board) {
    && |b.pending| <= |order|
    && b.pending == order[|order| - |b.pending|..]
    && Written(order[..|order| - |b.pending|], ok, files, b.files)
  }

  ghost predicate Written(done: seq<nat>, ok: Standard, before: map<nat, Bytes>, after: map<nat, Bytes>) {
    && (forall i :: i in done ==> i in after && ok(i, after[i]))
    && forall i :: i !in done ==> Same(after, before, i)
  }

  predicate Same(f: map<nat, Bytes>, g: map<nat, Bytes>, i: nat) {
    (i in f <==> i in g) && (i in f && i in g ==> f[i] == g[i])
  }

  /** A kind of worker, by its fields and its peer. */
  type Kind = State -> bool

  /** A worker asked for a piece is joined as one of its kind, and if it is complete it has that piece, up
      to standard.  A strict one is always complete. */
  ghost predicate JoinsWell(w: State, idx: nat, kind: Kind, ok: Standard, steps: nat, strict: bool) {
    match AfterJoin(Started(w, idx), steps)
    case None => !strict
    case Some(v) =>
      && kind(v) && Idle(v) && !v.session.haveMode
      && if v.complete then v.session.lastPiece == idx && ok(idx, v.session.buffer) else !strict && v.exception.Some?
  }

  ghost predicate Reliable(kind: Kind, ok: Standard, n: nat, steps: nat, strict: bool) {
    forall w, idx: nat :: kind(w) && Idle(w) && idx < n ==> JoinsWell(w, idx, kind, ok, steps, strict)
  }

  /** At the loop head nobody is started. */
  ghost predicate AtHead(pool: Pool, kind: Kind) {
    forall j :: 0 <= j < |pool| ==> Idle(pool[j]) && kind(pool[j])
  }

  /** The pool during a round: workers `at` to `k` are at the pieces that lie there in `round`. */
  ghost predicate AtWork(was: Pool, pool: Pool, round: seq<nat>, at: nat, k: nat, kind: Kind) {
    && k <= |pool| == |was| && k <= |round|
    && AtHead(was, kind)
    && forall j :: 0 <= j < |pool| ==>
         if at <= j < k then pool[j] == Started(was[j], round[j]) else Idle(pool[j]) && kind(pool[j])
  }

  lemma WrittenMore(done: seq<nat>, ok: Standard, before: map<nat, Bytes>, after: map<nat, Bytes>, idx: nat, f: Bytes)
    requires Written(done, ok, before, after) && ok(idx, f)
    ensures Written(done + [idx], ok, before, after[idx := f])
  {
    var now := after[idx := f];
    forall i | i in done + [idx]
      ensures i in now && ok(i, now[i])
    {
      assert i == idx || i in done;
    }
    forall i | i !in done + [idx]
      ensures Same(now, before, i)
    {
      assert i != idx && i !in done && Same(after, before, i);
    }
  }

  /** Taking the piece at the head of the pending ones. */
  lemma TakeHead(order: seq<nat>, ok: Standard, files: map<nat, Bytes>, b: Board, w: State, idx: nat)
    requires Books(order, ok, files, b) && b.pending != [] && b.pending[0] == idx && b.verdict.Going?
    requires !w.session.haveMode
    requires w.complete ==> w.session.lastPiece == idx && ok(idx, w.session.buffer)
    ensures var c := Take(w, b);
            && Books(order, ok, files, c)
            && if w.complete then c == Board(b.pending[1..], b.files[idx := w.session.buffer], Going)
               else c == b.(verdict := Raised(w.exception))
  {
    hide Written;
    var m := |order| - |b.pending|;
    if w.complete {
      assert Pop(b.pending, idx) == Some(b.pending[1..]);
      assert order[..m + 1] == order[..m] + [idx];
      assert b.pending[1..] == order[m + 1..];
      WrittenMore(order[..m], ok, files, b.files, idx, w.session.buffer);
    }
  }

  lemma {:induction false} CollectIdle(pool: Pool, at: nat, b: Board, steps: nat)
    requires at <= |pool| && forall j :: at <= j < |pool| ==> Idle(pool[j])
    ensures Collect(pool, at, b, steps) == (pool, b)
    decreases |pool| - at
  {
    if at < |pool| {
      CollectIdle(pool, at + 1, b, steps);
    }
  }

  /** Joining the workers of a round: each piece that arrives is the head of the pending ones, so none is
      popped twice, and the books stay in order. */
  lemma {:induction false} CollectRound(
    order: seq<nat>, ok: Standard, files: map<nat, Bytes>, kind: Kind, was: Pool, pool: Pool, at: nat, b: Board,
    steps: nat, strict: bool, round: seq<nat>, k: nat)
    requires Reliable(kind, ok, |order|, steps, strict)
    requires Books(order, ok, files, b) && b.verdict.Going?
    requires at <= k && AtWork(was, pool, round, at, k, kind) && b.pending == round[at..]
    requires forall i :: 0 <= i < |round| ==> round[i] < |order|
    ensures var (p, c) := Collect(pool, at, b, steps);
            && Books(order, ok, files, c)
            && if c.verdict.Going? then c.pending == round[k..] && AtHead(p, kind) else !strict && Harmless(c.verdict)
    decreases k - at
  {
    hide Books, AfterJoin, Take, Reliable;
    if at == k {
      CollectIdle(pool, at, b, steps);
    } else {
      var idx := round[at];
      Joins(was[at], idx, kind, ok, |order|, steps, strict);
      if AfterJoin(pool[at], steps).Some? {
        var v := AfterJoin(pool[at], steps).value;
        TakeHead(order, ok, files, b, v, idx);
        if v.complete {
          CollectRound(order, ok, files, kind, was, pool[at := v], at + 1, Take(v, b), steps, strict, round, k);
        }
      } else {
        SameBooks(order, ok, files, b, Hung);
      }
    }
  }

  /** The loop was left by the exception of a worker, or a thread or the loop itself goes on forever. */
  predicate Harmless(v: Verdict) {
    v.Hung? || (v.Raised? && v.exception.Some?)
  }

  lemma Joins(w: State, idx: nat, kind: Kind, ok: Standard, n: nat, steps: nat, strict: bool)
    requires Reliable(kind, ok, n, steps, strict) && kind(w) && Idle(w) && idx < n
    ensures JoinsWell(w, idx, kind, ok, steps, strict)
  {
  }

  lemma SameBooks(order: seq<nat>, ok: Standard, files: map<nat, Bytes>, b: Board, v: Verdict)
    requires Books(order, ok, files, b)
    ensures Books(order, ok, files, b.(verdict := v))
  {
    hide Written;
  }

  lemma PendingBelow(order: seq<nat>, ok: Standard, files: map<nat, Bytes>, b: Board)
    requires Shuffled(order, |order|) && Books(order, ok, files, b)
    ensures forall i :: 0 <= i < |b.pending| ==> b.pending[i] < |order|
  {
    hide Written;
    forall i | 0 <= i < |b.pending|
      ensures b.pending[i] < |order|
    {
      assert b.pending[i] == order[|order| - |b.pending| + i];
      assert b.pending[i] in order;
    }
  }

  lemma KeepRound(
    order: seq<nat>, ok: Standard, files: map<nat, Bytes>, kind: Kind, pool: Pool, b: Board, steps: nat,
    strict: bool)
    requires Shuffled(order, |order|) && Reliable(kind, ok, |order|, steps, strict)
    requires Books(order, ok, files, b) && b.verdict.Going? && AtHead(pool, kind)
    ensures var (p, c) := Round(pool, b, steps);
            && Books(order, ok, files, c)
            && if c.verdict.Going? then c.pending == b.pending[Least(|pool|, |b.pending|)..] && AtHead(p, kind)
               else !strict && Harmless(c.verdict)
  {
    hide Books, Collect, StartAll, Reliable, Shuffled, Harmless;
    StartsFirst(pool, b.pending);
    var k := Least(|pool|, |b.pending|);
    PendingBelow(order, ok, files, b);
    CollectRound(order, ok, files, kind, pool, StartAll(pool, b.pending), 0, b, steps, strict, b.pending, k);
  }

  lemma Nothing(m: nat)
    ensures CeilDiv(0, m, 0)
  {
  }

  lemma OneRoundMore(n: nat, m: nat, r: nat)
    requires m > 0 && n > 0 && CeilDiv(n - Least(m, n), m, r)
    ensures CeilDiv(n, m, r + 1)
  {
    assert (r + 1) * m == r * m + m;
    if r > 0 {
      assert r * m == (r - 1) * m + m;
    }
  }

  lemma FewerRounds(n: nat, m: nat, rounds: nat)
    requires n <= rounds * m && rounds > 0
    ensures n - Least(m, n) <= (rounds - 1) * m
  {
    assert rounds * m == (rounds - 1) * m + m;
  }

  /** A download with workers of one reliable kind: when the loop is left the books are in order and no
      piece was popped twice; and if it was left at its head, nothing is pending and it took as many
      rounds as there are pieces for each worker. */
  lemma {:induction false} KeepRounds(
    order: seq<nat>, ok: Standard, files: map<nat, Bytes>, kind: Kind, pool: Pool, b: Board, steps: nat, rounds: nat,
    strict: bool)
    requires Shuffled(order, |order|) && Reliable(kind, ok, |order|, steps, strict)
    requires Books(order, ok, files, b) && b.verdict.Going? && AtHead(pool, kind) && pool != []
    requires strict ==> |b.pending| <= rounds * |pool|
    ensures var (p, c, left) := Rounds(pool, b, steps, rounds);
            && Books(order, ok, files, c)
            && if c.verdict.Going? then
                 c.pending == [] && AtHead(p, kind) && left <= rounds && CeilDiv(|b.pending|, |pool|, rounds - left)
               else !strict && Harmless(c.verdict)
    decreases rounds
  {
    hide Books, Round, AtHead, Shuffled, CeilDiv, Reliable;
    if b.pending == [] {
      Nothing(|pool|);
    } else if rounds == 0 {
      SameBooks(order, ok, files, b, Hung);
    } else {
      KeepRound(order, ok, files, kind, pool, b, steps, strict);
      var (p, c) := Round(pool, b, steps);
      if c.verdict.Going? {
        if strict {
          FewerRounds(|b.pending|, |pool|, rounds);
        }
        KeepRounds(order, ok, files, kind, p, c, steps, rounds - 1, strict);
        var (_, d, left) := Rounds(p, c, steps, rounds - 1);
        if d.verdict.Going? {
          OneRoundMore(|b.pending|, |pool|, rounds - 1 - left);
        }
      }
    }
  }

  lemma BooksAtFirst(order: seq<nat>, ok: Standard, files: map<nat, Bytes>)
    ensures Books(order, ok, files, Board(order, files, Going))
  {
    assert order[0..] == order;
  }

  // Two kinds of workers.

  /** Connected and not in have mode, for a torrent with pieces of these lengths. */
  ghost function PlainKind(sizes: seq<nat>): Kind {
    (w: State) => Sized(w.env, sizes) && Plain(w.session)
  }

  lemma PlainIsReliable(sizes: seq<nat>, steps: nat)
    ensures Reliable(PlainKind(sizes), Measured(sizes), |sizes|, steps, false)
  {
    hide AfterJoin;
    var kind := PlainKind(sizes);
    forall w, idx: nat | kind(w) && Idle(w) && idx < |sizes|
      ensures JoinsWell(w, idx, kind, Measured(sizes), steps, false)
    {
      if AfterJoin(Started(w, idx), steps).Some? {
        PlainJoin(Started(w, idx), idx, steps);
      }
    }
  }

  /** With connected workers that are not in have mode, whatever their peers send, however the pieces were
      shuffled and whatever files there were: no piece is popped twice; what is not pending was written,
      with the length of its piece; and if no exception was thrown and nothing goes on forever, all pieces
      were. */
  lemma PlainDownload(order: seq<nat>, sizes: seq<nat>, files: map<nat, Bytes>, pool: Pool, steps: nat, rounds: nat)
    requires Shuffled(order, |sizes|) && AtHead(pool, PlainKind(sizes)) && pool != []
    ensures var (p, c, left) := Rounds(pool, Board(order, files, Going), steps, rounds);
            && Books(order, Measured(sizes), files, c)
            && if c.verdict.Going? then c.pending == [] && left <= rounds && CeilDiv(|order|, |pool|, rounds - left)
               else Harmless(c.verdict)
  {
    hide Rounds, Books, AtHead, Reliable;
    PlainIsReliable(sizes, steps);
    BooksAtFirst(order, Measured(sizes), files);
    KeepRounds(order, Measured(sizes), files, PlainKind(sizes), pool, Board(order, files, Going), steps, rounds, false);
  }

  /** Ready, with a peer that answers every request in full. */
  ghost function HonestKind(content: seq<Bytes>): Kind {
    (w: State) => Honest(w.env, content) && Ready(w.env, w.session)
  }

  /** Enough for the blocks of every piece. */
  ghost predicate Enough(content: seq<Bytes>, steps: nat) {
    forall i :: 0 <= i < |content| ==> BlockCount(|content[i]|) + 2 <= steps
  }

  lemma HonestJoin(w: State, content: seq<Bytes>, idx: nat, steps: nat)
    requires HonestKind(content)(w) && Idle(w) && idx < |content| && Enough(content, steps)
    ensures JoinsWell(w, idx, HonestKind(content), Genuine(content), steps, true)
  {
    hide BlockCount, PieceLen, Requests, Iterate;
    var env := w.env;
    assert StepsFor(env, idx) <= steps;
    BeginsAsked(env, w.session, idx);
    HonestDownload(env, content, w.session, idx, w.session.(buffer := []), idx);
    var t := Iterate(env, Starting(w.session, idx), StepsFor(env, idx));
    IterateAdd(env, Starting(w.session, idx), StepsFor(env, idx), steps - StepsFor(env, idx));
    IterateOver(env, t.ending, steps - StepsFor(env, idx));
  }

  lemma HonestIsReliable(content: seq<Bytes>, steps: nat)
    requires Enough(content, steps)
    ensures Reliable(HonestKind(content), Genuine(content), |content|, steps, true)
  {
    hide JoinsWell, Idle;
    forall w, idx: nat | HonestKind(content)(w) && Idle(w) && idx < |content|
      ensures JoinsWell(w, idx, HonestKind(content), Genuine(content), steps, true)
    {
      HonestJoin(w, content, idx, steps);
    }
  }

  /** With honest peers, and time enough, the download ends at the loop head after as many rounds as there
      are pieces for each worker, and the files hold exactly the pieces. */
  lemma HonestDownloads(
    order: seq<nat>, content: seq<Bytes>, files: map<nat, Bytes>, pool: Pool, steps: nat, rounds: nat)
    requires Shuffled(order, |content|) && AtHead(pool, HonestKind(content)) && pool != []
    requires Enough(content, steps) && |content| <= rounds * |pool|
    ensures var (p, c, left) := Rounds(pool, Board(order, files, Going), steps, rounds);
            && c.verdict.Going? && c.pending == []
            && Written(order, Genuine(content), files, c.files)
            && left <= rounds && CeilDiv(|content|, |pool|, rounds - left)
  {
    hide Rounds, AtHead, Reliable, Written, Enough;
    HonestIsReliable(content, steps);
    BooksAtFirst(order, Genuine(content), files);
    KeepRounds(order, Genuine(content), files, HonestKind(content), pool, Board(order, files, Going),
               steps, rounds, true);
    assert order[..|order|] == order;
  }
}
