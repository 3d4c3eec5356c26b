/** What the rounds keep whatever the peers do, and what have mode does to them. */
module AnyPeers {
  import opened Bytes
  import opened Wrappers
  import opened Session
  import opened Proto
  import opened SessionStream
  import opened SessionHonest
  import opened PieceWorkers
  import opened Scheduler
  import opened SchedulerRuns
  import opened Gathering

  predicate NoRepeats(s: seq<nat>) {
    forall i, j :: 0 <= i < j < |s| ==> s[i] != s[j]
  }

  /** Every piece is pending or has a file, and none is pending twice. */
  ghost predicate Accounted(order: seq<nat>, b: Board) {
    && NoRepeats(b.pending)
    && (forall i | i in b.pending :: i in order)
    && forall i | i in order :: i in b.pending || i in b.files
  }

  lemma WithoutKeeps(s: seq<nat>, k: nat)
    requires k < |s| && NoRepeats(s)
    ensures NoRepeats(Without(s, k))
    ensures forall i :: i in Without(s, k) <==> i in s && i != s[k]
  {
    var t := Without(s, k);
    forall i
      ensures i in t <==> i in s && i != s[k]
    {
      if i in s && i != s[k] {
        var j :| 0 <= j < |s| && s[j] == i;
        assert t[if j < k then j else j - 1] == i;
      }
    }
  }

  lemma TakeAccounts(order: seq<nat>, w: State, b: Board)
    requires Accounted(order, b)
    ensures Accounted(order, Take(w, b))
  {
    var idx := w.session.lastPiece;
    if idx in b.pending {
      var k := FirstAt(b.pending, idx);
      PopTakesFirst(b.pending, idx, k);
      WithoutKeeps(b.pending, k);
    } else {
      PopTakesFirst(b.pending, idx, 0);
    }
  }

  function FirstAt(s: seq<nat>, idx: nat): (k: nat)
    requires idx in s
    ensures IsFirst(s, idx, k)
  {
    if s[0] == idx then 0
    else
      var k := FirstAt(s[1..], idx);
      assert s[..k + 1] == [s[0]] + s[1..][..k];
      k + 1
  }

  lemma JoinedIsIdle(w: State, steps: nat)
    requires w.job.Some? && AfterJoin(w, steps).Some?
    ensures Idle(AfterJoin(w, steps).value)
  {
    hide Iterate, ConnectToPeer;
  }

  lemma {:induction false} CollectAccounts(order: seq<nat>, pool: Pool, at: nat, b: Board, steps: nat)
    requires at <= |pool| && Accounted(order, b)
    ensures var (p, c) := Collect(pool, at, b, steps);
            && Accounted(order, c)
            && (c.verdict.Going? ==> forall j :: 0 <= j < |pool| ==> if j < at then p[j] == pool[j] else Idle(p[j]))
    decreases |pool| - at
  {
    hide AfterJoin, Take, Accounted;
    if at < |pool| && b.verdict.Going? {
      if Idle(pool[at]) {
        CollectAccounts(order, pool, at + 1, b, steps);
      } else if AfterJoin(pool[at], steps).Some? {
        var w := AfterJoin(pool[at], steps).value;
        JoinedIsIdle(pool[at], steps);
        TakeAccounts(order, w, b);
        CollectAccounts(order, pool[at := w], at + 1, Take(w, b), steps);
      } else {
        AccountedStill(order, b);
      }
    }
  }

  lemma AccountedStill(order: seq<nat>, b: Board)
    requires Accounted(order, b)
    ensures Accounted(order, b.(verdict := Hung))
  {
  }

  /** Whatever the peers do, in have mode or not: at every loop head every piece is pending or has a file,
      none is pending twice, and nobody is started; so past the loop every file is there. */
  lemma {:induction false} RoundsAccount(order: seq<nat>, pool: Pool, b: Board, steps: nat, rounds: nat)
    requires Accounted(order, b) && AllIdle(pool)
    ensures var (p, c, left) := Rounds(pool, b, steps, rounds);
            && Accounted(order, c)
            && (b.verdict.Going? && c.verdict.Going? ==> AllIdle(p) && forall i | i in order :: i in c.files)
    decreases rounds
  {
    hide Collect, StartAll, Accounted;
    if b.verdict.Going? && b.pending != [] && rounds > 0 {
      CollectAccounts(order, StartAll(pool, b.pending), 0, b, steps);
      var (p, c) := Round(pool, b, steps);
      if c.verdict.Going? {
        RoundsAccount(order, p, c, steps, rounds - 1);
      }
    } else {
      AccountedStill(order, b);
      NothingPending(order, b);
    }
  }

  lemma NothingPending(order: seq<nat>, b: Board)
    requires Accounted(order, b)
    ensures b.pending == [] ==> forall i | i in order :: i in b.files
  {
  }

  function UpTo(n: nat): (s: set<nat>)
    ensures |s| == n && forall i: nat :: i in s <==> i < n
  {
    if n == 0 then {} else UpTo(n - 1) + {n - 1}
  }

  function Elements(s: seq<nat>): (e: set<nat>)
    requires NoRepeats(s)
    ensures |e| == |s| && forall i :: i in e <==> i in s
  {
    if s == [] then {} else Elements(s[1..]) + {s[0]}
  }

  lemma {:induction false} Smaller(a: set<nat>, b: set<nat>)
    requires a <= b
    ensures |a| <= |b|
  {
    if a != {} {
      var x :| x in a;
      Smaller(a - {x}, b - {x});
    }
  }

  /** A shuffle of the numbers below `n` has them all. */
  lemma ShuffleCovers(order: seq<nat>, n: nat)
    requires Shuffled(order, n)
    ensures forall i :: 0 <= i < n ==> i in order
  {
    forall i | 0 <= i < n
      ensures i in order
    {
      if i !in order {
        Smaller(Elements(order), UpTo(n) - {i});
      }
    }
  }

  /** Whatever the peers do, `gather_pieces` finds every piece. */
  lemma NothingMissing(order: seq<nat>, n: nat, files: map<nat, Bytes>, pool: Pool, steps: nat, rounds: nat)
    requires Shuffled(order, n) && AllIdle(pool)
    ensures var b := Rounds(pool, Board(order, files, Going), steps, rounds).1;
            b.verdict.Going? ==> AllPresent(b.files, n)
  {
    hide Rounds;
    RoundsAccount(order, pool, Board(order, files, Going), steps, rounds);
    ShuffleCovers(order, n);
  }

  /** Of a worker that is not in have mode, the exception of its own thread is thrown again. */
  lemma RaisesOwn(w: State, b: Board, steps: nat)
    requires IsDownload(w) && !w.complete
    requires var t := Iterate(w.env, ThreadOf(w), steps); t.Over? && t.ending.Failed? && !t.ending.session.haveMode
    ensures AfterJoin(w, steps).Some?
    ensures Take(AfterJoin(w, steps).value, b)
            == b.(verdict := Raised(Some(Iterate(w.env, ThreadOf(w), steps).ending.exception)))
  {
    hide Iterate;
  }

  // Rounds without progress.

  /** A started worker whose thread ends without an exception. */
  predicate Yields(w: State, steps: nat) {
    !Idle(w) && AfterJoin(w, steps).Some? && AfterJoin(w, steps).value.complete
  }

  lemma TakeShrinks(w: State, b: Board)
    requires b.verdict.Going? && Take(w, b).verdict.Going?
    ensures if w.complete then |Take(w, b).pending| < |b.pending| else Take(w, b) == b
  {
    var idx := w.session.lastPiece;
    if idx in b.pending {
      PopTakesFirst(b.pending, idx, FirstAt(b.pending, idx));
    } else {
      PopTakesFirst(b.pending, idx, 0);
    }
  }

  lemma {:induction false} CollectStalls(pool: Pool, at: nat, b: Board, steps: nat)
    requires at <= |pool| && b.verdict.Going? && Collect(pool, at, b, steps).1.verdict.Going?
    ensures var c := Collect(pool, at, b, steps).1;
            && |c.pending| <= |b.pending|
            && (c.pending == b.pending <==> forall j :: at <= j < |pool| ==> !Yields(pool[j], steps))
            && (c.pending == b.pending ==> c == b)
    decreases |pool| - at
  {
    hide AfterJoin, Take;
    if at < |pool| {
      if Idle(pool[at]) {
        CollectStalls(pool, at + 1, b, steps);
      } else {
        var w := AfterJoin(pool[at], steps).value;
        GoingBefore(pool[at := w], at + 1, Take(w, b), steps);
        TakeShrinks(w, b);
        var next := pool[at := w];
        CollectStalls(next, at + 1, Take(w, b), steps);
        assert forall j :: at + 1 <= j < |pool| ==> next[j] == pool[j];
      }
    }
  }

  lemma GoingBefore(pool: Pool, at: nat, b: Board, steps: nat)
    requires at <= |pool| && Collect(pool, at, b, steps).1.verdict.Going?
    ensures b.verdict.Going?
  {
  }

  /** A round that is not left makes progress exactly if some started worker ends without an exception;
      otherwise it leaves the board as it was. */
  lemma RoundStallsIff(pool: Pool, b: Board, steps: nat)
    requires b.verdict.Going? && Round(pool, b, steps).1.verdict.Going?
    ensures var c := Round(pool, b, steps).1;
            && (c.pending == b.pending <==>
                  forall j :: 0 <= j < |pool| ==> !Yields(StartAll(pool, b.pending)[j], steps))
            && (c.pending == b.pending ==> c == b)
  {
    hide Collect, StartAll, Yields;
    CollectStalls(StartAll(pool, b.pending), 0, b, steps);
  }

  // Workers in have mode that keep failing.

  /** In have mode, with a connection that fails in every transfer from here on. */
  ghost predicate Hopeless(w: State) {
    && w.session.haveMode && w.session.established
    && (w.session.havePiece.Some? ==> PieceLen(w.env, w.session.havePiece.value) > 0)
    && forall k :: w.session.socket.transfers <= k ==> w.env.faults(k).Fault? && w.env.faults(k).trouble == Broken
  }

  lemma HopelessBegin(w: State, idx: nat)
    requires Hopeless(w)
    ensures var env, t := w.env, Begin(w.env, w.session, idx);
            if w.session.havePiece.Some? then
              && t.InBlocks? && PieceLen(env, t.idx) > 0 && t.received == 0 && Hopeless(w.(session := t.session))
              && t.session.havePiece.None?
            else t.Over? && t.ending.Failed? && Hopeless(w.(session := t.ending.session))
  {
    hide UnpackHeader, PieceLen;
  }

  lemma HopelessBlock(w: State, idx: nat)
    requires Hopeless(w) && PieceLen(w.env, idx) > 0
    ensures var t := ThreadStep(w.env, InBlocks(w.session, idx, 0));
            t.Over? && t.ending.Failed? && Hopeless(w.(session := t.ending.session))
  {
    hide UnpackHeader, PieceLen, UnpackPiece, PackRequest;
  }

  lemma HopelessJoin(w: State, idx: nat, steps: nat)
    requires Hopeless(w) && steps > 1
    ensures var v := AfterJoin(Started(w, idx), steps);
            && v.Some? && Hopeless(v.value) && Idle(v.value) && !v.value.complete
  {
    hide Begin, Hopeless, PieceLen;
    var env, start := w.env, Starting(w.session, idx);
    HopelessBegin(w, idx);
    var t := Begin(env, w.session, idx);
    assert ThreadStep(env, start) == t;
    OneStep(env, start, steps - 1);
    if t.Over? {
      IterateOver(env, t.ending, steps - 1);
      HopelessStill(w, t.ending.session, idx, t.ending.exception);
    } else {
      HopelessBlock(w.(session := t.session), t.idx);
      var u := ThreadStep(env, t);
      OneStep(env, t, steps - 2);
      IterateOver(env, u.ending, steps - 2);
      HopelessStill(w, u.ending.session, idx, u.ending.exception);
    }
  }

  lemma HopelessStill(w: State, s: Session, idx: nat, x: Exception)
    requires Hopeless(w.(session := s))
    ensures Hopeless(Joined(Started(w, idx), Failed(s, x)))
  {
  }

  lemma {:induction false} HopelessCollect(was: Pool, pool: Pool, at: nat, b: Board, steps: nat)
    requires at <= |pool| == |was| && steps > 1
    requires forall j :: 0 <= j < |pool| ==> Hopeless(was[j]) && Hopeless(pool[j])
    requires forall j :: 0 <= j < at ==> Idle(pool[j])
    requires forall j :: at <= j < |pool| ==> Idle(pool[j]) || exists idx :: pool[j] == Started(was[j], idx)
    ensures var (p, c) := Collect(pool, at, b, steps);
            && c == b
            && (b.verdict.Going? ==> forall j :: 0 <= j < |pool| ==> Hopeless(p[j]) && Idle(p[j]))
    decreases |pool| - at
  {
    hide AfterJoin, Hopeless;
    if at < |pool| && b.verdict.Going? {
      if Idle(pool[at]) {
        HopelessCollect(was, pool, at + 1, b, steps);
      } else {
        var idx :| pool[at] == Started(was[at], idx);
        HopelessJoin(was[at], idx, steps);
        var v := AfterJoin(pool[at], steps).value;
        HopelessTake(v, b);
        HopelessCollect(was, pool[at := v], at + 1, b, steps);
      }
    }
  }

  lemma HopelessTake(w: State, b: Board)
    requires Hopeless(w) && !w.complete
    ensures Take(w, b) == b
  {
  }

  /** A failing worker in have mode is neither reported nor dropped: with only such workers every round
      leaves all as it was, and no number of rounds is enough. */
  lemma {:induction false} HaveModeLivelock(pool: Pool, b: Board, steps: nat, rounds: nat)
    requires b.verdict.Going? && b.pending != [] && steps > 1
    requires forall j :: 0 <= j < |pool| ==> Hopeless(pool[j]) && Idle(pool[j])
    ensures Rounds(pool, b, steps, rounds).1 == b.(verdict := Hung)
    decreases rounds
  {
    hide Collect, Hopeless, StartAll;
    if rounds > 0 {
      StartsFirst(pool, b.pending);
      var s := StartAll(pool, b.pending);
      forall j | 0 <= j < |pool|
        ensures Hopeless(s[j]) && (Idle(s[j]) || exists idx :: s[j] == Started(pool[j], idx))
      {
        HopelessStarted(pool[j], b.pending[if j < |b.pending| then j else 0]);
      }
      HopelessCollect(pool, s, 0, b, steps);
      HaveModeLivelock(Round(pool, b, steps).0, b, steps, rounds - 1);
    }
  }

  lemma HopelessStarted(w: State, idx: nat)
    requires Hopeless(w)
    ensures Hopeless(Started(w, idx))
  {
  }

  // Workers that count as complete without a piece.

  /** A worker that ends without an exception has a piece, unless and only unless it waited in vain for an
      announcement. */
  lemma CompleteIff(w: State, steps: nat)
    requires IsDownload(w) && !w.complete && steps > 0 && AfterJoin(w, steps).Some?
    ensures var t := Iterate(w.env, ThreadOf(w), steps);
            && t.Over?
            && (t.ending.Full? <==> AfterJoin(w, steps).value.complete && !FindsNothing(w.env, w.session))
            && (FindsNothing(w.env, w.session) ==> AfterJoin(w, steps).value.complete)
  {
    hide FindsNothing, Iterate;
    EndsEarlyIff(w.env, w.session, w.job.value.idx, steps);
  }

  /** What joining such a worker gives. */
  lemma EarlyJoin(w: State, steps: nat)
    requires IsDownload(w) && steps > 0 && FindsNothing(w.env, w.session)
    ensures var socket := Read(w.env, w.session.socket, HEADER_SIZE).0;
            AfterJoin(w, steps)
            == Some(w.(session := w.session.(buffer := [], socket := socket), job := None, complete := true))
  {
    hide FindsNothing, Iterate;
    EndsEarlyIff(w.env, w.session, w.job.value.idx, steps);
  }

  /** At any place in any pool: if the piece it had before is still pending, or piece 0 when it had none, an
      empty file is written for it; otherwise the download is left by the exception of `pop_piece`. */
  lemma EarlyCounts(pool: Pool, at: nat, b: Board, steps: nat)
    requires at < |pool| && b.verdict.Going? && steps > 0
    requires IsDownload(pool[at]) && FindsNothing(pool[at].env, pool[at].session)
    ensures var w := AfterJoin(pool[at], steps);
            var idx := pool[at].session.lastPiece;
            && w.Some?
            && if idx in b.pending then
                 && Pop(b.pending, idx).Some?
                 && Collect(pool, at, b, steps)
                    == Collect(pool[at := w.value], at + 1,
                               Board(Pop(b.pending, idx).value, b.files[idx := []], Going), steps)
               else Collect(pool, at, b, steps) == (pool[at := w.value], b.(verdict := Twice(idx)))
  {
    hide AfterJoin, FindsNothing;
    EarlyJoin(pool[at], steps);
    PopTakesFirst(b.pending, pool[at].session.lastPiece, 0);
  }

  lemma {:induction false} CollectKeepsFile(pool: Pool, at: nat, b: Board, steps: nat, idx: nat)
    requires at <= |pool| && idx !in b.pending
    ensures var c := Collect(pool, at, b, steps).1; idx !in c.pending && Same(c.files, b.files, idx)
    decreases |pool| - at
  {
    hide AfterJoin, Take;
    if at < |pool| && b.verdict.Going? {
      if Idle(pool[at]) {
        CollectKeepsFile(pool, at + 1, b, steps, idx);
      } else if AfterJoin(pool[at], steps).Some? {
        var w := AfterJoin(pool[at], steps).value;
        TakeKeepsFile(w, b, idx);
        CollectKeepsFile(pool[at := w], at + 1, Take(w, b), steps, idx);
      }
    }
  }

  lemma TakeKeepsFile(w: State, b: Board, idx: nat)
    requires idx !in b.pending
    ensures idx !in Take(w, b).pending && Same(Take(w, b).files, b.files, idx)
  {
    var last := w.session.lastPiece;
    if last in b.pending {
      PopTakesFirst(b.pending, last, FirstAt(b.pending, last));
    } else {
      PopTakesFirst(b.pending, last, 0);
    }
  }

  lemma TakeKeepsPending(w: State, b: Board)
    requires NoRepeats(b.pending)
    ensures NoRepeats(Take(w, b).pending)
    ensures forall i :: i in Take(w, b).pending ==> i in b.pending
    ensures w.complete && Take(w, b).verdict.Going? && b.verdict.Going? ==>
              var idx := w.session.lastPiece;
              && idx in b.pending && idx !in Take(w, b).pending
              && idx in Take(w, b).files && Take(w, b).files[idx] == w.session.buffer
  {
    var last := w.session.lastPiece;
    if last in b.pending {
      var k := FirstAt(b.pending, last);
      PopTakesFirst(b.pending, last, k);
      WithoutKeeps(b.pending, k);
    } else {
      PopTakesFirst(b.pending, last, 0);
    }
  }

  /** Whoever waits in vain in a round: the round is left, or the piece this worker had before, or piece 0, was
      pending, is pending no more, and has an empty file at the end of the round. */
  lemma {:induction false} EarlyInRound(pool: Pool, at: nat, b: Board, steps: nat, j: nat)
    requires at <= j < |pool| && NoRepeats(b.pending) && steps > 0 && b.verdict.Going?
    requires IsDownload(pool[j]) && FindsNothing(pool[j].env, pool[j].session)
    ensures var c := Collect(pool, at, b, steps).1;
            var idx := pool[j].session.lastPiece;
            c.verdict.Going? ==>
              idx in b.pending && idx !in c.pending && idx in c.files && c.files[idx] == []
    decreases |pool| - at
  {
    hide AfterJoin, Take, FindsNothing;
    if at < j && Idle(pool[at]) {
      EarlyInRound(pool, at + 1, b, steps, j);
    } else if AfterJoin(pool[at], steps).Some? {
      var w := AfterJoin(pool[at], steps).value;
      TakeKeepsPending(w, b);
      if Collect(pool, at, b, steps).1.verdict.Going? {
        GoingBefore(pool[at := w], at + 1, Take(w, b), steps);
        if at == j {
          EarlyJoin(pool[j], steps);
          CollectKeepsFile(pool[at := w], at + 1, Take(w, b), steps, pool[j].session.lastPiece);
        } else {
          EarlyInRound(pool[at := w], at + 1, Take(w, b), steps, j);
        }
      }
    }
  }

  // When a round goes on.

  /** Every started worker is joined, and is complete or in have mode. */
  predicate AllJoin(ws: Pool, steps: nat) {
    forall j :: 0 <= j < |ws| && !Idle(ws[j]) ==> JoinsQuietly(ws[j], steps)
  }

  predicate JoinsQuietly(w: State, steps: nat)
    requires !Idle(w)
  {
    var v := AfterJoin(w, steps);
    v.Some? && (v.value.complete || v.value.session.haveMode)
  }

  /** The pieces that the complete workers name, in the order of the workers. */
  function Named(ws: Pool, steps: nat): seq<nat> {
    if ws == [] then []
    else
      (if Yields(ws[0], steps) then [AfterJoin(ws[0], steps).value.session.lastPiece] else [])
      + Named(ws[1..], steps)
  }

  predicate AllPending(names: seq<nat>, pending: seq<nat>) {
    forall i :: 0 <= i < |names| ==> names[i] in pending
  }

  /** The pending pieces without those. */
  function Minus(pending: seq<nat>, names: seq<nat>): seq<nat> {
    if pending == [] then []
    else (if pending[0] in names then [] else [pending[0]]) + Minus(pending[1..], names)
  }

  lemma {:induction false} MinusNothing(pending: seq<nat>)
    ensures Minus(pending, []) == pending
  {
    if pending != [] {
      MinusNothing(pending[1..]);
    }
  }

  lemma {:induction false} MinusAbsent(pending: seq<nat>, x: nat, names: seq<nat>)
    requires x !in pending
    ensures Minus(pending, [x] + names) == Minus(pending, names)
  {
    if pending != [] {
      MinusAbsent(pending[1..], x, names);
    }
  }

  lemma {:induction false} MinusPopped(pending: seq<nat>, x: nat, names: seq<nat>)
    requires NoRepeats(pending) && x in pending
    ensures Pop(pending, x).Some? && Minus(Pop(pending, x).value, names) == Minus(pending, [x] + names)
  {
    if pending[0] == x {
      MinusAbsent(pending[1..], x, names);
    } else {
      MinusPopped(pending[1..], x, names);
      var rest := Pop(pending[1..], x).value;
      assert ([pending[0]] + rest)[1..] == rest;
    }
  }

  lemma Popped(pending: seq<nat>, x: nat)
    requires NoRepeats(pending) && x in pending
    ensures Pop(pending, x).Some? && NoRepeats(Pop(pending, x).value)
    ensures forall i :: i in Pop(pending, x).value <==> i in pending && i != x
  {
    var k := FirstAt(pending, x);
    PopTakesFirst(pending, x, k);
    WithoutKeeps(pending, k);
  }

  /** What one more name asks of the others. */
  lemma NamesMore(x: nat, names: seq<nat>, pending: seq<nat>, rest: seq<nat>)
    requires forall i :: i in rest <==> i in pending && i != x
    ensures (x in pending && NoRepeats(names) && AllPending(names, rest))
            <==> (NoRepeats([x] + names) && AllPending([x] + names, pending))
  {
    var all := [x] + names;
    if NoRepeats(all) && AllPending(all, pending) {
      assert all[0] == x;
      forall i | 0 <= i < |names|
        ensures names[i] in rest
      {
        assert all[i + 1] == names[i];
      }
      forall i, j | 0 <= i < j < |names|
        ensures names[i] != names[j]
      {
        assert all[i + 1] == names[i] && all[j + 1] == names[j];
      }
    }
  }

  lemma StoppedStays(pool: Pool, at: nat, b: Board, steps: nat)
    requires at <= |pool| && !b.verdict.Going?
    ensures Collect(pool, at, b, steps) == (pool, b)
  {
  }

  /** What a joined worker does to a board that goes on. */
  lemma TakeGoesOnIff(w: State, b: Board)
    requires b.verdict.Going? && NoRepeats(b.pending)
    ensures var c := Take(w, b);
            && (c.verdict.Going? <==> if w.complete then w.session.lastPiece in b.pending else w.session.haveMode)
            && (w.complete || w.session.haveMode ==> c.verdict.Going? || c.verdict.Twice?)
            && (!w.complete && w.session.haveMode ==> c == b)
            && (w.complete && c.verdict.Going? ==>
                  Pop(b.pending, w.session.lastPiece) == Some(c.pending) && NoRepeats(c.pending))
  {
    if w.session.lastPiece in b.pending {
      Popped(b.pending, w.session.lastPiece);
    } else {
      PopTakesFirst(b.pending, w.session.lastPiece, 0);
    }
  }

  /** Joining the workers from `at` on goes on to the end if and only if all of them join, complete or in
      have mode, and the complete ones name different pieces that are all pending; then exactly these are
      pending no more.  As long as they join so, all that can go wrong is that a piece is popped twice. */
  lemma {:induction false} GoesOnIff(pool: Pool, at: nat, b: Board, steps: nat)
    requires at <= |pool| && b.verdict.Going? && NoRepeats(b.pending)
    ensures var c, ws := Collect(pool, at, b, steps).1, pool[at..];
            && (c.verdict.Going? <==>
                  AllJoin(ws, steps) && NoRepeats(Named(ws, steps)) && AllPending(Named(ws, steps), b.pending))
            && (AllJoin(ws, steps) ==> c.verdict.Going? || c.verdict.Twice?)
            && (c.verdict.Going? ==> c.pending == Minus(b.pending, Named(ws, steps)))
    decreases |pool| - at
  {
    hide AfterJoin, Take, JoinsQuietly;
    var ws := pool[at..];
    if at == |pool| {
      MinusNothing(b.pending);
    } else {
      var w := pool[at];
      assert ws[0] == w && ws[1..] == pool[at + 1..];
      AllJoinMore(ws, steps);
      if Idle(w) {
        GoesOnIff(pool, at + 1, b, steps);
        assert [] + Named(ws[1..], steps) == Named(ws[1..], steps);
      } else if AfterJoin(w, steps).Some? {
        var v := AfterJoin(w, steps).value;
        JoinsQuietlyIf(w, steps);
        TakeGoesOnIff(v, b);
        var next := Take(v, b);
        assert pool[at := v][at + 1..] == ws[1..];
        if next.verdict.Going? {
          GoesOnIff(pool[at := v], at + 1, next, steps);
          if v.complete {
            Popped(b.pending, v.session.lastPiece);
            NamesMore(v.session.lastPiece, Named(ws[1..], steps), b.pending, next.pending);
            MinusPopped(b.pending, v.session.lastPiece, Named(ws[1..], steps));
          } else {
            assert [] + Named(ws[1..], steps) == Named(ws[1..], steps);
          }
        } else {
          StoppedStays(pool[at := v], at + 1, next, steps);
          if v.complete {
            assert Named(ws, steps)[0] == v.session.lastPiece;
          }
        }
      } else {
        JoinsQuietlyIf(w, steps);
      }
    }
  }

  lemma AllJoinMore(ws: Pool, steps: nat)
    requires ws != []
    ensures AllJoin(ws, steps) <==> (Idle(ws[0]) || JoinsQuietly(ws[0], steps)) && AllJoin(ws[1..], steps)
  {
    hide JoinsQuietly;
    if AllJoin(ws[1..], steps) && (Idle(ws[0]) || JoinsQuietly(ws[0], steps)) {
      forall j | 0 <= j < |ws| && !Idle(ws[j])
        ensures JoinsQuietly(ws[j], steps)
      {
        if j > 0 {
          assert ws[1..][j - 1] == ws[j];
        }
      }
    }
    if AllJoin(ws, steps) {
      forall j | 0 <= j < |ws[1..]| && !Idle(ws[1..][j])
        ensures JoinsQuietly(ws[1..][j], steps)
      {
        assert ws[j + 1] == ws[1..][j];
      }
    }
  }

  lemma JoinsQuietlyIf(w: State, steps: nat)
    requires !Idle(w)
    ensures JoinsQuietly(w, steps) <==>
              AfterJoin(w, steps).Some?
              && (AfterJoin(w, steps).value.complete || AfterJoin(w, steps).value.session.haveMode)
  {
  }

  /** So a round of workers that all join, complete or in have mode, ends with a piece popped twice exactly if
      two of the complete ones name one piece, or one of them names a piece that is not pending. */
  lemma RoundTwiceIff(pool: Pool, b: Board, steps: nat)
    requires b.verdict.Going? && NoRepeats(b.pending) && AllJoin(StartAll(pool, b.pending), steps)
    ensures var c, names := Round(pool, b, steps).1, Named(StartAll(pool, b.pending), steps);
            && (c.verdict.Twice? <==> !(NoRepeats(names) && AllPending(names, b.pending)))
            && (!c.verdict.Twice? ==> c.verdict.Going? && c.pending == Minus(b.pending, names))
  {
    hide Collect, StartAll, AllJoin, Named;
    var ws := StartAll(pool, b.pending);
    assert ws[0..] == ws;
    GoesOnIff(ws, 0, b, steps);
  }
}
