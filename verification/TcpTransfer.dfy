/** One request and its response over TCP, as `src/misc/tcp_transfer.hpp` drives it: asynchronous
    writes and reads, and two timers whose waits can be cancelled.

    The event loop is a transition system.  The environment completes parts of the transfer or lets a
    timer expire, at any moment; a queued handler runs, in any order.  The contract of asio that is
    taken for granted: cancelling a timer gives its live waits the aborted code but leaves expiries
    that are already queued alone, and cancelling the socket does the same for its operations. */
module TcpTransfer {
  import opened Bytes

  /** Success, `operation_aborted`, or any other error. */
  datatype Code = Fine | Aborted | Failed

  /** An operation of the socket: none, waiting for the kernel, or a completion waiting to run with
      the number of bytes moved. */
  datatype Operation = Idle | InFlight | Queued(code: Code, count: nat)

  /** A wait on the write timer. */
  datatype Wait = NoWait | Live | Fired(code: Code)

  /** What is pending in the event loop, and what the kernel has moved so far.  On the read timer
      several waits can be pending: live ones, queued expiries and queued cancellations. */
  datatype Net = Net(
    write: Operation, sent: Bytes,
    read: Operation, stream: Bytes,
    writeWait: Wait,
    readLive: nat, readExpired: nat, readCancelled: nat)

  /** The fields of a transfer together with the event loop. */
  datatype State = State(
    request: Bytes, expected: nat,
    writeError: Code, readError: Code,
    buffer: Bytes, net: Net)

  // What the handlers ask of asio.

  function CancelWriteTimer(n: Net): Net {
    if n.writeWait.Live? then n.(writeWait := Fired(Aborted)) else n
  }

  function CancelReadTimer(n: Net): Net {
    n.(readLive := 0, readCancelled := n.readCancelled + n.readLive)
  }

  function WaitReadTimer(n: Net): Net {
    n.(readLive := n.readLive + 1)
  }

  function Cancelled(op: Operation): Operation {
    if op.InFlight? then Queued(Aborted, 0) else op
  }

  function CancelSocket(n: Net): Net {
    n.(write := Cancelled(n.write), read := Cancelled(n.read))
  }

  // The handlers, as functions of the state.

  function OnReadPartly(s: State, code: Code): State {
    var t := s.(net := CancelReadTimer(s.net), readError := code);
    if code != Fine then t.(net := CancelSocket(t.net)) else t.(net := WaitReadTimer(t.net))
  }

  function OnReadComplete(s: State, code: Code): State {
    var t := s.(net := CancelReadTimer(s.net), readError := code);
    if code != Fine then t.(net := CancelSocket(t.net)) else t
  }

  /** `async_read` asks its completion condition first and then reads. */
  function AsyncRead(s: State): State {
    var t := OnReadPartly(s, Fine);
    t.(net := t.net.(read := InFlight))
  }

  function OnWriteComplete(s: State, code: Code): State {
    var t := s.(net := CancelWriteTimer(s.net), writeError := code);
    if code != Fine then t.(net := CancelSocket(t.net)) else AsyncRead(t.(net := WaitReadTimer(t.net)))
  }

  function OnTimeout(s: State, code: Code): State {
    if code == Fine then s.(net := CancelSocket(s.net)) else s
  }

  function PrepareTransfer(request: Bytes, expected: nat): State {
    State(request, expected, Aborted, Aborted, seq(expected, _ => 0),
          Net(InFlight, [], Idle, [], Live, 0, 0, 0))
  }

  /** A read on its own has nothing to write. */
  function PrepareRead(expected: nat): State {
    AsyncRead(State([], expected, Fine, Aborted, seq(expected, _ => 0),
                    Net(Idle, [], Idle, [], NoWait, 1, 0, 0)))
  }

  // The steps.

  datatype Event =
    | KernelWrites(count: nat)
    | WriteFails
    | KernelReads(data: Bytes)
    | ReadFails
    | WriteTimerExpires
    | ReadTimerExpires
    | RunWrite
    | RunRead
    | RunWriteTimer
    | RunReadExpired
    | RunReadCancelled

  function Unsent(s: State): int { |s.request| - |s.net.sent| }

  function Missing(s: State): int { s.expected - |s.net.stream| }

  /** An empty transfer completes with no bytes, any other one moves at least one. */
  predicate Moves(count: nat, rest: int) {
    count <= rest && (count == 0 ==> rest == 0)
  }

  predicate Enabled(s: State, e: Event) {
    match e
    case KernelWrites(count) => s.net.write.InFlight? && Moves(count, Unsent(s))
    case WriteFails => s.net.write.InFlight?
    case KernelReads(data) => s.net.read.InFlight? && Moves(|data|, Missing(s))
    case ReadFails => s.net.read.InFlight?
    case WriteTimerExpires => s.net.writeWait.Live?
    case ReadTimerExpires => s.net.readLive > 0
    case RunWrite => s.net.write.Queued?
    case RunRead => s.net.read.Queued?
    case RunWriteTimer => s.net.writeWait.Fired?
    case RunReadExpired => s.net.readExpired > 0
    case RunReadCancelled => s.net.readCancelled > 0
  }

  /** The composed write goes on until everything is sent or an error occurs. */
  function DispatchWrite(s: State): State
    requires s.net.write.Queued?
  {
    var code := s.net.write.code;
    if code == Fine && Unsent(s) > 0 then s.(net := s.net.(write := InFlight))
    else OnWriteComplete(s.(net := s.net.(write := Idle)), code)
  }

  /** The composed read asks the completion condition after every part but the last. */
  function DispatchRead(s: State): State
    requires s.net.read.Queued?
  {
    var code := s.net.read.code;
    var t := s.(net := s.net.(read := Idle));
    if Missing(s) == 0 then OnReadComplete(t, code)
    else
      var u := OnReadPartly(t, code);
      if code != Fine then OnReadComplete(u, code) else u.(net := u.net.(read := InFlight))
  }

  function Step(s: State, e: Event): State
    requires Enabled(s, e) && |s.net.sent| <= |s.request| && |s.net.stream| <= |s.buffer| == s.expected
  {
    var n := s.net;
    match e
    case KernelWrites(count) =>
      s.(net := n.(write := Queued(Fine, count), sent := n.sent + s.request[|n.sent|..|n.sent| + count]))
    case WriteFails => s.(net := n.(write := Queued(Failed, 0)))
    case KernelReads(data) =>
      s.(net := n.(read := Queued(Fine, |data|), stream := n.stream + data),
         buffer := s.buffer[..|n.stream|] + data + s.buffer[|n.stream| + |data|..])
    case ReadFails => s.(net := n.(read := Queued(Failed, 0)))
    case WriteTimerExpires => s.(net := n.(writeWait := Fired(Fine)))
    case ReadTimerExpires => s.(net := n.(readLive := 0, readExpired := n.readExpired + n.readLive))
    case RunWrite => DispatchWrite(s)
    case RunRead => DispatchRead(s)
    case RunWriteTimer => OnTimeout(s.(net := n.(writeWait := NoWait)), n.writeWait.code)
    case RunReadExpired => OnTimeout(s.(net := n.(readExpired := n.readExpired - 1)), Fine)
    case RunReadCancelled => OnTimeout(s.(net := n.(readCancelled := n.readCancelled - 1)), Aborted)
  }

  /** `io_context::run` returns when nothing is pending. */
  predicate Quiescent(s: State) {
    s.net.write.Idle? && s.net.read.Idle? && s.net.writeWait.NoWait?
    && s.net.readLive == s.net.readExpired == s.net.readCancelled == 0
  }

  datatype Outcome = Data(bytes: Bytes) | Error(code: Code)

  function Result(s: State): Outcome {
    if s.writeError != Fine then Error(s.writeError)
    else if s.readError != Fine then Error(s.readError)
    else Data(s.buffer)
  }

  /** Events that need the peer. */
  predicate NeedsPeer(e: Event) {
    e.KernelWrites? || e.WriteFails? || e.KernelReads? || e.ReadFails?
  }

  // What every step keeps.

  predicate WriteInv(s: State) {
    var n := s.net;
    && n.sent <= s.request
    && (!n.write.Idle? ==>
          && n.read.Idle? && n.stream == []
          && n.readLive == n.readExpired == n.readCancelled == 0
          && s.writeError == s.readError == Aborted)
    && (n.write.InFlight? ==> Unsent(s) > 0 || s.request == [])
    && (n.write.Idle? && s.writeError == Fine ==> n.sent == s.request)
    && (n.write.Idle? && s.writeError != Fine ==> n.read.Idle? && n.readLive == 0)
    && (n.write.Idle? ==> !n.writeWait.Live?)
  }

  predicate ReadInv(s: State) {
    var n := s.net;
    && |s.buffer| == s.expected && n.stream <= s.buffer
    && n.readLive <= 1
    && (!n.read.Idle? ==> s.writeError == s.readError == Fine)
    && (n.read.InFlight? ==> Missing(s) > 0 || s.expected == 0)
    && (n.read.Idle? && s.writeError == s.readError == Fine ==> Missing(s) == 0)
    && (n.readLive == 1 ==> !n.read.Idle?)
    && (n.read.InFlight? ==> n.readLive == 1 || n.readExpired > 0)
  }

  predicate Inv(s: State) {
    WriteInv(s) && ReadInv(s)
  }

  lemma PrepareKeepsInv(request: Bytes, expected: nat)
    ensures Inv(PrepareTransfer(request, expected)) && Inv(PrepareRead(expected))
  {
  }

  lemma RunWriteKeepsInv(s: State)
    requires Inv(s) && s.net.write.Queued?
    ensures Inv(DispatchWrite(s))
  {
  }

  lemma RunReadKeepsInv(s: State)
    requires Inv(s) && s.net.read.Queued?
    ensures Inv(DispatchRead(s))
  {
  }

  lemma KernelKeepsInv(s: State, e: Event)
    requires Inv(s) && Enabled(s, e) && NeedsPeer(e)
    ensures Inv(Step(s, e))
  {
  }

  lemma TimersKeepInv(s: State, e: Event)
    requires Inv(s) && Enabled(s, e) && !NeedsPeer(e) && !e.RunWrite? && !e.RunRead?
    ensures Inv(Step(s, e))
  {
  }

  /** Every step, of the environment or of a handler, keeps this: what was sent is a prefix of the
      request and nothing is read before it is complete; what was read is in the buffer in order, at most
      one wait of the read timer is live, and a pending read is watched or about to be aborted; and no wait
      is live for an operation that is over. */
  lemma StepKeepsInv(s: State, e: Event)
    requires Inv(s) && Enabled(s, e)
    ensures Inv(Step(s, e))
  {
    hide DispatchWrite, DispatchRead, Inv;
    if NeedsPeer(e) {
      KernelKeepsInv(s, e);
    } else if e.RunWrite? {
      RunWriteKeepsInv(s);
    } else if e.RunRead? {
      RunReadKeepsInv(s);
    } else {
      TimersKeepInv(s, e);
    }
  }

  /** When the whole request was written, the write timer is off, the read is under way, and of the two waits
      on the read timer that were begun one is live and one is cancelled. */
  lemma WriteCompletes(s: State)
    requires Inv(s) && s.net.write.Queued? && s.net.write.code == Fine && Unsent(s) == 0
    ensures var t := DispatchWrite(s);
            && t.writeError == t.readError == Fine
            && t.net.write.Idle? && t.net.read.InFlight? && !t.net.writeWait.Live?
            && t.net.readLive == 1 && t.net.readCancelled == 1 && t.net.readExpired == 0
  {
  }

  // Every run ends.

  function WriteWeight(s: State): int {
    match s.net.write
    case Idle => 0
    case InFlight => 2 * Unsent(s) + 5 * s.expected + 9
    case Queued(code, _) => (if code == Fine && Unsent(s) > 0 then 2 * Unsent(s) + 4 else 1) + 5 * s.expected + 6
  }

  function ReadWeight(s: State): int {
    match s.net.read
    case Idle => 0
    case InFlight => 5 * Missing(s) + 2
    case Queued(code, _) => if code == Fine && Missing(s) > 0 then 5 * Missing(s) + 6 else 1
  }

  function TimerWeight(n: Net): nat {
    (match n.writeWait case NoWait => 0 case Live => 3 case Fired(code) => if code == Fine then 2 else 1)
    + 3 * n.readLive + 2 * n.readExpired + n.readCancelled
  }

  function Measure(s: State): int {
    WriteWeight(s) + ReadWeight(s) + TimerWeight(s.net)
  }

  lemma RunWriteDecreases(s: State)
    requires Inv(s) && s.net.write.Queued?
    ensures 0 <= Measure(DispatchWrite(s)) < Measure(s)
  {
  }

  lemma RunReadDecreases(s: State)
    requires Inv(s) && s.net.read.Queued?
    ensures 0 <= Measure(DispatchRead(s)) < Measure(s)
  {
  }

  lemma KernelDecreases(s: State, e: Event)
    requires Inv(s) && Enabled(s, e) && NeedsPeer(e)
    ensures 0 <= Measure(Step(s, e)) < Measure(s)
  {
  }

  lemma ExpiryDecreases(s: State, e: Event)
    requires Inv(s) && Enabled(s, e) && (e.WriteTimerExpires? || e.ReadTimerExpires?)
    ensures 0 <= Measure(Step(s, e)) < Measure(s)
  {
  }

  lemma TimeoutDecreases(s: State, code: Code)
    requires Inv(s)
    ensures 0 <= Measure(OnTimeout(s, code)) <= Measure(s)
  {
  }

  lemma WriteTimerDecreases(s: State)
    requires Inv(s) && s.net.writeWait.Fired?
    ensures 0 <= Measure(Step(s, RunWriteTimer)) < Measure(s)
  {
    var t := s.(net := s.net.(writeWait := NoWait));
    TimeoutDecreases(t, s.net.writeWait.code);
  }

  lemma ReadTimerDecreases(s: State, e: Event)
    requires Inv(s) && Enabled(s, e) && (e.RunReadExpired? || e.RunReadCancelled?)
    ensures 0 <= Measure(Step(s, e)) < Measure(s)
  {
  }

  /** Every step, of the environment or of a handler, makes the rest of the run shorter. */
  lemma StepDecreases(s: State, e: Event)
    requires Inv(s) && Enabled(s, e)
    ensures 0 <= Measure(Step(s, e)) < Measure(s)
  {
    hide DispatchWrite, DispatchRead, Measure;
    if NeedsPeer(e) {
      KernelDecreases(s, e);
    } else if e.RunWrite? {
      RunWriteDecreases(s);
    } else if e.RunRead? {
      RunReadDecreases(s);
    } else if e.RunWriteTimer? {
      WriteTimerDecreases(s);
    } else if e.RunReadExpired? || e.RunReadCancelled? {
      ReadTimerDecreases(s, e);
    } else {
      ExpiryDecreases(s, e);
    }
  }

  // Whole runs.

  ghost predicate IsRun(s: State, es: seq<Event>)
    decreases |es|
  {
    Inv(s) && (es != [] ==> Enabled(s, es[0]) && IsRun(Next(s, es[0]), es[1..]))
  }

  function Next(s: State, e: Event): (t: State)
    requires Inv(s) && Enabled(s, e)
    ensures Inv(t)
  {
    StepKeepsInv(s, e);
    Step(s, e)
  }

  function After(s: State, es: seq<Event>): (t: State)
    requires IsRun(s, es)
    ensures Inv(t)
    decreases |es|
  {
    if es == [] then s else After(Next(s, es[0]), es[1..])
  }

  lemma {:induction false} RunOn(s: State, es: seq<Event>, e: Event)
    requires IsRun(s, es) && Enabled(After(s, es), e)
    ensures IsRun(s, es + [e]) && After(s, es + [e]) == Next(After(s, es), e)
    decreases |es|
  {
    hide Inv, Enabled, Step;
    if es == [] {
      assert [e][1..] == [] && IsRun(Next(s, e), []);
      assert es + [e] == [e];
    } else {
      RunOn(Next(s, es[0]), es[1..], e);
      assert (es + [e])[0] == es[0] && (es + [e])[1..] == es[1..] + [e];
    }
  }

  lemma StepKeepsTask(s: State, e: Event)
    requires Inv(s) && Enabled(s, e)
    ensures Step(s, e).request == s.request && Step(s, e).expected == s.expected
  {
  }

  lemma StepKeepsIdleWrite(s: State, e: Event)
    requires Inv(s) && Enabled(s, e) && s.net.write.Idle?
    ensures Step(s, e).net.write.Idle? && Step(s, e).writeError == s.writeError
  {
  }

  lemma {:induction false} WriteStaysIdle(s: State, es: seq<Event>)
    requires IsRun(s, es) && s.net.write.Idle?
    ensures After(s, es).net.write.Idle? && After(s, es).writeError == s.writeError
    decreases |es|
  {
    hide Step, Enabled, Inv;
    if es != [] {
      StepKeepsIdleWrite(s, es[0]);
      WriteStaysIdle(Next(s, es[0]), es[1..]);
    }
  }

  /** Runs are no longer than the measure of the state they start from. */
  lemma {:induction false} RunsAreBounded(s: State, es: seq<Event>)
    requires IsRun(s, es)
    ensures 0 <= Measure(After(s, es)) && |es| <= Measure(s) - Measure(After(s, es))
    ensures After(s, es).request == s.request && After(s, es).expected == s.expected
    decreases |es|
  {
    hide Measure, Step, Enabled;
    if es == [] {
      MeasureIsNat(s);
    } else {
      StepDecreases(s, es[0]);
      StepKeepsTask(s, es[0]);
      RunsAreBounded(Next(s, es[0]), es[1..]);
    }
  }

  lemma MeasureIsNat(s: State)
    requires Inv(s)
    ensures 0 <= Measure(s)
  {
  }

  /** When nothing is pending, data is returned only if the whole request was written and exactly the
      expected number of bytes was read, in order. */
  lemma QuiescentResult(s: State)
    requires Inv(s) && Quiescent(s)
    ensures Result(s).Data? <==> s.writeError == s.readError == Fine
    ensures Result(s).Data? ==>
              s.net.sent == s.request && s.net.stream == Result(s).bytes && |Result(s).bytes| == s.expected
  {
  }

  // When a transfer succeeds.

  /** An operation fails, or an expired timer aborts one that is in flight. */
  predicate Mishap(s: State, e: Event) {
    || e.WriteFails? || e.ReadFails?
    || ((e.RunReadExpired? || (e.RunWriteTimer? && s.net.writeWait == Fired(Fine)))
        && (s.net.write.InFlight? || s.net.read.InFlight?))
  }

  ghost predicate Clean(s: State, es: seq<Event>)
    requires IsRun(s, es)
    decreases |es|
  {
    es == [] || (!Mishap(s, es[0]) && Clean(Next(s, es[0]), es[1..]))
  }

  /** Nothing has gone wrong so far. */
  predicate Well(s: State) {
    && (s.net.write.Queued? ==> s.net.write.code == Fine)
    && (s.net.read.Queued? ==> s.net.read.code == Fine)
    && (s.net.write.Idle? ==> s.writeError == s.readError == Fine)
  }

  lemma PrepareIsWell(request: Bytes, expected: nat)
    ensures Well(PrepareTransfer(request, expected)) && Well(PrepareRead(expected))
  {
  }

  lemma HandlersAndWell(s: State)
    requires Inv(s)
    ensures s.net.write.Queued? ==> (Well(DispatchWrite(s)) <==> Well(s))
    ensures s.net.read.Queued? ==> (Well(DispatchRead(s)) <==> Well(s))
  {
  }

  /** A state is well exactly as long as no mishap occurs. */
  lemma StepAndWell(s: State, e: Event)
    requires Inv(s) && Enabled(s, e)
    ensures Well(Step(s, e)) <==> Well(s) && !Mishap(s, e)
  {
    hide DispatchWrite, DispatchRead;
    HandlersAndWell(s);
  }

  lemma {:induction false} RunAndWell(s: State, es: seq<Event>)
    requires IsRun(s, es)
    ensures Well(After(s, es)) <==> Well(s) && Clean(s, es)
    decreases |es|
  {
    hide Step, Enabled, Inv, Well, Mishap;
    if es != [] {
      StepAndWell(s, es[0]);
      RunAndWell(Next(s, es[0]), es[1..]);
    }
  }

  /** At rest, data is returned exactly if no operation failed and no expired timer hit one in flight. */
  lemma DataIffClean(s: State, es: seq<Event>)
    requires IsRun(s, es) && Well(s) && Quiescent(After(s, es))
    ensures Result(After(s, es)).Data? <==> Clean(s, es)
  {
    hide Step, Enabled, Inv, IsRun, Clean, After;
    RunAndWell(s, es);
  }

  // Which error comes out when it fails.

  /** What went wrong first in a run: an operation failed, or an expired timer hit one in flight. */
  datatype Cause = Nothing | Failure | Expiry

  ghost function FirstCause(s: State, es: seq<Event>): Cause
    requires IsRun(s, es)
    decreases |es|
  {
    if es == [] then Nothing
    else if es[0].WriteFails? || es[0].ReadFails? then Failure
    else if Mishap(s, es[0]) then Expiry
    else FirstCause(Next(s, es[0]), es[1..])
  }

  /** The error that is on its way to the caller, if any. */
  function Blame(s: State): Code {
    if s.net.write.Queued? then s.net.write.code
    else if s.net.write.InFlight? then Fine
    else if s.writeError != Fine then s.writeError
    else if s.net.read.Queued? then s.net.read.code
    else s.readError
  }

  lemma PrepareBlamesNothing(request: Bytes, expected: nat)
    ensures Blame(PrepareTransfer(request, expected)) == Blame(PrepareRead(expected)) == Fine
  {
  }

  lemma HandlersKeepBlame(s: State)
    requires Inv(s)
    ensures s.net.write.Queued? ==> Blame(DispatchWrite(s)) == Blame(s)
    ensures s.net.read.Queued? ==> Blame(DispatchRead(s)) == Blame(s)
  {
  }

  /** The first mishap decides the error, and nothing changes it afterwards. */
  lemma StepBlames(s: State, e: Event)
    requires Inv(s) && Enabled(s, e)
    ensures Blame(Step(s, e))
            == if Blame(s) != Fine then Blame(s)
               else if e.WriteFails? || e.ReadFails? then Failed
               else if Mishap(s, e) then Aborted
               else Fine
  {
    hide DispatchWrite, DispatchRead;
    HandlersKeepBlame(s);
  }

  function CodeOf(c: Cause): Code {
    match c
    case Nothing => Fine
    case Failure => Failed
    case Expiry => Aborted
  }

  lemma {:induction false} RunBlames(s: State, es: seq<Event>)
    requires IsRun(s, es)
    ensures Blame(After(s, es)) == if Blame(s) != Fine then Blame(s) else CodeOf(FirstCause(s, es))
    decreases |es|
  {
    hide Step, Enabled, Inv, Blame, Mishap;
    if es != [] {
      StepBlames(s, es[0]);
      RunBlames(Next(s, es[0]), es[1..]);
    }
  }

  lemma RestBlames(s: State)
    requires Quiescent(s)
    ensures Result(s) == if Blame(s) == Fine then Data(s.buffer) else Error(Blame(s))
  {
  }

  /** At rest: data if nothing went wrong, the error itself if an operation failed first, and the aborted code
      if an expired timer hit an operation in flight first. */
  ghost predicate Answers(s: State, es: seq<Event>, r: Outcome)
    requires IsRun(s, es)
  {
    && (r.Data? <==> FirstCause(s, es).Nothing?)
    && (r == Error(Failed) <==> FirstCause(s, es).Failure?)
    && (r == Error(Aborted) <==> FirstCause(s, es).Expiry?)
  }

  lemma CauseDecides(s: State, es: seq<Event>)
    requires IsRun(s, es) && Blame(s) == Fine && Quiescent(After(s, es))
    ensures Answers(s, es, Result(After(s, es)))
  {
    hide IsRun, After, FirstCause, Inv, Quiescent, Blame;
    RunBlames(s, es);
    RestBlames(After(s, es));
  }

  /** Over whole runs of a transfer, whatever the interleaving: data is returned exactly if no operation
      failed and no expired timer hit one in flight, and otherwise the error of what went wrong first; and
      data is returned only if the whole request was written and exactly the expected number of bytes was
      read, in order. */
  lemma TransferIsSafe(request: Bytes, expected: nat, es: seq<Event>)
    requires var s := PrepareTransfer(request, expected); IsRun(s, es) && Quiescent(After(s, es))
    ensures |es| <= 2 * |request| + 5 * expected + 12
    ensures var t := After(PrepareTransfer(request, expected), es);
            && (Result(t).Data? <==> Clean(PrepareTransfer(request, expected), es))
            && Answers(PrepareTransfer(request, expected), es, Result(t))
            && (Result(t).Data? ==>
                  t.net.sent == request && t.net.stream == Result(t).bytes && |Result(t).bytes| == expected)
  {
    hide Answers;
    var s := PrepareTransfer(request, expected);
    PrepareIsWell(request, expected);
    PrepareBlamesNothing(request, expected);
    RunsAreBounded(s, es);
    QuiescentResult(After(s, es));
    DataIffClean(s, es);
    CauseDecides(s, es);
  }

  /** The same of a read on its own. */
  lemma ReadIsSafe(expected: nat, es: seq<Event>)
    requires var s := PrepareRead(expected); IsRun(s, es) && Quiescent(After(s, es))
    ensures var t := After(PrepareRead(expected), es);
            && (Result(t).Data? <==> Clean(PrepareRead(expected), es))
            && Answers(PrepareRead(expected), es, Result(t))
            && (Result(t).Data? ==> t.net.stream == Result(t).bytes && |Result(t).bytes| == expected)
  {
    hide Answers;
    var s := PrepareRead(expected);
    PrepareIsWell([], expected);
    PrepareBlamesNothing([], expected);
    RunsAreBounded(s, es);
    QuiescentResult(After(s, es));
    DataIffClean(s, es);
    CauseDecides(s, es);
  }

  /** Nothing fails and no timer expires. */
  predicate Smooth(e: Event) {
    !e.WriteFails? && !e.ReadFails? && !e.WriteTimerExpires? && !e.ReadTimerExpires?
  }

  predicate NoExpiry(s: State) {
    s.net.readExpired == 0 && s.net.writeWait != Fired(Fine)
  }

  lemma SmoothStep(s: State, e: Event)
    requires Inv(s) && Enabled(s, e) && NoExpiry(s) && Smooth(e)
    ensures !Mishap(s, e) && NoExpiry(Step(s, e))
  {
  }

  /** So a run in which nothing fails and nothing is late returns data. */
  lemma {:induction false} SmoothRunsAreClean(s: State, es: seq<Event>)
    requires IsRun(s, es) && NoExpiry(s) && forall e | e in es :: Smooth(e)
    ensures Clean(s, es)
    decreases |es|
  {
    hide Step, Enabled, Inv, NoExpiry, Smooth;
    if es != [] {
      SmoothStep(s, es[0]);
      SmoothRunsAreClean(Next(s, es[0]), es[1..]);
    }
  }

  /** Some step that is possible while anything is pending. */
  function PossibleStep(s: State): Event {
    if s.net.write.InFlight? then WriteFails
    else if s.net.write.Queued? then RunWrite
    else if s.net.read.InFlight? then ReadFails
    else if s.net.read.Queued? then RunRead
    else if s.net.writeWait.Live? then WriteTimerExpires
    else if s.net.writeWait.Fired? then RunWriteTimer
    else if s.net.readLive > 0 then ReadTimerExpires
    else if s.net.readExpired > 0 then RunReadExpired
    else RunReadCancelled
  }

  /** The choice is always a step that is possible. */
  ghost predicate Fair(choose: State -> Event) {
    forall s :: Inv(s) && !Quiescent(s) ==> Enabled(s, choose(s))
  }

  /** A run that has not come to rest can always go on. */
  lemma Progress()
    ensures Fair(PossibleStep)
  {
  }

  /** A write that no timer watches any more. */
  predicate Unguarded(s: State) {
    s.net.write.InFlight? && s.net.writeWait.NoWait?
  }

  /** If the peer stays silent, timers and handlers still bring the transfer to its end, unless and
      only unless a write is left without its timer. */
  lemma SilentPeer(s: State)
    requires Inv(s) && !Quiescent(s)
    ensures (exists e :: !NeedsPeer(e) && Enabled(s, e)) <==> !Unguarded(s)
  {
    if !Unguarded(s) {
      var e :=
        if s.net.write.Queued? then RunWrite
        else if s.net.read.Queued? then RunRead
        else if s.net.writeWait.Live? then WriteTimerExpires
        else if s.net.writeWait.Fired? then RunWriteTimer
        else if s.net.readLive > 0 then ReadTimerExpires
        else if s.net.readExpired > 0 then RunReadExpired
        else RunReadCancelled;
      assert !NeedsPeer(e) && Enabled(s, e);
    }
  }

  /** Over whole runs: one without the peer that cannot go on without it has come to rest, or has a write
      without its timer; and no run is longer than the measure of its start. */
  lemma SilentRun(s: State, es: seq<Event>)
    requires IsRun(s, es) && forall e | e in es :: !NeedsPeer(e)
    ensures |es| <= Measure(s)
    ensures (forall e :: !NeedsPeer(e) ==> !Enabled(After(s, es), e))
            <==> Quiescent(After(s, es)) || Unguarded(After(s, es))
  {
    hide Step, Measure, IsRun, After, Inv;
    RunsAreBounded(s, es);
    var t := After(s, es);
    if Quiescent(t) {
      RestIsFinal(t);
    } else {
      SilentPeer(t);
    }
  }

  lemma RestIsFinal(s: State)
    requires Quiescent(s)
    ensures forall e :: !Enabled(s, e)
  {
  }

  /** A cancellation gets lost when it comes between two parts of a write: the expiry runs while the
      completion of the first part is queued. */
  lemma LostCancel(request: Bytes, expected: nat)
    requires |request| >= 2
    ensures var s := PrepareTransfer(request, expected);
            var es := [WriteTimerExpires, KernelWrites(1), RunWriteTimer, RunWrite];
            IsRun(s, es) && Unguarded(After(s, es))
  {
    var s0 := PrepareTransfer(request, expected);
    var s1 := Next(s0, WriteTimerExpires);
    var s2 := Next(s1, KernelWrites(1));
    var s3 := Next(s2, RunWriteTimer);
    var s4 := Next(s3, RunWrite);
    Run4(s0, WriteTimerExpires, KernelWrites(1), RunWriteTimer, RunWrite);
  }

  /** An expiry of the write timer that is queued when the write completes still runs, and aborts the
      read that has begun: however the run goes on, the transfer fails, although nothing was late. */
  lemma LateExpiry(request: Bytes, expected: nat, more: seq<Event>)
    requires |request| >= 1 && expected >= 1
    ensures var s := PrepareTransfer(request, expected);
            var es := [KernelWrites(|request|), WriteTimerExpires, RunWrite, RunWriteTimer];
            && IsRun(s, es) && After(s, es).writeError == Fine && After(s, es).net.read == Queued(Aborted, 0)
            && (IsRun(After(s, es), more) && Quiescent(After(After(s, es), more)) ==>
                  Result(After(After(s, es), more)) == Error(Aborted))
  {
    var s0 := PrepareTransfer(request, expected);
    var s1 := Next(s0, KernelWrites(|request|));
    var s2 := Next(s1, WriteTimerExpires);
    var s3 := Next(s2, RunWrite);
    var s4 := Next(s3, RunWriteTimer);
    Run4(s0, KernelWrites(|request|), WriteTimerExpires, RunWrite, RunWriteTimer);
    FailsFromHere(s4, more);
  }

  lemma FailsFromHere(s: State, es: seq<Event>)
    requires Inv(s) && Blame(s) != Fine
    ensures IsRun(s, es) && Quiescent(After(s, es)) ==> Result(After(s, es)) == Error(Blame(s))
  {
    hide Step, Enabled, Inv, IsRun, After, Blame;
    if IsRun(s, es) {
      RunBlames(s, es);
      if Quiescent(After(s, es)) {
        RestBlames(After(s, es));
      }
    }
  }

  lemma Run4(s: State, e1: Event, e2: Event, e3: Event, e4: Event)
    requires Inv(s) && Enabled(s, e1) && Enabled(Next(s, e1), e2)
    requires Enabled(Next(Next(s, e1), e2), e3) && Enabled(Next(Next(Next(s, e1), e2), e3), e4)
    ensures IsRun(s, [e1, e2, e3, e4])
    ensures After(s, [e1, e2, e3, e4]) == Next(Next(Next(Next(s, e1), e2), e3), e4)
  {
    hide Inv, Enabled, Step;
    assert [e1, e2, e3, e4][1..] == [e2, e3, e4];
    assert [e2, e3, e4][1..] == [e3, e4];
    assert [e3, e4][1..] == [e4];
    assert [e4][1..] == [];
    assert IsRun(Next(Next(Next(s, e1), e2), e3), [e4]);
    assert IsRun(Next(Next(s, e1), e2), [e3, e4]);
    assert IsRun(Next(s, e1), [e2, e3, e4]);
    var t := Next(Next(Next(s, e1), e2), e3);
    assert After(t, [e4]) == After(Next(t, e4), []) == Next(t, e4);
    assert After(Next(Next(s, e1), e2), [e3, e4]) == After(t, [e4]);
    assert After(Next(s, e1), [e2, e3, e4]) == After(Next(Next(s, e1), e2), [e3, e4]);
  }

  // The object.

  class Transfer {
    var request: Bytes
    var expected: nat
    var writeError: Code
    var readError: Code
    var buffer: Bytes
    var net: Net

    function View(): State
      reads this
    {
      State(request, expected, writeError, readError, buffer, net)
    }

    constructor ()
      ensures View() == State([], 64, Aborted, Aborted, [], Net(Idle, [], Idle, [], NoWait, 0, 0, 0))
    {
      request, expected := [], 64;
      writeError, readError := Aborted, Aborted;
      buffer := [];
      net := Net(Idle, [], Idle, [], NoWait, 0, 0, 0);
    }

    method HandleReadPartly(error: Code, bytesRead: nat) returns (more: int)
      modifies this
      ensures View() == OnReadPartly(old(View()), error)
      ensures more == if error == Fine then expected - bytesRead else 0
    {
      net := CancelReadTimer(net);
      readError := error;
      if readError != Fine {
        net := CancelSocket(net);
        return 0;
      }
      net := WaitReadTimer(net);
      more := expected - bytesRead;
    }

    method HandleReadComplete(error: Code)
      modifies this
      ensures View() == OnReadComplete(old(View()), error)
    {
      net := CancelReadTimer(net);
      readError := error;
      if readError != Fine {
        net := CancelSocket(net);
      }
    }

    method HandleWriteComplete(error: Code)
      modifies this
      ensures View() == OnWriteComplete(old(View()), error)
    {
      net := CancelWriteTimer(net);
      writeError := error;
      if writeError != Fine {
        net := CancelSocket(net);
        return;
      }
      net := WaitReadTimer(net);
      StartRead();
    }

    method StartRead()
      modifies this
      ensures View() == AsyncRead(old(View()))
    {
      var more := HandleReadPartly(Fine, 0);
      net := net.(read := InFlight);
    }

    method HandleTimeout(error: Code)
      modifies this
      ensures View() == OnTimeout(old(View()), error)
    {
      if error == Fine {
        net := CancelSocket(net);
      }
    }

    method RunQueuedWrite()
      requires net.write.Queued?
      modifies this
      ensures View() == DispatchWrite(old(View()))
    {
      var code := net.write.code;
      if code == Fine && |request| > |net.sent| {
        net := net.(write := InFlight);
      } else {
        net := net.(write := Idle);
        HandleWriteComplete(code);
      }
    }

    method RunQueuedRead()
      requires net.read.Queued?
      modifies this
      ensures View() == DispatchRead(old(View()))
    {
      var code, received := net.read.code, |net.stream|;
      net := net.(read := Idle);
      if received == expected {
        HandleReadComplete(code);
      } else {
        var more := HandleReadPartly(code, received);
        if more == 0 {
          HandleReadComplete(code);
        } else {
          net := net.(read := InFlight);
        }
      }
    }

    /** The environment moves, or a queued handler runs. */
    method Happen(e: Event)
      requires Inv(View()) && Enabled(View(), e)
      modifies this
      ensures View() == Next(old(View()), e)
    {
      match e
      case KernelWrites(count) =>
        net := net.(write := Queued(Fine, count), sent := net.sent + request[|net.sent|..|net.sent| + count]);
      case WriteFails => net := net.(write := Queued(Failed, 0));
      case KernelReads(data) =>
        buffer := buffer[..|net.stream|] + data + buffer[|net.stream| + |data|..];
        net := net.(read := Queued(Fine, |data|), stream := net.stream + data);
      case ReadFails => net := net.(read := Queued(Failed, 0));
      case WriteTimerExpires => net := net.(writeWait := Fired(Fine));
      case ReadTimerExpires => net := net.(readLive := 0, readExpired := net.readExpired + net.readLive);
      case RunWrite => RunQueuedWrite();
      case RunRead => RunQueuedRead();
      case RunWriteTimer =>
        var code := net.writeWait.code;
        net := net.(writeWait := NoWait);
        HandleTimeout(code);
      case RunReadExpired =>
        net := net.(readExpired := net.readExpired - 1);
        HandleTimeout(Fine);
      case RunReadCancelled =>
        net := net.(readCancelled := net.readCancelled - 1);
        HandleTimeout(Aborted);
    }

    /** `io_context::run`.  Since no state comes twice, every run is the choice of some function of the
        state. */
    method RunLoop(choose: State -> Event) returns (ghost es: seq<Event>)
      requires Inv(View()) && Fair(choose)
      modifies this
      ensures IsRun(old(View()), es) && View() == After(old(View()), es) && Quiescent(View())
    {
      hide Measure, Step, Inv, Enabled, Quiescent;
      es := [];
      while !Quiescent(View())
        invariant IsRun(old(View()), es) && View() == After(old(View()), es)
        decreases Measure(View())
      {
        var e := choose(View());
        StepDecreases(View(), e);
        RunOn(old(View()), es, e);
        Happen(e);
        es := es + [e];
      }
    }

    method DoTransfer(data: Bytes, length: nat, open: bool, choose: State -> Event)
      returns (r: Outcome, ghost es: seq<Event>)
      requires Fair(choose)
      modifies this
      ensures !open ==> r == Error(Failed) && View() == old(View())
      ensures open ==>
                && IsRun(PrepareTransfer(data, length), es) && View() == After(PrepareTransfer(data, length), es)
                && Quiescent(View()) && r == Result(View())
                && (r.Data? <==> Clean(PrepareTransfer(data, length), es))
                && Answers(PrepareTransfer(data, length), es, r)
      ensures r.Data? ==> net.sent == data && net.stream == r.bytes && |r.bytes| == length
    {
      hide Inv, IsRun, After, Clean, Quiescent, Answers;
      if !open {
        return Error(Failed), [];
      }
      request, expected := data, length;
      buffer := seq(length, _ => 0);
      writeError, readError := Aborted, Aborted;
      net := Net(InFlight, [], Idle, [], Live, 0, 0, 0);
      PrepareKeepsInv(data, length);
      es := RunLoop(choose);
      TransferIsSafe(data, length, es);
      r := if writeError != Fine then Error(writeError)
           else if readError != Fine then Error(readError) else Data(buffer);
    }

    method DoRead(length: nat, open: bool, choose: State -> Event) returns (r: Outcome, ghost es: seq<Event>)
      requires Fair(choose)
      modifies this
      ensures !open ==> r == Error(Failed) && View() == old(View())
      ensures open ==>
                && IsRun(PrepareRead(length), es) && View() == After(PrepareRead(length), es)
                && Quiescent(View()) && r == Result(View())
                && (r.Data? <==> Clean(PrepareRead(length), es))
                && Answers(PrepareRead(length), es, r)
      ensures r.Data? ==> net.stream == r.bytes && |r.bytes| == length
    {
      hide Inv, IsRun, After, Clean, Quiescent, Answers;
      if !open {
        return Error(Failed), [];
      }
      request, expected := [], length;
      buffer := seq(length, _ => 0);
      writeError, readError := Fine, Aborted;
      net := Net(Idle, [], Idle, [], NoWait, 1, 0, 0);
      StartRead();
      PrepareKeepsInv([], length);
      es := RunLoop(choose);
      ReadIsSafe(length, es);
      WriteStaysIdle(PrepareRead(length), es);
      r := if readError != Fine then Error(readError) else Data(buffer);
    }
  }
}
