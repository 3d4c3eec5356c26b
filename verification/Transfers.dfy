/** A transfer, as the workers see it, is what the event-driven machine comes to. */
module Transfers {
  import opened Bytes
  import opened Session
  import Tcp = TcpTransfer

  /** The fault of a transfer by what went wrong first in it, with the bytes taken off the stream. */
  function FaultOf(cause: Tcp.Cause, taken: nat): Fault {
    match cause
    case Nothing => NoFault
    case Failure => Fault(Broken, taken)
    case Expiry => Fault(TimedOut, taken)
  }

  /** What a worker sees of a transfer: the bytes, the time-out that `operation_aborted` stands for, or a
      broken connection; and what is left of the stream. */
  ghost predicate Seen(cause: Tcp.Cause, n: nat, t: Tcp.State, inbox: Bytes, u: Socket, r: Reply) {
    && |t.net.stream| <= |inbox| && u.inbox == inbox[|t.net.stream|..]
    && match cause
       case Nothing => |t.net.stream| == n && r == Got(t.net.stream) && Tcp.Result(t) == Tcp.Data(t.net.stream)
       case Failure => r == Lost(Broken) && Tcp.Result(t) == Tcp.Error(Tcp.Failed)
       case Expiry => r == Lost(TimedOut) && Tcp.Result(t) == Tcp.Error(Tcp.Aborted)
  }

  /** At rest, with the bytes of the peer taken in order. */
  lemma RestRefines(env: Env, s: Socket, n: nat, t: Tcp.State, cause: Tcp.Cause)
    requires Tcp.Inv(t) && Tcp.Quiescent(t) && t.expected == n && t.net.stream <= s.inbox
    requires Tcp.Result(t).Data? <==> cause.Nothing?
    requires Tcp.Result(t) == Tcp.Error(Tcp.Failed) <==> cause.Failure?
    requires Tcp.Result(t) == Tcp.Error(Tcp.Aborted) <==> cause.Expiry?
    requires env.faults(s.transfers) == FaultOf(cause, |t.net.stream|)
    ensures Seen(cause, n, t, s.inbox, Read(env, s, n).0, Read(env, s, n).1)
  {
    Tcp.QuiescentResult(t);
    assert |t.net.stream| <= n;
  }

  /** However the events of a read are interleaved, it is a `Read` of the workers, for the fault that went
      wrong first in it, if any: the same bytes are taken off the stream, and the reply is the data, a
      time-out, or a broken connection, as the first mishap was none, an expiry, or a failure. */
  lemma ReadRefines(env: Env, s: Socket, n: nat, es: seq<Tcp.Event>)
    requires Tcp.IsRun(Tcp.PrepareRead(n), es)
    requires var t, cause := Tcp.After(Tcp.PrepareRead(n), es), Tcp.FirstCause(Tcp.PrepareRead(n), es);
             && Tcp.Quiescent(t) && t.net.stream <= s.inbox
             && env.faults(s.transfers) == FaultOf(cause, |t.net.stream|)
    ensures Seen(Tcp.FirstCause(Tcp.PrepareRead(n), es), n, Tcp.After(Tcp.PrepareRead(n), es), s.inbox,
                 Read(env, s, n).0, Read(env, s, n).1)
  {
    hide Tcp.Inv, Tcp.IsRun, Tcp.Quiescent, Tcp.After, Tcp.FirstCause, Tcp.Result, Read, Seen;
    Tcp.RunsAreBounded(Tcp.PrepareRead(n), es);
    Tcp.ReadIsSafe(n, es);
    RestRefines(env, s, n, Tcp.After(Tcp.PrepareRead(n), es), Tcp.FirstCause(Tcp.PrepareRead(n), es));
  }

  /** The same of a request and its answer. */
  lemma ExchangeRefines(env: Env, s: Socket, msg: Bytes, n: nat, es: seq<Tcp.Event>)
    requires Tcp.IsRun(Tcp.PrepareTransfer(msg, n), es)
    requires var start := Tcp.PrepareTransfer(msg, n);
             var t, cause := Tcp.After(start, es), Tcp.FirstCause(start, es);
             && Tcp.Quiescent(t) && t.net.stream <= Send(env, s, msg).inbox
             && env.faults(s.transfers) == FaultOf(cause, |t.net.stream|)
    ensures var start := Tcp.PrepareTransfer(msg, n);
            var t, cause := Tcp.After(start, es), Tcp.FirstCause(start, es);
            && Seen(cause, n, t, Send(env, s, msg).inbox, Exchange(env, s, msg, n).0, Exchange(env, s, msg, n).1)
            && (cause.Nothing? ==> t.net.sent == msg)
  {
    hide Tcp.Inv, Tcp.IsRun, Tcp.Quiescent, Tcp.After, Tcp.FirstCause, Tcp.Result, Read, Seen;
    var start := Tcp.PrepareTransfer(msg, n);
    Tcp.RunsAreBounded(start, es);
    Tcp.TransferIsSafe(msg, n, es);
    RestRefines(env, Send(env, s, msg), n, Tcp.After(start, es), Tcp.FirstCause(start, es));
  }
}
