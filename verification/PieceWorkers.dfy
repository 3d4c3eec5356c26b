/** `PieceWorker` (`src/client/piece.hpp`, `src/client/piece.cpp`): the fields of a worker, what its
    thread does to them, and starting and joining the thread. */
module PieceWorkers {
  import opened Bytes
  import opened Wrappers
  import opened Proto
  import opened Session
  import Protocol = Session
  import opened SessionOrder
  import opened SessionStream
  import opened SessionBlocks

  /** What a thread was started for. */
  datatype Job = Connecting | Downloading(idx: nat)

  /** The fields of a worker.  While it has a job its thread is joinable. */
  datatype State = State(env: Env, session: Session, job: Option<Job>, complete: bool, exception: Option<Exception>)

  function Fresh(env: Env): State {
    State(env, FRESH, None, false, None)
  }

  predicate IsDownload(w: State) {
    w.job.Some? && w.job.value.Downloading?
  }

  /** The thread of a download: before its first step. */
  function ThreadOf(w: State): Thread
    requires IsDownload(w)
  {
    Starting(w.session, w.job.value.idx)
  }

  /** The fields once the thread of a download has been joined. */
  function Joined(w: State, e: Ending): State {
    match e
    case Full(s) => w.(session := s, job := None, complete := true)
    case Early(s) => w.(session := s, job := None, complete := true)
    case Failed(s, x) => w.(session := s, job := None, exception := Some(x))
  }

  /** The fields once the thread of a connection check has been joined. */
  function JoinedCheck(w: State): State {
    match ConnectToPeer(w.env, w.session)
    case Done(s) => w.(session := s, job := None)
    case Thrown(s, x) => w.(session := s, job := None, exception := Some(x))
  }

  /** A check that fails keeps its exception, and changes nothing else that is read later but the connection. */
  lemma CheckKeepsException(w: State)
    ensures var v, step := JoinedCheck(w), Protocol.ConnectToPeer(w.env, w.session);
            && v.env == w.env && v.job.None? && v.complete == w.complete && v.session == At(step)
            && v.exception == if step.Thrown? then Some(step.exception) else w.exception
  {
    hide Protocol.ConnectToPeer;
  }

  function ErrorOf(step: Step): Option<Exception> {
    if step.Thrown? then Some(step.exception) else None
  }

  /** The fields once the thread has been joined, if it is over after `steps` steps. */
  function AfterJoin(w: State, steps: nat): Option<State>
    requires w.job.Some?
  {
    if w.job.value.Connecting? then Some(JoinedCheck(w))
    else
      var t := Iterate(w.env, ThreadOf(w), steps);
      if t.Over? then Some(Joined(w, t.ending)) else None
  }

  /** What waiting for a thread comes to, within the steps the thread is given. */
  datatype Wait = NotJoinable | StillRunning | Returned(value: bool)

  /** A download that ended so left these fields and threw this exception, if any. */
  predicate Ends(ending: Ending, s: Session, e: Option<Exception>) {
    && ending.session == s
    && (if e.Some? then ending.Failed? && ending.exception == e.value else !ending.Failed?)
  }

  lemma BeginFirst(env: Env, s: Session, idx: nat, n: nat)
    ensures Iterate(env, Starting(s, idx), n + 1) == Iterate(env, Begin(env, s, idx), n)
  {
    hide Begin;
  }

  lemma BlockSays(env: Env, s: Session, idx: nat, received: nat)
    ensures var (step, n) := Block(env, s, idx, received);
            if step.Done? then exists turn :: Taken(env, s, idx, received, turn, step.session, n)
            else step.at.buffer == s.buffer
  {
    hide Block, Taken;
    BlockKeeps(env, s, idx, received);
    if Block(env, s, idx, received).0.Done? {
      BlockTurn(env, s, idx, received);
    }
  }

  lemma HandshakeSize(env: Env)
    ensures |PackHandshake(env.infoHash, PEER_ID)| == HANDSHAKE_SIZE
  {
    HandshakeRoundTrip(env.infoHash, PEER_ID);
  }

  lemma ConnectSays(env: Env, s: Session)
    requires Mannered(env, s) && !s.established
    ensures var step := Protocol.ConnectToPeer(env, s);
            && Mannered(env, At(step))
            && (step.Done? <==> At(step).established)
            && (step.Done? ==> Greeted(env, At(step).socket.log))
  {
    hide Mannered, Greeted;
    ConnectKeepsManners(env, s);
    if Protocol.ConnectToPeer(env, s).Thrown? {
      ConnectNotYet(env, s);
    } else {
      MannersGreeted(env, Protocol.ConnectToPeer(env, s).session);
    }
  }

  lemma MannersGreeted(env: Env, s: Session)
    requires Mannered(env, s) && s.established
    ensures Greeted(env, s.socket.log)
  {
  }

  lemma ConnectNotYet(env: Env, s: Session)
    requires !s.established && Protocol.ConnectToPeer(env, s).Thrown?
    ensures !Protocol.ConnectToPeer(env, s).at.established
  {
    hide UnpackHeader, UnpackHandshake, PackHandshake, PackInterested, Exchange, Read, UnpackHave;
  }

  class PieceWorker {
    const env: Env
    var socket: Socket
    var established: bool
    var haveMode: bool
    var havePiece: Option<nat>
    var lastPiece: nat
    var buffer: Bytes
    var job: Option<Job>
    var complete: bool
    var exception: Option<Exception>

    function View(): Session
      reads this
    {
      Session(socket, established, haveMode, havePiece, lastPiece, buffer)
    }

    function Now(): State
      reads this
    {
      State(env, View(), job, complete, exception)
    }

    constructor (env: Env)
      ensures Now() == Fresh(env)
    {
      this.env := env;
      socket, established, haveMode, havePiece, lastPiece, buffer := FRESH.socket, false, false, None, 0, [];
      job, complete, exception := None, false, None;
    }

    method Receive(n: nat) returns (r: Reply)
      modifies this
      ensures (var (s, answer) := Read(env, old(socket), n);
               r == answer && Now() == old(Now()).(session := old(View()).(socket := s)))
    {
      var (s, answer) := Read(env, socket, n);
      socket, r := s, answer;
    }

    method Transmit(msg: Bytes, n: nat) returns (r: Reply)
      modifies this
      ensures (var (s, answer) := Exchange(env, old(socket), msg, n);
               r == answer && Now() == old(Now()).(session := old(View()).(socket := s)))
    {
      var (s, answer) := Exchange(env, socket, msg, n);
      socket, r := s, answer;
    }

    method DoHandshake() returns (e: Option<Exception>)
      modifies this
      ensures (var step := Protocol.DoHandshake(env, old(View()));
               e == ErrorOf(step) && Now() == old(Now()).(session := At(step)))
      ensures e.None? <==> Shook(env, old(socket.log), socket.log)
    {
      ghost var was := View();
      hide Shook, UnpackHandshake, PackHandshake, Exchange;
      HandshakeSays(env, was);
      var msg := PackHandshake(env.infoHash, PEER_ID);
      HandshakeSize(env);
      var r := Transmit(msg, |msg|);
      if r.Lost? {
        return Some(ConnectionError);
      }
      var answer := UnpackHandshake(r.bytes);
      if answer.Failure? {
        return Some(UnexpectedAnswer);
      }
      if answer.value.infoHash != env.infoHash {
        return Some(WrongHash);
      }
      return None;
    }

    method DoBitfieldOrUnchoke() returns (e: Option<Exception>)
      modifies this
      ensures (var step := Protocol.DoBitfieldOrUnchoke(env, old(View()));
               e == ErrorOf(step) && Now() == old(Now()).(session := At(step)))
      ensures e.None? <==> Heard(old(socket.log), socket.log, Bitfield)
    {
      hide UnpackHeader, Read;
      ghost var was := View();
      BitfieldSays(env, was);
      var r := Receive(HEADER_SIZE);
      if r.Lost? {
        return Some(ConnectionError);
      }
      var answer := UnpackHeader(r.bytes);
      if answer.Failure? {
        return Some(UnexpectedAnswer);
      }
      if answer.value.id == Bitfield {
        var bits := Receive(answer.value.bodyLength);
        if bits.Lost? {
          return Some(ConnectionError);
        }
      } else if answer.value.id != Unchoke {
        return Some(NotReady);
      }
      return None;
    }

    /** The body of a Have message, in `_do_interested` and `_wait_have`. */
    method TakeHave(bodyLength: nat) returns (e: Option<Exception>)
      modifies this
      ensures (var step := Protocol.TakeHave(env, old(View()), bodyLength);
               e == ErrorOf(step) && Now() == old(Now()).(session := At(step)))
    {
      hide Read, UnpackHave;
      var r := Receive(bodyLength);
      if r.Lost? {
        return Some(ConnectionError);
      }
      var msg := UnpackHave(r.bytes);
      if msg.Failure? {
        return Some(UnexpectedAnswer);
      }
      havePiece := Some(msg.value);
      return None;
    }

    method DoInterested() returns (e: Option<Exception>)
      modifies this
      ensures (var step := Protocol.DoInterested(env, old(View()));
               e == ErrorOf(step) && Now() == old(Now()).(session := At(step)))
      ensures var n := |old(socket.log)|;
              && (e.None? <==>
                    old(socket.log) + [Sent(PackInterested())] <= socket.log && HeardHave(socket.log, n + 1))
              && (e.None? ==>
                    if Announces(socket.log, n + 1).Some? then haveMode && havePiece == Announces(socket.log, n + 1)
                    else haveMode == old(haveMode) && havePiece == old(havePiece))
    {
      hide UnpackHeader, Exchange, PackInterested, Protocol.TakeHave, HeardHave, Announces;
      ghost var was := View();
      InterestedSays(env, was);
      var r := Transmit(PackInterested(), HEADER_SIZE);
      if r.Lost? {
        return Some(ConnectionError);
      }
      var response := UnpackHeader(r.bytes);
      if response.Failure? {
        return Some(UnexpectedAnswer);
      }
      if response.value.id == Have {
        e := TakeHave(response.value.bodyLength);
        if e.Some? {
          return;
        }
        haveMode := true;
      } else if response.value.id != Unchoke {
        return Some(NotReady);
      }
      return None;
    }

    /** The three steps of `_connect_to_peer`. */
    method TakeSteps() returns (e: Option<Exception>)
      requires socket.connected
      modifies this
      ensures (var step := GreetPeer(env, old(View())); e == ErrorOf(step) && Now() == old(Now()).(session := At(step)))
    {
      hide Protocol.DoHandshake, Protocol.DoBitfieldOrUnchoke, Protocol.DoInterested;
      hide Shook, Heard, HeardHave, Announces;
      e := DoHandshake();
      if e.None? {
        e := DoBitfieldOrUnchoke();
        if e.None? {
          e := DoInterested();
        }
      }
    }

    method ConnectToPeer() returns (e: Option<Exception>)
      modifies this
      ensures (var step := Protocol.ConnectToPeer(env, old(View()));
               e == ErrorOf(step) && Now() == old(Now()).(session := At(step)))
      ensures Mannered(env, old(View())) && !old(established) ==>
                && Mannered(env, View())
                && (e.None? <==> established)
                && (e.None? ==> Greeted(env, socket.log))
    {
      hide GreetPeer, Mannered, Greeted;
      ghost var was := View();
      if Mannered(env, was) && !was.established {
        ConnectSays(env, was);
      }
      if socket.connected {
        return Some(ConnectionError);
      }
      socket := socket.(connected := true, inbox := env.peer([]));
      e := TakeSteps();
      if e.None? {
        established := true;
      }
    }

    method WaitHave() returns (e: Option<Exception>, found: bool)
      modifies this
      ensures (var (step, b) := Protocol.WaitHave(env, old(View()));
               e == ErrorOf(step) && (e.None? ==> found == b) && Now() == old(Now()).(session := At(step)))
      ensures var n := |old(socket.log)|;
              && (e.None? <==>
                    || (socket.log == old(socket.log) && Read(env, old(socket), HEADER_SIZE).1 == Lost(TimedOut))
                    || (old(socket.log) <= socket.log && HeardHave(socket.log, n)))
              && (e.None? ==>
                    && (found <==> HeardHave(socket.log, n) && Announces(socket.log, n).Some?)
                    && havePiece == if found then Announces(socket.log, n) else old(havePiece))
    {
      hide UnpackHeader, Read, Protocol.TakeHave, HeardHave, Announces;
      ghost var was := View();
      WaitSays(env, was);
      var r := Receive(HEADER_SIZE);
      if r.Lost? {
        return if r.trouble == TimedOut then None else Some(ConnectionError), false;
      }
      var response := UnpackHeader(r.bytes);
      if response.Failure? {
        return Some(UnexpectedAnswer), false;
      }
      if response.value.id == Have {
        e := TakeHave(response.value.bodyLength);
        return e, e.None?;
      } else if response.value.id != Unchoke {
        return Some(NotReady), false;
      }
      return None, false;
    }

    /** One block: what the body of the loop of `_download_piece` does. */
    method TransferBlock(idx: nat, received: nat) returns (e: Option<Exception>, n: nat)
      modifies this
      ensures (var (step, k) := Block(env, old(View()), idx, received);
               e == ErrorOf(step) && (e.None? ==> n == k) && Now() == old(Now()).(session := At(step)))
      ensures e.None? ==> exists turn :: Taken(env, old(View()), idx, received, turn, View(), n)
      ensures e.Some? ==> buffer == old(buffer)
    {
      ghost var was := View();
      hide UnpackHeader, Exchange, Read, PackRequest, UnpackPiece, PieceLen, Taken;
      BlockSays(env, was, idx, received);
      n := 0;
      var remain := (PieceLen(env, idx) - received) % TWO_64;
      var block := if remain > MAX_BLOCK_LEN then MAX_BLOCK_LEN else remain;
      var answer := Transmit(PackRequest(idx % TWO_32, received % TWO_32, block % TWO_32), HEADER_SIZE);
      if answer.Lost? {
        return Some(ConnectionError), 0;
      }
      var header := UnpackHeader(answer.bytes);
      if header.Failure? {
        return Some(UnexpectedAnswer), 0;
      }
      if header.value.id != Piece {
        return Some(NotReady), 0;
      }
      var body := Receive(header.value.bodyLength);
      if body.Lost? {
        return Some(ConnectionError), 0;
      }
      var piece := UnpackPiece(body.bytes);
      if piece.Failure? {
        return Some(UnexpectedAnswer), 0;
      }
      buffer := buffer + piece.value.block;
      return None, |piece.value.block|;
    }

    /** The loop of `_download_piece`, if it ends within `steps` looks at how many bytes remain. */
    method TransferBlocks(idx: nat, steps: nat) returns (over: bool, e: Option<Exception>)
      modifies this
      ensures (var t := Iterate(env, InBlocks(old(View()), idx, 0), steps);
               && over == t.Over?
               && (over ==> Ends(t.ending, View(), e)))
      ensures Now() == old(Now()).(session := View())
    {
      hide PieceLen, Block, Taken;
      ghost var start := InBlocks(View(), idx, 0);
      var received: nat, left: nat := 0, steps;
      while left > 0 && received != PieceLen(env, idx)
        invariant 0 <= left <= steps
        invariant Iterate(env, start, steps) == Iterate(env, InBlocks(View(), idx, received), left)
        invariant Now() == old(Now()).(session := View())
        decreases left
      {
        var n;
        e, n := TransferBlock(idx, received);
        left := left - 1;
        if e.Some? {
          IterateOver(env, Failed(View(), e.value), left);
          return true, e;
        }
        received := (received + n) % TWO_64;
      }
      if left == 0 {
        return false, None;
      }
      lastPiece, havePiece := idx, None;
      IterateOver(env, Full(View()), left - 1);
      return true, None;
    }

    /** How `_download_piece` ends, if it does within `steps` steps: everything before the loop is the
        first of them. */
    method DownloadPiece(index: nat, steps: nat) returns (over: bool, e: Option<Exception>)
      requires steps > 0
      modifies this
      ensures (var t := Iterate(env, Starting(old(View()), index), steps);
               && over == t.Over?
               && (over ==> Ends(t.ending, View(), e)))
      ensures Now() == old(Now()).(session := View())
    {
      hide Iterate, ThreadStep, Protocol.ConnectToPeer, Protocol.WaitHave;
      hide Mannered, Greeted, HeardHave, Announces;
      ghost var start := Starting(View(), index);
      BeginFirst(env, View(), index, steps - 1);
      var idx := index;
      buffer := [];
      if havePiece.Some? {
        idx := havePiece.value;
        havePiece := None;
      } else if haveMode {
        var found;
        e, found := WaitHave();
        if e.Some? {
          IterateOver(env, Failed(View(), e.value), steps - 1);
          return true, e;
        }
        if !found || havePiece.None? {
          IterateOver(env, Early(View()), steps - 1);
          return true, None;
        }
        idx := havePiece.value;
        havePiece := None;
      }
      if !established {
        e := ConnectToPeer();
        if e.Some? {
          IterateOver(env, Failed(View(), e.value), steps - 1);
          return true, e;
        }
      }
      over, e := TransferBlocks(idx, steps - 1);
    }

    /** False if the last thread has not been joined. */
    method DownloadPieceAsync(index: nat) returns (ok: bool)
      modifies this
      ensures ok <==> old(job).None?
      ensures Now() == if ok then old(Now()).(complete := false, job := Some(Downloading(index))) else old(Now())
    {
      if job.Some? {
        return false;
      }
      complete := false;
      job := Some(Downloading(index));
      return true;
    }

    method CheckConnectionAsync() returns (ok: bool)
      modifies this
      ensures ok <==> old(job).None?
      ensures Now() == if ok then old(Now()).(job := Some(Connecting)) else old(Now())
    {
      if job.Some? {
        return false;
      }
      job := Some(Connecting);
      return true;
    }

    /** Joins the thread: what it has done becomes visible. */
    method JoinThread(steps: nat) returns (over: bool)
      requires job.Some? && steps > 0
      modifies this
      ensures over <==> AfterJoin(old(Now()), steps).Some?
      ensures over ==> Now() == AfterJoin(old(Now()), steps).value
      ensures !over ==> Now() == old(Now()).(session := View())
    {
      hide Protocol.ConnectToPeer, Iterate;
      var e;
      match job.value {
        case Connecting =>
          e := ConnectToPeer();
          over := true;
        case Downloading(idx) =>
          over, e := DownloadPiece(idx, steps);
          if over && e.None? {
            complete := true;
          }
      }
      if over {
        job := None;
        if e.Some? {
          exception := e;
        }
      }
    }

    method WaitPieceTransfer(steps: nat) returns (r: Wait)
      requires steps > 0
      modifies this
      ensures old(job).None? ==> r == NotJoinable && Now() == old(Now())
      ensures old(job).Some? ==>
                match AfterJoin(old(Now()), steps)
                case Some(w) => Now() == w && r == Returned(w.complete)
                case None => r == StillRunning && Now() == old(Now()).(session := View())
    {
      if job.None? {
        return NotJoinable;
      }
      var over := JoinThread(steps);
      return if over then Returned(complete) else StillRunning;
    }

    method WaitConnectionEstablished(steps: nat) returns (r: Wait)
      requires steps > 0
      modifies this
      ensures old(job).None? ==> r == NotJoinable && Now() == old(Now())
      ensures old(job).Some? ==>
                match AfterJoin(old(Now()), steps)
                case Some(w) => Now() == w && r == Returned(w.session.established)
                case None => r == StillRunning && Now() == old(Now()).(session := View())
    {
      if job.None? {
        return NotJoinable;
      }
      var over := JoinThread(steps);
      return if over then Returned(established) else StillRunning;
    }

    predicate Started()
      reads this
    {
      job.Some?
    }
  }
}
