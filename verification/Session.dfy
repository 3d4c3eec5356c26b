/** The protocol of one piece worker, `src/client/piece.cpp`, as functions of its fields and its peer.

    A peer is a function from what it has been sent to what arrives after the last of it; any peer,
    however it behaves, is one on any given run.  A transfer of `TcpTransfer` is one step here: it
    sends a message, takes a number of bytes off the stream, or fails. */
module Session {
  import opened Bytes
  import opened Wrappers
  import opened Proto
  import opened PieceLengths

  const MAX_BLOCK_LEN := 16 * 1024
  const TWO_64 := 0x1_0000_0000_0000_0000

  /** "00112233445566778899" */
  const PEER_ID: Bytes :=
    [0x30, 0x30, 0x31, 0x31, 0x32, 0x32, 0x33, 0x33, 0x34, 0x34,
     0x35, 0x35, 0x36, 0x36, 0x37, 0x37, 0x38, 0x38, 0x39, 0x39]

  datatype Trouble = TimedOut | Broken

  /** What goes wrong in a transfer, and how many bytes it has taken off the stream by then. */
  datatype Fault = NoFault | Fault(trouble: Trouble, taken: nat)

  /** The world of a worker: the peer, the faults of its transfers in order, and the torrent. */
  datatype World = World(
    peer: seq<Bytes> -> Bytes, faults: nat -> Fault,
    infoHash: Bytes, length: nat, pieceLength: nat, count: nat)

  predicate Proper(w: World) {
    IsHexText(w.infoHash) && |w.infoHash| == 40 && w.pieceLength > 0
  }

  type Env = w: World | Proper(w) witness World(_ => [], _ => NoFault, seq(40, _ => 0x30), 0, 1, 0)

  function MakeWorld(
    peer: seq<Bytes> -> Bytes, faults: nat -> Fault, infoHash: Bytes, length: nat, pieceLength: nat, count: nat): Env
    requires IsHexText(infoHash) && |infoHash| == 40 && pieceLength > 0
  {
    World(peer, faults, infoHash, length, pieceLength, count)
  }

  datatype Event = Sent(msg: Bytes) | Received(bytes: Bytes)

  /** The connection: what has been sent, what has arrived and is unread, and the history of both. */
  datatype Socket = Socket(connected: bool, sent: seq<Bytes>, inbox: Bytes, log: seq<Event>, transfers: nat)

  datatype Reply = Got(bytes: Bytes) | Lost(trouble: Trouble)

  function Least(x: nat, y: nat): nat { if x <= y then x else y }

  function Read(env: Env, s: Socket, n: nat): (Socket, Reply) {
    var t := s.(transfers := s.transfers + 1);
    match env.faults(s.transfers)
    case Fault(trouble, taken) => (t.(inbox := s.inbox[Least(taken, Least(n, |s.inbox|))..]), Lost(trouble))
    case NoFault =>
      if |s.inbox| < n then (t.(inbox := []), Lost(TimedOut))
      else (t.(inbox := s.inbox[n..], log := s.log + [Received(s.inbox[..n])]), Got(s.inbox[..n]))
  }

  function Send(env: Env, s: Socket, msg: Bytes): Socket {
    s.(sent := s.sent + [msg], inbox := s.inbox + env.peer(s.sent + [msg]), log := s.log + [Sent(msg)])
  }

  function Exchange(env: Env, s: Socket, msg: Bytes, n: nat): (Socket, Reply) {
    Read(env, Send(env, s, msg), n)
  }

  /** The fields that the thread of a worker changes. */
  datatype Session = Session(
    socket: Socket, established: bool, haveMode: bool, havePiece: Option<nat>, lastPiece: nat, buffer: Bytes)

  const FRESH := Session(Socket(false, [], [], [], 0), false, false, None, 0, [])

  datatype Exception = ConnectionError | UnexpectedAnswer | WrongHash | NotReady

  datatype Step = Done(session: Session) | Thrown(at: Session, exception: Exception) {
    predicate IsFailure() { Thrown? }

    function PropagateFailure(): Step
      requires Thrown?
    {
      this
    }

    function Extract(): Session
      requires Done?
    {
      session
    }
  }

  /** A message header off the stream, after sending a message if there is one. */
  function Head(env: Env, s: Session, msg: Option<Bytes>): (Step, Header) {
    var (socket, r) :=
      if msg.Some? then Exchange(env, s.socket, msg.value, HEADER_SIZE)
      else Read(env, s.socket, HEADER_SIZE);
    var t := s.(socket := socket);
    if r.Lost? then (Thrown(t, ConnectionError), Header(Choke, 0))
    else
      var h := UnpackHeader(r.bytes);
      if h.Failure? then (Thrown(t, UnexpectedAnswer), Header(Choke, 0)) else (Done(t), h.value)
  }

  function DoHandshake(env: Env, s: Session): Step {
    var (socket, r) := Exchange(env, s.socket, PackHandshake(env.infoHash, PEER_ID), HANDSHAKE_SIZE);
    var t := s.(socket := socket);
    if r.Lost? then Thrown(t, ConnectionError)
    else
      var answer := UnpackHandshake(r.bytes);
      if answer.Failure? then Thrown(t, UnexpectedAnswer)
      else if answer.value.infoHash != env.infoHash then Thrown(t, WrongHash)
      else Done(t)
  }

  function DoBitfieldOrUnchoke(env: Env, s: Session): Step {
    var (step, h) := Head(env, s, None);
    var t :- step;
    if h.id == Bitfield then
      var (socket, r) := Read(env, t.socket, h.bodyLength);
      if r.Lost? then Thrown(t.(socket := socket), ConnectionError) else Done(t.(socket := socket))
    else if h.id == Unchoke then Done(t)
    else Thrown(t, NotReady)
  }

  /** The body of a Have message: the announced piece is kept. */
  function TakeHave(env: Env, s: Session, bodyLength: nat): Step {
    var (socket, r) := Read(env, s.socket, bodyLength);
    var t := s.(socket := socket);
    if r.Lost? then Thrown(t, ConnectionError)
    else
      var index := UnpackHave(r.bytes);
      if index.Failure? then Thrown(t, UnexpectedAnswer) else Done(t.(havePiece := Some(index.value)))
  }

  function DoInterested(env: Env, s: Session): Step {
    var (step, h) := Head(env, s, Some(PackInterested()));
    var t :- step;
    if h.id == Have then
      var u :- TakeHave(env, t, h.bodyLength);
      Done(u.(haveMode := true))
    else if h.id == Unchoke then Done(t)
    else Thrown(t, NotReady)
  }

  /** The three steps of the greeting. */
  function GreetPeer(env: Env, s: Session): Step {
    var h :- DoHandshake(env, s);
    var b :- DoBitfieldOrUnchoke(env, h);
    DoInterested(env, b)
  }

  /** A socket cannot be connected twice. */
  function ConnectToPeer(env: Env, s: Session): Step {
    if s.socket.connected then Thrown(s, ConnectionError)
    else
      var c := s.(socket := s.socket.(connected := true, inbox := env.peer([])));
      var i :- GreetPeer(env, c);
      Done(i.(established := true))
  }

  /** True with the announced piece kept, or false: the wait timed out or the peer unchoked. */
  function WaitHave(env: Env, s: Session): (Step, bool) {
    var (socket, r) := Read(env, s.socket, HEADER_SIZE);
    var t := s.(socket := socket);
    if r.Lost? then (if r.trouble == TimedOut then Done(t) else Thrown(t, ConnectionError), false)
    else
      var h := UnpackHeader(r.bytes);
      if h.Failure? then (Thrown(t, UnexpectedAnswer), false)
      else if h.value.id == Have then (TakeHave(env, t, h.value.bodyLength), true)
      else if h.value.id == Unchoke then (Done(t), false)
      else (Thrown(t, NotReady), false)
  }

  /** The end of a download: complete, given up without an exception, or with one. */
  datatype Ending = Full(session: Session) | Early(session: Session) | Failed(session: Session, exception: Exception)

  /** A download under way: about to begin, about to look at the next block, or over. */
  datatype Thread =
    | Starting(session: Session, idx: nat)
    | InBlocks(session: Session, idx: nat, received: nat)
    | Over(ending: Ending)

  function PieceLen(env: Env, idx: nat): nat {
    PieceLength(env.length, env.pieceLength, env.count, idx)
  }

  function BeginPiece(env: Env, s: Session, idx: nat): Thread {
    if s.established then InBlocks(s, idx, 0)
    else
      match ConnectToPeer(env, s)
      case Thrown(t, e) => Over(Failed(t, e))
      case Done(t) => InBlocks(t, idx, 0)
  }

  /** Everything before the first block: which piece it is, and a connection. */
  function Begin(env: Env, s: Session, idx: nat): Thread {
    var c := s.(buffer := []);
    if c.havePiece.Some? then BeginPiece(env, c.(havePiece := None), c.havePiece.value)
    else if c.haveMode then
      match WaitHave(env, c)
      case (Thrown(t, e), _) => Over(Failed(t, e))
      case (Done(t), found) =>
        if found && t.havePiece.Some? then BeginPiece(env, t.(havePiece := None), t.havePiece.value) else Over(Early(t))
    else BeginPiece(env, c, idx)
  }

  /** `remain_bytes` in the arithmetic of `size_t`. */
  function BlockLen(len: nat, received: nat): nat {
    var remain := (len - received) % TWO_64;
    if remain > MAX_BLOCK_LEN then MAX_BLOCK_LEN else remain
  }

  /** One block: request, header, body.  Returns the number of bytes received. */
  function Block(env: Env, s: Session, idx: nat, received: nat): (Step, nat) {
    var msg := PackRequest(idx % TWO_32, received % TWO_32, BlockLen(PieceLen(env, idx), received) % TWO_32);
    var (step, h) := Head(env, s, Some(msg));
    if step.Thrown? then (step, 0)
    else if h.id != Piece then (Thrown(step.session, NotReady), 0)
    else
      var (socket, r) := Read(env, step.session.socket, h.bodyLength);
      var t := step.session.(socket := socket);
      if r.Lost? then (Thrown(t, ConnectionError), 0)
      else
        var piece := UnpackPiece(r.bytes);
        if piece.Failure? then (Thrown(t, UnexpectedAnswer), 0)
        else (Done(t.(buffer := t.buffer + piece.value.block)), |piece.value.block|)
  }

  function ThreadStep(env: Env, t: Thread): Thread {
    match t
    case Starting(s, idx) => Begin(env, s, idx)
    case InBlocks(s, idx, received) =>
      if received == PieceLen(env, idx) then Over(Full(s.(lastPiece := idx, havePiece := None)))
      else
        (match Block(env, s, idx, received)
         case (Thrown(u, e), _) => Over(Failed(u, e))
         case (Done(u), n) => InBlocks(u, idx, (received + n) % TWO_64))
    case Over(_) => t
  }

  /** A thread after `n` steps. */
  function Iterate(env: Env, t: Thread, n: nat): Thread
    decreases n
  {
    if n == 0 then t else Iterate(env, ThreadStep(env, t), n - 1)
  }

  lemma NoSteps(env: Env, t: Thread)
    ensures Iterate(env, t, 0) == t
  {
  }

  lemma {:induction false} IterateOver(env: Env, e: Ending, n: nat)
    ensures Iterate(env, Over(e), n) == Over(e)
    decreases n
  {
    if n > 0 {
      IterateOver(env, e, n - 1);
    }
  }

  lemma {:induction false} IterateAdd(env: Env, t: Thread, m: nat, n: nat)
    ensures Iterate(env, t, m + n) == Iterate(env, Iterate(env, t, m), n)
    decreases m
  {
    if m > 0 {
      IterateAdd(env, ThreadStep(env, t), m - 1, n);
    }
  }
}
