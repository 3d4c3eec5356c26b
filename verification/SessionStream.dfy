/** Where the reads of a worker leave the stream of its peer, and what a Have announces. */
module SessionStream {
  import opened Bytes
  import opened Wrappers
  import opened Proto
  import opened Session
  import opened SessionOrder

  /** Messages whose body fits their id. */
  predicate WellFormed(m: Message) {
    && Fits(m)
    && (m.id == Choke || m.id == Unchoke || m.id == Interested || m.id == NotInterested ==> m.body == [])
    && (m.id == Have ==> |m.body| == 4)
  }

  /** A stream that consists of whole messages. */
  ghost predicate Framed(s: Bytes) {
    exists ms :: IsFraming(ms, s)
  }

  ghost predicate IsFraming(ms: seq<Message>, s: Bytes) {
    Frames(ms) == s && forall m | m in ms :: WellFormed(m)
  }

  lemma {:induction false} FramesAppend(ms: seq<Message>, ns: seq<Message>)
    ensures Frames(ms + ns) == Frames(ms) + Frames(ns)
  {
    hide Frame;
    if ms == [] {
      assert ms + ns == ns;
    } else {
      assert (ms + ns)[0] == ms[0] && (ms + ns)[1..] == ms[1..] + ns;
      FramesAppend(ms[1..], ns);
    }
  }

  lemma FramedAppend(s: Bytes, t: Bytes)
    requires Framed(s) && Framed(t)
    ensures Framed(s + t)
  {
    hide Frames;
    var ms :| IsFraming(ms, s);
    var ns :| IsFraming(ns, t);
    FramesAppend(ms, ns);
    assert IsFraming(ms + ns, s + t);
  }

  /** At the front of a stream of whole messages is a header, its body, and whole messages again. */
  lemma FramedFront(s: Bytes)
    requires Framed(s) && s != []
    ensures |s| >= HEADER_SIZE && UnpackHeader(s[..HEADER_SIZE]).Success?
    ensures var h := UnpackHeader(s[..HEADER_SIZE]).value;
            && HEADER_SIZE + h.bodyLength <= |s| && Framed(s[HEADER_SIZE + h.bodyLength..])
            && (h.id == Unchoke ==> h.bodyLength == 0) && (h.id == Have ==> h.bodyLength == 4)
  {
    hide Frame, UnpackHeader;
    var ms :| IsFraming(ms, s);
    assert ms != [] && ms[0] in ms && WellFormed(ms[0]);
    FrameAtFront(ms[0], Frames(ms[1..]));
    assert IsFraming(ms[1..], Frames(ms[1..]));
  }

  /** A peer that sends whole messages: after the handshake, which is answered by a handshake and then
      messages, and after every other message. */
  ghost predicate Polite(env: Env) {
    && env.peer([]) == []
    && forall sent: seq<Bytes> :: sent != [] ==> Answers(env, sent)
  }

  ghost predicate Answers(env: Env, sent: seq<Bytes>) {
    if |sent| == 1 then |env.peer(sent)| >= HANDSHAKE_SIZE && Framed(env.peer(sent)[HANDSHAKE_SIZE..])
    else Framed(env.peer(sent))
  }

  /** The read position is between two messages. */
  ghost predicate OnBoundary(s: Socket) {
    Framed(s.inbox) && s.sent != []
  }

  lemma SendOnBoundary(env: Env, s: Socket, msg: Bytes)
    requires Polite(env) && OnBoundary(s)
    ensures OnBoundary(Send(env, s, msg))
  {
    hide Framed;
    assert Answers(env, s.sent + [msg]);
    FramedAppend(s.inbox, env.peer(s.sent + [msg]));
  }

  /** A header read off a boundary leaves its body next. */
  ghost predicate BodyNext(s: Socket, n: nat) {
    n <= |s.inbox| && Framed(s.inbox[n..]) && s.sent != []
  }

  lemma ReadOffBoundary(env: Env, s: Socket)
    requires OnBoundary(s) && Read(env, s, HEADER_SIZE).1.Got?
    ensures var (t, r) := Read(env, s, HEADER_SIZE);
            && UnpackHeader(r.bytes).Success?
            && var h := UnpackHeader(r.bytes).value;
               && BodyNext(t, h.bodyLength)
               && (h.id == Unchoke ==> OnBoundary(t)) && (h.id == Have ==> h.bodyLength == 4)
  {
    hide Framed, UnpackHeader;
    FramedFront(s.inbox);
    var h := UnpackHeader(s.inbox[..HEADER_SIZE]).value;
    assert s.inbox[HEADER_SIZE..][h.bodyLength..] == s.inbox[HEADER_SIZE + h.bodyLength..];
    assert s.inbox[HEADER_SIZE..][0..] == s.inbox[HEADER_SIZE..];
  }

  lemma ReadBody(env: Env, s: Socket, n: nat)
    requires BodyNext(s, n) && Read(env, s, n).1.Got?
    ensures OnBoundary(Read(env, s, n).0)
  {
    hide Framed;
  }

  lemma HeadOnBoundary(env: Env, s: Session, msg: Option<Bytes>)
    requires Polite(env) && OnBoundary(s.socket) && Head(env, s, msg).0.Done?
    ensures var (t, h) := (Head(env, s, msg).0.session, Head(env, s, msg).1);
            && BodyNext(t.socket, h.bodyLength)
            && (h.id == Unchoke ==> OnBoundary(t.socket)) && (h.id == Have ==> h.bodyLength == 4)
  {
    hide OnBoundary, BodyNext, Framed, UnpackHeader;
    if msg.Some? {
      SendOnBoundary(env, s.socket, msg.value);
      ReadOffBoundary(env, Send(env, s.socket, msg.value));
    } else {
      ReadOffBoundary(env, s.socket);
    }
  }

  lemma HandshakeOnBoundary(env: Env, s: Session)
    requires Polite(env) && s.socket.inbox == [] && s.socket.sent == [] && DoHandshake(env, s).Done?
    ensures OnBoundary(DoHandshake(env, s).session.socket)
  {
    hide Framed, UnpackHandshake;
    var msg := PackHandshake(env.infoHash, PEER_ID);
    assert s.socket.sent + [msg] == [msg];
    assert Answers(env, [msg]);
    assert [] + env.peer([msg]) == env.peer([msg]);
  }

  lemma BitfieldOnBoundary(env: Env, s: Session)
    requires Polite(env) && OnBoundary(s.socket) && DoBitfieldOrUnchoke(env, s).Done?
    ensures OnBoundary(DoBitfieldOrUnchoke(env, s).session.socket)
  {
    hide OnBoundary, BodyNext, Head;
    HeadOnBoundary(env, s, None);
    var (step, h) := Head(env, s, None);
    if h.id == Bitfield {
      ReadBody(env, step.session.socket, h.bodyLength);
    }
  }

  lemma HaveOnBoundary(env: Env, s: Session, n: nat)
    requires BodyNext(s.socket, n) && TakeHave(env, s, n).Done?
    ensures OnBoundary(TakeHave(env, s, n).session.socket)
  {
    hide OnBoundary, BodyNext;
    ReadBody(env, s.socket, n);
  }

  lemma InterestedOnBoundary(env: Env, s: Session)
    requires Polite(env) && OnBoundary(s.socket) && DoInterested(env, s).Done?
    ensures OnBoundary(DoInterested(env, s).session.socket)
  {
    hide OnBoundary, BodyNext, Head, TakeHave;
    HeadOnBoundary(env, s, Some(PackInterested()));
    var (step, h) := Head(env, s, Some(PackInterested()));
    if h.id == Have {
      HaveOnBoundary(env, step.session, h.bodyLength);
    }
  }

  lemma ConnectOnBoundary(env: Env, s: Session)
    requires Polite(env) && s.socket.sent == [] && ConnectToPeer(env, s).Done?
    ensures OnBoundary(ConnectToPeer(env, s).session.socket)
  {
    hide OnBoundary, DoHandshake, DoBitfieldOrUnchoke, DoInterested;
    var c := s.(socket := s.socket.(connected := true, inbox := env.peer([])));
    HandshakeOnBoundary(env, c);
    var h := DoHandshake(env, c).session;
    BitfieldOnBoundary(env, h);
    InterestedOnBoundary(env, DoBitfieldOrUnchoke(env, h).session);
  }

  lemma BlockOnBoundary(env: Env, s: Session, idx: nat, received: nat)
    requires Polite(env) && OnBoundary(s.socket) && Block(env, s, idx, received).0.Done?
    ensures OnBoundary(Block(env, s, idx, received).0.session.socket)
  {
    hide OnBoundary, BodyNext, Head, PackRequest, BlockLen, PieceLen, UnpackPiece;
    var msg := PackRequest(idx % TWO_32, received % TWO_32, BlockLen(PieceLen(env, idx), received) % TWO_32);
    HeadOnBoundary(env, s, Some(msg));
    var (step, h) := Head(env, s, Some(msg));
    ReadBody(env, step.session.socket, h.bodyLength);
  }

  lemma WaitHaveOnBoundary(env: Env, s: Session)
    requires Polite(env) && OnBoundary(s.socket) && WaitHave(env, s).0.Done? && WaitHave(env, s).1
    ensures OnBoundary(WaitHave(env, s).0.session.socket)
  {
    hide OnBoundary, BodyNext, TakeHave, UnpackHeader;
    var (socket, r) := Read(env, s.socket, HEADER_SIZE);
    ReadOffBoundary(env, s.socket);
    HaveOnBoundary(env, s.(socket := socket), UnpackHeader(r.bytes).value.bodyLength);
  }

  /** A worker that has not yet spoken, or is between two messages of its peer. */
  ghost predicate Aligned(s: Session) {
    if s.established || s.haveMode then OnBoundary(s.socket) else s.socket.sent == []
  }

  /** A download that neither fails nor gives up. */
  predicate Sound(t: Thread) {
    t.Over? ==> t.ending.Full?
  }

  lemma BeginPieceAligned(env: Env, s: Session, idx: nat)
    requires Polite(env) && (if s.established then OnBoundary(s.socket) else s.socket.sent == [])
    requires Sound(BeginPiece(env, s, idx))
    ensures BeginPiece(env, s, idx).InBlocks? && OnBoundary(BeginPiece(env, s, idx).session.socket)
    ensures BeginPiece(env, s, idx).session.established
  {
    hide OnBoundary, ConnectToPeer;
    if !s.established {
      ConnectOnBoundary(env, s);
      ConnectKeeps(env, s);
    }
  }

  lemma ConnectKeeps(env: Env, s: Session)
    ensures ConnectToPeer(env, s).Done? ==> ConnectToPeer(env, s).session.established
  {
    hide DoHandshake, DoBitfieldOrUnchoke, DoInterested;
  }

  /** After every step of a sound download the read position is on a message boundary. */
  lemma StepOnBoundary(env: Env, t: Thread)
    requires Polite(env) && Sound(ThreadStep(env, t))
    requires t.Starting? ==> Aligned(t.session) && (t.session.haveMode ==> t.session.established)
    requires !t.Starting? ==> OnBoundary(SessionOf(t).socket) && SessionOf(t).established
    ensures OnBoundary(SessionOf(ThreadStep(env, t)).socket) && SessionOf(ThreadStep(env, t)).established
  {
    hide OnBoundary, BeginPiece, WaitHave, Block;
    match t
    case Starting(s, idx) =>
      var c := s.(buffer := []);
      if c.havePiece.Some? {
        BeginPieceAligned(env, c.(havePiece := None), c.havePiece.value);
      } else if c.haveMode {
        WaitHaveKeeps(env, c);
        WaitHaveOnBoundary(env, c);
        var u := WaitHave(env, c).0.session;
        BeginPieceAligned(env, u.(havePiece := None), u.havePiece.value);
      } else {
        BeginPieceAligned(env, c, idx);
      }
    case InBlocks(s, idx, received) =>
      if received != PieceLen(env, idx) {
        BlockOnBoundary(env, s, idx, received);
        BlockKeeps(env, s, idx, received);
      }
    case Over(_) =>
  }

  lemma WaitHaveKeeps(env: Env, s: Session)
    ensures var t := At(WaitHave(env, s).0);
            t == s.(socket := t.socket, havePiece := t.havePiece)
    ensures WaitHave(env, s).0.Done? && WaitHave(env, s).1 ==> WaitHave(env, s).0.session.havePiece.Some?
  {
  }

  lemma BlockKeeps(env: Env, s: Session, idx: nat, received: nat)
    ensures var (step, n) := Block(env, s, idx, received);
            && At(step) == s.(socket := At(step).socket, buffer := At(step).buffer)
            && (step.Done? ==> n == |step.session.buffer| - |s.buffer| >= 0)
            && (step.Thrown? ==> step.at.buffer == s.buffer)
  {
    hide UnpackHeader, UnpackPiece, Exchange, Read, PackRequest;
  }

  /** On every run of a download that neither fails nor gives up, the stream is left between two messages. */
  lemma {:induction false} RunOnBoundary(env: Env, t: Thread, n: nat)
    requires Polite(env) && forall k :: 0 <= k <= n ==> Sound(Iterate(env, t, k))
    requires t.Starting? ==> Aligned(t.session) && (t.session.haveMode ==> t.session.established)
    requires !t.Starting? ==> OnBoundary(SessionOf(t).socket) && SessionOf(t).established
    ensures n > 0 ==> OnBoundary(SessionOf(Iterate(env, t, n)).socket) && SessionOf(Iterate(env, t, n)).established
    decreases n
  {
    hide OnBoundary, ThreadStep, Sound, Aligned;
    if n > 0 {
      assert Iterate(env, t, 1) == Iterate(env, ThreadStep(env, t), 0);
      StepOnBoundary(env, t);
      NotStarting(env, t);
      forall k | 0 <= k <= n - 1
        ensures Sound(Iterate(env, ThreadStep(env, t), k))
      {
        assert Iterate(env, t, k + 1) == Iterate(env, ThreadStep(env, t), k);
      }
      RunOnBoundary(env, ThreadStep(env, t), n - 1);
    }
  }

  lemma NotStarting(env: Env, t: Thread)
    ensures !ThreadStep(env, t).Starting?
  {
  }

  /** A life in which no download fails or gives up. */
  ghost predicate SoundLife(env: Env, s: Session, jobs: seq<(nat, nat)>)
    decreases |jobs|
  {
    jobs != [] ==>
      && (forall k :: 0 <= k <= jobs[0].1 ==> Sound(Iterate(env, Starting(s, jobs[0].0), k)))
      && SoundLife(env, SessionOf(Iterate(env, Starting(s, jobs[0].0), jobs[0].1)), jobs[1..])
  }

  lemma {:induction false} SoundLifeAligned(env: Env, s: Session, jobs: seq<(nat, nat)>)
    requires Polite(env) && Aligned(s) && (s.haveMode ==> s.established) && SoundLife(env, s, jobs)
    ensures var t := Life(env, s, jobs);
            Aligned(t) && (t.haveMode ==> t.established) && (s.established ==> t.established)
    decreases |jobs|
  {
    hide OnBoundary, ThreadStep, Sound;
    if jobs != [] {
      var t := Starting(s, jobs[0].0);
      RunOnBoundary(env, t, jobs[0].1);
      SoundLifeAligned(env, SessionOf(Iterate(env, t, jobs[0].1)), jobs[1..]);
    }
  }

  /** From a new worker on, with or without a connection check, over every number of downloads none of
      which fails or gives up: a worker that is connected is between two messages of its peer, and one
      that is not has said nothing. */
  lemma LifeOnBoundary(env: Env, check: bool, jobs: seq<(nat, nat)>)
    requires Polite(env) && (check ==> ConnectToPeer(env, FRESH).Done?)
    requires SoundLife(env, if check then At(ConnectToPeer(env, FRESH)) else FRESH, jobs)
    ensures var t := Life(env, if check then At(ConnectToPeer(env, FRESH)) else FRESH, jobs);
            if t.established then OnBoundary(t.socket) else !check && t.socket.sent == []
  {
    hide ConnectToPeer, Life, OnBoundary, SoundLife;
    if check {
      ConnectOnBoundary(env, FRESH);
      ConnectKeeps(env, FRESH);
    }
    SoundLifeAligned(env, if check then At(ConnectToPeer(env, FRESH)) else FRESH, jobs);
  }

  // After a failure.

  /** The bytes that a failing wait takes, when they are fewer than a header, are whole messages exactly if
      there are none. */
  lemma PartOfHeader(inbox: Bytes, k: nat)
    requires k < HEADER_SIZE && k <= |inbox|
    ensures Framed(inbox[..k]) <==> k == 0
  {
    if k == 0 {
      assert IsFraming([], inbox[..0]);
    } else if Framed(inbox[..k]) {
      FramedFront(inbox[..k]);
    }
  }

  /** A wait that ends without taking part of a message, because nothing came or the failure took nothing,
      leaves the stream between two messages. */
  lemma QuietWaitKeepsBoundary(env: Env, s: Session, idx: nat)
    requires s.haveMode && s.havePiece.None? && OnBoundary(s.socket)
    requires Read(env, s.socket, HEADER_SIZE).1.Lost?
    requires env.faults(s.socket.transfers) == NoFault || env.faults(s.socket.transfers).taken == 0
    ensures var t := ThreadStep(env, Starting(s, idx));
            t.Over? && !t.ending.Full? && OnBoundary(t.ending.session.socket)
  {
    hide Framed;
    var socket := s.socket;
    if socket.inbox != [] {
      FramedFront(socket.inbox);
      assert socket.inbox[0..] == socket.inbox;
    }
  }

  /** Not so one that breaks off inside a message.  A worker in have mode that waits for an announcement and
      loses its first byte to the time-out has given up; started again, it reads the rest as a header of
      0x504 bytes and fails, although its peer has sent one whole message and nothing else. */
  lemma BrokenReadLosesBoundary(env: Env, s: Session, asked: nat, next: nat, index: u32)
    requires s.established && s.haveMode && s.havePiece.None? && index < 0x100_0000
    requires s.socket.inbox == PackHave(index)
    requires env.faults(s.socket.transfers) == Fault(TimedOut, 1) && env.faults(s.socket.transfers + 1) == NoFault
    ensures Framed(s.socket.inbox)
    ensures var t := ThreadStep(env, Starting(s, asked));
            && t.Over? && t.ending.Early? && !Framed(t.ending.session.socket.inbox)
            && var u := ThreadStep(env, Starting(t.ending.session, next));
               && u.Over? && u.ending.Failed? && u.ending.exception == NotReady
               && u.ending.session.socket.log == t.ending.session.socket.log + [Received([0, 0, 5, 4, 0])]
    ensures UnpackHeader([0, 0, 5, 4, 0]) == Success(Header(Choke, 0x503))
  {
    hide Framed, UnpackHeader, PackHave;
    HaveIsFramed(index);
    BrokenHave(index);
    var c := s.(buffer := []);
    var t := ThreadStep(env, Starting(s, asked)).ending.session;
    assert t.socket.inbox == PackHave(index)[1..];
    NotFramed(t.socket.inbox);
  }

  lemma HaveIsFramed(index: u32)
    ensures Framed(PackHave(index))
  {
    var m := Message(Have, Pack32(index));
    assert Frames([m]) == Frame(m) + [] && [m][1..] == [];
    assert IsFraming([m], PackHave(index));
  }

  /** What is left of a Have without its first byte. */
  lemma BrokenHave(index: u32)
    requires index < 0x100_0000
    ensures |PackHave(index)| == 9 && PackHave(index)[1..][..HEADER_SIZE] == [0, 0, 5, 4, 0]
    ensures UnpackHeader([0, 0, 5, 4, 0]) == Success(Header(Choke, 0x503))
  {
    assert Pack32(5) == [0, 0, 0, 5];
    assert PackHave(index) == [0, 0, 0, 5] + [4] + Pack32(index);
    assert Pack32(index)[0] == 0;
    assert Unpack32([0, 0, 5, 4, 0]) == 0x504;
  }

  lemma NotFramed(s: Bytes)
    requires |s| >= HEADER_SIZE
    requires var h := UnpackHeader(s[..HEADER_SIZE]); h.Failure? || HEADER_SIZE + h.value.bodyLength > |s|
    ensures !Framed(s)
  {
    hide UnpackHeader, Framed;
    if Framed(s) {
      FramedFront(s);
    }
  }

  // Announced pieces.

  /** A piece is kept as announced only in have mode, or while the answer to Interested is handled. */
  predicate HaveInv(s: Session) {
    s.havePiece.Some? ==> s.haveMode
  }

  lemma GreetingKeepsHave(env: Env, s: Session)
    ensures At(DoHandshake(env, s)) == s.(socket := At(DoHandshake(env, s)).socket)
    ensures At(DoBitfieldOrUnchoke(env, s)) == s.(socket := At(DoBitfieldOrUnchoke(env, s)).socket)
  {
    hide UnpackHeader, UnpackHandshake, PackHandshake, Exchange, Read;
  }

  lemma InterestedKeepsHave(env: Env, s: Session)
    requires HaveInv(s)
    ensures var t := At(DoInterested(env, s));
            HaveInv(t) && t.buffer == s.buffer && (s.haveMode ==> t.haveMode)
  {
    hide UnpackHeader, PackInterested, Exchange, Read, UnpackHave;
  }

  lemma ConnectKeepsHave(env: Env, s: Session)
    requires HaveInv(s)
    ensures var t := At(ConnectToPeer(env, s));
            HaveInv(t) && t.buffer == s.buffer && (s.haveMode ==> t.haveMode)
  {
    hide DoHandshake, DoBitfieldOrUnchoke, DoInterested;
    var c := s.(socket := s.socket.(connected := true, inbox := env.peer([])));
    GreetingKeepsHave(env, c);
    var h := At(DoHandshake(env, c));
    GreetingKeepsHave(env, h);
    InterestedKeepsHave(env, At(DoBitfieldOrUnchoke(env, h)));
  }

  /** What holds of the fields between any two steps of any download: an announced piece implies have
      mode; the bytes received so far, counted as `size_t` counts, are those in the buffer; and after a
      full download no announcement is left, the last piece is named, and the buffer has its length. */
  ghost predicate FieldInv(env: Env, t: Thread) {
    && HaveInv(SessionOf(t))
    && (t.InBlocks? ==> t.received == |t.session.buffer| % TWO_64)
    && (t.Over? && t.ending.Full? ==>
          && t.ending.session.havePiece.None?
          && PieceLen(env, t.ending.session.lastPiece) == |t.ending.session.buffer| % TWO_64)
    && (t.Over? && t.ending.Early? ==> t.ending.session.buffer == [])
  }

  lemma BeginPieceKeepsFields(env: Env, s: Session, idx: nat)
    requires HaveInv(s) && s.buffer == []
    ensures FieldInv(env, BeginPiece(env, s, idx)) && !BeginPiece(env, s, idx).Starting?
  {
    hide ConnectToPeer, PieceLen;
    ConnectKeepsHave(env, s);
  }

  lemma BeginKeepsFields(env: Env, s: Session, idx: nat)
    requires HaveInv(s)
    ensures FieldInv(env, Begin(env, s, idx))
  {
    hide BeginPiece, WaitHave, PieceLen;
    var c := s.(buffer := []);
    if c.havePiece.Some? {
      BeginPieceKeepsFields(env, c.(havePiece := None), c.havePiece.value);
    } else if c.haveMode {
      WaitHaveKeeps(env, c);
      var u := At(WaitHave(env, c).0);
      if u.havePiece.Some? {
        BeginPieceKeepsFields(env, u.(havePiece := None), u.havePiece.value);
      }
    } else {
      BeginPieceKeepsFields(env, c, idx);
    }
  }

  lemma BlockKeepsFields(env: Env, s: Session, idx: nat, received: nat)
    requires FieldInv(env, InBlocks(s, idx, received))
    ensures FieldInv(env, ThreadStep(env, InBlocks(s, idx, received)))
  {
    hide Block, PieceLen;
    BlockKeeps(env, s, idx, received);
  }

  lemma StepKeepsFields(env: Env, t: Thread)
    requires FieldInv(env, t)
    ensures FieldInv(env, ThreadStep(env, t))
  {
    match t
    case Starting(s, idx) =>
      hide Begin;
      BeginKeepsFields(env, s, idx);
    case InBlocks(s, idx, received) =>
      hide ThreadStep, PieceLen;
      BlockKeepsFields(env, s, idx, received);
    case Over(_) =>
      hide PieceLen;
  }

  lemma {:induction false} IterateKeepsFields(env: Env, t: Thread, n: nat)
    requires FieldInv(env, t)
    ensures FieldInv(env, Iterate(env, t, n))
    decreases n
  {
    hide FieldInv, ThreadStep;
    if n > 0 {
      StepKeepsFields(env, t);
      IterateKeepsFields(env, ThreadStep(env, t), n - 1);
    }
  }

  /** The request for a block. */
  function RequestFor(env: Env, idx: nat, received: nat): Bytes {
    PackRequest(idx % TWO_32, received % TWO_32, BlockLen(PieceLen(env, idx), received) % TWO_32)
  }

  /** A turn of the block loop when one message and then some bytes are next: it succeeds exactly for a Piece
      with an index and an offset, and takes that message and no more. */
  lemma TurnOnFrame(env: Env, s: Session, idx: nat, received: nat, m: Message, rest: Bytes)
    requires env.faults(s.socket.transfers) == NoFault && env.faults(s.socket.transfers + 1) == NoFault
    requires Fits(m) && Send(env, s.socket, RequestFor(env, idx, received)).inbox == Frame(m) + rest
    ensures var (step, n) := Block(env, s, idx, received);
            && (step.Done? <==> m.id == Piece && |m.body| >= 8)
            && (step.Done? ==>
                  && n == |m.body| - 8
                  && step.session == s.(socket := step.session.socket, buffer := s.buffer + m.body[8..])
                  && step.session.socket.connected == s.socket.connected
                  && step.session.socket.sent == s.socket.sent + [RequestFor(env, idx, received)]
                  && step.session.socket.inbox == rest
                  && step.session.socket.transfers == s.socket.transfers + 2)
  {
    hide PieceLen, Frame, UnpackHeader, PackRequest, BlockLen;
    FrameAtFront(m, rest);
    var stream := Frame(m) + rest;
    var s2 := Read(env, Send(env, s.socket, RequestFor(env, idx, received)), HEADER_SIZE).0;
    assert s2.inbox == stream[HEADER_SIZE..];
    assert stream[HEADER_SIZE..][|m.body|..] == rest && stream[HEADER_SIZE..][..|m.body|] == m.body;
  }

  /** With whole messages next and no fault, a turn succeeds exactly if the first of them is a Piece with an
      index and an offset: any other message that comes between two blocks ends the download. */
  lemma TurnIff(env: Env, s: Session, idx: nat, received: nat, ms: seq<Message>)
    requires env.faults(s.socket.transfers) == NoFault && env.faults(s.socket.transfers + 1) == NoFault
    requires Send(env, s.socket, RequestFor(env, idx, received)).inbox == Frames(ms)
    requires forall m | m in ms :: WellFormed(m)
    ensures var (step, n) := Block(env, s, idx, received);
            && (step.Done? <==> ms != [] && ms[0].id == Piece && |ms[0].body| >= 8)
            && (step.Done? ==>
                  && step.session.buffer == s.buffer + ms[0].body[8..] && n == |ms[0].body| - 8
                  && step.session.socket.inbox == Frames(ms[1..]))
  {
    hide Block, RequestFor, Frame;
    if ms == [] {
      TurnOnNothing(env, s, idx, received);
    } else {
      assert ms[0] in ms;
      TurnOnFrame(env, s, idx, received, ms[0], Frames(ms[1..]));
    }
  }

  lemma TurnOnNothing(env: Env, s: Session, idx: nat, received: nat)
    requires |Send(env, s.socket, RequestFor(env, idx, received)).inbox| < HEADER_SIZE
    ensures Block(env, s, idx, received).0.Thrown?
  {
    hide PackRequest, BlockLen, PieceLen, UnpackHeader, UnpackPiece;
  }

  /** Not even a keep-alive, four zeros without an id, is let pass. */
  lemma KeepAliveFails(env: Env, s: Session, idx: nat, received: nat, rest: Bytes)
    requires Send(env, s.socket, RequestFor(env, idx, received)).inbox == [0, 0, 0, 0] + rest
    ensures Block(env, s, idx, received).0.Thrown?
  {
    hide PackRequest, BlockLen, PieceLen, UnpackHeader, UnpackPiece;
    if rest == [] {
      TurnOnNothing(env, s, idx, received);
    } else {
      ZeroHeader(rest[0]);
      assert ([0, 0, 0, 0] + rest)[..HEADER_SIZE] == [0, 0, 0, 0, rest[0]];
    }
  }

  lemma ZeroHeader(b: byte)
    ensures UnpackHeader([0, 0, 0, 0, b]).Failure?
  {
    assert Unpack32([0, 0, 0, 0, b]) == 0;
  }

  /** A request that is answered by one Piece message: its block is what the buffer gets. */
  lemma AnsweredBlock(env: Env, s: Session, idx: nat, received: nat, index: u32, begin: u32, block: Bytes)
    requires s.socket.inbox == []
    requires env.faults(s.socket.transfers) == NoFault && env.faults(s.socket.transfers + 1) == NoFault
    requires |block| + 9 < TWO_32
    requires env.peer(s.socket.sent + [RequestFor(env, idx, received)])
             == Frame(Message(Piece, PieceBody(index, begin, block)))
    ensures var (step, n) := Block(env, s, idx, received);
            && step.Done? && n == |block|
            && step.session == s.(socket := step.session.socket, buffer := s.buffer + block)
            && step.session.socket.connected == s.socket.connected
            && step.session.socket.sent == s.socket.sent + [RequestFor(env, idx, received)]
            && step.session.socket.inbox == []
            && step.session.socket.transfers == s.socket.transfers + 2
  {
    hide Block, RequestFor, Frame, PieceBody;
    PieceBodySize(index, begin, block);
    var m := Message(Piece, PieceBody(index, begin, block));
    assert [] + Frame(m) == Frame(m) == Frame(m) + [];
    TurnOnFrame(env, s, idx, received, m, []);
  }

  lemma PieceBodySize(index: u32, begin: u32, block: Bytes)
    ensures |PieceBody(index, begin, block)| == 8 + |block| && PieceBody(index, begin, block)[8..] == block
  {
  }

  // Deviations of the code.

  /** The last piece of a file whose length is a multiple of the piece length is never asked for: its
      download ends at once, with nothing in the buffer. */
  lemma LastPieceOfMultiple(env: Env, s: Session)
    requires s.established && !s.haveMode && s.havePiece.None?
    requires env.count > 0 && env.length % env.pieceLength == 0
    ensures var t := Iterate(env, Starting(s, env.count - 1), 2);
            t == Over(Full(s.(buffer := [], lastPiece := env.count - 1)))
  {
    var t := ThreadStep(env, Starting(s, env.count - 1));
    assert Iterate(env, Starting(s, env.count - 1), 2) == Iterate(env, ThreadStep(env, t), 0);
  }

  /** A worker in have mode waits for an announcement in vain: the wait times out, or an Unchoke comes. */
  predicate FindsNothing(env: Env, s: Session) {
    && s.haveMode && s.havePiece.None?
    && var r := Read(env, s.socket, HEADER_SIZE).1;
       || r == Lost(TimedOut)
       || (r.Got? && UnpackHeader(r.bytes).Success? && UnpackHeader(r.bytes).value.id == Unchoke)
  }

  /** A download is given up without an exception exactly then, before its first block. */
  lemma GivesUpIff(env: Env, s: Session, idx: nat)
    ensures var t := Begin(env, s, idx);
            && (t.Over? && t.ending.Early? <==> FindsNothing(env, s))
            && (FindsNothing(env, s) ==>
                  t.ending.session == s.(buffer := [], socket := Read(env, s.socket, HEADER_SIZE).0))
  {
    hide UnpackHeader, UnpackHave, ConnectToPeer;
  }

  lemma {:induction false} BlocksDoNotGiveUp(env: Env, t: Thread, n: nat)
    requires t.InBlocks?
    ensures var u := Iterate(env, t, n); !u.Starting? && (u.Over? ==> !u.ending.Early?)
    decreases n
  {
    hide Block, PieceLen;
    if n > 0 {
      var u := ThreadStep(env, t);
      if u.InBlocks? {
        BlocksDoNotGiveUp(env, u, n - 1);
      } else {
        IterateOver(env, u.ending, n - 1);
      }
    }
  }

  /** So it is for whole downloads, whatever the peer sends later. */
  lemma EndsEarlyIff(env: Env, s: Session, idx: nat, n: nat)
    requires n > 0
    ensures var t := Iterate(env, Starting(s, idx), n);
            && (t.Over? && t.ending.Early? <==> FindsNothing(env, s))
            && (FindsNothing(env, s) ==>
                  t.ending.session == s.(buffer := [], socket := Read(env, s.socket, HEADER_SIZE).0))
  {
    hide FindsNothing, Begin;
    GivesUpIff(env, s, idx);
    var t := Begin(env, s, idx);
    assert Iterate(env, Starting(s, idx), n) == Iterate(env, t, n - 1);
    if t.Over? {
      IterateOver(env, t.ending, n - 1);
    } else {
      BeginIsNotStarting(env, s, idx);
      BlocksDoNotGiveUp(env, t, n - 1);
    }
  }

  lemma BeginIsNotStarting(env: Env, s: Session, idx: nat)
    ensures !Begin(env, s, idx).Starting?
  {
    hide ConnectToPeer, WaitHave;
  }
}
