/** In which order a worker says things, and where its reads leave the stream of the peer. */
module SessionOrder {
  import opened Bytes
  import opened Wrappers
  import opened Proto
  import opened Session

  // No request before the greeting.

  predicate IsRequest(e: Event) {
    e.Sent? && UnpackHeader(e.msg).Success? && UnpackHeader(e.msg).value.id == Request
  }

  /** A message header with one of two ids was received. */
  predicate ReceivedHead(e: Event, x: MsgId, y: MsgId) {
    e.Received? && UnpackHeader(e.bytes).Success?
    && (UnpackHeader(e.bytes).value.id == x || UnpackHeader(e.bytes).value.id == y)
  }

  predicate ReceivedBody(e: Event, head: Event) {
    e.Received? && head.Received? && UnpackHeader(head.bytes).Success?
    && |e.bytes| == UnpackHeader(head.bytes).value.bodyLength
  }

  /** The handshake and its answer with the same info hash. */
  predicate Handshaken(env: Env, log: seq<Event>) {
    && |log| >= 2
    && log[0] == Sent(PackHandshake(env.infoHash, PEER_ID))
    && log[1].Received? && UnpackHandshake(log[1].bytes).Success?
    && UnpackHandshake(log[1].bytes).value.infoHash == env.infoHash
  }

  /** Where the events end that belong to a header at `i`: its body is read if it has id `x`. */
  function HeadEnd(log: seq<Event>, i: nat, x: MsgId): nat
    requires i < |log| && ReceivedHead(log[i], x, Unchoke)
  {
    if UnpackHeader(log[i].bytes).value.id == x then i + 2 else i + 1
  }

  predicate HeadAt(log: seq<Event>, i: nat, x: MsgId) {
    && i < |log| && ReceivedHead(log[i], x, Unchoke)
    && (UnpackHeader(log[i].bytes).value.id == x ==> i + 1 < |log| && ReceivedBody(log[i + 1], log[i]))
  }

  /** The greeting at the front of a history: handshakes with the same hash, a Bitfield or an Unchoke,
      Interested, and an Unchoke or a Have. */
  predicate Greeted(env: Env, log: seq<Event>) {
    && Handshaken(env, log)
    && HeadAt(log, 2, Bitfield)
    && var i := HeadEnd(log, 2, Bitfield);
       && i < |log| && log[i] == Sent(PackInterested())
       && HeadAt(log, i + 1, Have)
  }

  function GreetingEnd(env: Env, log: seq<Event>): (n: nat)
    requires Greeted(env, log)
    ensures n <= |log|
  {
    HeadEnd(log, HeadEnd(log, 2, Bitfield) + 1, Have)
  }

  lemma GreetedPrefix(env: Env, log: seq<Event>, more: seq<Event>)
    requires Greeted(env, log) && log <= more
    ensures Greeted(env, more) && GreetingEnd(env, more) == GreetingEnd(env, log)
  {
    var i := HeadEnd(log, 2, Bitfield);
    assert forall j :: 0 <= j < |log| ==> more[j] == log[j];
    assert HeadEnd(more, 2, Bitfield) == i;
  }

  predicate Quiet(log: seq<Event>) {
    forall e | e in log :: !IsRequest(e)
  }

  /** Every request comes after a complete greeting. */
  ghost predicate Ordered(env: Env, log: seq<Event>) {
    forall i :: 0 <= i < |log| && IsRequest(log[i]) ==> Greeted(env, log) && GreetingEnd(env, log) <= i
  }

  ghost predicate Mannered(env: Env, s: Session) {
    && Ordered(env, s.socket.log)
    && (s.established ==> Greeted(env, s.socket.log))
    && (!s.established ==> Quiet(s.socket.log))
    && (!s.socket.connected ==> s.socket.log == [])
    && (s.established || s.haveMode ==> s.socket.connected)
  }

  lemma OrderedExtends(env: Env, log: seq<Event>, more: seq<Event>)
    requires Greeted(env, log) && Ordered(env, log)
    ensures Ordered(env, log + more) && Greeted(env, log + more)
  {
    hide Greeted;
    GreetedPrefix(env, log, log + more);
    forall i | 0 <= i < |log + more| && IsRequest((log + more)[i])
      ensures GreetingEnd(env, log + more) <= i
    {
      if i < |log| {
        assert (log + more)[i] == log[i];
      }
    }
  }

  lemma InterestedIsNoRequest()
    ensures !IsRequest(Sent(PackInterested()))
  {
    HeaderRoundTrip(Interested, 0, []);
    assert PackInterested() + [] == PackInterested();
  }

  lemma HandshakeIsNoRequest(env: Env)
    ensures !IsRequest(Sent(PackHandshake(env.infoHash, PEER_ID)))
  {
    var msg := PackHandshake(env.infoHash, PEER_ID);
    assert msg[4] == PROTOCOL[3] == 0x54;
  }

  /** How a step changes the history: it only adds events, one of them perhaps a message sent. */
  ghost predicate Adds(was: Socket, now: Socket, msg: Option<Bytes>) {
    && now.connected == was.connected
    && was.log <= now.log
    && forall i :: |was.log| <= i < |now.log| ==> now.log[i].Sent? ==> msg == Some(now.log[i].msg)
  }

  lemma ReadAdds(env: Env, s: Socket, n: nat)
    ensures Adds(s, Read(env, s, n).0, None)
    ensures Read(env, s, n).1.Got? ==>
              |Read(env, s, n).1.bytes| == n && Read(env, s, n).0.log == s.log + [Received(Read(env, s, n).1.bytes)]
  {
  }

  lemma ExchangeAdds(env: Env, s: Socket, msg: Bytes, n: nat)
    ensures Adds(s, Exchange(env, s, msg, n).0, Some(msg))
    ensures Exchange(env, s, msg, n).1.Got? ==>
              && |Exchange(env, s, msg, n).1.bytes| == n
              && Exchange(env, s, msg, n).0.log == s.log + [Sent(msg), Received(Exchange(env, s, msg, n).1.bytes)]
  {
    var t := Send(env, s, msg);
    ReadAdds(env, t, n);
    if Exchange(env, s, msg, n).1.Got? {
      assert s.log + [Sent(msg)] + [Received(Read(env, t, n).1.bytes)]
             == s.log + [Sent(msg), Received(Read(env, t, n).1.bytes)];
    }
  }

  function At(step: Step): Session {
    match step
    case Done(s) => s
    case Thrown(s, _) => s
  }

  /** Nothing but the socket changes, and that only by what `Adds` says. */
  ghost predicate Moves(s: Session, t: Session, msg: Option<Bytes>) {
    t == s.(socket := t.socket) && Adds(s.socket, t.socket, msg)
  }

  lemma HeadAdds(env: Env, s: Session, msg: Option<Bytes>)
    ensures Moves(s, At(Head(env, s, msg).0), msg)
    ensures Head(env, s, msg).0.Done? ==>
              var t, h := Head(env, s, msg).0.session, Head(env, s, msg).1;
              exists bytes :: UnpackHeader(bytes) == Success(h)
                && t.socket.log == s.socket.log + (if msg.Some? then [Sent(msg.value)] else []) + [Received(bytes)]
  {
    if msg.Some? {
      ExchangeAdds(env, s.socket, msg.value, HEADER_SIZE);
      var r := Exchange(env, s.socket, msg.value, HEADER_SIZE).1;
      if r.Got? {
        assert s.socket.log + [Sent(msg.value)] + [Received(r.bytes)]
               == s.socket.log + [Sent(msg.value), Received(r.bytes)];
      }
    } else {
      ReadAdds(env, s.socket, HEADER_SIZE);
      assert s.socket.log + [] == s.socket.log;
    }
  }

  lemma QuietAdds(was: Socket, now: Socket, msg: Option<Bytes>)
    requires Quiet(was.log) && Adds(was, now, msg) && (msg.Some? ==> !IsRequest(Sent(msg.value)))
    ensures Quiet(now.log)
  {
    forall e | e in now.log
      ensures !IsRequest(e)
    {
      var i :| 0 <= i < |now.log| && now.log[i] == e;
      if i < |was.log| {
        assert was.log[i] == e;
      }
    }
  }

  lemma HandshakeGreets(env: Env, s: Session)
    requires s.socket.log == [] && s.socket.connected
    ensures var t := At(DoHandshake(env, s));
            Quiet(t.socket.log) && t == s.(socket := t.socket) && t.socket.connected
    ensures DoHandshake(env, s).Done? ==>
              Handshaken(env, DoHandshake(env, s).session.socket.log) && |DoHandshake(env, s).session.socket.log| == 2
  {
    hide UnpackHandshake, PackHandshake, IsRequest;
    ExchangeAdds(env, s.socket, PackHandshake(env.infoHash, PEER_ID), HANDSHAKE_SIZE);
    HandshakeIsNoRequest(env);
    QuietAdds(s.socket, At(DoHandshake(env, s)).socket, Some(PackHandshake(env.infoHash, PEER_ID)));
  }

  lemma BitfieldGreets(env: Env, s: Session)
    requires Quiet(s.socket.log) && Handshaken(env, s.socket.log) && |s.socket.log| == 2 && s.socket.connected
    ensures var t := At(DoBitfieldOrUnchoke(env, s));
            Quiet(t.socket.log) && t == s.(socket := t.socket) && t.socket.connected
    ensures DoBitfieldOrUnchoke(env, s).Done? ==>
              var log := DoBitfieldOrUnchoke(env, s).session.socket.log;
              Handshaken(env, log) && HeadAt(log, 2, Bitfield) && HeadEnd(log, 2, Bitfield) == |log|
  {
    hide UnpackHandshake, PackHandshake, IsRequest, UnpackHeader, Head;
    HeadAdds(env, s, None);
    var (step, h) := Head(env, s, None);
    QuietAdds(s.socket, At(step).socket, None);
    if step.Done? {
      var bytes :| UnpackHeader(bytes) == Success(h)
        && step.session.socket.log == s.socket.log + [] + [Received(bytes)];
      if h.id == Bitfield {
        ReadAdds(env, step.session.socket, h.bodyLength);
        QuietAdds(step.session.socket, Read(env, step.session.socket, h.bodyLength).0, None);
      }
    }
  }

  lemma TakeHaveAdds(env: Env, s: Session, n: nat)
    ensures var t := At(TakeHave(env, s, n));
            Adds(s.socket, t.socket, None) && t == s.(socket := t.socket, havePiece := t.havePiece)
    ensures TakeHave(env, s, n).Done? ==>
              var t := TakeHave(env, s, n).session;
              t.havePiece.Some? && exists bytes :: |bytes| == n && t.socket.log == s.socket.log + [Received(bytes)]
    ensures TakeHave(env, s, n).Thrown? ==> TakeHave(env, s, n).at.havePiece == s.havePiece
  {
    ReadAdds(env, s.socket, n);
  }

  lemma InterestedGreets(env: Env, s: Session)
    requires Quiet(s.socket.log) && Handshaken(env, s.socket.log) && s.socket.connected
    requires HeadAt(s.socket.log, 2, Bitfield) && HeadEnd(s.socket.log, 2, Bitfield) == |s.socket.log|
    ensures var t := At(DoInterested(env, s));
            Quiet(t.socket.log) && t.established == s.established && t.socket.connected
    ensures DoInterested(env, s).Done? ==> Greeted(env, DoInterested(env, s).session.socket.log)
  {
    hide UnpackHandshake, PackHandshake, IsRequest, UnpackHeader, Head, TakeHave;
    var log, msg := s.socket.log, PackInterested();
    HeadAdds(env, s, Some(msg));
    InterestedIsNoRequest();
    var (step, h) := Head(env, s, Some(msg));
    QuietAdds(s.socket, At(step).socket, Some(msg));
    if step.Done? {
      var bytes :| UnpackHeader(bytes) == Success(h)
        && step.session.socket.log == log + [Sent(msg)] + [Received(bytes)];
      var i := |log|;
      assert step.session.socket.log[i] == Sent(msg) && step.session.socket.log[i + 1] == Received(bytes);
      if h.id == Have {
        TakeHaveAdds(env, step.session, h.bodyLength);
        QuietAdds(step.session.socket, At(TakeHave(env, step.session, h.bodyLength)).socket, None);
      }
    }
  }

  lemma ConnectKeepsManners(env: Env, s: Session)
    requires Mannered(env, s) && !s.established
    ensures Mannered(env, At(ConnectToPeer(env, s)))
    ensures ConnectToPeer(env, s).Done? ==> ConnectToPeer(env, s).session.established
  {
    hide Greeted, DoHandshake, DoBitfieldOrUnchoke, DoInterested, IsRequest, Handshaken, HeadAt, HeadEnd;
    if !s.socket.connected {
      var c := s.(socket := s.socket.(connected := true, inbox := env.peer([])));
      HandshakeGreets(env, c);
      var h := DoHandshake(env, c);
      if h.Done? {
        BitfieldGreets(env, h.session);
        var b := DoBitfieldOrUnchoke(env, h.session);
        if b.Done? {
          InterestedGreets(env, b.session);
        }
      }
    }
  }

  lemma MoveKeepsManners(env: Env, s: Session, t: Session, msg: Option<Bytes>)
    requires Mannered(env, s) && Adds(s.socket, t.socket, msg) && t.established == s.established
    requires s.established || (msg.Some? ==> !IsRequest(Sent(msg.value)))
    requires s.socket.connected
    ensures Mannered(env, t)
  {
    hide Greeted, IsRequest;
    var more := t.socket.log[|s.socket.log|..];
    assert t.socket.log == s.socket.log + more;
    if s.established {
      OrderedExtends(env, s.socket.log, more);
    } else {
      QuietAdds(s.socket, t.socket, msg);
    }
  }

  lemma BeginPieceKeepsManners(env: Env, s: Session, idx: nat)
    requires Mannered(env, s)
    ensures Mannered(env, SessionOf(BeginPiece(env, s, idx)))
    ensures BeginPiece(env, s, idx).InBlocks? ==> BeginPiece(env, s, idx).session.established
  {
    hide ConnectToPeer, Mannered;
    if !s.established {
      ConnectKeepsManners(env, s);
    }
  }

  lemma WaitHaveKeepsManners(env: Env, s: Session)
    requires Mannered(env, s) && s.socket.connected
    ensures Mannered(env, At(WaitHave(env, s).0))
  {
    hide Mannered, TakeHave, UnpackHeader, Adds;
    ReadAdds(env, s.socket, HEADER_SIZE);
    var (socket, r) := Read(env, s.socket, HEADER_SIZE);
    var t := s.(socket := socket);
    MoveKeepsManners(env, s, t, None);
    if r.Got? && UnpackHeader(r.bytes).Success? && UnpackHeader(r.bytes).value.id == Have {
      var n := UnpackHeader(r.bytes).value.bodyLength;
      TakeHaveAdds(env, t, n);
      AddsConnected(s.socket, socket, None);
      MoveKeepsManners(env, t, At(TakeHave(env, t, n)), None);
    }
  }

  lemma AddsConnected(was: Socket, now: Socket, msg: Option<Bytes>)
    requires Adds(was, now, msg)
    ensures now.connected == was.connected
  {
  }

  function SessionOf(t: Thread): Session {
    match t
    case Starting(s, _) => s
    case InBlocks(s, _, _) => s
    case Over(e) => e.session
  }

  lemma SameManners(env: Env, s: Session, t: Session)
    requires Mannered(env, s) && t.socket == s.socket && t.established == s.established && t.haveMode == s.haveMode
    ensures Mannered(env, t)
  {
  }

  lemma BlockKeepsManners(env: Env, s: Session, idx: nat, received: nat)
    requires Mannered(env, s) && s.established
    ensures var t := At(Block(env, s, idx, received).0);
            Mannered(env, t) && t.established
  {
    hide Mannered, Head, PackRequest, BlockLen, PieceLen, UnpackPiece;
    var msg := PackRequest(idx % TWO_32, received % TWO_32, BlockLen(PieceLen(env, idx), received) % TWO_32);
    HeadAdds(env, s, Some(msg));
    var (step, h) := Head(env, s, Some(msg));
    MannersConnected(env, s);
    MoveKeepsManners(env, s, At(step), Some(msg));
    if step.Done? && h.id == Piece {
      var u := step.session;
      ReadAdds(env, u.socket, h.bodyLength);
      MannersConnected(env, u);
      var v := u.(socket := Read(env, u.socket, h.bodyLength).0);
      MoveKeepsManners(env, u, v, None);
      SameManners(env, v, At(Block(env, s, idx, received).0));
    }
  }

  lemma MannersConnected(env: Env, s: Session)
    requires Mannered(env, s) && (s.established || s.haveMode)
    ensures s.socket.connected
  {
  }

  /** Between steps: manners, and blocks only with a connection. */
  ghost predicate ThreadOrder(env: Env, t: Thread) {
    Mannered(env, SessionOf(t)) && (t.InBlocks? ==> t.session.established)
  }

  lemma BeginKeepsOrder(env: Env, s: Session, idx: nat)
    requires Mannered(env, s)
    ensures ThreadOrder(env, Begin(env, s, idx))
  {
    hide Mannered, BeginPiece, WaitHave;
    var c := s.(buffer := []);
    SameManners(env, s, c);
    if c.havePiece.Some? {
      SameManners(env, c, c.(havePiece := None));
      BeginPieceKeepsManners(env, c.(havePiece := None), c.havePiece.value);
    } else if c.haveMode {
      MannersConnected(env, c);
      WaitHaveKeepsManners(env, c);
      var t := At(WaitHave(env, c).0);
      if t.havePiece.Some? {
        SameManners(env, t, t.(havePiece := None));
        BeginPieceKeepsManners(env, t.(havePiece := None), t.havePiece.value);
      }
    } else {
      BeginPieceKeepsManners(env, c, idx);
    }
  }

  lemma StepKeepsOrder(env: Env, t: Thread)
    requires ThreadOrder(env, t)
    ensures ThreadOrder(env, ThreadStep(env, t))
  {
    hide Mannered, Begin, Block;
    match t
    case Starting(s, idx) => BeginKeepsOrder(env, s, idx);
    case InBlocks(s, idx, received) =>
      BlockKeepsManners(env, s, idx, received);
      SameManners(env, s, s.(lastPiece := idx, havePiece := None));
    case Over(_) =>
  }

  lemma {:induction false} IterateKeepsOrder(env: Env, t: Thread, n: nat)
    requires ThreadOrder(env, t)
    ensures ThreadOrder(env, Iterate(env, t, n))
    decreases n
  {
    hide ThreadOrder, ThreadStep;
    if n > 0 {
      StepKeepsOrder(env, t);
      IterateKeepsOrder(env, ThreadStep(env, t), n - 1);
    }
  }

  /** The life of a worker: a connection check, or none, then downloads one after the other, each given
      a piece and taken some number of steps. */
  function Life(env: Env, s: Session, jobs: seq<(nat, nat)>): Session
    decreases |jobs|
  {
    if jobs == [] then s else Life(env, SessionOf(Iterate(env, Starting(s, jobs[0].0), jobs[0].1)), jobs[1..])
  }

  lemma {:induction false} LifeKeepsManners(env: Env, s: Session, jobs: seq<(nat, nat)>)
    requires Mannered(env, s)
    ensures Mannered(env, Life(env, s, jobs))
    decreases |jobs|
  {
    hide Mannered;
    if jobs != [] {
      IterateKeepsOrder(env, Starting(s, jobs[0].0), jobs[0].1);
      LifeKeepsManners(env, SessionOf(Iterate(env, Starting(s, jobs[0].0), jobs[0].1)), jobs[1..]);
    }
  }

  /** Whatever the peer sends and whatever fails: no request leaves before the greeting is complete. */
  lemma NoEarlyRequest(env: Env, check: bool, jobs: seq<(nat, nat)>)
    ensures var s := if check then At(ConnectToPeer(env, FRESH)) else FRESH;
            Ordered(env, Life(env, s, jobs).socket.log)
  {
    hide ConnectToPeer, Life, Greeted;
    assert Mannered(env, FRESH);
    ConnectKeepsManners(env, FRESH);
    LifeKeepsManners(env, if check then At(ConnectToPeer(env, FRESH)) else FRESH, jobs);
  }

  // What each step of the greeting, and each wait, adds to the history when it succeeds, and only then.

  predicate Extends(was: seq<Event>, now: seq<Event>, n: nat) {
    |now| == |was| + n && was <= now
  }

  /** The handshake, and an answer with the same info hash. */
  predicate Shook(env: Env, was: seq<Event>, now: seq<Event>) {
    Extends(was, now, 2) && Handshaken(env, now[|was|..])
  }

  lemma HandshakeSays(env: Env, s: Session)
    ensures var step := DoHandshake(env, s);
            step.Done? <==> Shook(env, s.socket.log, At(step).socket.log)
  {
    hide UnpackHandshake, PackHandshake;
    var msg := PackHandshake(env.infoHash, PEER_ID);
    ExchangeAdds(env, s.socket, msg, HANDSHAKE_SIZE);
    ExchangeLost(env, s.socket, msg, HANDSHAKE_SIZE);
  }

  /** A message with one of two ids, and its body if it is the first of them. */
  predicate Heard(was: seq<Event>, now: seq<Event>, x: MsgId) {
    was <= now && HeadAt(now, |was|, x) && HeadEnd(now, |was|, x) == |now|
  }

  lemma BitfieldSays(env: Env, s: Session)
    ensures var step := DoBitfieldOrUnchoke(env, s);
            step.Done? <==> Heard(s.socket.log, At(step).socket.log, Bitfield)
  {
    hide UnpackHeader;
    ReadAdds(env, s.socket, HEADER_SIZE);
    ReadLost(env, s.socket, HEADER_SIZE);
    var (socket, r) := Read(env, s.socket, HEADER_SIZE);
    if r.Got? && UnpackHeader(r.bytes).Success? {
      ReadAdds(env, socket, UnpackHeader(r.bytes).value.bodyLength);
      ReadLost(env, socket, UnpackHeader(r.bytes).value.bodyLength);
    }
  }

  /** A Have with an index, or an Unchoke, as the events from `i` on; and what it announces. */
  predicate HeardHave(log: seq<Event>, i: nat) {
    && HeadAt(log, i, Have) && HeadEnd(log, i, Have) == |log|
    && (UnpackHeader(log[i].bytes).value.id == Have ==> UnpackHave(log[i + 1].bytes).Success?)
  }

  function Announces(log: seq<Event>, i: nat): Option<nat>
    requires HeardHave(log, i)
  {
    if UnpackHeader(log[i].bytes).value.id == Have then Some(UnpackHave(log[i + 1].bytes).value) else None
  }

  lemma TakeHaveSays(env: Env, s: Session, n: nat)
    ensures var step := TakeHave(env, s, n);
            var log, was := At(step).socket.log, s.socket.log;
            && At(step) == s.(socket := At(step).socket, havePiece := At(step).havePiece)
            && (log == was || (Extends(was, log, 1) && log[|was|].Received? && |log[|was|].bytes| == n))
            && (step.Done? <==> log != was && UnpackHave(log[|was|].bytes).Success?)
            && (step.Done? ==> At(step).havePiece == Some(UnpackHave(log[|was|].bytes).value))
  {
    hide UnpackHave;
    ReadAdds(env, s.socket, n);
    ReadLost(env, s.socket, n);
  }

  lemma InterestedSays(env: Env, s: Session)
    ensures var step, n := DoInterested(env, s), |s.socket.log|;
            var t, log := At(step), At(step).socket.log;
            && (step.Done? <==>
                  s.socket.log + [Sent(PackInterested())] <= log && HeardHave(log, n + 1))
            && (step.Done? ==>
                  && t.established == s.established && t.lastPiece == s.lastPiece && t.buffer == s.buffer
                  && if Announces(log, n + 1).Some? then t.haveMode && t.havePiece == Announces(log, n + 1)
                     else t.haveMode == s.haveMode && t.havePiece == s.havePiece)
  {
    hide UnpackHeader, UnpackHave, PackInterested, TakeHave, Exchange;
    var msg := PackInterested();
    ExchangeAdds(env, s.socket, msg, HEADER_SIZE);
    ExchangeLost(env, s.socket, msg, HEADER_SIZE);
    var (socket, r) := Exchange(env, s.socket, msg, HEADER_SIZE);
    if r.Got? && UnpackHeader(r.bytes).Success? {
      TakeHaveSays(env, s.(socket := socket), UnpackHeader(r.bytes).value.bodyLength);
    }
  }

  lemma WaitSays(env: Env, s: Session)
    ensures var (step, found) := WaitHave(env, s);
            var t, log, n := At(step), At(step).socket.log, |s.socket.log|;
            && t == s.(socket := t.socket, havePiece := t.havePiece)
            && (step.Done? <==>
                  || (log == s.socket.log && Read(env, s.socket, HEADER_SIZE).1 == Lost(TimedOut))
                  || (s.socket.log <= log && HeardHave(log, n)))
            && (step.Done? ==>
                  && (found <==> HeardHave(log, n) && Announces(log, n).Some?)
                  && t.havePiece == if found then Announces(log, n) else s.havePiece)
  {
    hide UnpackHeader, UnpackHave, TakeHave, Read;
    ReadAdds(env, s.socket, HEADER_SIZE);
    ReadLost(env, s.socket, HEADER_SIZE);
    var (socket, r) := Read(env, s.socket, HEADER_SIZE);
    if r.Got? && UnpackHeader(r.bytes).Success? {
      TakeHaveSays(env, s.(socket := socket), UnpackHeader(r.bytes).value.bodyLength);
    }
  }

  lemma ReadLost(env: Env, s: Socket, n: nat)
    ensures Read(env, s, n).1.Lost? ==> Read(env, s, n).0.log == s.log
  {
  }

  lemma ExchangeLost(env: Env, s: Socket, msg: Bytes, n: nat)
    ensures Exchange(env, s, msg, n).1.Lost? ==> Exchange(env, s, msg, n).0.log == s.log + [Sent(msg)]
  {
  }
}
