/** What becomes of the announcements of a peer over the life of a worker. */
module SessionHaves {
  import opened Wrappers
  import opened Proto
  import opened Session
  import opened SessionOrder
  import opened SessionStream

  // What is announced, seen from the connection only.

  /** The index in the body of a Have, after a header that says so. */
  function HaveAfter(env: Env, socket: Socket, header: Reply): Option<nat> {
    if header.Lost? then None
    else
      var h := UnpackHeader(header.bytes);
      if h.Failure? || h.value.id != Have then None
      else
        var body := Read(env, socket, h.value.bodyLength).1;
        if body.Lost? || UnpackHave(body.bytes).Failure? then None else Some(UnpackHave(body.bytes).value)
  }

  /** What a peer announces to a worker that waits. */
  function WaitAnnounces(env: Env, s: Session): Option<nat> {
    var (socket, header) := Read(env, s.socket, HEADER_SIZE);
    HaveAfter(env, socket, header)
  }

  /** What a peer announces as its answer to Interested. */
  function ConnectAnnounces(env: Env, s: Session): Option<nat> {
    if s.socket.connected then None
    else
      var h := DoHandshake(env, s.(socket := s.socket.(connected := true, inbox := env.peer([]))));
      if h.Thrown? then None
      else
        var b := DoBitfieldOrUnchoke(env, h.session);
        if b.Thrown? then None
        else
          var (socket, header) := Exchange(env, b.session.socket, PackInterested(), HEADER_SIZE);
          HaveAfter(env, socket, header)
  }

  function Listed(o: Option<nat>): seq<nat> {
    if o.Some? then [o.value] else []
  }

  /** What is announced while a download begins, which clears the buffer first. */
  function Announced(env: Env, s: Session): seq<nat> {
    if !s.established then Listed(ConnectAnnounces(env, s.(buffer := [])))
    else if s.haveMode && s.havePiece.None? then Listed(WaitAnnounces(env, s))
    else []
  }

  /** The announcement that selects the piece of a download, if one does. */
  function Selecting(env: Env, s: Session): Option<nat> {
    if s.havePiece.Some? then s.havePiece else if s.haveMode then WaitAnnounces(env, s) else None
  }

  // Over the life of a worker.

  datatype Tally = Tally(announced: seq<nat>, selecting: seq<nat>)

  /** All that is announced, and all announcements that select a piece, in the order of the downloads. */
  function LifeTally(env: Env, s: Session, jobs: seq<(nat, nat)>): Tally
    decreases |jobs|
  {
    if jobs == [] then Tally([], [])
    else
      var (idx, steps) := jobs[0];
      var rest := LifeTally(env, SessionOf(Iterate(env, Starting(s, idx), steps)), jobs[1..]);
      if steps == 0 then rest
      else Tally(Announced(env, s) + rest.announced, Listed(Selecting(env, s)) + rest.selecting)
  }

  /** `a` is `b` with some elements left out. */
  predicate Within(a: seq<nat>, b: seq<nat>) {
    a == [] || (b != [] && ((a[0] == b[0] && Within(a[1..], b[1..])) || Within(a, b[1..])))
  }

  lemma {:induction false} WithinItself(a: seq<nat>)
    ensures Within(a, a)
  {
    if a != [] {
      WithinItself(a[1..]);
    }
  }

  lemma {:induction false} WithinTrans(a: seq<nat>, b: seq<nat>, c: seq<nat>)
    requires Within(a, b) && Within(b, c)
    ensures Within(a, c)
    decreases |c|, |b|
  {
    if a != [] {
      if b[0] == c[0] && Within(b[1..], c[1..]) {
        if a[0] == b[0] && Within(a[1..], b[1..]) {
          WithinTrans(a[1..], b[1..], c[1..]);
        } else {
          WithinTrans(a, b[1..], c[1..]);
        }
      } else {
        WithinTrans(a, b, c[1..]);
      }
    }
  }

  lemma {:induction false} WithinAppend(a: seq<nat>, b: seq<nat>, c: seq<nat>, d: seq<nat>)
    requires Within(a, b) && Within(c, d)
    ensures Within(a + c, b + d)
    decreases |b|
  {
    if b == [] {
      assert a + c == c && b + d == d;
    } else {
      assert (b + d)[1..] == b[1..] + d && (b + d)[0] == b[0];
      if a != [] && a[0] == b[0] && Within(a[1..], b[1..]) {
        WithinAppend(a[1..], b[1..], c, d);
        assert (a + c)[1..] == a[1..] + c && (a + c)[0] == a[0];
      } else {
        WithinAppend(a, b[1..], c, d);
      }
    }
  }

  lemma Regroup(a: seq<nat>, b: seq<nat>, c: seq<nat>)
    ensures a + (b + c) == a + b + c
  {
  }

  lemma WithinCompose(a: seq<nat>, b: seq<nat>, c: seq<nat>, d: seq<nat>, e: seq<nat>)
    requires Within(a + b, c) && Within(d, b + e)
    ensures Within(a + d, c + e)
  {
    hide Within;
    WithinItself(a);
    WithinAppend(a, a, d, b + e);
    WithinItself(e);
    WithinAppend(a + b, c, e, e);
    Regroup(a, b, e);
    WithinTrans(a + d, a + (b + e), c + e);
  }

  /** Have mode begins with a connection, and an announcement is kept only in have mode. */
  predicate Told(s: Session) {
    (s.havePiece.Some? ==> s.haveMode) && (s.haveMode ==> s.established)
  }

  lemma WaitHaveIs(env: Env, s: Session)
    requires s.havePiece.None?
    ensures var (step, found) := WaitHave(env, s);
            && At(step) == s.(socket := At(step).socket, havePiece := WaitAnnounces(env, s))
            && (step.Done? && found ==> WaitAnnounces(env, s).Some?)
            && (WaitAnnounces(env, s).Some? ==> step.Done? && found)
  {
    hide UnpackHeader, UnpackHave;
  }

  lemma InterestedIs(env: Env, s: Session)
    requires s.havePiece.None? && !s.haveMode
    ensures var step := DoInterested(env, s);
            var (socket, header) := Exchange(env, s.socket, PackInterested(), HEADER_SIZE);
            var piece := HaveAfter(env, socket, header);
            && (piece.Some? ==> step.Done?)
            && At(step) == s.(socket := At(step).socket, havePiece := piece, haveMode := piece.Some?)
  {
    hide UnpackHeader, UnpackHave, PackInterested, Exchange;
  }

  /** Connecting leaves exactly what was announced meanwhile. */
  lemma ConnectIs(env: Env, s: Session)
    requires Told(s) && !s.established
    ensures var step := ConnectToPeer(env, s);
            && At(step).havePiece == ConnectAnnounces(env, s)
            && (ConnectAnnounces(env, s).Some? ==> step.Done?)
            && Told(At(step)) && At(step).lastPiece == s.lastPiece
            && (step.Done? ==> step.session.established)
  {
    hide DoHandshake, DoBitfieldOrUnchoke, DoInterested, HaveAfter, PackInterested, Exchange;
    if !s.socket.connected {
      var c := s.(socket := s.socket.(connected := true, inbox := env.peer([])));
      GreetingKeepsHave(env, c);
      var h := DoHandshake(env, c);
      if h.Done? {
        GreetingKeepsHave(env, h.session);
        var b := DoBitfieldOrUnchoke(env, h.session);
        if b.Done? {
          InterestedIs(env, b.session);
        }
      }
    }
  }

  /** The beginning of a download, connected or not: the piece is the one that an announcement selects, or
      else the one asked for; what was announced meanwhile and selects nothing is kept. */
  lemma BeginSelects(env: Env, s: Session, asked: nat)
    requires Told(s)
    ensures var t := Begin(env, s, asked);
            && !t.Starting? && Told(SessionOf(t))
            && (t.InBlocks? ==> t.received == 0 && t.session.buffer == [])
            && (t.InBlocks? ==> t.idx == if Selecting(env, s).Some? then Selecting(env, s).value else asked)
            && (t.Over? ==> !t.ending.Full?)
            && Listed(Selecting(env, s)) + Listed(SessionOf(t).havePiece) == Listed(s.havePiece) + Announced(env, s)
  {
    hide ConnectToPeer, WaitHave, WaitAnnounces, ConnectAnnounces;
    var c := s.(buffer := []);
    assert WaitAnnounces(env, c) == WaitAnnounces(env, s) by { SameWait(env, s, c); }
    if c.havePiece.Some? {
    } else if c.haveMode {
      WaitHaveIs(env, c);
    } else if !c.established {
      ConnectIs(env, c);
      ConnectKeepsHave(env, c);
    }
  }

  lemma SameWait(env: Env, s: Session, c: Session)
    requires c.socket == s.socket
    ensures WaitAnnounces(env, c) == WaitAnnounces(env, s)
  {
    hide HaveAfter, Read;
  }

  /** From the first block on nothing is announced, and a full download drops what was kept. */
  lemma {:induction false} BlocksDrop(env: Env, t: Thread, n: nat)
    requires t.InBlocks? && Told(t.session)
    ensures var u := Iterate(env, t, n);
            && Told(SessionOf(u))
            && SessionOf(u).havePiece == (if u.Over? && u.ending.Full? then None else t.session.havePiece)
            && (u.Over? && u.ending.Full? ==> u.ending.session.lastPiece == t.idx)
    decreases n
  {
    hide Block, PieceLen;
    if n > 0 {
      BlockKeeps(env, t.session, t.idx, t.received);
      var u := ThreadStep(env, t);
      if u.InBlocks? {
        BlocksDrop(env, u, n - 1);
      } else {
        IterateOver(env, u.ending, n - 1);
      }
    }
  }

  /** A download, however many of its steps are taken: the announcements that select it or are kept at its
      end are within those that were kept before it or were made meanwhile. */
  lemma DownloadTally(env: Env, s: Session, asked: nat, n: nat)
    requires Told(s) && n > 0
    ensures var t := SessionOf(Iterate(env, Starting(s, asked), n));
            && Told(t)
            && Within(Listed(Selecting(env, s)) + Listed(t.havePiece), Listed(s.havePiece) + Announced(env, s))
  {
    hide Begin, Selecting, Announced, Told;
    BeginSelects(env, s, asked);
    var b := Begin(env, s, asked);
    var u := Iterate(env, Starting(s, asked), n);
    assert u == Iterate(env, b, n - 1);
    if b.InBlocks? {
      BlocksDrop(env, b, n - 1);
    } else {
      IterateOver(env, b.ending, n - 1);
    }
    WithinItself(Listed(Selecting(env, s)));
    WithinItself(Listed(SessionOf(b).havePiece));
    WithinAppend(Listed(Selecting(env, s)), Listed(Selecting(env, s)),
                 Listed(SessionOf(u).havePiece), Listed(SessionOf(b).havePiece));
  }

  lemma {:induction false} LifeWithin(env: Env, s: Session, jobs: seq<(nat, nat)>)
    requires Told(s)
    ensures var t := LifeTally(env, s, jobs);
            Told(Life(env, s, jobs))
            && Within(t.selecting + Listed(Life(env, s, jobs).havePiece), Listed(s.havePiece) + t.announced)
    decreases |jobs|
  {
    hide Told, Selecting, Announced, Within, Iterate;
    if jobs == [] {
      WithinItself(Listed(s.havePiece));
      assert Listed(s.havePiece) + [] == Listed(s.havePiece) == [] + Listed(s.havePiece);
    } else {
      var (idx, steps) := jobs[0];
      var u := SessionOf(Iterate(env, Starting(s, idx), steps));
      var rest := LifeTally(env, u, jobs[1..]);
      var kept := Listed(Life(env, u, jobs[1..]).havePiece);
      if steps == 0 {
        NoSteps(env, Starting(s, idx));
        LifeWithin(env, u, jobs[1..]);
      } else {
        DownloadTally(env, s, idx, steps);
        LifeWithin(env, u, jobs[1..]);
        WithinCompose(Listed(Selecting(env, s)), Listed(u.havePiece), Listed(s.havePiece) + Announced(env, s),
                      rest.selecting + kept, rest.announced);
        Regroup(Listed(Selecting(env, s)), rest.selecting, kept);
        Regroup(Listed(s.havePiece), Announced(env, s), rest.announced);
      }
    }
  }

  /** Over every life of a worker, whatever its peer sends and whatever fails: the announcements that select
      downloads, followed by the one that is kept, are the announcements of the peer with some left out.
      So each selects at most one download, in order, and none selects twice or is made up. */
  lemma AnnouncementsSelectOnce(env: Env, check: bool, jobs: seq<(nat, nat)>)
    ensures var s := if check then At(ConnectToPeer(env, FRESH)) else FRESH;
            var made := if check then Listed(ConnectAnnounces(env, FRESH)) else [];
            var t := LifeTally(env, s, jobs);
            Within(t.selecting + Listed(Life(env, s, jobs).havePiece), made + t.announced)
  {
    hide ConnectToPeer, ConnectAnnounces, Life, LifeTally, Within;
    assert Told(FRESH);
    ConnectIs(env, FRESH);
    LifeWithin(env, if check then At(ConnectToPeer(env, FRESH)) else FRESH, jobs);
  }

  /** In every such life a full download names the piece that an announcement selected, or else the one
      asked for; and it leaves no announcement, so one made while connecting for a piece that was asked for
      comes too late. */
  lemma SelectedIsNamed(env: Env, s: Session, asked: nat, n: nat)
    requires Told(s)
    ensures var t := Iterate(env, Starting(s, asked), n);
            t.Over? && t.ending.Full? ==>
              && t.ending.session.lastPiece == (if Selecting(env, s).Some? then Selecting(env, s).value else asked)
              && t.ending.session.havePiece.None?
  {
    hide Begin, Selecting, Announced, Told;
    if n == 0 {
      NoSteps(env, Starting(s, asked));
    } else {
      BeginSelects(env, s, asked);
      var b := Begin(env, s, asked);
      assert Iterate(env, Starting(s, asked), n) == Iterate(env, b, n - 1);
      if b.InBlocks? {
        BlocksDrop(env, b, n - 1);
      } else {
        IterateOver(env, b.ending, n - 1);
      }
    }
  }
}
