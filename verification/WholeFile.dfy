/** The file that a download puts out. */
module WholeFile {
  import opened Bytes
  import opened Wrappers
  import opened PieceLengths
  import opened Proto
  import opened Session
  import opened SessionHonest
  import opened Scheduler
  import opened SchedulerRuns
  import opened Gathering
  import opened Downloading
  import opened Interleaving
  import opened AnyPeers

  /** Either the peer cannot be connected to, or it is honest about these pieces and lets the worker get
      ready. */
  ghost predicate Serves(env: Env, content: seq<Bytes>) {
    ConnectToPeer(env, FRESH).Done? ==> Honest(env, content) && Ready(env, ConnectToPeer(env, FRESH).session)
  }

  ghost predicate AllServe(envs: seq<Env>, content: seq<Bytes>) {
    forall i :: 0 <= i < |envs| ==> Serves(envs[i], content)
  }

  lemma ConnectEstablishes(env: Env)
    ensures ConnectToPeer(env, FRESH).Thrown? ==> !ConnectToPeer(env, FRESH).at.established
  {
    hide UnpackHeader, UnpackHandshake, PackHandshake, PackInterested, Exchange, Read, UnpackHave;
  }

  /** There are no workers exactly if no peer can be connected to. */
  lemma {:induction false} NoneConnectedIff(envs: seq<Env>)
    ensures Connected(envs) == [] <==> forall i :: 0 <= i < |envs| ==> ConnectToPeer(envs[i], FRESH).Thrown?
  {
    hide ConnectToPeer;
    if envs != [] {
      NoneConnectedIff(envs[1..]);
      ConnectEstablishes(envs[0]);
      ConnectedFirst(envs);
    }
  }

  lemma ConnectedFirst(envs: seq<Env>)
    requires envs != [] && (ConnectToPeer(envs[0], FRESH).Thrown? ==> !ConnectToPeer(envs[0], FRESH).at.established)
    ensures Connected(envs) == [] <==> ConnectToPeer(envs[0], FRESH).Thrown? && Connected(envs[1..]) == []
  {
    hide GreetPeer;
  }

  /** A peer that can be connected to becomes a worker. */
  lemma BecomesWorker(env: Env)
    ensures Connected([env]) ==
              match ConnectToPeer(env, FRESH)
              case Done(s) => [PieceWorkers.State(env, s, None, false, None)]
              case Thrown(_, _) => []
  {
    hide GreetPeer;
    ConnectEstablishes(env);
    assert [env][1..] == [];
  }

  lemma ConnectedSplit(first: Env, rest: seq<Env>)
    ensures Connected([first] + rest) == Connected([first]) + Connected(rest)
  {
    hide PieceWorkers.JoinedCheck;
    assert ([first] + rest)[1..] == rest && [first][1..] == [];
    assert Connected([]) == [];
  }

  /** In the order of the peers. */
  lemma {:induction false} ConnectedInOrder(envs: seq<Env>, last: Env)
    ensures Connected(envs + [last]) == Connected(envs) + Connected([last])
  {
    hide Connected;
    if envs == [] {
      assert envs + [last] == [last];
      NobodyConnected();
    } else {
      ConnectedInOrder(envs[1..], last);
      ConnectedSplit(envs[0], envs[1..]);
      ConnectedSplit(envs[0], envs[1..] + [last]);
      assert [envs[0]] + envs[1..] == envs;
      assert [envs[0]] + (envs[1..] + [last]) == envs + [last];
    }
  }

  lemma NobodyConnected()
    ensures Connected([]) == []
  {
  }

  /** The workers that are set up are honest and idle. */
  lemma {:induction false} SetupIsHonest(envs: seq<Env>, content: seq<Bytes>)
    requires AllServe(envs, content)
    ensures SchedulerRuns.AtHead(Connected(envs), HonestKind(content))
  {
    hide ConnectToPeer, Honest, Ready;
    if envs != [] {
      SetupIsHonest(envs[1..], content);
      assert Serves(envs[0], content);
      ConnectEstablishes(envs[0]);
    }
  }

  /** The files of an honest download, put together, are the front of the file; they are all of it exactly
      if its length is not a positive multiple of the piece length. */
  lemma GatheredFile(
    file: Bytes, pieceLength: nat, count: nat, order: seq<nat>, before: map<nat, Bytes>, files: map<nat, Bytes>,
    o: Outcome)
    requires 0 < pieceLength && CeilDiv(|file|, pieceLength, count) && Shuffled(order, count)
    requires Written(order, Genuine(PiecesOf(file, pieceLength, count)), before, files) && Gathers(files, count, o)
    ensures TotalLength(|file|, pieceLength, count, count) <= |file|
    ensures o == Output(file[..TotalLength(|file|, pieceLength, count, count)])
    ensures o == Output(file) <==> |file| % pieceLength != 0 || file == []
  {
    hide CeilDiv, Shuffled, PieceOf;
    ShuffleCovers(order, count);
    PiecesTogether(file, pieceLength, count, files, count);
    PiecesTile(|file|, pieceLength, count);
    var n := TotalLength(|file|, pieceLength, count, count);
    assert n == |file| ==> file[..n] == file;
    assert n < |file| ==> |file[..n]| != |file|;
  }

  /** What `DownloadFile` promises of its result. */
  lemma HonestDownloadFile(
    envs: seq<Env>, file: Bytes, pieceLength: nat, count: nat, order: seq<nat>, files: map<nat, Bytes>, steps: nat,
    rounds: nat, o: Outcome)
    requires 0 < pieceLength && CeilDiv(|file|, pieceLength, count) && Shuffled(order, count)
    requires AllServe(envs, PiecesOf(file, pieceLength, count)) && Connected(envs) != []
    requires Enough(PiecesOf(file, pieceLength, count), steps) && count <= rounds
    requires Results(envs, order, files, steps, rounds, o)
    ensures TotalLength(|file|, pieceLength, count, count) <= |file|
    ensures o == Output(file[..TotalLength(|file|, pieceLength, count, count)])
    ensures o == Output(file) <==> |file| % pieceLength != 0 || file == []
  {
    hide CeilDiv, Shuffled, PieceOf, Rounds, Connected, AllServe, Written, Enough, PiecesOf, TotalLength, Gathers;
    SizeOfShuffle(order, count);
    var content := PiecesOf(file, pieceLength, count);
    SetupIsHonest(envs, content);
    Enlarges(count, rounds, |Connected(envs)|);
    HonestDownloads(order, content, files, Connected(envs), steps, rounds);
    GatheredFile(file, pieceLength, count, order, files,
                 Rounds(Connected(envs), Board(order, files, Going), steps, rounds).1.files, o);
  }

  /** The same of every interleaving of the threads. */
  lemma HonestInterleavedFile(
    m: Machine, moves: seq<Move>, envs: seq<Env>, file: Bytes, pieceLength: nat, count: nat, order: seq<nat>,
    files: map<nat, Bytes>, o: Outcome)
    requires 0 < pieceLength && CeilDiv(|file|, pieceLength, count) && Shuffled(order, count)
    requires AllServe(envs, PiecesOf(file, pieceLength, count)) && Connected(envs) != []
    requires AtFirst(m, order, files) && m.pool == Connected(envs)
    requires WellShaped(m) && IsRun(m, moves) && Run(m, moves).place.Past?
    requires Gathers(Run(m, moves).board.files, count, o)
    ensures TotalLength(|file|, pieceLength, count, count) <= |file|
    ensures o == Output(file[..TotalLength(|file|, pieceLength, count, count)])
    ensures o == Output(file) <==> |file| % pieceLength != 0 || file == []
  {
    hide CeilDiv, Shuffled, PieceOf, Connected, AllServe, Written, PiecesOf, TotalLength, Gathers, Run, IsRun;
    var content := PiecesOf(file, pieceLength, count);
    SetupIsHonest(envs, content);
    HonestInterleaving(m, moves, order, content, files);
    GatheredFile(file, pieceLength, count, order, files, Run(m, moves).board.files, o);
  }
}
