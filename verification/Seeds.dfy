/** A peer that meets all that is asked of honest peers, for any file. */
module Seeds {
  import opened Bytes
  import opened PieceLengths
  import opened Proto
  import opened Session
  import opened SessionHonest
  import opened Gathering
  import opened Downloading
  import opened WholeFile
  import opened Peers

  function SeedWorld(file: Bytes, pieceLength: nat, count: nat, infoHash: Bytes): Env
    requires 0 < pieceLength && CeilDiv(|file|, pieceLength, count) && IsHexText(infoHash) && |infoHash| == 40
  {
    var serve := Serve(PiecesOf(file, pieceLength, count));
    MakeWorld(Peer(infoHash, Message(Unchoke, []), serve), _ => NoFault, infoHash, |file|, pieceLength, count)
  }

  lemma SeedAnswersRequests(env: Env, content: seq<Bytes>, sent: seq<Bytes>, idx: u32, begin: u32, n: u32)
    requires env.peer == Peer(env.infoHash, Message(Unchoke, []), Serve(content))
    requires idx < |content| && begin + n <= |content[idx]|
    ensures AnswersInFull(env, content, sent, idx, begin, n)
  {
    hide PackRequest, Frame, PieceBody, Part, Peer, IsHexText;
    PeerServes(env.infoHash, Message(Unchoke, []), Serve(content), sent, idx, begin, n);
    PartOfRequest(content, idx, begin, n);
  }

  lemma SeedIsHonest(file: Bytes, pieceLength: nat, count: nat, infoHash: Bytes)
    requires 0 < pieceLength < TWO_32 && count <= TWO_32 && CeilDiv(|file|, pieceLength, count)
    requires IsHexText(infoHash) && |infoHash| == 40
    ensures Honest(SeedWorld(file, pieceLength, count, infoHash), PiecesOf(file, pieceLength, count))
  {
    hide AnswersInFull, CeilDiv, Peer, Serve, PieceOf, IsHexText;
    var env, content := SeedWorld(file, pieceLength, count, infoHash), PiecesOf(file, pieceLength, count);
    forall sent: seq<Bytes>, idx: u32, begin: u32, n: u32 |
      idx < env.count && 0 < n && begin + n <= |content[idx]|
      ensures AnswersInFull(env, content, sent, idx, begin, n)
    {
      SeedAnswersRequests(env, content, sent, idx, begin, n);
    }
  }

  /** Honest peers exist: the theorems about them are not empty, for any file that the 32-bit fields of the
      protocol can describe. */
  lemma SeedServes(file: Bytes, pieceLength: nat, count: nat, infoHash: Bytes)
    requires 0 < pieceLength < TWO_32 && count <= TWO_32 && CeilDiv(|file|, pieceLength, count)
    requires IsHexText(infoHash) && |infoHash| == 40
    ensures var env := SeedWorld(file, pieceLength, count, infoHash);
            Serves(env, PiecesOf(file, pieceLength, count)) && Connected([env]) != []
  {
    hide CeilDiv, Honest, Welcoming, ConnectToPeer, IsHexText, Peer;
    var env := SeedWorld(file, pieceLength, count, infoHash);
    var second := Message(Unchoke, []);
    SeedIsHonest(file, pieceLength, count, infoHash);
    PeerWelcomes(env, second, Serve(PiecesOf(file, pieceLength, count)));
    WelcomeMakesReady(env, PEER_ID, second, second);
  }
}
