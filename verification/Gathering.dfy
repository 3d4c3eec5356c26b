/** Putting the pieces together (`gather_pieces` in `src/client/download_file.cpp`), and the file they
    come from. */
module Gathering {
  import opened Bytes
  import opened Wrappers
  import opened PieceLengths

  const CHUNK := 512

  /** What `readsome` reads at a position when the stream has `ready` bytes at hand: at most a chunk, and
      nothing only at the end. */
  function ReadSome(content: Bytes, at: nat, ready: nat): (n: nat)
    requires at <= |content|
    ensures n <= 512 && at + n <= |content| && (n == 0 <==> at == |content|)
  {
    if at == |content| then 0
    else
      var most := if |content| - at < CHUNK then |content| - at else CHUNK;
      if ready == 0 then 1 else if ready < most then ready else most
  }

  predicate AllPresent(files: map<nat, Bytes>, n: nat) {
    forall i :: 0 <= i < n ==> i in files
  }

  /** The first `n` files, in order of their index. */
  function Concat(files: map<nat, Bytes>, n: nat): Bytes
    requires AllPresent(files, n)
  {
    if n == 0 then [] else Concat(files, n - 1) + files[n - 1]
  }

  /** All the pieces in the order of their index, or the first that is missing and what was put out by
      then; however many bytes each read delivers. */
  method GatherPieces(count: nat, files: map<nat, Bytes>, ready: (nat, nat) -> nat)
    returns (output: Bytes, missing: Option<nat>)
    ensures missing.None? <==> AllPresent(files, count)
    ensures missing.None? ==> output == Concat(files, count)
    ensures missing.Some? ==>
              && missing.value < count && missing.value !in files
              && AllPresent(files, missing.value) && output == Concat(files, missing.value)
  {
    output := [];
    var piece := 0;
    while piece < count
      invariant piece <= count && AllPresent(files, piece) && output == Concat(files, piece)
    {
      if piece !in files {
        return output, Some(piece);
      }
      var file := files[piece];
      var at := 0;
      var size := ReadSome(file, at, ready(piece, at));
      while size != 0
        invariant at <= |file| && size == ReadSome(file, at, ready(piece, at))
        invariant output == Concat(files, piece) + file[..at]
        decreases |file| - at
      {
        assert file[..at + size] == file[..at] + file[at..at + size];
        output := output + file[at..at + size];
        at := at + size;
        size := ReadSome(file, at, ready(piece, at));
      }
      assert file[..at] == file;
      piece := piece + 1;
    }
    return output, None;
  }

  // The file.

  lemma Multiples(i: nat, j: nat, k: nat)
    requires i < j
    ensures i * k + k <= j * k
  {
    var d := j - i - 1;
    assert j * k == (i + 1 + d) * k == (i + 1) * k + d * k;
    assert (i + 1) * k == i * k + k;
    assert d * k >= 0;
  }

  /** A piece lies within the file. */
  lemma PieceEnds(length: nat, pieceLength: nat, count: nat, i: nat)
    requires 0 < pieceLength && CeilDiv(length, pieceLength, count) && i < count
    ensures i * pieceLength + PieceLength(length, pieceLength, count, i) <= length
  {
    Multiples(i, count, pieceLength);
    if i + 1 == count {
      var before := i * pieceLength;
      assert count * pieceLength == before + pieceLength;
      if length - before < pieceLength {
        ModUnique(i, pieceLength, length - before);
      } else {
        ModUnique(count, pieceLength, 0);
      }
    } else {
      Multiples(i, count - 1, pieceLength);
    }
  }

  /** The bytes of the file that a worker asks for as piece `i`. */
  function PieceOf(file: Bytes, pieceLength: nat, count: nat, i: nat): (piece: Bytes)
    requires 0 < pieceLength && CeilDiv(|file|, pieceLength, count) && i < count
    ensures |piece| == PieceLength(|file|, pieceLength, count, i)
  {
    PieceEnds(|file|, pieceLength, count, i);
    file[i * pieceLength..i * pieceLength + PieceLength(|file|, pieceLength, count, i)]
  }

  function PiecesOf(file: Bytes, pieceLength: nat, count: nat): (content: seq<Bytes>)
    requires 0 < pieceLength && CeilDiv(|file|, pieceLength, count)
    ensures |content| == count
    ensures forall i :: 0 <= i < count ==> content[i] == PieceOf(file, pieceLength, count, i)
  {
    seq(count, i requires 0 <= i < count => PieceOf(file, pieceLength, count, i))
  }

  /** A piece begins where the ones before it end. */
  lemma PieceOfAt(file: Bytes, pieceLength: nat, count: nat, i: nat)
    requires 0 < pieceLength && CeilDiv(|file|, pieceLength, count) && i < count
    ensures var a, b := TotalLength(|file|, pieceLength, count, i), TotalLength(|file|, pieceLength, count, i + 1);
            a <= b <= |file| && PieceOf(file, pieceLength, count, i) == file[a..b]
  {
    hide CeilDiv, PieceLength;
    PieceEnds(|file|, pieceLength, count, i);
    TotalBefore(|file|, pieceLength, count, i);
  }

  /** The first pieces together are the front of the file. */
  lemma {:induction false} PiecesTogether(file: Bytes, pieceLength: nat, count: nat, files: map<nat, Bytes>, n: nat)
    requires 0 < pieceLength && CeilDiv(|file|, pieceLength, count) && n <= count
    requires forall i :: 0 <= i < n ==> i in files && files[i] == PieceOf(file, pieceLength, count, i)
    ensures AllPresent(files, n) && TotalLength(|file|, pieceLength, count, n) <= |file|
    ensures Concat(files, n) == file[..TotalLength(|file|, pieceLength, count, n)]
  {
    hide CeilDiv, PieceLength, PieceOf;
    if n == 0 {
      NothingBefore(|file|, pieceLength, count);
    } else {
      hide TotalLength;
      PiecesTogether(file, pieceLength, count, files, n - 1);
      PieceOfAt(file, pieceLength, count, n - 1);
      var a := TotalLength(|file|, pieceLength, count, n - 1);
      var b := TotalLength(|file|, pieceLength, count, n);
      assert file[..b] == file[..a] + file[a..b];
    }
  }

  lemma NothingBefore(length: nat, pieceLength: nat, count: nat)
    requires 0 < pieceLength
    ensures TotalLength(length, pieceLength, count, 0) == 0
  {
  }
}
