/** How the pieces share the bytes of the file (`src/client/piece.cpp`, `src/torrent.cpp`). */
module PieceLengths {
  /** The length a worker assumes for a piece. */
  function PieceLength(length: nat, pieceLength: nat, count: nat, i: nat): nat
    requires 0 < pieceLength
  {
    if i + 1 == count then length % pieceLength else pieceLength
  }

  /** The lengths of the first `n` pieces together. */
  function TotalLength(length: nat, pieceLength: nat, count: nat, n: nat): nat
    requires 0 < pieceLength
  {
    if n == 0 then 0
    else TotalLength(length, pieceLength, count, n - 1) + PieceLength(length, pieceLength, count, n - 1)
  }

  /** As many pieces as it takes to hold `length` bytes. */
  ghost predicate CeilDiv(length: nat, pieceLength: nat, count: nat) {
    length <= count * pieceLength && (count > 0 ==> (count - 1) * pieceLength < length)
  }

  lemma {:induction false} TotalBefore(length: nat, pieceLength: nat, count: nat, i: nat)
    requires 0 < pieceLength && i < count
    ensures TotalLength(length, pieceLength, count, i) == i * pieceLength
  {
    if i > 0 {
      TotalBefore(length, pieceLength, count, i - 1);
      assert (i - 1) * pieceLength + pieceLength == i * pieceLength;
    }
  }

  lemma ModUnique(q: int, d: int, r: int)
    requires 0 < d && 0 <= r < d
    ensures (q * d + r) % d == r
  {
    var n := q * d + r;
    var k := q - n / d;
    assert k * d == n % d - r by {
      assert n == n / d * d + n % d;
    }
    SmallMultiple(k, d);
  }

  lemma SmallMultiple(k: int, d: int)
    requires -d < k * d < d
    ensures k == 0
  {
  }

  /** The pieces lie side by side, and together they have the length of the file if and only if that
      is no positive multiple of the piece length; of such a file the last piece is lost. */
  lemma PiecesTile(length: nat, pieceLength: nat, count: nat)
    requires 0 < pieceLength && CeilDiv(length, pieceLength, count)
    ensures forall i :: 0 <= i < count ==> TotalLength(length, pieceLength, count, i) == i * pieceLength
    ensures TotalLength(length, pieceLength, count, count) == length <==> length % pieceLength != 0 || length == 0
    ensures length % pieceLength == 0 && length > 0 ==>
              TotalLength(length, pieceLength, count, count) == length - pieceLength
  {
    forall i | 0 <= i < count
      ensures TotalLength(length, pieceLength, count, i) == i * pieceLength
    {
      TotalBefore(length, pieceLength, count, i);
    }
    if count > 0 {
      var before := (count - 1) * pieceLength;
      TotalBefore(length, pieceLength, count, count - 1);
      assert before + pieceLength == count * pieceLength;
      if length - before < pieceLength {
        ModUnique(count - 1, pieceLength, length - before);
      } else {
        ModUnique(count, pieceLength, 0);
      }
    }
  }
}
