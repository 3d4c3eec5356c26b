/** The info hash as it goes over the wire: from hexadecimal text back to the octets of the digest. */
module HashBytes {
  import opened Bytes
  import opened Proto
  import opened Sha1Spec
  import opened Sha1

  function OctetOf(w: Word): byte {
    ((w & 0xff) as bv8) as int
  }

  /** The four octets of a word, the most significant first. */
  function WordBytes(w: Word): Bytes {
    [OctetOf(w >> 24), OctetOf(w >> 16), OctetOf(w >> 8), OctetOf(w)]
  }

  function AllBytes(ws: seq<Word>): (s: Bytes)
    ensures |s| == 4 * |ws|
  {
    if ws == [] then [] else AllBytes(ws[..|ws| - 1]) + WordBytes(ws[|ws| - 1])
  }

  lemma TwoNibbles(w: Word)
    ensures 16 * HexValue(Nibble(w >> 4)) + HexValue(Nibble(w)) == OctetOf(w)
  {
    NibbleBits(w);
    EightBits((w & 0xff) as bv8);
  }

  lemma NibbleBits(w: Word)
    ensures ((w >> 4) & 0xf) as bv4 == (((w & 0xff) as bv8) >> 4) as bv4
    ensures (w & 0xf) as bv4 == (((w & 0xff) as bv8) & 0xf) as bv4
  {
  }

  lemma EightBits(o: bv8)
    ensures 16 * ((o >> 4) as bv4) as int + ((o & 0xf) as bv4) as int == o as int
  {
  }

  lemma Shifts(w: Word)
    ensures (w >> 24) >> 4 == w >> 28 && (w >> 16) >> 4 == w >> 20 && (w >> 8) >> 4 == w >> 12
  {
  }

  lemma {:induction false} FromHexAppend(g: Bytes, h: Bytes)
    requires IsHexText(g) && IsHexText(h)
    ensures IsHexText(g + h) && FromHex(g + h) == FromHex(g) + FromHex(h)
  {
    if g == [] {
      assert g + h == h;
    } else {
      assert (g + h)[2..] == g[2..] + h;
      FromHexAppend(g[2..], h);
    }
  }

  lemma PairFromHex(c: byte, d: byte, rest: Bytes)
    requires IsLowerHex(c) && IsLowerHex(d) && IsHexText(rest)
    ensures IsHexText([c, d] + rest) && FromHex([c, d] + rest) == [16 * HexValue(c) + HexValue(d)] + FromHex(rest)
  {
    assert ([c, d] + rest)[2..] == rest;
  }

  function Pair(c: byte, d: byte): nat
    requires IsLowerHex(c) && IsLowerHex(d)
  {
    16 * HexValue(c) + HexValue(d)
  }

  lemma FourPairs(a: byte, b: byte, c: byte, d: byte, e: byte, f: byte, g: byte, h: byte)
    requires IsLowerHex(a) && IsLowerHex(b) && IsLowerHex(c) && IsLowerHex(d)
    requires IsLowerHex(e) && IsLowerHex(f) && IsLowerHex(g) && IsLowerHex(h)
    requires Pair(a, b) < 256 && Pair(c, d) < 256 && Pair(e, f) < 256 && Pair(g, h) < 256
    ensures IsHexText([a, b, c, d, e, f, g, h])
    ensures FromHex([a, b, c, d, e, f, g, h]) == [Pair(a, b), Pair(c, d), Pair(e, f), Pair(g, h)]
  {
    hide HexValue, FromHex, IsLowerHex;
    NoHex();
    PairFromHex(g, h, []);
    assert [g, h] + [] == [g, h];
    PairFromHex(e, f, [g, h]);
    assert [e, f] + [g, h] == [e, f, g, h];
    PairFromHex(c, d, [e, f, g, h]);
    assert [c, d] + [e, f, g, h] == [c, d, e, f, g, h];
    PairFromHex(a, b, [c, d, e, f, g, h]);
    assert [a, b] + [c, d, e, f, g, h] == [a, b, c, d, e, f, g, h];
  }

  lemma TopPairs(w: Word)
    ensures Pair(Nibble(w >> 28), Nibble(w >> 24)) == OctetOf(w >> 24)
    ensures Pair(Nibble(w >> 20), Nibble(w >> 16)) == OctetOf(w >> 16)
  {
    hide Nibble, OctetOf, HexValue;
    TwoNibbles(w >> 24);
    TwoNibbles(w >> 16);
    Shifts(w);
  }

  lemma LowPairs(w: Word)
    ensures Pair(Nibble(w >> 12), Nibble(w >> 8)) == OctetOf(w >> 8)
    ensures Pair(Nibble(w >> 4), Nibble(w)) == OctetOf(w)
  {
    hide Nibble, OctetOf, HexValue;
    TwoNibbles(w >> 8);
    TwoNibbles(w);
    Shifts(w);
  }

  lemma WordFromHex(w: Word)
    ensures IsHexText(HexWord(w)) && FromHex(HexWord(w)) == WordBytes(w)
  {
    hide Nibble, OctetOf, FromHex, IsHexText, Pair;
    TopPairs(w);
    LowPairs(w);
    FourPairs(Nibble(w >> 28), Nibble(w >> 24), Nibble(w >> 20), Nibble(w >> 16),
              Nibble(w >> 12), Nibble(w >> 8), Nibble(w >> 4), Nibble(w));
  }

  lemma {:induction false} WordsFromHex(ws: seq<Word>)
    ensures IsHexText(HexWords(ws)) && FromHex(HexWords(ws)) == AllBytes(ws)
  {
    hide HexWord, WordBytes, FromHex;
    if ws == [] {
      NoHex();
    } else {
      var n := |ws| - 1;
      WordsFromHex(ws[..n]);
      WordFromHex(ws[n]);
      FromHexAppend(HexWords(ws[..n]), HexWord(ws[n]));
    }
  }

  lemma NoHex()
    ensures FromHex([]) == []
  {
  }

  /** The bytes of the text that `final` returns are the twenty octets of the digest. */
  lemma DigestFromHex(m: seq<Octet>)
    ensures |AllBytes(Words(Digest(m)))| == 20
    ensures FromHex(HexDigest(m)) == AllBytes(Words(Digest(m)))
  {
    hide Digest, HexWords, AllBytes, FromHex;
    WordsFromHex(Words(Digest(m)));
  }

  /** So that is what a handshake carries for a hash. */
  lemma HandshakeCarriesDigest(m: seq<Octet>, peerId: Bytes)
    requires |peerId| == 20
    ensures |PackHandshake(HexDigest(m), peerId)| == HANDSHAKE_SIZE
    ensures PackHandshake(HexDigest(m), peerId)[28..48] == AllBytes(Words(Digest(m)))
  {
    hide Digest, HexDigest, AllBytes, Words;
    DigestFromHex(m);
    HandshakeRoundTrip(HexDigest(m), peerId);
    var msg := PackHandshake(HexDigest(m), peerId);
    assert msg[28..48] == FromHex(HexDigest(m));
  }
}
