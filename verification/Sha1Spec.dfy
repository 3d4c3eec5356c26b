/** The secure hash SHA-1, as FIPS 180-4 defines it.

    Everything here follows the text of the standard: the whole message schedule of 80 words, one
    register shift per round, padding of the whole message before it is cut into blocks.  The
    streaming implementation in module `Sha1` is proved equal to it. */
module Sha1Spec {
  type Octet = bv8
  type Word = bv32

  datatype Regs = Regs(a: Word, b: Word, c: Word, d: Word, e: Word)

  const INITIAL := Regs(0x67452301, 0xefcdab89, 0x98badcfe, 0x10325476, 0xc3d2e1f0)

  /** Section 3.2: rotate left. */
  function Rotl(x: Word, n: bv6): Word
    requires 0 < n < 32
  {
    (x << n) | (x >> (32 - n))
  }

  // Section 4.1.1: the three logical functions.

  function Ch(x: Word, y: Word, z: Word): Word { (x & y) ^ (!x & z) }

  function Parity(x: Word, y: Word, z: Word): Word { x ^ y ^ z }

  function Maj(x: Word, y: Word, z: Word): Word { (x & y) ^ (x & z) ^ (y & z) }

  function F(t: nat, x: Word, y: Word, z: Word): Word {
    if t < 20 then Ch(x, y, z) else if t < 40 then Parity(x, y, z) else if t < 60 then Maj(x, y, z) else Parity(x, y, z)
  }

  /** Section 4.2.1: the constants. */
  function K(t: nat): Word {
    if t < 20 then 0x5a827999 else if t < 40 then 0x6ed9eba1 else if t < 60 then 0x8f1bbcdc else 0xca62c1d6
  }

  /** Section 6.1.2, step 1: a word of the schedule out of four before it. */
  function Mix(p: Word, q: Word, r: Word, s: Word): Word { Rotl(p ^ q ^ r ^ s, 1) }

  /** The message schedule. */
  function W(m: seq<Word>, t: nat): Word
    requires |m| == 16
  {
    if t < 16 then m[t] else Mix(W(m, t - 3), W(m, t - 8), W(m, t - 14), W(m, t - 16))
  }

  /** Addition modulo 2^32 of five words. */
  function Sum(p: Word, q: Word, r: Word, s: Word, t: Word): Word { p + q + r + s + t }

  /** Section 6.1.2, step 3: one round. */
  function Step(r: Regs, t: nat, w: Word): Regs {
    Regs(Sum(Rotl(r.a, 5), F(t, r.b, r.c, r.d), r.e, K(t), w), r.a, Rotl(r.b, 30), r.c, r.d)
  }

  /** The registers after the first `t` rounds. */
  function Rounds(h: Regs, m: seq<Word>, t: nat): Regs
    requires |m| == 16
  {
    if t == 0 then h else Step(Rounds(h, m, t - 1), t - 1, W(m, t - 1))
  }

  function Add(x: Word, y: Word): Word { x + y }

  function Plus(h: Regs, r: Regs): Regs {
    Regs(Add(h.a, r.a), Add(h.b, r.b), Add(h.c, r.c), Add(h.d, r.d), Add(h.e, r.e))
  }

  /** Section 6.1.2, step 4. */
  function Compress(h: Regs, m: seq<Word>): Regs
    requires |m| == 16
  {
    Plus(h, Rounds(h, m, 80))
  }

  /** Section 3.1: four octets as a big-endian word. */
  function WordOf(b0: Octet, b1: Octet, b2: Octet, b3: Octet): Word {
    ((b0 as Word) << 24) | ((b1 as Word) << 16) | ((b2 as Word) << 8) | (b3 as Word)
  }

  /** Section 5.2.1: a 64-octet block as sixteen words. */
  function Parse(block: seq<Octet>): (m: seq<Word>)
    requires |block| == 64
    ensures |m| == 16
  {
    seq(16, i requires 0 <= i < 16 => WordOf(block[4 * i], block[4 * i + 1], block[4 * i + 2], block[4 * i + 3]))
  }

  /** Hash the whole blocks at the front of `s`; an incomplete block at the end is not hashed. */
  function HashBlocks(h: Regs, s: seq<Octet>): Regs
    decreases |s|
  {
    if |s| < 64 then h else HashBlocks(Compress(h, Parse(s[..64])), s[64..])
  }

  function Zeros(n: nat): (z: seq<Octet>)
    ensures |z| == n
  {
    seq(n, _ => 0 as Octet)
  }

  /** The bit length as a 64-bit number.  The standard bounds messages below 2^64 bits; a longer one
      keeps the low 64 bits, as a `uint64_t` does. */
  function BitLength(n: nat): bv64 {
    ((n * 8) % 0x1_0000_0000_0000_0000) as bv64
  }

  /** Eight octets, the most significant first. */
  function LengthOctets(l: bv64): (s: seq<Octet>)
    ensures |s| == 8
  {
    [((l >> 56) & 0xff) as Octet, ((l >> 48) & 0xff) as Octet, ((l >> 40) & 0xff) as Octet, ((l >> 32) & 0xff) as Octet,
     ((l >> 24) & 0xff) as Octet, ((l >> 16) & 0xff) as Octet, ((l >> 8) & 0xff) as Octet, (l & 0xff) as Octet]
  }

  /** `k` zero octets after the marker octet leave room for exactly the length in the last block. */
  predicate Completes(n: nat, k: nat) {
    (n + 1 + k) % 64 == 56
  }

  /** Section 5.1.1: the number of zero octets is the smallest that completes a block. */
  function ZeroCount(n: nat): (k: nat)
    ensures Completes(n, k)
    ensures forall j: nat :: Completes(n, j) ==> k <= j
  {
    var k := (119 - n % 64) % 64;
    k
  }

  function Pad(m: seq<Octet>): seq<Octet> {
    m + [0x80] + Zeros(ZeroCount(|m|)) + LengthOctets(BitLength(|m|))
  }

  function Digest(m: seq<Octet>): Regs {
    HashBlocks(INITIAL, Pad(m))
  }

  /** Hashing in two goes is hashing at once, when the cut is between blocks. */
  lemma {:induction false} HashBlocksAppend(h: Regs, s: seq<Octet>, t: seq<Octet>)
    requires |s| % 64 == 0
    ensures HashBlocks(h, s + t) == HashBlocks(HashBlocks(h, s), t)
    decreases |s|
  {
    if s == [] {
      assert s + t == t;
    } else {
      assert (s + t)[..64] == s[..64];
      assert (s + t)[64..] == s[64..] + t;
      HashBlocksAppend(Compress(h, Parse(s[..64])), s[64..], t);
    }
  }

  lemma HashOneBlock(h: Regs, s: seq<Octet>, block: seq<Octet>)
    requires |s| % 64 == 0 && |block| == 64
    ensures HashBlocks(h, s + block) == Compress(HashBlocks(h, s), Parse(block))
  {
    HashBlocksAppend(h, s, block);
    var g := HashBlocks(h, s);
    assert block[..64] == block && block[64..] == [];
    assert HashBlocks(g, block) == HashBlocks(Compress(g, Parse(block)), []);
  }

  lemma LengthWords(l: bv64)
    ensures var s := LengthOctets(l);
            && WordOf(s[0], s[1], s[2], s[3]) == (l >> 32) as Word
            && WordOf(s[4], s[5], s[6], s[7]) == (l & 0xffff_ffff) as Word
  {
  }
}
