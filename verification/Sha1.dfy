/** The streaming SHA-1 of `src/misc/sha1.hpp`, proved against `Sha1Spec`. */
module Sha1 {
  import opened Bytes
  import opened Sha1Spec

  const BLOCK_INTS := 16
  const BLOCK_BYTES := 64
  const TWO_64 := 0x1_0000_0000_0000_0000

  /** The next schedule word, from the circular buffer of the last sixteen. */
  function Blk(block: seq<Word>, i: nat): Word
    requires |block| == 16 && i < 16
  {
    Mix(block[(i + 13) % 16], block[(i + 8) % 16], block[(i + 2) % 16], block[i])
  }

  /** The whole schedule of 80 words. */
  function Schedule(m: seq<Word>): (ws: seq<Word>)
    requires |m| == 16
    ensures |ws| == 80
  {
    seq(80, t requires 0 <= t < 80 => W(m, t))
  }

  /** The circular buffer before round `t`: slot `k % 16` holds schedule word `k`, for the sixteen
      newest words.  Nothing here depends on what a word is. */
  ghost predicate Window<T>(ws: seq<T>, t: nat, block: seq<T>) {
    && |block| == 16 && 16 <= |ws| && t <= |ws|
    && var lo := if t < 16 then 0 else t - 16;
       forall k :: lo <= k < lo + 16 ==> block[k % 16] == ws[k]
  }

  lemma Back(t: nat, d: nat)
    requires 0 < d <= 16 <= t
    ensures (t - d) % 16 == (t % 16 + (16 - d)) % 16
  {
  }

  lemma Slot<T>(ws: seq<T>, t: nat, block: seq<T>, d: nat)
    requires Window(ws, t, block) && 0 < d <= 16 <= t
    ensures block[(t % 16 + (16 - d)) % 16] == ws[t - d]
  {
    Back(t, d);
    assert block[(t - d) % 16] == ws[t - d];
  }

  /** The four slots that `Blk` reads. */
  lemma Slots<T>(ws: seq<T>, t: nat, block: seq<T>)
    requires Window(ws, t, block) && t >= 16
    ensures var i := t % 16;
            && |block| == 16 && t <= |ws|
            && block[(i + 13) % 16] == ws[t - 3] && block[(i + 8) % 16] == ws[t - 8]
            && block[(i + 2) % 16] == ws[t - 14] && block[i] == ws[t - 16]
  {
    Slot(ws, t, block, 3);
    Slot(ws, t, block, 8);
    Slot(ws, t, block, 14);
    Slot(ws, t, block, 16);
  }

  /** Overwriting the oldest word by the next one slides the window. */
  lemma Slide<T>(ws: seq<T>, t: nat, was: seq<T>, now: seq<T>)
    requires Window(ws, t, was) && 16 <= t < |ws|
    requires now == was[t % 16 := ws[t]]
    ensures Window(ws, t + 1, now)
  {
    forall k | t - 15 <= k < t + 1
      ensures now[k % 16] == ws[k]
    {
      if k != t {
        assert k % 16 != t % 16;
      }
    }
  }

  lemma UnfoldW(m: seq<Word>, t: nat)
    requires |m| == 16 && 16 <= t
    ensures W(m, t) == Mix(W(m, t - 3), W(m, t - 8), W(m, t - 14), W(m, t - 16))
  {
    hide Mix;
  }

  /** `Blk` computes the next word of the schedule. */
  lemma NextWord(m: seq<Word>, t: nat, block: seq<Word>)
    requires |m| == 16 && 16 <= t < 80 && Window(Schedule(m), t, block)
    ensures Blk(block, t % 16) == Schedule(m)[t] == W(m, t)
  {
    hide Mix, W, Window;
    Slots(Schedule(m), t, block);
    UnfoldW(m, t);
  }

  // The rewritten boolean functions are those of the standard.

  lemma ChForm(w: Word, x: Word, y: Word)
    ensures (w & (x ^ y)) ^ y == Ch(w, x, y)
  {
  }

  lemma MajForm(w: Word, x: Word, y: Word)
    ensures ((w | x) & y) | (w & x) == Maj(w, x, y)
  {
  }

  /** Registers, in their rotated roles, and buffer agree with the specification after `t` rounds. */
  ghost predicate Agrees(h: Regs, m: seq<Word>, t: nat, r: Regs, block: seq<Word>) {
    && |m| == 16
    && Window(Schedule(m), t, block)
    && r == Rounds(h, m, t)
  }

  /** The implementation adds the five terms in its own order. */
  lemma Reorder(z: Word, f: Word, b: Word, k: Word, r: Word)
    ensures Sum(z, f, b, k, r) == Sum(r, f, z, k, b)
  {
  }

  lemma Unfold(h: Regs, m: seq<Word>, t: nat)
    requires |m| == 16
    ensures Rounds(h, m, t + 1) == Step(Rounds(h, m, t), t, W(m, t))
  {
    hide Step, W;
  }

  /** One register shift of the specification, as the implementation computes it in place. */
  lemma Round(h: Regs, m: seq<Word>, t: nat, v: Word, w: Word, x: Word, y: Word, z: Word, f: Word)
    requires |m| == 16 && Regs(v, w, x, y, z) == Rounds(h, m, t)
    requires f == F(t, w, x, y)
    ensures Regs(Sum(z, f, W(m, t), K(t), Rotl(v, 5)), v, Rotl(w, 30), x, y) == Rounds(h, m, t + 1)
  {
    hide F, K, W, Rotl, Rounds, Sum;
    Reorder(z, f, W(m, t), K(t), Rotl(v, 5));
    Unfold(h, m, t);
  }

  method R0(block: array<Word>, v: Word, w: Word, x: Word, y: Word, z: Word, i: nat,
            ghost h: Regs, ghost m: seq<Word>, ghost t: nat)
    returns (w': Word, z': Word)
    requires 0 <= t < 16 && i == t % 16
    requires Agrees(h, m, t, Regs(v, w, x, y, z), block[..])
    ensures Agrees(h, m, t + 1, Regs(z', v, w', x, y), block[..])
  {
    z' := Sum(z, ((w & (x ^ y)) ^ y), block[i], 0x5a827999, Rotl(v, 5));
    w' := Rotl(w, 30);
    ChForm(w, x, y);
    Round(h, m, t, v, w, x, y, z, ((w & (x ^ y)) ^ y));
  }

  method R1(block: array<Word>, v: Word, w: Word, x: Word, y: Word, z: Word, i: nat,
            ghost h: Regs, ghost m: seq<Word>, ghost t: nat)
    returns (w': Word, z': Word)
    requires 16 <= t < 20 && i == t % 16
    requires Agrees(h, m, t, Regs(v, w, x, y, z), block[..])
    modifies block
    ensures Agrees(h, m, t + 1, Regs(z', v, w', x, y), block[..])
  {
    ghost var was := block[..];
    NextWord(m, t, was);
    block[i] := Blk(block[..], i);
    Slide(Schedule(m), t, was, block[..]);
    z' := Sum(z, ((w & (x ^ y)) ^ y), block[i], 0x5a827999, Rotl(v, 5));
    w' := Rotl(w, 30);
    ChForm(w, x, y);
    Round(h, m, t, v, w, x, y, z, ((w & (x ^ y)) ^ y));
  }

  method R2(block: array<Word>, v: Word, w: Word, x: Word, y: Word, z: Word, i: nat,
            ghost h: Regs, ghost m: seq<Word>, ghost t: nat)
    returns (w': Word, z': Word)
    requires 20 <= t < 40 && i == t % 16
    requires Agrees(h, m, t, Regs(v, w, x, y, z), block[..])
    modifies block
    ensures Agrees(h, m, t + 1, Regs(z', v, w', x, y), block[..])
  {
    ghost var was := block[..];
    NextWord(m, t, was);
    block[i] := Blk(block[..], i);
    Slide(Schedule(m), t, was, block[..]);
    z' := Sum(z, (w ^ x ^ y), block[i], 0x6ed9eba1, Rotl(v, 5));
    w' := Rotl(w, 30);
    Round(h, m, t, v, w, x, y, z, (w ^ x ^ y));
  }

  method R3(block: array<Word>, v: Word, w: Word, x: Word, y: Word, z: Word, i: nat,
            ghost h: Regs, ghost m: seq<Word>, ghost t: nat)
    returns (w': Word, z': Word)
    requires 40 <= t < 60 && i == t % 16
    requires Agrees(h, m, t, Regs(v, w, x, y, z), block[..])
    modifies block
    ensures Agrees(h, m, t + 1, Regs(z', v, w', x, y), block[..])
  {
    ghost var was := block[..];
    NextWord(m, t, was);
    block[i] := Blk(block[..], i);
    Slide(Schedule(m), t, was, block[..]);
    z' := Sum(z, (((w | x) & y) | (w & x)), block[i], 0x8f1bbcdc, Rotl(v, 5));
    w' := Rotl(w, 30);
    MajForm(w, x, y);
    Round(h, m, t, v, w, x, y, z, (((w | x) & y) | (w & x)));
  }

  method R4(block: array<Word>, v: Word, w: Word, x: Word, y: Word, z: Word, i: nat,
            ghost h: Regs, ghost m: seq<Word>, ghost t: nat)
    returns (w': Word, z': Word)
    requires 60 <= t < 80 && i == t % 16
    requires Agrees(h, m, t, Regs(v, w, x, y, z), block[..])
    modifies block
    ensures Agrees(h, m, t + 1, Regs(z', v, w', x, y), block[..])
  {
    ghost var was := block[..];
    NextWord(m, t, was);
    block[i] := Blk(block[..], i);
    Slide(Schedule(m), t, was, block[..]);
    z' := Sum(z, (w ^ x ^ y), block[i], 0xca62c1d6, Rotl(v, 5));
    w' := Rotl(w, 30);
    Round(h, m, t, v, w, x, y, z, (w ^ x ^ y));
  }

  // The unrolled rounds.  After every five of them each register is back in its own role.

  method Quarter0(
    block: array<Word>, a0: Word, b0: Word, c0: Word, d0: Word, e0: Word, ghost h: Regs, ghost m: seq<Word>)
    returns (a: Word, b: Word, c: Word, d: Word, e: Word)
    requires Agrees(h, m, 0, Regs(a0, b0, c0, d0, e0), block[..])
    modifies block
    ensures Agrees(h, m, 20, Regs(a, b, c, d, e), block[..])
  {
    hide Agrees;
    a, b, c, d, e := a0, b0, c0, d0, e0;
    b, e := R0(block, a, b, c, d, e, 0, h, m, 0);
    a, d := R0(block, e, a, b, c, d, 1, h, m, 1);
    e, c := R0(block, d, e, a, b, c, 2, h, m, 2);
    d, b := R0(block, c, d, e, a, b, 3, h, m, 3);
    c, a := R0(block, b, c, d, e, a, 4, h, m, 4);
    b, e := R0(block, a, b, c, d, e, 5, h, m, 5);
    a, d := R0(block, e, a, b, c, d, 6, h, m, 6);
    e, c := R0(block, d, e, a, b, c, 7, h, m, 7);
    d, b := R0(block, c, d, e, a, b, 8, h, m, 8);
    c, a := R0(block, b, c, d, e, a, 9, h, m, 9);
    b, e := R0(block, a, b, c, d, e, 10, h, m, 10);
    a, d := R0(block, e, a, b, c, d, 11, h, m, 11);
    e, c := R0(block, d, e, a, b, c, 12, h, m, 12);
    d, b := R0(block, c, d, e, a, b, 13, h, m, 13);
    c, a := R0(block, b, c, d, e, a, 14, h, m, 14);
    b, e := R0(block, a, b, c, d, e, 15, h, m, 15);
    a, d := R1(block, e, a, b, c, d, 0, h, m, 16);
    e, c := R1(block, d, e, a, b, c, 1, h, m, 17);
    d, b := R1(block, c, d, e, a, b, 2, h, m, 18);
    c, a := R1(block, b, c, d, e, a, 3, h, m, 19);
  }

  method Quarter1(
    block: array<Word>, a0: Word, b0: Word, c0: Word, d0: Word, e0: Word, ghost h: Regs, ghost m: seq<Word>)
    returns (a: Word, b: Word, c: Word, d: Word, e: Word)
    requires Agrees(h, m, 20, Regs(a0, b0, c0, d0, e0), block[..])
    modifies block
    ensures Agrees(h, m, 40, Regs(a, b, c, d, e), block[..])
  {
    hide Agrees;
    a, b, c, d, e := a0, b0, c0, d0, e0;
    b, e := R2(block, a, b, c, d, e, 4, h, m, 20);
    a, d := R2(block, e, a, b, c, d, 5, h, m, 21);
    e, c := R2(block, d, e, a, b, c, 6, h, m, 22);
    d, b := R2(block, c, d, e, a, b, 7, h, m, 23);
    c, a := R2(block, b, c, d, e, a, 8, h, m, 24);
    b, e := R2(block, a, b, c, d, e, 9, h, m, 25);
    a, d := R2(block, e, a, b, c, d, 10, h, m, 26);
    e, c := R2(block, d, e, a, b, c, 11, h, m, 27);
    d, b := R2(block, c, d, e, a, b, 12, h, m, 28);
    c, a := R2(block, b, c, d, e, a, 13, h, m, 29);
    b, e := R2(block, a, b, c, d, e, 14, h, m, 30);
    a, d := R2(block, e, a, b, c, d, 15, h, m, 31);
    e, c := R2(block, d, e, a, b, c, 0, h, m, 32);
    d, b := R2(block, c, d, e, a, b, 1, h, m, 33);
    c, a := R2(block, b, c, d, e, a, 2, h, m, 34);
    b, e := R2(block, a, b, c, d, e, 3, h, m, 35);
    a, d := R2(block, e, a, b, c, d, 4, h, m, 36);
    e, c := R2(block, d, e, a, b, c, 5, h, m, 37);
    d, b := R2(block, c, d, e, a, b, 6, h, m, 38);
    c, a := R2(block, b, c, d, e, a, 7, h, m, 39);
  }

  method Quarter2(
    block: array<Word>, a0: Word, b0: Word, c0: Word, d0: Word, e0: Word, ghost h: Regs, ghost m: seq<Word>)
    returns (a: Word, b: Word, c: Word, d: Word, e: Word)
    requires Agrees(h, m, 40, Regs(a0, b0, c0, d0, e0), block[..])
    modifies block
    ensures Agrees(h, m, 60, Regs(a, b, c, d, e), block[..])
  {
    hide Agrees;
    a, b, c, d, e := a0, b0, c0, d0, e0;
    b, e := R3(block, a, b, c, d, e, 8, h, m, 40);
    a, d := R3(block, e, a, b, c, d, 9, h, m, 41);
    e, c := R3(block, d, e, a, b, c, 10, h, m, 42);
    d, b := R3(block, c, d, e, a, b, 11, h, m, 43);
    c, a := R3(block, b, c, d, e, a, 12, h, m, 44);
    b, e := R3(block, a, b, c, d, e, 13, h, m, 45);
    a, d := R3(block, e, a, b, c, d, 14, h, m, 46);
    e, c := R3(block, d, e, a, b, c, 15, h, m, 47);
    d, b := R3(block, c, d, e, a, b, 0, h, m, 48);
    c, a := R3(block, b, c, d, e, a, 1, h, m, 49);
    b, e := R3(block, a, b, c, d, e, 2, h, m, 50);
    a, d := R3(block, e, a, b, c, d, 3, h, m, 51);
    e, c := R3(block, d, e, a, b, c, 4, h, m, 52);
    d, b := R3(block, c, d, e, a, b, 5, h, m, 53);
    c, a := R3(block, b, c, d, e, a, 6, h, m, 54);
    b, e := R3(block, a, b, c, d, e, 7, h, m, 55);
    a, d := R3(block, e, a, b, c, d, 8, h, m, 56);
    e, c := R3(block, d, e, a, b, c, 9, h, m, 57);
    d, b := R3(block, c, d, e, a, b, 10, h, m, 58);
    c, a := R3(block, b, c, d, e, a, 11, h, m, 59);
  }

  method Quarter3(
    block: array<Word>, a0: Word, b0: Word, c0: Word, d0: Word, e0: Word, ghost h: Regs, ghost m: seq<Word>)
    returns (a: Word, b: Word, c: Word, d: Word, e: Word)
    requires Agrees(h, m, 60, Regs(a0, b0, c0, d0, e0), block[..])
    modifies block
    ensures Agrees(h, m, 80, Regs(a, b, c, d, e), block[..])
  {
    hide Agrees;
    a, b, c, d, e := a0, b0, c0, d0, e0;
    b, e := R4(block, a, b, c, d, e, 12, h, m, 60);
    a, d := R4(block, e, a, b, c, d, 13, h, m, 61);
    e, c := R4(block, d, e, a, b, c, 14, h, m, 62);
    d, b := R4(block, c, d, e, a, b, 15, h, m, 63);
    c, a := R4(block, b, c, d, e, a, 0, h, m, 64);
    b, e := R4(block, a, b, c, d, e, 1, h, m, 65);
    a, d := R4(block, e, a, b, c, d, 2, h, m, 66);
    e, c := R4(block, d, e, a, b, c, 3, h, m, 67);
    d, b := R4(block, c, d, e, a, b, 4, h, m, 68);
    c, a := R4(block, b, c, d, e, a, 5, h, m, 69);
    b, e := R4(block, a, b, c, d, e, 6, h, m, 70);
    a, d := R4(block, e, a, b, c, d, 7, h, m, 71);
    e, c := R4(block, d, e, a, b, c, 8, h, m, 72);
    d, b := R4(block, c, d, e, a, b, 9, h, m, 73);
    c, a := R4(block, b, c, d, e, a, 10, h, m, 74);
    b, e := R4(block, a, b, c, d, e, 11, h, m, 75);
    a, d := R4(block, e, a, b, c, d, 12, h, m, 76);
    e, c := R4(block, d, e, a, b, c, 13, h, m, 77);
    d, b := R4(block, c, d, e, a, b, 14, h, m, 78);
    c, a := R4(block, b, c, d, e, a, 15, h, m, 79);
  }

  lemma Start(h: Regs, m: seq<Word>)
    requires |m| == 16
    ensures Agrees(h, m, 0, h, m)
  {
  }

  lemma Finish(h: Regs, m: seq<Word>, r: Regs, block: seq<Word>)
    requires Agrees(h, m, 80, r, block)
    ensures Compress(h, m) == Plus(h, r)
  {
    hide Rounds, Plus;
  }

  /** Hash one block; the block buffer is overwritten by the schedule. */
  method Transform(digest: array<Word>, block: array<Word>, transforms: nat)
    returns (transforms': nat)
    requires digest.Length == 5 && block.Length == 16 && digest != block
    modifies digest, block
    ensures Value(digest[..]) == Compress(old(Value(digest[..])), old(block[..]))
    ensures transforms' == (transforms + 1) % TWO_64
  {
    ghost var h, m := Value(digest[..]), block[..];
    hide Agrees, Compress, Add;
    Start(h, m);
    var a := digest[0];
    var b := digest[1];
    var c := digest[2];
    var d := digest[3];
    var e := digest[4];

    a, b, c, d, e := Quarter0(block, a, b, c, d, e, h, m);
    a, b, c, d, e := Quarter1(block, a, b, c, d, e, h, m);
    a, b, c, d, e := Quarter2(block, a, b, c, d, e, h, m);
    a, b, c, d, e := Quarter3(block, a, b, c, d, e, h, m);

    Finish(h, m, Regs(a, b, c, d, e), block[..]);
    digest[0] := Add(digest[0], a);
    digest[1] := Add(digest[1], b);
    digest[2] := Add(digest[2], c);
    digest[3] := Add(digest[3], d);
    digest[4] := Add(digest[4], e);
    transforms' := (transforms + 1) % TWO_64;
  }

  /** The last two words of a block are overwritten by the length. */
  method PutLength(block: array<Word>, ghost last: seq<Word>, bits: bv64)
    requires block.Length == 16 && |last| == 16 && forall j :: 0 <= j < 14 ==> block[j] == last[j]
    modifies block
    ensures block[..] == WithLength(last, bits)
  {
    hide High, Low;
    block[BLOCK_INTS - 1] := Low(bits);
    block[BLOCK_INTS - 2] := High(bits);
  }

  function Value(digest: seq<Word>): Regs
    requires |digest| == 5
  {
    Regs(digest[0], digest[1], digest[2], digest[3], digest[4])
  }

  /** Big-endian words out of a full buffer. */
  method BufferToBlock(buffer: seq<Octet>, block: array<Word>)
    requires |buffer| == 64 && block.Length == 16
    modifies block
    ensures block[..] == Parse(buffer)
  {
    hide WordOf;
    for i := 0 to BLOCK_INTS
      invariant forall j :: 0 <= j < i ==> block[j] == Parse(buffer)[j]
    {
      block[i] := WordOf(buffer[4 * i], buffer[4 * i + 1], buffer[4 * i + 2], buffer[4 * i + 3]);
    }
  }

  method ClearBlock(block: array<Word>)
    requires block.Length == 16
    modifies block
    ensures forall j :: 0 <= j < 14 ==> block[j] == 0
  {
    for i := 0 to BLOCK_INTS - 2
      invariant forall j :: 0 <= j < i ==> block[j] == 0
    {
      block[i] := 0;
    }
  }

  // Hexadecimal output.

  function Nibble(w: Word): (c: byte)
    ensures IsLowerHex(c)
  {
    HexDigit(((w & 0xf) as bv4) as int)
  }

  function HexWord(w: Word): (h: Bytes)
    ensures |h| == 8 && forall i :: 0 <= i < 8 ==> IsLowerHex(h[i])
  {
    [Nibble(w >> 28), Nibble(w >> 24), Nibble(w >> 20), Nibble(w >> 16),
     Nibble(w >> 12), Nibble(w >> 8), Nibble(w >> 4), Nibble(w)]
  }

  function HexWords(ws: seq<Word>): (h: Bytes)
    ensures |h| == 8 * |ws|
    ensures forall i :: 0 <= i < |h| ==> IsLowerHex(h[i])
  {
    if ws == [] then [] else HexWords(ws[..|ws| - 1]) + HexWord(ws[|ws| - 1])
  }

  function Words(r: Regs): (ws: seq<Word>)
    ensures |ws| == 5
  {
    [r.a, r.b, r.c, r.d, r.e]
  }

  /** What `final` promises: the SHA-1 of everything hashed, as forty lower-case digits. */
  function HexDigest(m: seq<Octet>): (h: Bytes)
    ensures |h| == 40 && IsHexText(h)
  {
    HexWords(Words(Digest(m)))
  }

  // Padding.

  /** A block that ends the message, up to the marker and zeros. */
  function EndBlock(rest: seq<Octet>): (block: seq<Octet>)
    requires |rest| < 64
    ensures |block| == 64
  {
    rest + [0x80] + Zeros(63 - |rest|)
  }

  lemma ZerosAppend(j: nat, k: nat)
    ensures Zeros(j) + Zeros(k) == Zeros(j + k)
  {
  }

  lemma ZerosNeeded(n: nat, size: nat)
    requires size < 64 && n % 64 == size
    ensures ZeroCount(n) == if size < 56 then 55 - size else 119 - size
  {
  }

  lemma Regroup<T>(front: seq<T>, rest: seq<T>, mark: seq<T>, j: seq<T>, k: seq<T>, end: seq<T>)
    ensures (front + rest) + mark + (j + k) + end == front + (rest + mark + j) + (k + end)
  {
  }

  /** The padded message when the length still fits behind the marker. */
  lemma PadShort(m: seq<Octet>, n: nat, buffer: seq<Octet>)
    requires n <= |m| && n % 64 == 0 && m[n..] == buffer && |buffer| < 56
    ensures Pad(m) == m[..n] + (buffer + [0x80] + Zeros(55 - |buffer|) + LengthOctets(BitLength(|m|)))
  {
    hide LengthOctets, BitLength, ZeroCount, Zeros;
    ZerosNeeded(|m|, |buffer|);
    assert m == m[..n] + buffer;
  }

  /** The padded message when the length needs a block of its own. */
  lemma PadLong(m: seq<Octet>, n: nat, buffer: seq<Octet>)
    requires n <= |m| && n % 64 == 0 && m[n..] == buffer && 56 <= |buffer| < 64
    ensures Pad(m) == m[..n] + EndBlock(buffer) + (Zeros(56) + LengthOctets(BitLength(|m|)))
  {
    hide LengthOctets, BitLength, ZeroCount, Zeros;
    ZerosNeeded(|m|, |buffer|);
    ZerosAppend(63 - |buffer|, 56);
    assert m == m[..n] + buffer;
    Regroup(m[..n], buffer, [0x80], Zeros(63 - |buffer|), Zeros(56), LengthOctets(BitLength(|m|)));
  }

  /** Overwriting the last two words of a block is overwriting its last eight octets. */
  lemma LastBlock(front: seq<Octet>, rest: seq<Octet>, bits: bv64)
    requires |front| == 56 && |rest| == 8
    ensures Parse(front + rest)[14 := (bits >> 32) as Word][15 := (bits & 0xffff_ffff) as Word]
            == Parse(front + LengthOctets(bits))
  {
    hide WordOf, LengthOctets;
    LengthWords(bits);
    var was, now := Parse(front + rest), Parse(front + LengthOctets(bits));
    forall i | 0 <= i < 14
      ensures was[i] == now[i]
    {
      assert (front + rest)[4 * i..4 * i + 4] == (front + LengthOctets(bits))[4 * i..4 * i + 4];
    }
  }

  lemma ZeroBlock()
    ensures Parse(Zeros(64)) == ZERO_BLOCK
  {
    assert WordOf(0, 0, 0, 0) == 0;
  }

  /** The bit counter is kept modulo 2^64; the length field of the standard does not notice. */
  lemma BitCount(n: nat, rest: nat)
    ensures ((((n / 64) % TWO_64) * 64 + rest) * 8) % TWO_64 == ((n / 64 * 64 + rest) * 8) % TWO_64
  {
    var t := n / 64;
    assert t == t % TWO_64 + TWO_64 * (t / TWO_64);
    assert (t * 64 + rest) * 8 == ((t % TWO_64) * 64 + rest) * 8 + TWO_64 * (512 * (t / TWO_64));
  }

  /** `total_bits`, out of the counter of blocks and the buffer. */
  function TotalBits(transforms: nat, size: nat): bv64 {
    (((transforms * BLOCK_BYTES + size) * 8) % TWO_64) as bv64
  }

  lemma TotalBitsIs(n: nat, rest: nat)
    requires n % 64 == 0
    ensures TotalBits((n / 64) % TWO_64, rest) == BitLength(n + rest)
  {
    BitCount(n, rest);
    assert n / 64 * 64 == n;
  }

  /** `(uint32_t)(total_bits >> 32)` and `(uint32_t)total_bits`. */
  function High(bits: bv64): Word { (bits >> 32) as Word }

  function Low(bits: bv64): Word { (bits & 0xffff_ffff) as Word }

  /** The two length words over the last block. */
  function WithLength(block: seq<Word>, bits: bv64): seq<Word>
    requires |block| == 16
  {
    block[14 := High(bits)][15 := Low(bits)]
  }

  /** Padding in place when the length fits: one more block completes the digest. */
  lemma FinishShort(m: seq<Octet>, n: nat, rest: seq<Octet>)
    requires n <= |m| && n % 64 == 0 && m[n..] == rest && |rest| < 56
    ensures Compress(HashBlocks(INITIAL, m[..n]),
                     WithLength(Parse(EndBlock(rest)), BitLength(|m|))) == Digest(m)
  {
    hide Compress, Parse, HashBlocks, LengthOctets, Pad, BitLength;
    var bits := BitLength(|m|);
    var front := rest + [0x80] + Zeros(55 - |rest|);
    PadShort(m, n, rest);
    ZerosAppend(55 - |rest|, 8);
    assert EndBlock(rest) == front + Zeros(8);
    LastBlock(front, Zeros(8), bits);
    HashOneBlock(INITIAL, m[..n], front + LengthOctets(bits));
  }

  function ZeroWords(n: nat): (ws: seq<Word>)
    ensures |ws| == n && forall i :: 0 <= i < n ==> ws[i] == 0
  {
    seq(n, _ => 0)
  }

  const ZERO_BLOCK := ZeroWords(16)

  /** The registers after the block that ends the message. */
  function AfterEnd(front: seq<Octet>, rest: seq<Octet>): Regs
    requires |rest| < 64
  {
    Compress(HashBlocks(INITIAL, front), Parse(EndBlock(rest)))
  }

  /** Padding in place when it does not: two more blocks complete the digest. */
  lemma FinishLong(m: seq<Octet>, n: nat, rest: seq<Octet>, h: Regs)
    requires n <= |m| && n % 64 == 0 && m[n..] == rest && 56 <= |rest| < 64
    requires h == AfterEnd(m[..n], rest)
    ensures Compress(h, WithLength(ZERO_BLOCK, BitLength(|m|))) == Digest(m)
  {
    hide Compress, HashBlocks, LengthOctets, Pad, BitLength, WordOf;
    var bits := BitLength(|m|);
    var full := EndBlock(rest);
    PadLong(m, n, rest);
    ZerosAppend(56, 8);
    ZeroBlock();
    LastBlock(Zeros(56), Zeros(8), bits);
    HashOneBlock(INITIAL, m[..n], full);
    HashOneBlock(INITIAL, m[..n] + full, Zeros(56) + LengthOctets(bits));
  }

  /** What the fields of a SHA-1 object say about the octets hashed so far. */
  ghost predicate Consistent(d: Regs, buffer: seq<Octet>, transforms: nat, hashed: seq<Octet>) {
    && |buffer| <= |hashed|
    && var n := |hashed| - |buffer|;
       && n % 64 == 0
       && hashed[n..] == buffer
       && d == HashBlocks(INITIAL, hashed[..n])
       && transforms == (n / 64) % TWO_64
  }

  lemma Nothing()
    ensures Consistent(INITIAL, [], 0, [])
  {
    hide Compress, Parse;
  }

  lemma Absorb(d: Regs, buffer: seq<Octet>, transforms: nat, hashed: seq<Octet>, s: seq<Octet>)
    requires Consistent(d, buffer, transforms, hashed)
    ensures Consistent(d, buffer + s, transforms, hashed + s)
  {
    hide HashBlocks;
    var n := |hashed| - |buffer|;
    assert (hashed + s)[n..] == buffer + s && (hashed + s)[..n] == hashed[..n];
  }

  lemma Flush(d: Regs, buffer: seq<Octet>, transforms: nat, hashed: seq<Octet>)
    requires Consistent(d, buffer, transforms, hashed) && |buffer| == 64
    ensures Consistent(Compress(d, Parse(buffer)), [], (transforms + 1) % TWO_64, hashed)
  {
    hide HashBlocks, Compress, Parse;
    var n := |hashed| - |buffer|;
    HashOneBlock(INITIAL, hashed[..n], buffer);
    assert hashed[..n] + buffer == hashed == hashed[..|hashed|];
    assert (n + 64) / 64 == n / 64 + 1;
  }

  class SHA1 {
    const digest: array<Word>
    var buffer: seq<Octet>
    var transforms: nat
    /** Everything hashed since the last reset. */
    ghost var hashed: seq<Octet>

    ghost predicate Valid()
      reads this, digest
    {
      && digest.Length == 5
      && |buffer| < 64
      && Consistent(Value(digest[..]), buffer, transforms, hashed)
    }

    constructor ()
      ensures Valid() && fresh(digest) && hashed == []
    {
      digest := new Word[5];
      buffer, transforms, hashed := [], 0, [];
      new;
      Reset();
    }

    method Reset()
      requires digest.Length == 5
      modifies this, digest
      ensures Valid() && hashed == []
    {
      hide Consistent;
      digest[0] := 0x67452301;
      digest[1] := 0xefcdab89;
      digest[2] := 0x98badcfe;
      digest[3] := 0x10325476;
      digest[4] := 0xc3d2e1f0;
      buffer := [];
      transforms := 0;
      hashed := [];
      Nothing();
    }

    method Update(s: seq<Octet>)
      requires Valid()
      modifies this, digest
      ensures Valid() && hashed == old(hashed) + s
    {
      hide Consistent, Value;
      var pos := 0;
      assert old(hashed) + s[..0] == old(hashed);
      while true
        invariant 0 <= pos <= |s|
        invariant Valid() && hashed == old(hashed) + s[..pos]
        decreases |s| - pos
      {
        var count := if BLOCK_BYTES - |buffer| <= |s| - pos then BLOCK_BYTES - |buffer| else |s| - pos;
        Absorb(Value(digest[..]), buffer, transforms, hashed, s[pos..pos + count]);
        buffer := buffer + s[pos..pos + count];
        hashed := hashed + s[pos..pos + count];
        assert s[..pos] + s[pos..pos + count] == s[..pos + count];
        pos := pos + count;
        if |buffer| != BLOCK_BYTES {
          assert s[..pos] == s;
          return;
        }
        HashBuffer();
      }
    }

    /** Hash a full buffer and clear it. */
    method HashBuffer()
      requires digest.Length == 5 && |buffer| == 64 && Consistent(Value(digest[..]), buffer, transforms, hashed)
      modifies this`buffer, this`transforms, digest
      ensures Valid() && buffer == []
    {
      hide Consistent, Value, Compress, Parse;
      Flush(Value(digest[..]), buffer, transforms, hashed);
      var block := new Word[16];
      BufferToBlock(buffer, block);
      transforms := Transform(digest, block, transforms);
      buffer := [];
    }

    /** The marker octet, then zeros up to a full buffer; returns the size with the marker. */
    method PadBuffer() returns (origSize: nat)
      requires |buffer| < 64
      modifies this`buffer
      ensures origSize == |old(buffer)| + 1
      ensures buffer == EndBlock(old(buffer))
    {
      buffer := buffer + [0x80];
      origSize := |buffer|;
      while |buffer| < BLOCK_BYTES
        invariant origSize <= |buffer| <= BLOCK_BYTES
        invariant buffer == old(buffer) + [0x80] + Zeros(|buffer| - origSize)
      {
        buffer := buffer + [0];
      }
    }

    /** Pad and hash what is left in the buffer. */
    method Finish()
      requires Valid()
      modifies this, digest
      ensures Value(digest[..]) == Digest(old(hashed))
    {
      hide Compress, Parse, HashBlocks, Digest, Value, BitLength, High, Low, EndBlock, WithLength, TotalBits;
      ghost var m, rest, n := hashed, buffer, |hashed| - |buffer|;
      var bits := TotalBits(transforms, |buffer|);
      TotalBitsIs(n, |buffer|);

      var origSize := PadBuffer();

      var block := new Word[16];
      BufferToBlock(buffer, block);
      ghost var last := block[..];
      if origSize > BLOCK_BYTES - 8 {
        transforms := Transform(digest, block, transforms);
        ClearBlock(block);
        last := ZERO_BLOCK;
        FinishLong(m, n, rest, Value(digest[..]));
      } else {
        FinishShort(m, n, rest);
      }
      PutLength(block, last, bits);
      transforms := Transform(digest, block, transforms);
    }

    /** The digest words as eight hexadecimal digits each. */
    method Hex() returns (result: Bytes)
      requires digest.Length == 5
      ensures result == HexWords(Words(Value(digest[..])))
    {
      hide HexWords, HexWord;
      result := [];
      assert result == HexWords([]) by { NoWords(); }
      for i := 0 to 5
        invariant result == HexWords(digest[..i])
      {
        AppendWord(digest[..i], digest[i]);
        assert digest[..i + 1] == digest[..i] + [digest[i]];
        result := result + HexWord(digest[i]);
      }
      assert digest[..5] == Words(Value(digest[..]));
    }

    /** Pad, hash the rest, return the digest in hexadecimal and start over. */
    method Final() returns (result: Bytes)
      requires Valid()
      modifies this, digest
      ensures Valid() && hashed == []
      ensures result == HexDigest(old(hashed))
    {
      hide Digest, HexWords, Words, Value;
      Finish();
      result := Hex();
      Reset();
    }
  }

  lemma NoWords()
    ensures HexWords([]) == []
  {
  }

  lemma AppendWord(ws: seq<Word>, w: Word)
    ensures HexWords(ws + [w]) == HexWords(ws) + HexWord(w)
  {
    hide HexWord;
    assert (ws + [w])[..|ws|] == ws;
  }

  function Flatten(chunks: seq<seq<Octet>>): seq<Octet> {
    if chunks == [] then [] else Flatten(chunks[..|chunks| - 1]) + chunks[|chunks| - 1]
  }

  /** However the input is split over calls of `update`, `final` gives the SHA-1 of all of it. */
  method HashChunks(chunks: seq<seq<Octet>>) returns (result: Bytes)
    ensures result == HexDigest(Flatten(chunks))
  {
    hide Consistent, Value, HexDigest;
    var sha := new SHA1();
    for i := 0 to |chunks|
      invariant fresh(sha) && fresh(sha.digest)
      invariant sha.Valid() && sha.hashed == Flatten(chunks[..i])
    {
      sha.Update(chunks[i]);
      assert chunks[..i + 1][..i] == chunks[..i];
    }
    assert chunks[..|chunks|] == chunks;
    result := sha.Final();
  }
}
