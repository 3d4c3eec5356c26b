/** A known answer: the digest of the three octets "abc", an example of FIPS 180.

    Nothing here follows from the definitions agreeing with each other: every constant, rotation and
    function of `Sha1Spec` goes into these numbers, and so does the text that comes out. */
module Sha1Known {
  import opened Bytes
  import opened Sha1Spec
  import opened Sha1

  /** The constants of section 4.2.1 are the square roots of 2, 3, 5 and 10, times 2^30, without fraction. */
  lemma RootConstants(t: nat, c: nat)
    requires t < 80 && c == (if t < 20 then 2 else if t < 40 then 3 else if t < 60 then 5 else 10)
    ensures var k := K(t) as nat; k * k <= c * 0x1000_0000_0000_0000 < (k + 1) * (k + 1)
  {
  }

  // The numbers.

  /** The words of the schedule. */
  function WordAt(t: nat): Word {
    if t < 10 then
      (match t
       case 0 => 0x61626380 case 1 => 0 case 2 => 0 case 3 => 0 case 4 => 0
       case 5 => 0 case 6 => 0 case 7 => 0 case 8 => 0 case _ => 0)
    else if t < 20 then
      (match t
       case 10 => 0 case 11 => 0 case 12 => 0 case 13 => 0 case 14 => 0
       case 15 => 0x00000018 case 16 => 0xc2c4c700 case 17 => 0 case 18 => 0x00000030 case _ => 0x85898e01)
    else if t < 30 then
      (match t
       case 20 => 0 case 21 => 0x00000060 case 22 => 0x0b131c03 case 23 => 0x00000030 case 24 => 0x85898ec1
       case 25 => 0x16263806 case 26 => 0 case 27 => 0x00000180 case 28 => 0x2c4c700c case _ => 0x000000f0)
    else if t < 40 then
      (match t
       case 30 => 0x93afb507 case 31 => 0x5898e048 case 32 => 0x8e9a9202 case 33 => 0x00000600 case 34 => 0xb131c0f0
       case 35 => 0x16263bc6 case 36 => 0x4ebed41e case 37 => 0x626380a1 case 38 => 0x16263806 case _ => 0x000018c0)
    else if t < 50 then
      (match t
       case 40 => 0xd2e138c4 case 41 => 0x00000f00 case 42 => 0x3afb5079 case 43 => 0x898e04e5 case 44 => 0xe2ba3c2b
       case 45 => 0x000060c0 case 46 => 0x053a37cd case 47 => 0x74458547 case 48 => 0xda9415ed case _ => 0x26380a16)
    else if t < 60 then
      (match t
       case 50 => 0x626383a1 case 51 => 0x4ebf54de case 52 => 0x3835b44b case 53 => 0x0000f600 case 54 => 0x1e84c7a3
       case 55 => 0x98e04d98 case 56 => 0x651d16a0 case 57 => 0x62658ca1 case 58 => 0x458544d6 case _ => 0x44584cb7)
    else if t < 70 then
      (match t
       case 60 => 0x7ba06619 case 61 => 0x6380aea2 case 62 => 0x0ae55269 case 63 => 0x627b49a1 case 64 => 0x7cd45c9d
       case 65 => 0x000f0000 case 66 => 0xfb50753a case 67 => 0xec6765e8 case 68 => 0xba3c2be2 case _ => 0x0060c000)
    else
      (match t
       case 70 => 0x3a37cd05 case 71 => 0x458546f4 case 72 => 0xb8599dd6 case 73 => 0x380a1a26 case 74 => 0x01e02203
       case 75 => 0xe7cc3456 case 76 => 0xe6e60b69 case 77 => 0x00f60a00 case 78 => 0x5795ef4f case _ => 0x822e0879)
  }

  /** The registers after `t` rounds. */
  function RegsAt(t: nat): Regs {
    if t < 10 then
      (match t
       case 0 => Regs(0x67452301, 0xefcdab89, 0x98badcfe, 0x10325476, 0xc3d2e1f0)
       case 1 => Regs(0x0116fc33, 0x67452301, 0x7bf36ae2, 0x98badcfe, 0x10325476)
       case 2 => Regs(0x8990536d, 0x0116fc33, 0x59d148c0, 0x7bf36ae2, 0x98badcfe)
       case 3 => Regs(0xa1390f08, 0x8990536d, 0xc045bf0c, 0x59d148c0, 0x7bf36ae2)
       case 4 => Regs(0xcdd8e11b, 0xa1390f08, 0x626414db, 0xc045bf0c, 0x59d148c0)
       case 5 => Regs(0xcfd499de, 0xcdd8e11b, 0x284e43c2, 0x626414db, 0xc045bf0c)
       case 6 => Regs(0x3fc7ca40, 0xcfd499de, 0xf3763846, 0x284e43c2, 0x626414db)
       case 7 => Regs(0x993e30c1, 0x3fc7ca40, 0xb3f52677, 0xf3763846, 0x284e43c2)
       case 8 => Regs(0x9e8c07d4, 0x993e30c1, 0x0ff1f290, 0xb3f52677, 0xf3763846)
       case _ => Regs(0x4b6ae328, 0x9e8c07d4, 0x664f8c30, 0x0ff1f290, 0xb3f52677))
    else if t < 20 then
      (match t
       case 10 => Regs(0x8351f929, 0x4b6ae328, 0x27a301f5, 0x664f8c30, 0x0ff1f290)
       case 11 => Regs(0xfbda9e89, 0x8351f929, 0x12dab8ca, 0x27a301f5, 0x664f8c30)
       case 12 => Regs(0x63188fe4, 0xfbda9e89, 0x60d47e4a, 0x12dab8ca, 0x27a301f5)
       case 13 => Regs(0x4607b664, 0x63188fe4, 0x7ef6a7a2, 0x60d47e4a, 0x12dab8ca)
       case 14 => Regs(0x9128f695, 0x4607b664, 0x18c623f9, 0x7ef6a7a2, 0x60d47e4a)
       case 15 => Regs(0x196bee77, 0x9128f695, 0x1181ed99, 0x18c623f9, 0x7ef6a7a2)
       case 16 => Regs(0x20bdd62f, 0x196bee77, 0x644a3da5, 0x1181ed99, 0x18c623f9)
       case 17 => Regs(0x4e925823, 0x20bdd62f, 0xc65afb9d, 0x644a3da5, 0x1181ed99)
       case 18 => Regs(0x82aa6728, 0x4e925823, 0xc82f758b, 0xc65afb9d, 0x644a3da5)
       case _ => Regs(0xdc64901d, 0x82aa6728, 0xd3a49608, 0xc82f758b, 0xc65afb9d))
    else if t < 30 then
      (match t
       case 20 => Regs(0xfd9e1d7d, 0xdc64901d, 0x20aa99ca, 0xd3a49608, 0xc82f758b)
       case 21 => Regs(0x1a37b0ca, 0xfd9e1d7d, 0x77192407, 0x20aa99ca, 0xd3a49608)
       case 22 => Regs(0x33a23bfc, 0x1a37b0ca, 0x7f67875f, 0x77192407, 0x20aa99ca)
       case 23 => Regs(0x21283486, 0x33a23bfc, 0x868dec32, 0x7f67875f, 0x77192407)
       case 24 => Regs(0xd541f12d, 0x21283486, 0x0ce88eff, 0x868dec32, 0x7f67875f)
       case 25 => Regs(0xc7567dc6, 0xd541f12d, 0x884a0d21, 0x0ce88eff, 0x868dec32)
       case 26 => Regs(0x48413ba4, 0xc7567dc6, 0x75507c4b, 0x884a0d21, 0x0ce88eff)
       case 27 => Regs(0xbe35fbd5, 0x48413ba4, 0xb1d59f71, 0x75507c4b, 0x884a0d21)
       case 28 => Regs(0x4aa84d97, 0xbe35fbd5, 0x12104ee9, 0xb1d59f71, 0x75507c4b)
       case _ => Regs(0x8370b52e, 0x4aa84d97, 0x6f8d7ef5, 0x12104ee9, 0xb1d59f71))
    else if t < 40 then
      (match t
       case 30 => Regs(0xc5fbaf5d, 0x8370b52e, 0xd2aa1365, 0x6f8d7ef5, 0x12104ee9)
       case 31 => Regs(0x1267b407, 0xc5fbaf5d, 0xa0dc2d4b, 0xd2aa1365, 0x6f8d7ef5)
       case 32 => Regs(0x3b845d33, 0x1267b407, 0x717eebd7, 0xa0dc2d4b, 0xd2aa1365)
       case 33 => Regs(0x046faa0a, 0x3b845d33, 0xc499ed01, 0x717eebd7, 0xa0dc2d4b)
       case 34 => Regs(0x2c0ebc11, 0x046faa0a, 0xcee1174c, 0xc499ed01, 0x717eebd7)
       case 35 => Regs(0x21796ad4, 0x2c0ebc11, 0x811bea82, 0xcee1174c, 0xc499ed01)
       case 36 => Regs(0xdcbbb0cb, 0x21796ad4, 0x4b03af04, 0x811bea82, 0xcee1174c)
       case 37 => Regs(0x0f511fd8, 0xdcbbb0cb, 0x085e5ab5, 0x4b03af04, 0x811bea82)
       case 38 => Regs(0xdc63973f, 0x0f511fd8, 0xf72eec32, 0x085e5ab5, 0x4b03af04)
       case _ => Regs(0x4c986405, 0xdc63973f, 0x03d447f6, 0xf72eec32, 0x085e5ab5))
    else if t < 50 then
      (match t
       case 40 => Regs(0x32de1cba, 0x4c986405, 0xf718e5cf, 0x03d447f6, 0xf72eec32)
       case 41 => Regs(0xfc87dedf, 0x32de1cba, 0x53261901, 0xf718e5cf, 0x03d447f6)
       case 42 => Regs(0x970a0d5c, 0xfc87dedf, 0x8cb7872e, 0x53261901, 0xf718e5cf)
       case 43 => Regs(0x7f193dc5, 0x970a0d5c, 0xff21f7b7, 0x8cb7872e, 0x53261901)
       case 44 => Regs(0xee1b1aaf, 0x7f193dc5, 0x25c28357, 0xff21f7b7, 0x8cb7872e)
       case 45 => Regs(0x40f28e09, 0xee1b1aaf, 0x5fc64f71, 0x25c28357, 0xff21f7b7)
       case 46 => Regs(0x1c51e1f2, 0x40f28e09, 0xfb86c6ab, 0x5fc64f71, 0x25c28357)
       case 47 => Regs(0xa01b846c, 0x1c51e1f2, 0x503ca382, 0xfb86c6ab, 0x5fc64f71)
       case 48 => Regs(0xbead02ca, 0xa01b846c, 0x8714787c, 0x503ca382, 0xfb86c6ab)
       case _ => Regs(0xbaf39337, 0xbead02ca, 0x2806e11b, 0x8714787c, 0x503ca382))
    else if t < 60 then
      (match t
       case 50 => Regs(0x120731c5, 0xbaf39337, 0xafab40b2, 0x2806e11b, 0x8714787c)
       case 51 => Regs(0x641db2ce, 0x120731c5, 0xeebce4cd, 0xafab40b2, 0x2806e11b)
       case 52 => Regs(0x3847ad66, 0x641db2ce, 0x4481cc71, 0xeebce4cd, 0xafab40b2)
       case 53 => Regs(0xe490436d, 0x3847ad66, 0x99076cb3, 0x4481cc71, 0xeebce4cd)
       case 54 => Regs(0x27e9f1d8, 0xe490436d, 0x8e11eb59, 0x99076cb3, 0x4481cc71)
       case 55 => Regs(0x7b71f76d, 0x27e9f1d8, 0x792410db, 0x8e11eb59, 0x99076cb3)
       case 56 => Regs(0x5e6456af, 0x7b71f76d, 0x09fa7c76, 0x792410db, 0x8e11eb59)
       case 57 => Regs(0xc846093f, 0x5e6456af, 0x5edc7ddb, 0x09fa7c76, 0x792410db)
       case 58 => Regs(0xd262ff50, 0xc846093f, 0xd79915ab, 0x5edc7ddb, 0x09fa7c76)
       case _ => Regs(0x09d785fd, 0xd262ff50, 0xf211824f, 0xd79915ab, 0x5edc7ddb))
    else if t < 70 then
      (match t
       case 60 => Regs(0x3f52de5a, 0x09d785fd, 0x3498bfd4, 0xf211824f, 0xd79915ab)
       case 61 => Regs(0xd756c147, 0x3f52de5a, 0x4275e17f, 0x3498bfd4, 0xf211824f)
       case 62 => Regs(0x548c9cb2, 0xd756c147, 0x8fd4b796, 0x4275e17f, 0x3498bfd4)
       case 63 => Regs(0xb66c020b, 0x548c9cb2, 0xf5d5b051, 0x8fd4b796, 0x4275e17f)
       case 64 => Regs(0x6b61c9e1, 0xb66c020b, 0x9523272c, 0xf5d5b051, 0x8fd4b796)
       case 65 => Regs(0x19dfa7ac, 0x6b61c9e1, 0xed9b0082, 0x9523272c, 0xf5d5b051)
       case 66 => Regs(0x101655f9, 0x19dfa7ac, 0x5ad87278, 0xed9b0082, 0x9523272c)
       case 67 => Regs(0x0c3df2b4, 0x101655f9, 0x0677e9eb, 0x5ad87278, 0xed9b0082)
       case 68 => Regs(0x78dd4d2b, 0x0c3df2b4, 0x4405957e, 0x0677e9eb, 0x5ad87278)
       case _ => Regs(0x497093c0, 0x78dd4d2b, 0x030f7cad, 0x4405957e, 0x0677e9eb))
    else if t < 80 then
      (match t
       case 70 => Regs(0x3f2588c2, 0x497093c0, 0xde37534a, 0x030f7cad, 0x4405957e)
       case 71 => Regs(0xc199f8c7, 0x3f2588c2, 0x125c24f0, 0xde37534a, 0x030f7cad)
       case 72 => Regs(0x39859de7, 0xc199f8c7, 0x8fc96230, 0x125c24f0, 0xde37534a)
       case 73 => Regs(0xedb42de4, 0x39859de7, 0xf0667e31, 0x8fc96230, 0x125c24f0)
       case 74 => Regs(0x11793f6f, 0xedb42de4, 0xce616779, 0xf0667e31, 0x8fc96230)
       case 75 => Regs(0x5ee76897, 0x11793f6f, 0x3b6d0b79, 0xce616779, 0xf0667e31)
       case 76 => Regs(0x63f7dab7, 0x5ee76897, 0xc45e4fdb, 0x3b6d0b79, 0xce616779)
       case 77 => Regs(0xa079b7d9, 0x63f7dab7, 0xd7b9da25, 0xc45e4fdb, 0x3b6d0b79)
       case 78 => Regs(0x860d21cc, 0xa079b7d9, 0xd8fdf6ad, 0xd7b9da25, 0xc45e4fdb)
       case _ => Regs(0x5738d5e1, 0x860d21cc, 0x681e6df6, 0xd8fdf6ad, 0xd7b9da25))
    else
      (match t
       case _ => Regs(0x42541b35, 0x5738d5e1, 0x21834873, 0x681e6df6, 0xd8fdf6ad))
  }

  /** The padded message as one block. */
  predicate IsAbc(m: seq<Word>) {
    |m| == 16 && forall t :: 0 <= t < 16 ==> m[t] == WordAt(t)
  }

  predicate MixAt(t: nat)
    requires 16 <= t
  {
    Mix(WordAt(t - 3), WordAt(t - 8), WordAt(t - 14), WordAt(t - 16)) == WordAt(t)
  }

  predicate StepAt(t: nat) {
    Step(RegsAt(t), t, WordAt(t)) == RegsAt(t + 1)
  }

  lemma Mixed16(t: nat)
    requires 16 <= t < 20
    ensures MixAt(t)
  {
  }

  lemma Mixed20(t: nat)
    requires 20 <= t < 24
    ensures MixAt(t)
  {
  }

  lemma Mixed24(t: nat)
    requires 24 <= t < 28
    ensures MixAt(t)
  {
  }

  lemma Mixed28(t: nat)
    requires 28 <= t < 32
    ensures MixAt(t)
  {
  }

  lemma Mixed32(t: nat)
    requires 32 <= t < 36
    ensures MixAt(t)
  {
  }

  lemma Mixed36(t: nat)
    requires 36 <= t < 40
    ensures MixAt(t)
  {
  }

  lemma Mixed40(t: nat)
    requires 40 <= t < 44
    ensures MixAt(t)
  {
  }

  lemma Mixed44(t: nat)
    requires 44 <= t < 48
    ensures MixAt(t)
  {
  }

  lemma Mixed48(t: nat)
    requires 48 <= t < 52
    ensures MixAt(t)
  {
  }

  lemma Mixed52(t: nat)
    requires 52 <= t < 56
    ensures MixAt(t)
  {
  }

  lemma Mixed56(t: nat)
    requires 56 <= t < 60
    ensures MixAt(t)
  {
  }

  lemma Mixed60(t: nat)
    requires 60 <= t < 64
    ensures MixAt(t)
  {
  }

  lemma Mixed64(t: nat)
    requires 64 <= t < 68
    ensures MixAt(t)
  {
  }

  lemma Mixed68(t: nat)
    requires 68 <= t < 72
    ensures MixAt(t)
  {
  }

  lemma Mixed72(t: nat)
    requires 72 <= t < 76
    ensures MixAt(t)
  {
  }

  lemma Mixed76(t: nat)
    requires 76 <= t < 80
    ensures MixAt(t)
  {
  }

  lemma Stepped0(t: nat)
    requires 0 <= t < 5
    ensures StepAt(t)
  {
  }

  lemma Stepped5(t: nat)
    requires 5 <= t < 10
    ensures StepAt(t)
  {
  }

  lemma Stepped10(t: nat)
    requires 10 <= t < 15
    ensures StepAt(t)
  {
  }

  lemma Stepped15(t: nat)
    requires 15 <= t < 20
    ensures StepAt(t)
  {
  }

  lemma Stepped20(t: nat)
    requires 20 <= t < 25
    ensures StepAt(t)
  {
  }

  lemma Stepped25(t: nat)
    requires 25 <= t < 30
    ensures StepAt(t)
  {
  }

  lemma Stepped30(t: nat)
    requires 30 <= t < 35
    ensures StepAt(t)
  {
  }

  lemma Stepped35(t: nat)
    requires 35 <= t < 40
    ensures StepAt(t)
  {
  }

  lemma Stepped40(t: nat)
    requires 40 <= t < 45
    ensures StepAt(t)
  {
  }

  lemma Stepped45(t: nat)
    requires 45 <= t < 50
    ensures StepAt(t)
  {
  }

  lemma Stepped50(t: nat)
    requires 50 <= t < 55
    ensures StepAt(t)
  {
  }

  lemma Stepped55(t: nat)
    requires 55 <= t < 60
    ensures StepAt(t)
  {
  }

  lemma Stepped60(t: nat)
    requires 60 <= t < 65
    ensures StepAt(t)
  {
  }

  lemma Stepped65(t: nat)
    requires 65 <= t < 70
    ensures StepAt(t)
  {
  }

  lemma Stepped70(t: nat)
    requires 70 <= t < 75
    ensures StepAt(t)
  {
  }

  lemma Stepped75(t: nat)
    requires 75 <= t < 80
    ensures StepAt(t)
  {
  }

  lemma AllMixed(t: nat)
    requires 16 <= t < 80
    ensures MixAt(t)
  {
    hide MixAt;
    if t < 20 {
      Mixed16(t);
    } else if t < 24 {
      Mixed20(t);
    } else if t < 28 {
      Mixed24(t);
    } else if t < 32 {
      Mixed28(t);
    } else if t < 36 {
      Mixed32(t);
    } else if t < 40 {
      Mixed36(t);
    } else if t < 44 {
      Mixed40(t);
    } else if t < 48 {
      Mixed44(t);
    } else if t < 52 {
      Mixed48(t);
    } else if t < 56 {
      Mixed52(t);
    } else if t < 60 {
      Mixed56(t);
    } else if t < 64 {
      Mixed60(t);
    } else if t < 68 {
      Mixed64(t);
    } else if t < 72 {
      Mixed68(t);
    } else if t < 76 {
      Mixed72(t);
    } else {
      Mixed76(t);
    }
  }

  lemma AllStepped(t: nat)
    requires t < 80
    ensures StepAt(t)
  {
    hide StepAt;
    if t < 5 {
      Stepped0(t);
    } else if t < 10 {
      Stepped5(t);
    } else if t < 15 {
      Stepped10(t);
    } else if t < 20 {
      Stepped15(t);
    } else if t < 25 {
      Stepped20(t);
    } else if t < 30 {
      Stepped25(t);
    } else if t < 35 {
      Stepped30(t);
    } else if t < 40 {
      Stepped35(t);
    } else if t < 45 {
      Stepped40(t);
    } else if t < 50 {
      Stepped45(t);
    } else if t < 55 {
      Stepped50(t);
    } else if t < 60 {
      Stepped55(t);
    } else if t < 65 {
      Stepped60(t);
    } else if t < 70 {
      Stepped65(t);
    } else if t < 75 {
      Stepped70(t);
    } else {
      Stepped75(t);
    }
  }

  // What the definitions make of the message.

  lemma {:induction false} WordsKnown(m: seq<Word>, t: nat)
    requires IsAbc(m) && t < 80
    ensures W(m, t) == WordAt(t)
  {
    hide WordAt, Mix;
    if t >= 16 {
      WordsKnown(m, t - 3);
      WordsKnown(m, t - 8);
      WordsKnown(m, t - 14);
      WordsKnown(m, t - 16);
      AllMixed(t);
      UnfoldW(m, t);
    }
  }

  lemma {:induction false} RoundsKnown(m: seq<Word>, t: nat)
    requires IsAbc(m) && t <= 80
    ensures Rounds(RegsAt(0), m, t) == RegsAt(t)
  {
    hide WordAt, RegsAt, Step, W, IsAbc;
    if t > 0 {
      RoundsKnown(m, t - 1);
      WordsKnown(m, t - 1);
      AllStepped(t - 1);
    }
  }

  lemma SumKnown()
    ensures RegsAt(0) == INITIAL
    ensures Plus(INITIAL, RegsAt(80)) == Regs(0xa9993e36, 0x4706816a, 0xba3e2571, 0x7850c26c, 0x9cd0d89d)
  {
  }

  lemma CompressKnown(m: seq<Word>)
    requires IsAbc(m)
    ensures Compress(INITIAL, m) == Regs(0xa9993e36, 0x4706816a, 0xba3e2571, 0x7850c26c, 0x9cd0d89d)
  {
    hide WordAt, RegsAt, Rounds, Plus, IsAbc;
    RoundsKnown(m, 80);
    SumKnown();
  }

  // From the octets to the text.

  lemma LengthKnown()
    ensures BitLength(3) == 24
  {
    var l: bv64 := 24;
    BackAgain(l, 24);
    assert (3 * 8) % 0x1_0000_0000_0000_0000 == 24;
  }

  lemma BackAgain(x: bv64, n: nat)
    requires x == 24 && n == 24
    ensures n as bv64 == x
  {
  }

  lemma LengthOctetsKnown()
    ensures LengthOctets(24) == [0, 0, 0, 0, 0, 0, 0, 24]
  {
  }

  lemma PadKnown(m: seq<Octet>)
    requires m == [0x61, 0x62, 0x63]
    ensures Pad(m) == [0x61, 0x62, 0x63, 0x80] + Zeros(52) + [0, 0, 0, 0, 0, 0, 0, 24]
  {
    hide LengthOctets, BitLength;
    LengthKnown();
    LengthOctetsKnown();
    assert ZeroCount(3) == 52;
  }

  lemma WordOfKnown()
    ensures WordOf(0x61, 0x62, 0x63, 0x80) == 0x61626380 && WordOf(0, 0, 0, 0) == 0 && WordOf(0, 0, 0, 24) == 0x18
  {
  }

  lemma ParseKnown(p: seq<Octet>)
    requires p == [0x61, 0x62, 0x63, 0x80] + Zeros(52) + [0, 0, 0, 0, 0, 0, 0, 24]
    ensures |p| == 64 && IsAbc(Parse(p))
  {
    hide WordOf;
    WordOfKnown();
    assert forall i :: 4 <= i < 63 ==> p[i] == 0;
  }

  lemma DigestKnown(m: seq<Octet>)
    requires m == [0x61, 0x62, 0x63]
    ensures Digest(m) == Regs(0xa9993e36, 0x4706816a, 0xba3e2571, 0x7850c26c, 0x9cd0d89d)
  {
    hide Compress, Pad, Parse, IsAbc, INITIAL;
    PadKnown(m);
    ParseKnown(Pad(m));
    CompressKnown(Parse(Pad(m)));
    assert [] + Pad(m) == Pad(m);
    HashOneBlock(INITIAL, [], Pad(m));
  }

  lemma HexWordsKnown()
    ensures HexWord(0xa9993e36) == [0x61, 0x39, 0x39, 0x39, 0x33, 0x65, 0x33, 0x36]
    ensures HexWord(0x4706816a) == [0x34, 0x37, 0x30, 0x36, 0x38, 0x31, 0x36, 0x61]
    ensures HexWord(0xba3e2571) == [0x62, 0x61, 0x33, 0x65, 0x32, 0x35, 0x37, 0x31]
    ensures HexWord(0x7850c26c) == [0x37, 0x38, 0x35, 0x30, 0x63, 0x32, 0x36, 0x63]
    ensures HexWord(0x9cd0d89d) == [0x39, 0x63, 0x64, 0x30, 0x64, 0x38, 0x39, 0x64]
  {
  }

  /** a9993e364706816aba3e25717850c26c9cd0d89d */
  const TEXT: Bytes :=
    [0x61, 0x39, 0x39, 0x39, 0x33, 0x65, 0x33, 0x36]
    + [0x34, 0x37, 0x30, 0x36, 0x38, 0x31, 0x36, 0x61]
    + [0x62, 0x61, 0x33, 0x65, 0x32, 0x35, 0x37, 0x31]
    + [0x37, 0x38, 0x35, 0x30, 0x63, 0x32, 0x36, 0x63]
    + [0x39, 0x63, 0x64, 0x30, 0x64, 0x38, 0x39, 0x64]

  /** What `final` returns for "abc". */
  lemma TextKnown(m: seq<Octet>)
    requires m == [0x61, 0x62, 0x63]
    ensures HexDigest(m) == TEXT
  {
    hide Digest, HexWord;
    DigestKnown(m);
    HexWordsKnown();
    var a: Word, b: Word, c: Word, d: Word, e: Word :=
      0xa9993e36, 0x4706816a, 0xba3e2571, 0x7850c26c, 0x9cd0d89d;
    assert Words(Digest(m)) == [a, b, c, d, e];
    NoWords();
    AppendWord([], a);
    AppendWord([a], b);
    AppendWord([a, b], c);
    AppendWord([a, b, c], d);
    AppendWord([a, b, c, d], e);
    assert [] + [a] == [a] && [a] + [b] == [a, b] && [a, b] + [c] == [a, b, c];
    assert [a, b, c] + [d] == [a, b, c, d] && [a, b, c, d] + [e] == [a, b, c, d, e];
  }
}
