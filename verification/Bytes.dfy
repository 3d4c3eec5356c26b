/** Octets as integers, the text alphabet of the formats, and hexadecimal text. */
module Bytes {
  type byte = b: int | 0 <= b < 256
  type Bytes = seq<byte>

  /** The byte order of `std::string`: unsigned bytes compared one by one, a proper prefix first. */
  predicate Less(a: Bytes, b: Bytes) {
    b != [] && (a == [] || a[0] < b[0] || (a[0] == b[0] && Less(a[1..], b[1..])))
  }

  /** At place `k` the first is over or has the smaller byte, and up to there the two are the same. */
  predicate LessAt(a: Bytes, b: Bytes, k: nat) {
    k <= |a| && k < |b| && a[..k] == b[..k] && (k == |a| || a[k] < b[k])
  }

  /** The order is that: decided at the first difference, by the smaller byte. */
  lemma {:induction false} LessIff(a: Bytes, b: Bytes)
    ensures Less(a, b) <==> exists k: nat :: LessAt(a, b, k)
  {
    if b == [] {
    } else if a == [] || a[0] < b[0] {
      assert LessAt(a, b, 0);
    } else if a[0] == b[0] {
      LessIff(a[1..], b[1..]);
      if Less(a, b) {
        var k: nat :| LessAt(a[1..], b[1..], k);
        assert a[..k + 1] == [a[0]] + a[1..][..k] && b[..k + 1] == [b[0]] + b[1..][..k];
        assert LessAt(a, b, k + 1);
      }
      if k: nat :| LessAt(a, b, k) {
        assert k > 0;
        assert a[1..][..k - 1] == a[..k][1..] && b[1..][..k - 1] == b[..k][1..];
        assert LessAt(a[1..], b[1..], k - 1);
      }
    } else if k: nat :| LessAt(a, b, k) {
      FirstBytes(a, b, k);
    }
  }

  lemma FirstBytes(a: Bytes, b: Bytes, k: nat)
    requires LessAt(a, b, k) && a != [] && b != []
    ensures a[0] <= b[0]
  {
    if k > 0 {
      assert a[..k][0] == a[0] && b[..k][0] == b[0];
    }
  }

  lemma {:induction false} LessTotal(a: Bytes, b: Bytes)
    ensures Less(a, b) || Less(b, a) || a == b
  {
    if a != [] && b != [] && a[0] == b[0] {
      LessTotal(a[1..], b[1..]);
      assert a == [a[0]] + a[1..] && b == [b[0]] + b[1..];
    }
  }

  lemma {:induction false} LessIrreflexive(a: Bytes)
    ensures !Less(a, a)
  {
    if a != [] {
      LessIrreflexive(a[1..]);
    }
  }

  lemma {:induction false} LessTransitive(a: Bytes, b: Bytes, c: Bytes)
    requires Less(a, b) && Less(b, c)
    ensures Less(a, c)
  {
    if a != [] && a[0] == b[0] == c[0] {
      LessTransitive(a[1..], b[1..], c[1..]);
    }
  }

  predicate IsLowerHex(c: byte) {
    0x30 <= c <= 0x39 || 0x61 <= c <= 0x66
  }

  function HexDigit(n: nat): (c: byte)
    requires n < 16
  {
    if n < 10 then 0x30 + n else 0x57 + n
  }

  function HexValue(c: byte): (n: nat)
    requires IsLowerHex(c)
    ensures n < 16
  {
    if c <= 0x39 then c - 0x30 else c - 0x57
  }

  /** Two lower-case hexadecimal digits for each byte. */
  function ToHex(s: Bytes): (h: Bytes)
    ensures |h| == 2 * |s|
    ensures forall i :: 0 <= i < |h| ==> IsLowerHex(h[i])
  {
    if s == [] then [] else [HexDigit(s[0] / 16), HexDigit(s[0] % 16)] + ToHex(s[1..])
  }

  predicate IsHexText(h: Bytes) {
    |h| % 2 == 0 && forall i :: 0 <= i < |h| ==> IsLowerHex(h[i])
  }

  /** `sha1_hash_to_bytes`: two digits at a time. */
  function FromHex(h: Bytes): (s: Bytes)
    requires IsHexText(h)
    ensures 2 * |s| == |h|
  {
    if h == [] then [] else [16 * HexValue(h[0]) + HexValue(h[1])] + FromHex(h[2..])
  }

  lemma TwoDigits(c: byte, d: byte)
    requires IsLowerHex(c) && IsLowerHex(d)
    ensures var n := 16 * HexValue(c) + HexValue(d); HexDigit(n / 16) == c && HexDigit(n % 16) == d
  {
    assert (16 * HexValue(c) + HexValue(d)) / 16 == HexValue(c);
  }

  lemma {:induction false} ToHexOfFromHex(h: Bytes)
    requires IsHexText(h)
    ensures ToHex(FromHex(h)) == h
  {
    hide HexDigit, HexValue;
    if h != [] {
      ToHexOfFromHex(h[2..]);
      var s := FromHex(h);
      assert s[1..] == FromHex(h[2..]) && s[0] == 16 * HexValue(h[0]) + HexValue(h[1]);
      TwoDigits(h[0], h[1]);
      assert h == [h[0], h[1]] + h[2..];
    }
  }

  lemma {:induction false} FromHexOfToHex(s: Bytes)
    ensures FromHex(ToHex(s)) == s
  {
    if s != [] {
      FromHexOfToHex(s[1..]);
      assert ToHex(s)[2..] == ToHex(s[1..]);
    }
  }

  /** "0123456789abcdef" */
  const HEX_DIGITS: Bytes :=
    [0x30, 0x31, 0x32, 0x33, 0x34, 0x35, 0x36, 0x37, 0x38, 0x39, 0x61, 0x62, 0x63, 0x64, 0x65, 0x66]

  /** The digits are these, most significant first. */
  lemma HexOfByte(b: byte)
    ensures ToHex([b]) == [HEX_DIGITS[b / 16], HEX_DIGITS[b % 16]]
  {
    assert [b][1..] == [];
    DigitIs(b / 16);
    DigitIs(b % 16);
  }

  lemma DigitIs(n: nat)
    requires n < 16
    ensures HexDigit(n) == HEX_DIGITS[n]
  {
  }

  // Bytes as bit vectors.

  lemma VectorBack(v: bv8)
    ensures (v as int) as bv8 == v
  {
  }

  lemma VectorNext(v: bv8)
    requires v != 0xff
    ensures (v + 1) as int == v as int + 1
  {
  }

  /** Every byte is that of some vector. */
  lemma {:induction false} VectorOf(b: nat) returns (v: bv8)
    requires b < 256
    ensures v as int == b
  {
    if b == 0 {
      v := 0;
    } else {
      v := VectorOf(b - 1);
      VectorNext(v);
      v := v + 1;
    }
  }

  lemma ByteAndBack(b: int)
    requires 0 <= b < 256
    ensures (b as bv8) as int == b
  {
    var v := VectorOf(b);
    VectorBack(v);
  }
}
