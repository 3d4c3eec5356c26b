/** Decimal text of 64-bit integers: `std::from_chars` as `to_integer` uses it, and printing. */
module Decimal {
  import opened Bytes
  import opened Wrappers

  const INT64_MIN := -0x8000_0000_0000_0000
  const INT64_MAX := 0x7fff_ffff_ffff_ffff

  const MINUS: byte := 0x2d

  predicate IsDigit(c: byte) {
    0x30 <= c <= 0x39
  }

  predicate AllDigits(s: Bytes) {
    forall i :: 0 <= i < |s| ==> IsDigit(s[i])
  }

  /** The number a string of digits denotes. */
  function Numeral(s: Bytes): (n: int)
    requires AllDigits(s)
    ensures n >= 0
  {
    if s == [] then 0 else 10 * Numeral(s[..|s| - 1]) + (s[|s| - 1] - 0x30)
  }

  predicate InInt64(n: int) {
    INT64_MIN <= n <= INT64_MAX
  }

  /** `to_integer`: an optional minus sign and at least one digit, all of the text, within range. */
  function ToInteger(s: Bytes): (r: Option<int>)
    ensures r.Some? ==> InInt64(r.value)
  {
    var negative := s != [] && s[0] == MINUS;
    var digits := if negative then s[1..] else s;
    if digits == [] || !AllDigits(digits) then None
    else
      var n: int := if negative then -Numeral(digits) else Numeral(digits);
      if InInt64(n) then Some(n) else None
  }

  function PrintNat(n: nat): (s: Bytes)
    ensures s != [] && AllDigits(s)
  {
    if n < 10 then [0x30 + n] else PrintNat(n / 10) + [0x30 + n % 10]
  }

  /** Decimal text without leading zeros. */
  function Print(n: int): (s: Bytes)
    ensures s != []
  {
    if n < 0 then [MINUS] + PrintNat(-n) else PrintNat(n)
  }

  // The shape of minimal decimal text, stated without printing.

  predicate MinimalNat(s: Bytes) {
    s != [] && AllDigits(s) && (|s| > 1 ==> s[0] != 0x30)
  }

  predicate Minimal(s: Bytes) {
    if s != [] && s[0] == MINUS then MinimalNat(s[1..]) && s[1..] != [0x30] else MinimalNat(s)
  }

  lemma {:induction false} NumeralOfPrint(n: nat)
    ensures Numeral(PrintNat(n)) == n
  {
    if n >= 10 {
      NumeralOfPrint(n / 10);
      assert PrintNat(n)[..|PrintNat(n)| - 1] == PrintNat(n / 10);
    }
  }

  lemma {:induction false} PrintNatIsMinimal(n: nat)
    ensures MinimalNat(PrintNat(n))
    ensures n > 0 ==> PrintNat(n)[0] != 0x30
  {
    if n >= 10 {
      PrintNatIsMinimal(n / 10);
    }
  }

  lemma PrintIsMinimal(n: int)
    ensures Minimal(Print(n))
  {
    PrintNatIsMinimal(if n < 0 then -n else n);
    if n < 0 {
      assert Print(n)[1..] == PrintNat(-n);
    }
  }

  lemma {:induction false} NumeralPositive(s: Bytes)
    requires MinimalNat(s) && s != [0x30]
    ensures Numeral(s) > 0
  {
    if |s| > 1 {
      if |s| == 2 {
        assert s[..1] == [s[0]];
        assert Numeral(s[..1]) == s[0] - 0x30;
      } else {
        NumeralPositive(s[..|s| - 1]);
      }
    }
  }

  /** Minimal text is determined by its value. */
  lemma {:induction false} PrintOfNumeral(s: Bytes)
    requires MinimalNat(s)
    ensures PrintNat(Numeral(s)) == s
  {
    var front := s[..|s| - 1];
    if |s| == 1 {
      assert Numeral(front) == 0;
    } else {
      var last := s[|s| - 1] - 0x30;
      if front != [0x30] {
        NumeralPositive(front);
      }
      PrintOfNumeral(front);
      assert Numeral(s) == 10 * Numeral(front) + last;
      assert Numeral(s) / 10 == Numeral(front) && Numeral(s) % 10 == last;
      assert s == front + [s[|s| - 1]];
    }
  }

  /** Parsing undoes printing. */
  lemma ToIntegerOfPrint(n: int)
    requires InInt64(n)
    ensures ToInteger(Print(n)) == Some(n)
  {
    NumeralOfPrint(if n < 0 then -n else n);
    if n < 0 {
      assert Print(n)[1..] == PrintNat(-n);
    } else {
      assert IsDigit(Print(n)[0]);
    }
  }

  /** Printing undoes parsing of minimal text, and only of minimal text. */
  lemma PrintOfToInteger(s: Bytes)
    requires ToInteger(s).Some?
    ensures InInt64(ToInteger(s).value)
    ensures Minimal(s) <==> Print(ToInteger(s).value) == s
  {
    var n := ToInteger(s).value;
    if s[0] == MINUS {
      if Minimal(s) {
        NumeralPositive(s[1..]);
        PrintOfNumeral(s[1..]);
        assert s == [s[0]] + s[1..];
      }
    } else if Minimal(s) {
      PrintOfNumeral(s);
    }
    PrintIsMinimal(n);
  }

  // What the text is, byte for byte.

  /** One digit more is ten times as much. */
  lemma PrintNatMore(n: nat, d: nat)
    requires d < 10
    ensures PrintNat(d) == [0x30 + d]
    ensures n > 0 ==> PrintNat(10 * n + d) == PrintNat(n) + [0x30 + d]
  {
  }

  lemma PrintSign(n: int)
    ensures n >= 0 ==> Print(n) == PrintNat(n)
    ensures n < 0 ==> Print(n) == [0x2d] + PrintNat(-n)
  {
  }

  lemma NumeralMore(s: Bytes, d: nat)
    requires AllDigits(s) && d < 10
    ensures Numeral([]) == 0 && AllDigits(s + [0x30 + d]) && Numeral(s + [0x30 + d]) == 10 * Numeral(s) + d
  {
    assert (s + [0x30 + d])[..|s|] == s;
  }

  /** The bytes "0" to "9", and no others. */
  lemma DigitsAre(s: Bytes)
    ensures AllDigits(s) <==> forall i :: 0 <= i < |s| ==> 0x30 <= s[i] <= 0x39
  {
  }

  /** What is accepted, leading zeros and a negative zero included: digits, after a minus sign or not, whose
      value has 64 bits; nothing else is, such as a plus sign or no digit at all. */
  lemma ToIntegerAccepts(s: Bytes)
    ensures AllDigits(s) && s != [] ==>
              ToInteger(s) == if Numeral(s) < 0x8000_0000_0000_0000 then Some(Numeral(s)) else None
    ensures AllDigits(s) && s != [] ==>
              ToInteger([0x2d] + s) == if Numeral(s) <= 0x8000_0000_0000_0000 then Some(-Numeral(s)) else None
    ensures ToInteger(s).Some? ==>
              s != [] && (AllDigits(s) || (s[0] == 0x2d && s[1..] != [] && AllDigits(s[1..])))
  {
    assert ([0x2d] + s)[1..] == s;
  }
}
