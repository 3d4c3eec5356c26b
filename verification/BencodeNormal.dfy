/** What every accepted input, canonical or not, decodes to, and how much of it matters. */
module BencodeNormal {
  import opened Bytes
  import opened Decimal
  import opened Wrappers
  import opened Bencode
  import opened BencodeRoundTrip
  import opened BencodeCanonical

  // The dictionary that is built.

  lemma {:induction false} InsertMembers(es: seq<Entry>, e: Entry)
    ensures forall x | x in Insert(es, e) :: x in es || x == e
  {
    if es != [] {
      InsertMembers(es[1..], e);
    }
  }

  lemma {:induction false} InsertKeepsSorted(es: seq<Entry>, e: Entry)
    requires Sorted(es)
    ensures Sorted(Insert(es, e))
  {
    if es == [] || es[0].key == e.key {
    } else if Less(e.key, es[0].key) {
      forall x | x in es
        ensures Less(e.key, x.key)
      {
        if x != es[0] {
          LessTransitive(e.key, es[0].key, x.key);
        }
      }
      assert forall x | x in es :: Less(e.key, x.key);
    } else {
      LessTotal(e.key, es[0].key);
      InsertKeepsSorted(es[1..], e);
      InsertMembers(es[1..], e);
      var rest := Insert(es[1..], e);
      assert forall x | x in rest :: Less(es[0].key, x.key);
    }
  }

  /** The map keeps the first value given for a key. */
  lemma {:induction false} LookupInsert(es: seq<Entry>, e: Entry, key: Bytes)
    requires Sorted(es)
    ensures Lookup(Insert(es, e), key)
            == if Lookup(es, key).None? && key == e.key then Some(e.value) else Lookup(es, key)
  {
    if es == [] || es[0].key == e.key {
    } else if Less(e.key, es[0].key) {
      if key == e.key {
        AbsentBelow(es, key);
      }
    } else {
      LookupInsert(es[1..], e, key);
    }
  }

  lemma {:induction false} AbsentBelow(es: seq<Entry>, key: Bytes)
    requires Sorted(es) && (es != [] ==> Less(key, es[0].key))
    ensures Lookup(es, key).None?
  {
    if es != [] {
      LessIrreflexive(key);
      if |es| > 1 {
        LessTransitive(key, es[0].key, es[1].key);
      }
      AbsentBelow(es[1..], key);
    }
  }

  lemma {:induction false} InsertAllSorted(es: seq<Entry>, pairs: seq<Entry>)
    requires Sorted(es)
    ensures Sorted(InsertAll(es, pairs))
    ensures forall x | x in InsertAll(es, pairs) :: x in es || x in pairs
    decreases |pairs|
  {
    if pairs != [] {
      InsertKeepsSorted(es, pairs[0]);
      InsertMembers(es, pairs[0]);
      InsertAllSorted(Insert(es, pairs[0]), pairs[1..]);
    }
  }

  /** Of duplicate keys the first one counts. */
  lemma {:induction false} FirstWins(es: seq<Entry>, pairs: seq<Entry>, key: Bytes)
    requires Sorted(es)
    ensures Lookup(InsertAll(es, pairs), key)
            == if Lookup(es, key).Some? then Lookup(es, key) else Lookup(pairs, key)
    decreases |pairs|
  {
    if pairs != [] {
      InsertKeepsSorted(es, pairs[0]);
      LookupInsert(es, pairs[0], key);
      FirstWins(Insert(es, pairs[0]), pairs[1..], key);
    }
  }

  // Decoding normalises.

  lemma {:induction false} RetagIdentity(utf8: Utf8, items: seq<Value>)
    requires forall x | x in items :: Retag(utf8, x) == x
    ensures RetagItems(utf8, items) == items
  {
    if items != [] {
      RetagIdentity(utf8, items[1..]);
    }
  }

  lemma {:induction false} RetagIdentityEntries(utf8: Utf8, es: seq<Entry>)
    requires forall e | e in es :: Retag(utf8, e.value) == e.value
    ensures RetagEntries(utf8, es) == es
  {
    if es != [] {
      RetagIdentityEntries(utf8, es[1..]);
    }
  }

  ghost predicate Normal(utf8: Utf8, v: Value) {
    Encodable(utf8, v) && Retag(utf8, v) == v
  }

  ghost predicate NormalEntry(utf8: Utf8, e: Entry) {
    EncodableEntry(utf8, e) && Retag(utf8, e.value) == e.value
  }

  lemma DecodedString(utf8: Utf8, s: View)
    requires DecodeString(utf8, s).Ok?
    ensures Normal(utf8, DecodeString(utf8, s).value)
    ensures var v := DecodeString(utf8, s).value;
            v.Str? ==> utf8(v.text) && |v.text| <= MAX_VIEW
  {
  }

  lemma DecodedInteger(utf8: Utf8, s: View)
    requires s != [] && s[0] == INTEGER_START && DecodeInteger(s).Ok?
    ensures Normal(utf8, DecodeInteger(s).value)
  {
    PrintOfToInteger(s[1..Find(s, END)]);
  }

  lemma {:induction false} DecodedIsNormal(utf8: Utf8, s: View)
    requires Decode(utf8, s).Ok?
    ensures Normal(utf8, Decode(utf8, s).value)
    decreases |s|, 0
  {
    hide DecodeItems, DecodePairs, DecodeString, DecodeInteger, InsertAll;
    if s[0] == INTEGER_START {
      DecodedInteger(utf8, s);
    } else if IsDigit(s[0]) {
      DecodedString(utf8, s);
    } else if s[0] == LIST_START {
      DecodedItems(utf8, s[1..]);
      RetagIdentity(utf8, DecodeItems(utf8, s[1..]).value);
    } else {
      var pairs := DecodePairs(utf8, s[1..]).value;
      DecodedPairs(utf8, s[1..]);
      InsertAllSorted([], pairs);
      assert forall e | e in InsertAll([], pairs) :: NormalEntry(utf8, e);
      RetagIdentityEntries(utf8, InsertAll([], pairs));
    }
  }

  lemma {:induction false} DecodedItems(utf8: Utf8, s: View)
    requires DecodeItems(utf8, s).Ok?
    ensures forall x | x in DecodeItems(utf8, s).value :: Normal(utf8, x)
    decreases |s|, 1
  {
    hide Decode, Normal;
    if !(s != [] && s[0] == END) {
      DecodedIsNormal(utf8, s);
      DecodedItems(utf8, s[Decode(utf8, s).length..]);
    }
  }

  lemma {:induction false} DecodedPairs(utf8: Utf8, s: View)
    requires DecodePairs(utf8, s).Ok?
    ensures forall e | e in DecodePairs(utf8, s).value :: NormalEntry(utf8, e)
    decreases |s|, 1
  {
    hide Decode, DecodeString;
    if !(s != [] && s[0] == END) {
      var key := DecodeString(utf8, s);
      DecodedString(utf8, s);
      DecodedIsNormal(utf8, s[key.length..]);
      assert NormalEntry(utf8, DecodePair(utf8, s).value);
      DecodedPairs(utf8, s[DecodePair(utf8, s).length..]);
    }
  }

  /** Whatever is accepted decodes to a value that encodes, canonically, and decodes back to itself. */
  lemma DecodeNormalises(utf8: Utf8, s: View, t: Bytes)
    requires Decode(utf8, s).Ok?
    ensures var v := Decode(utf8, s).value;
            && Encode(v).Some? && Canonical(utf8, Encode(v).value)
            && (|Encode(v).value + t| <= MAX_VIEW ==>
                  Decode(utf8, Encode(v).value + t) == Ok(|Encode(v).value|, v))
  {
    hide Decode;
    DecodedIsNormal(utf8, s);
    var v := Decode(utf8, s).value;
    EncodedIsCanonical(utf8, v);
    RoundTrip(utf8, v, t);
  }

  // How much of the input matters.

  /** The text before the delimiter is no negative length. */
  predicate PlainKey(s: View) {
    var d := Find(s, DELIMITER);
    d < |s| && ToInteger(s[..d]).Some? ==> ToInteger(s[..d]).value >= 0
  }

  /** The decoder meets no negative key length on its way through `s`. */
  predicate Plain(utf8: Utf8, s: View)
    decreases |s|, 0
  {
    s == [] || s[0] == INTEGER_START || IsDigit(s[0])
    || (s[0] == LIST_START && PlainItems(utf8, s[1..]))
    || (s[0] == DICT_START && PlainPairs(utf8, s[1..]))
  }

  predicate PlainItems(utf8: Utf8, s: View)
    decreases |s|, 1
  {
    (s != [] && s[0] == END)
    || (Plain(utf8, s) && var v := Decode(utf8, s); v.Ok? ==> PlainItems(utf8, s[v.length..]))
  }

  predicate PlainPair(utf8: Utf8, s: View)
    decreases |s|, 1
  {
    PlainKey(s) && var key := DecodeString(utf8, s); key.Ok? ==> Plain(utf8, s[key.length..])
  }

  predicate PlainPairs(utf8: Utf8, s: View)
    decreases |s|, 2
  {
    (s != [] && s[0] == END)
    || (PlainPair(utf8, s) && var e := DecodePair(utf8, s); e.Ok? ==> PlainPairs(utf8, s[e.length..]))
  }

  /** `z` starts with the first `n` bytes of `s`. */
  predicate Agree(s: Bytes, z: Bytes, n: nat) {
    n <= |s| && n <= |z| && s[..n] == z[..n]
  }

  lemma AgreeAt(s: Bytes, z: Bytes, n: nat, i: nat, j: nat)
    requires Agree(s, z, n) && i <= j <= n
    ensures n <= |z| && s[i..j] == z[i..j] && Agree(s[i..], z[i..], n - i)
    ensures i < n ==> s[i] == z[i]
  {
    assert s[i..j] == s[..n][i..j] && z[i..j] == z[..n][i..j];
    assert s[i..][..n - i] == s[..n][i..] && z[i..][..n - i] == z[..n][i..];
    assert i < n ==> s[i] == s[..n][i] && z[i] == z[..n][i];
  }

  lemma AgreePrefix(s: Bytes, z: Bytes, n: nat, k: nat)
    requires Agree(s, z, n) && k <= n
    ensures Agree(s, z, k)
  {
    AgreeAt(s, z, n, 0, k);
  }

  lemma FindAgrees(s: Bytes, z: Bytes, n: nat, c: byte)
    requires Agree(s, z, n) && Find(s, c) < n
    ensures Find(z, c) == Find(s, c)
  {
    var d := Find(s, c);
    assert forall j :: 0 <= j < n ==> s[j] == s[..n][j] == z[..n][j] == z[j];
    FindIs(z, c, d);
  }

  lemma StringPrefix(utf8: Utf8, s: View, z: View)
    requires PlainKey(s) && DecodeString(utf8, s).Ok?
    requires Agree(s, z, DecodeString(utf8, s).length)
    ensures DecodeString(utf8, z) == DecodeString(utf8, s)
  {
    hide ToInteger, Find;
    var n := DecodeString(utf8, s).length;
    var d := Find(s, DELIMITER);
    FindAgrees(s, z, n, DELIMITER);
    AgreeAt(s, z, n, 0, d);
    AgreeAt(s, z, n, d + 1, n);
  }

  lemma IntegerPrefix(s: View, z: View)
    requires s != [] && s[0] == INTEGER_START && DecodeInteger(s).Ok?
    requires z != [] && z[0] == INTEGER_START && Agree(s, z, DecodeInteger(s).length)
    ensures DecodeInteger(z) == DecodeInteger(s)
  {
    hide ToInteger, Find;
    var n := DecodeInteger(s).length;
    FindAgrees(s, z, n, END);
    AgreeAt(s, z, n, 1, n - 1);
  }

  lemma {:induction false} DigitIsPlainKey(s: View)
    requires s != [] && IsDigit(s[0])
    ensures PlainKey(s)
  {
    var d := Find(s, DELIMITER);
    if 0 < d < |s| {
      assert s[..d][0] == s[0];
    }
  }

  /** Without negative key lengths the result depends on the consumed bytes only. */
  lemma {:induction false} Prefix(utf8: Utf8, s: View, z: View)
    requires Decode(utf8, s).Ok? && Plain(utf8, s)
    requires Agree(s, z, Decode(utf8, s).length)
    ensures Decode(utf8, z) == Decode(utf8, s)
    decreases |s|, 0
  {
    hide DecodeItems, DecodePairs, DecodeString, DecodeInteger, InsertAll;
    var n := Decode(utf8, s).length;
    AgreeAt(s, z, n, 0, 1);
    AgreeAt(s, z, n, 1, n);
    if s[0] == INTEGER_START {
      IntegerPrefix(s, z);
    } else if IsDigit(s[0]) {
      DigitIsPlainKey(s);
      StringPrefix(utf8, s, z);
    } else if s[0] == LIST_START {
      PrefixItems(utf8, s[1..], z[1..]);
    } else {
      PrefixPairs(utf8, s[1..], z[1..]);
    }
  }

  lemma {:induction false} PrefixItems(utf8: Utf8, s: View, z: View)
    requires DecodeItems(utf8, s).Ok? && PlainItems(utf8, s)
    requires Agree(s, z, DecodeItems(utf8, s).length)
    ensures DecodeItems(utf8, z) == DecodeItems(utf8, s)
    decreases |s|, 1
  {
    hide Decode, Plain;
    var n := DecodeItems(utf8, s).length;
    AgreeAt(s, z, n, 0, 1);
    if s[0] != END {
      var k := Decode(utf8, s).length;
      AgreeAt(s, z, n, 0, k);
      AgreeAt(s, z, n, k, n);
      Prefix(utf8, s, z);
      PrefixItems(utf8, s[k..], z[k..]);
    }
  }

  lemma {:induction false} PrefixPair(utf8: Utf8, s: View, z: View)
    requires DecodePair(utf8, s).Ok? && PlainPair(utf8, s)
    requires Agree(s, z, DecodePair(utf8, s).length)
    ensures DecodePair(utf8, z) == DecodePair(utf8, s)
    decreases |s|, 1
  {
    hide Decode, Plain, PlainKey, DecodeString;
    var n, k := DecodePair(utf8, s).length, DecodeString(utf8, s).length;
    AgreeAt(s, z, n, 0, k);
    AgreeAt(s, z, n, k, n);
    StringPrefix(utf8, s, z);
    Prefix(utf8, s[k..], z[k..]);
  }

  lemma {:induction false} PrefixPairs(utf8: Utf8, s: View, z: View)
    requires DecodePairs(utf8, s).Ok? && PlainPairs(utf8, s)
    requires Agree(s, z, DecodePairs(utf8, s).length)
    ensures DecodePairs(utf8, z) == DecodePairs(utf8, s)
    decreases |s|, 2
  {
    hide DecodePair, PlainPair;
    var n := DecodePairs(utf8, s).length;
    AgreeAt(s, z, n, 0, 1);
    if s[0] != END {
      var k := DecodePair(utf8, s).length;
      AgreeAt(s, z, n, 0, k);
      AgreeAt(s, z, n, k, n);
      PrefixPair(utf8, s, z);
      PrefixPairs(utf8, s[k..], z[k..]);
    }
  }

  // With a negative key length the result depends on bytes that are not consumed.

  /** No text ends in the byte 0xff; UTF-8 has this property. */
  ghost predicate RejectsFF(utf8: Utf8) {
    forall x: Bytes :: x != [] && x[|x| - 1] == 0xff ==> !utf8(x)
  }

  /** `z` starts like the `n` consumed bytes of `s`, goes on, and ends in 0xff. */
  predicate Marked(s: Bytes, z: Bytes, n: nat) {
    Agree(s, z, n) && n < |z| && z[|z| - 1] == 0xff
  }

  lemma MarkedAt(s: Bytes, z: Bytes, n: nat, i: nat)
    requires Marked(s, z, n) && i <= n
    ensures n < |z| && Agree(s, z, n) && Marked(s[i..], z[i..], n - i)
  {
    AgreeAt(s, z, n, i, n);
  }

  lemma MarkedPrefix(s: Bytes, z: Bytes, n: nat, k: nat)
    requires Marked(s, z, n) && k <= n
    ensures Agree(s, z, k) && Marked(s, z, k)
  {
    AgreePrefix(s, z, n, k);
  }

  lemma FindInRest(s: Bytes, c: byte, k: nat)
    requires k <= Find(s, c) < |s|
    ensures Find(s[k..], c) == Find(s, c) - k
  {
    FindIs(s[k..], c, Find(s, c) - k);
  }

  lemma NegativeKeyText(utf8: Utf8, s: View)
    requires !PlainKey(s) && DecodeString(utf8, s).Ok?
    ensures var d := Find(s, DELIMITER);
            && DecodeString(utf8, s).length <= d < |s|
            && s[0] == MINUS && forall i :: 0 < i < d ==> IsDigit(s[i])
  {
    hide ToInteger;
    KeyText(s, Find(s, DELIMITER));
  }

  /** A value that starts with none of the structural symbols starts with a digit. */
  lemma ValueStart(utf8: Utf8, s: View)
    requires s != [] && Decode(utf8, s).Ok? && (s[0] == MINUS || s[0] == DELIMITER || IsDigit(s[0]))
    ensures IsDigit(s[0]) && Decode(utf8, s) == DecodeString(utf8, s)
  {
    hide DecodeString;
  }

  /** A string takes its delimiter along. */
  lemma StringPastDelimiter(utf8: Utf8, s: View)
    requires s != [] && IsDigit(s[0]) && DecodeString(utf8, s).Ok?
    ensures Find(s, DELIMITER) < DecodeString(utf8, s).length
  {
    hide ToInteger, Find;
    DigitIsPlainKey(s);
  }

  /** Where a value can follow a key of negative length at all, it is a string whose length digits end
      at the same delimiter. */
  lemma NegativeKey(utf8: Utf8, s: View)
    requires !PlainKey(s) && DecodePair(utf8, s).Ok?
    ensures var k := DecodeString(utf8, s).length;
            && k < Find(s, DELIMITER) < DecodePair(utf8, s).length
            && IsDigit(s[k])
  {
    hide DecodeString, Decode, PlainKey, Find;
    NegativeKeyText(utf8, s);
    var d, k := Find(s, DELIMITER), DecodeString(utf8, s).length;
    var rest := s[k..];
    assert rest[0] == s[k] && s[d] == DELIMITER;
    ValueStart(utf8, rest);
    FindInRest(s, DELIMITER, k);
    StringPastDelimiter(utf8, rest);
  }

  lemma KeyText(s: Bytes, d: nat)
    requires d <= |s| && ToInteger(s[..d]).Some? && ToInteger(s[..d]).value < 0
    ensures 0 < d && s[0] == MINUS
    ensures forall i :: 0 < i < d ==> IsDigit(s[i])
  {
    var text := s[..d];
    assert text[0] == MINUS && AllDigits(text[1..]);
    forall i | 0 < i < d
      ensures IsDigit(s[i])
    {
      assert text[1..][i - 1] == s[i];
    }
  }

  lemma {:induction false} ExposedPair(utf8: Utf8, s: View, z: View)
    requires RejectsFF(utf8) && DecodePair(utf8, s).Ok? && !PlainPair(utf8, s)
    requires Marked(s, z, DecodePair(utf8, s).length)
    ensures DecodePair(utf8, z) == Thrown
    decreases |s|, 1
  {
    hide Decode, Plain, DecodeString, PlainKey, RejectsFF, Marked, Agree, Find;
    var n, k := DecodePair(utf8, s).length, DecodeString(utf8, s).length;
    MarkedAt(s, z, n, k);
    AgreeAt(s, z, n, 0, k);
    AgreePrefix(s, z, n, k);
    AgreeAt(s, z, n, k, n);
    if PlainKey(s) {
      StringPrefix(utf8, s, z);
      Exposed(utf8, s[k..], z[k..]);
    } else {
      ExposedKey(utf8, s, z);
      NegativeKey(utf8, s);
      PlainString(utf8, s[k..]);
      Prefix(utf8, s[k..], z[k..]);
    }
  }

  /** A key of negative length is read off every text with the same length in front: all that follows. */
  lemma NegativeString(utf8: Utf8, s: View, z: View, d: nat)
    requires !PlainKey(s) && DecodeString(utf8, s).Ok? && d == Find(s, DELIMITER) == Find(z, DELIMITER)
    requires d < |z| && s[..d] == z[..d] && DecodeString(utf8, s).length <= |z|
    ensures DecodeString(utf8, z) == Ok(DecodeString(utf8, s).length, Tag(utf8, z[d + 1..]))
  {
    hide ToInteger, Find, Tag;
  }

  lemma ExposedKey(utf8: Utf8, s: View, z: View)
    requires RejectsFF(utf8) && DecodePair(utf8, s).Ok? && !PlainKey(s)
    requires Marked(s, z, DecodePair(utf8, s).length)
    ensures var r := DecodeString(utf8, z);
            r.Ok? && r.length == DecodeString(utf8, s).length && r.value.Bin?
  {
    hide ToInteger, Find, Decode, DecodeString, PlainKey, Agree;
    var n, d := DecodePair(utf8, s).length, Find(s, DELIMITER);
    NegativeKey(utf8, s);
    FindAgrees(s, z, n, DELIMITER);
    AgreeAt(s, z, n, 0, d);
    NegativeString(utf8, s, z, d);
    var payload := z[d + 1..];
    assert payload[|payload| - 1] == 0xff;
  }

  lemma PlainString(utf8: Utf8, s: View)
    requires s != [] && IsDigit(s[0])
    ensures Plain(utf8, s)
  {
  }

  lemma {:induction false} Exposed(utf8: Utf8, s: View, z: View)
    requires RejectsFF(utf8) && Decode(utf8, s).Ok? && !Plain(utf8, s)
    requires Marked(s, z, Decode(utf8, s).length)
    ensures Decode(utf8, z) == Thrown
    decreases |s|, 0
  {
    hide DecodeItems, DecodePairs, DecodeString, DecodeInteger, InsertAll;
    var n := Decode(utf8, s).length;
    AgreeAt(s, z, n, 0, 1);
    MarkedAt(s, z, n, 1);
    if s[0] == LIST_START {
      ExposedItems(utf8, s[1..], z[1..]);
    } else {
      ExposedPairs(utf8, s[1..], z[1..]);
    }
  }

  lemma {:induction false} ExposedItems(utf8: Utf8, s: View, z: View)
    requires RejectsFF(utf8) && DecodeItems(utf8, s).Ok? && !PlainItems(utf8, s)
    requires Marked(s, z, DecodeItems(utf8, s).length)
    ensures DecodeItems(utf8, z) == Thrown
    decreases |s|, 1
  {
    hide Decode, Plain, RejectsFF, Marked, Agree;
    var n, k := DecodeItems(utf8, s).length, Decode(utf8, s).length;
    MarkedAt(s, z, n, k);
    MarkedPrefix(s, z, n, k);
    AgreeAt(s, z, n, 0, 1);
    if Plain(utf8, s) {
      Prefix(utf8, s, z);
      ExposedItems(utf8, s[k..], z[k..]);
    } else {
      Exposed(utf8, s, z);
    }
  }

  lemma {:induction false} ExposedPairs(utf8: Utf8, s: View, z: View)
    requires RejectsFF(utf8) && DecodePairs(utf8, s).Ok? && !PlainPairs(utf8, s)
    requires Marked(s, z, DecodePairs(utf8, s).length)
    ensures DecodePairs(utf8, z) == Thrown
    decreases |s|, 2
  {
    hide DecodePair, PlainPair, RejectsFF, Marked, Agree;
    var n, k := DecodePairs(utf8, s).length, DecodePair(utf8, s).length;
    MarkedAt(s, z, n, k);
    MarkedPrefix(s, z, n, k);
    AgreeAt(s, z, n, 0, 1);
    if PlainPair(utf8, s) {
      PrefixPair(utf8, s, z);
      ExposedPairs(utf8, s[k..], z[k..]);
    } else {
      ExposedPair(utf8, s, z);
    }
  }

  /** The result is determined by the consumed bytes if and only if no key length is negative. */
  lemma PrefixIffPlain(utf8: Utf8, s: View)
    requires RejectsFF(utf8) && Decode(utf8, s).Ok? && Decode(utf8, s).length < MAX_VIEW
    ensures Plain(utf8, s) <==>
            forall t: Bytes | |Consumed(utf8, s) + t| <= MAX_VIEW ::
              Decode(utf8, Consumed(utf8, s) + t) == Decode(utf8, s)
  {
    hide Decode, Plain;
    var c := Consumed(utf8, s);
    if Plain(utf8, s) {
      forall t: Bytes | |c + t| <= MAX_VIEW
        ensures Decode(utf8, c + t) == Decode(utf8, s)
      {
        assert (c + t)[..|c|] == c;
        Prefix(utf8, s, c + t);
      }
    } else {
      var z := c + [0xff];
      assert z[..|c|] == c;
      Exposed(utf8, s, z);
    }
  }

  function Consumed(utf8: Utf8, s: View): (c: View)
    requires Decode(utf8, s).Ok?
    ensures |c| == Decode(utf8, s).length
  {
    s[..Decode(utf8, s).length]
  }

  /** No accepted encoding is a proper prefix of another, negative key lengths apart. */
  lemma PrefixFree(utf8: Utf8, s: View, t: Bytes)
    requires Decode(utf8, s).Ok? && Decode(utf8, s).length == |s| && Plain(utf8, s)
    requires t != [] && |s + t| <= MAX_VIEW
    ensures Decode(utf8, s + t).Ok? && Decode(utf8, s + t).length < |s + t|
  {
    hide Decode, Plain;
    assert (s + t)[..|s|] == s[..|s|];
    Prefix(utf8, s, s + t);
  }

  /** `d-2:xye`: the key is the rest of the input, however long that is. */
  const NEGATIVE_KEY: Bytes := [0x64, 0x2d, 0x32, 0x3a, 0x78, 0x79, 0x65]

  lemma Two()
    ensures ToInteger([0x2d, 0x32]) == Some(-2) && ToInteger([0x32]) == Some(2)
  {
    assert [0x2d, 0x32][1..] == [0x32] && [0x32][..0] == [];
    assert Numeral([0x32]) == 2;
  }

  /** Whatever follows goes into the key, as long as it makes it a text. */
  lemma NegativeKeyExample(utf8: Utf8, t: Bytes)
    requires utf8([0x78, 0x79, 0x65] + t) && utf8([0x78, 0x79])
    requires |NEGATIVE_KEY + t| <= MAX_VIEW
    ensures Decode(utf8, NEGATIVE_KEY + t) == Ok(7, Dict([Entry([0x78, 0x79, 0x65] + t, Str([0x78, 0x79]))]))
  {
    hide ToInteger;
    Two();
    var s := NEGATIVE_KEY + t;
    var view := s[1..];
    assert view[..2] == [0x2d, 0x32];
    FindIs(view, DELIMITER, 2);
    assert view[3..] == [0x78, 0x79, 0x65] + t;
    assert ToInteger(view[..2]) == Some(-2) && LastPosition(2, -2) == 1;
    assert utf8(view[3..]);
    assert DecodeString(utf8, view) == Ok(1, Str([0x78, 0x79, 0x65] + t));
    var rest := view[1..];
    assert rest == [0x32, 0x3a, 0x78, 0x79, 0x65] + t;
    assert rest[..1] == [0x32] && rest[2..4] == [0x78, 0x79];
    FindIs(rest, DELIMITER, 1);
    assert Decode(utf8, rest) == Ok(4, Str([0x78, 0x79]));
    var e := Entry([0x78, 0x79, 0x65] + t, Str([0x78, 0x79]));
    assert DecodePair(utf8, view) == Ok(5, e);
    assert view[5..][0] == END;
    assert DecodePairs(utf8, view[5..]) == Ok(1, []);
    assert view[0] == MINUS && [e] + [] == [e];
    assert DecodePairs(utf8, view) == Cons(DecodePair(utf8, view), DecodePairs(utf8, view[5..]));
    assert InsertAll([], [e]) == InsertAll([e], [e][1..]);
  }

  /** Without a tail and with the tail `a` the same seven bytes are consumed and the results differ: the
      condition of `PrefixIffPlain` fails for a predicate that meets its premise. */
  lemma NegativeKeyMatters(utf8: Utf8)
    requires RejectsFF(utf8)
    requires utf8([0x78, 0x79]) && utf8([0x78, 0x79, 0x65]) && utf8([0x78, 0x79, 0x65, 0x61])
    ensures Decode(utf8, NEGATIVE_KEY).Ok? && Consumed(utf8, NEGATIVE_KEY) == NEGATIVE_KEY
    ensures Decode(utf8, NEGATIVE_KEY + [0x61]) != Decode(utf8, NEGATIVE_KEY)
    ensures !Plain(utf8, NEGATIVE_KEY)
  {
    hide Decode, Plain;
    assert NEGATIVE_KEY + [] == NEGATIVE_KEY && [0x78, 0x79, 0x65] + [] == [0x78, 0x79, 0x65];
    assert [0x78, 0x79, 0x65] + [0x61] == [0x78, 0x79, 0x65, 0x61];
    NegativeKeyExample(utf8, []);
    NegativeKeyExample(utf8, [0x61]);
    PrefixIffPlain(utf8, NEGATIVE_KEY);
  }

  /** Text in the sense of ASCII. */
  function Ascii(): Utf8 {
    (x: Bytes) => forall i :: 0 <= i < |x| ==> x[i] < 0x80
  }

  /** It is such a predicate. */
  lemma AsciiMeetsPremises()
    ensures RejectsFF(Ascii())
    ensures Ascii()([0x78, 0x79]) && Ascii()([0x78, 0x79, 0x65]) && Ascii()([0x78, 0x79, 0x65, 0x61])
  {
  }
}
