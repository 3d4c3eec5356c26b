/** Canonical bencodings: the grammar of BEP 3, and how decoder and encoder meet on it. */
module BencodeCanonical {
  import opened Bytes
  import opened Decimal
  import opened Wrappers
  import opened Bencode
  import opened BencodeRoundTrip

  // The grammar, stated on the text alone.

  predicate CanonicalInt(s: Bytes) {
    && |s| >= 2 && s[0] == INTEGER_START && s[|s| - 1] == END
    && var text := s[1..|s| - 1];
       Minimal(text) && ToInteger(text).Some?
  }

  /** A minimal decimal length, the delimiter, and that many bytes. */
  predicate CanonicalBytes(s: Bytes) {
    var d := Find(s, DELIMITER);
    && d < |s|
    && MinimalNat(s[..d])
    && Numeral(s[..d]) == |s| - d - 1 <= MAX_VIEW
  }

  function Payload(s: Bytes): Bytes
    requires CanonicalBytes(s)
  {
    s[Find(s, DELIMITER) + 1..]
  }

  ghost predicate Canonical(utf8: Utf8, s: Bytes)
    decreases |s|, 0
  {
    s != [] &&
    if s[0] == INTEGER_START then CanonicalInt(s)
    else if IsDigit(s[0]) then CanonicalBytes(s)
    else
      && |s| >= 2 && s[|s| - 1] == END
      && var body := s[1..|s| - 1];
         if s[0] == LIST_START then CanonicalItems(utf8, body)
         else s[0] == DICT_START && CanonicalPairs(utf8, None, body)
  }

  /** Canonical values side by side. */
  ghost predicate CanonicalItems(utf8: Utf8, s: Bytes)
    decreases |s|, 1
  {
    s == [] || exists n :: 0 < n <= |s| && CanonicalItemAt(utf8, s, n)
  }

  ghost predicate CanonicalItemAt(utf8: Utf8, s: Bytes, n: nat)
    requires 0 < n <= |s|
    decreases |s|, 1, 0
  {
    Canonical(utf8, s[..n]) && CanonicalItems(utf8, s[n..])
  }

  /** Keys, as text and in strictly increasing order, each with a canonical value. */
  ghost predicate CanonicalPairs(utf8: Utf8, last: Option<Bytes>, s: Bytes)
    decreases |s|, 1
  {
    s == [] || exists k, n :: 0 < k < n <= |s| && CanonicalPairAt(utf8, last, s, k, n)
  }

  ghost predicate CanonicalPairAt(utf8: Utf8, last: Option<Bytes>, s: Bytes, k: nat, n: nat)
    requires 0 < k < n <= |s|
    decreases |s|, 1, 0
  {
    && CanonicalBytes(s[..k])
    && var key := Payload(s[..k]);
       && utf8(key)
       && (last.Some? ==> Less(last.value, key))
       && Canonical(utf8, s[k..n])
       && CanonicalPairs(utf8, Some(key), s[n..])
  }

  // Every canonical text is the encoding of a value.

  lemma BytesOf(s: Bytes)
    requires CanonicalBytes(s)
    ensures EncodeBytes(Payload(s)) == s && |Payload(s)| <= MAX_VIEW
  {
    var d := Find(s, DELIMITER);
    PrintOfNumeral(s[..d]);
    assert s == s[..d] + [DELIMITER] + s[d + 1..];
  }

  lemma IntOf(s: Bytes) returns (i: int)
    requires CanonicalInt(s)
    ensures InInt64(i) && EncodeInt(i) == s
  {
    var text := s[1..|s| - 1];
    PrintOfToInteger(text);
    i := ToInteger(text).value;
    assert s == [INTEGER_START] + text + [END];
  }

  lemma {:induction false} ValueOf(utf8: Utf8, s: Bytes) returns (v: Value)
    requires Canonical(utf8, s)
    ensures Encodable(utf8, v) && Encode(v) == Some(s)
    decreases |s|, 0
  {
    hide CanonicalInt, CanonicalBytes;
    if s[0] == INTEGER_START {
      var i := IntOf(s);
      v := Int(i);
    } else if IsDigit(s[0]) {
      BytesOf(s);
      v := Str(Payload(s));
    } else {
      var body := s[1..|s| - 1];
      assert s == [s[0]] + body + [END];
      if s[0] == LIST_START {
        var items := ItemsOf(utf8, body);
        v := List(items);
      } else {
        var entries := EntriesOf(utf8, None, body);
        v := Dict(entries);
      }
    }
  }

  lemma {:induction false} ItemsOf(utf8: Utf8, s: Bytes) returns (items: seq<Value>)
    requires CanonicalItems(utf8, s)
    ensures forall x | x in items :: Encodable(utf8, x)
    ensures EncodeItems(items) == Some(s)
    decreases |s|, 1
  {
    hide Canonical, Encode;
    if s == [] {
      items := [];
    } else {
      var n :| 0 < n <= |s| && CanonicalItemAt(utf8, s, n);
      var v := ValueOf(utf8, s[..n]);
      var rest := ItemsOf(utf8, s[n..]);
      items := [v] + rest;
      assert items[1..] == rest && s == s[..n] + s[n..];
    }
  }

  ghost predicate After(last: Option<Bytes>, es: seq<Entry>) {
    last.Some? ==> forall e | e in es :: Less(last.value, e.key)
  }

  lemma {:induction false} EntriesOf(utf8: Utf8, last: Option<Bytes>, s: Bytes) returns (es: seq<Entry>)
    requires CanonicalPairs(utf8, last, s)
    ensures Sorted(es) && After(last, es)
    ensures forall e | e in es :: EncodableEntry(utf8, e)
    ensures EncodeEntries(es) == Some(s)
    decreases |s|, 1
  {
    hide Canonical, Encode, CanonicalBytes, EncodeBytes, Sorted, After;
    if s == [] {
      NoEntries(last);
      es := [];
    } else {
      var k, n :| 0 < k < n <= |s| && CanonicalPairAt(utf8, last, s, k, n);
      var key := Payload(s[..k]);
      BytesOf(s[..k]);
      var v := ValueOf(utf8, s[k..n]);
      var rest := EntriesOf(utf8, Some(key), s[n..]);
      var e := Entry(key, v);
      es := [e] + rest;
      assert es[1..] == rest && s[..k] + s[k..n] == s[..n] && s == s[..n] + s[n..];
      assert EncodableEntry(utf8, e);
      assert EncodeEntry(e) == Some(s[..n]);
      AfterMore(last, e, rest);
    }
  }

  lemma NoEntries(last: Option<Bytes>)
    ensures Sorted([]) && After(last, [])
  {
  }

  lemma AfterMore(last: Option<Bytes>, e: Entry, rest: seq<Entry>)
    requires Sorted(rest) && After(Some(e.key), rest) && (last.Some? ==> Less(last.value, e.key))
    ensures Sorted([e] + rest) && After(last, [e] + rest)
  {
    var es := [e] + rest;
    assert es[1..] == rest;
    if last.Some? {
      forall x | x in es
        ensures Less(last.value, x.key)
      {
        if x in rest {
          LessTransitive(last.value, e.key, x.key);
        }
      }
    }
    assert forall x | x in rest :: Less(e.key, x.key);
  }

  // Every encoding is canonical.

  lemma EncodedBytes(x: Bytes)
    requires |x| <= MAX_VIEW
    ensures CanonicalBytes(EncodeBytes(x)) && Payload(EncodeBytes(x)) == x && IsDigit(EncodeBytes(x)[0])
  {
    var s, d := EncodeBytes(x), PrintNat(|x|);
    FindIs(s, DELIMITER, |d|);
    assert s[..|d|] == d;
    NumeralOfPrint(|x|);
    PrintNatIsMinimal(|x|);
  }

  lemma EncodedInt(i: int)
    requires InInt64(i)
    ensures CanonicalInt(EncodeInt(i))
  {
    var s := EncodeInt(i);
    assert s[1..|s| - 1] == Print(i);
    PrintIsMinimal(i);
    ToIntegerOfPrint(i);
  }

  lemma {:induction false} EncodedIsCanonical(utf8: Utf8, v: Value)
    requires Encodable(utf8, v)
    ensures Encode(v).Some? && Canonical(utf8, Encode(v).value)
    decreases v, 0
  {
    hide CanonicalInt, CanonicalBytes, EncodeBytes, EncodeInt;
    match v
    case Int(i) => EncodedInt(i);
    case Str(text) => EncodedBytes(text);
    case Bin(bin) => EncodedBytes(bin);
    case List(items) =>
      EncodedItems(utf8, items);
      var s, body := Encode(v).value, EncodeItems(items).value;
      assert s[1..|s| - 1] == body;
    case Dict(entries) =>
      EncodedEntries(utf8, None, entries);
      var s, body := Encode(v).value, EncodeEntries(entries).value;
      assert s[1..|s| - 1] == body;
  }

  lemma {:induction false} EncodedItems(utf8: Utf8, items: seq<Value>)
    requires forall x | x in items :: Encodable(utf8, x)
    ensures EncodeItems(items).Some? && CanonicalItems(utf8, EncodeItems(items).value)
    decreases items, 1
  {
    hide Canonical;
    if items != [] {
      EncodedIsCanonical(utf8, items[0]);
      EncodedItems(utf8, items[1..]);
      FirstByte(items[0]);
      var s, first := EncodeItems(items).value, Encode(items[0]).value;
      assert s[..|first|] == first && s[|first|..] == EncodeItems(items[1..]).value;
      assert CanonicalItemAt(utf8, s, |first|);
    }
  }

  lemma {:induction false} EncodedEntries(utf8: Utf8, last: Option<Bytes>, es: seq<Entry>)
    requires Sorted(es) && After(last, es)
    requires forall e | e in es :: EncodableEntry(utf8, e)
    ensures EncodeEntries(es).Some? && CanonicalPairs(utf8, last, EncodeEntries(es).value)
    decreases es, 1
  {
    hide Canonical, CanonicalBytes, EncodeBytes, Encode;
    if es != [] {
      var e := es[0];
      assert e in es && EncodableEntry(utf8, e);
      EncodedIsCanonical(utf8, e.value);
      EncodedBytes(e.key);
      FirstByte(e.value);
      assert forall x | x in es[1..] :: Less(e.key, x.key);
      EncodedEntries(utf8, Some(e.key), es[1..]);
      var key, value, rest := EncodeBytes(e.key), Encode(e.value).value, EncodeEntries(es[1..]).value;
      assert EncodeEntry(e) == Some(key + value);
      var s := EncodeEntries(es).value;
      assert s == key + value + rest;
      var k, n := |key|, |key| + |value|;
      assert s[..k] == key && s[k..n] == value && s[n..] == rest;
      assert CanonicalPairAt(utf8, last, s, k, n);
    }
  }

  /** The canonical texts are exactly the encodings of the values the codec is for. */
  lemma CanonicalIffEncoded(utf8: Utf8, s: Bytes)
    ensures Canonical(utf8, s) <==> exists v :: Encodable(utf8, v) && Encode(v) == Some(s)
  {
    if Canonical(utf8, s) {
      var v := ValueOf(utf8, s);
    }
    if exists v :: Encodable(utf8, v) && Encode(v) == Some(s) {
      var v :| Encodable(utf8, v) && Encode(v) == Some(s);
      EncodedIsCanonical(utf8, v);
    }
  }

  /** A canonical text, followed by anything, decodes to a value whose encoding is that text. */
  lemma CanonicalDecodes(utf8: Utf8, s: Bytes, t: Bytes)
    requires Canonical(utf8, s) && |s + t| <= MAX_VIEW
    ensures var r := Decode(utf8, s + t);
            r.Ok? && r.length == |s| && Encode(r.value) == Some(s)
  {
    var v := ValueOf(utf8, s);
    RoundTrip(utf8, v, t);
    EncodeRetag(utf8, v);
  }
}
