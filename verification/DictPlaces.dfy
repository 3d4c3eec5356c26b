/** Where in the file a decoded dictionary value came from. */
module DictPlaces {
  import opened Bytes
  import opened Wrappers
  import opened Bencode
  import opened BencodeRoundTrip
  import opened BencodeCanonical
  import opened BencodeNormal

  /** The bytes from `begin` up to `end`. */
  datatype Place = Place(begin: nat, end: nat)

  function Shift(p: Option<Place>, n: nat): Option<Place> {
    if p.None? then None else Some(Place(p.value.begin + n, p.value.end + n))
  }

  predicate In(p: Place, s: Bytes) {
    p.begin < p.end <= |s|
  }

  function Slice(s: Bytes, p: Place): Bytes
    requires In(p, s)
  {
    s[p.begin..p.end]
  }

  lemma SliceShift(s: Bytes, n: nat, p: Place)
    requires n <= |s| && In(p, s[n..])
    ensures In(Place(p.begin + n, p.end + n), s)
    ensures Slice(s, Place(p.begin + n, p.end + n)) == Slice(s[n..], p)
  {
  }

  /** The place, in the pairs of a dictionary, of the value of the first pair with this key. */
  function LocatePair(utf8: Utf8, s: View, key: Bytes): Option<Place>
    decreases |s|
  {
    if s != [] && s[0] == END then None
    else
      var e := DecodePair(utf8, s);
      if !e.Ok? then None
      else if e.value.key == key then Some(Place(DecodeString(utf8, s).length, e.length))
      else Shift(LocatePair(utf8, s[e.length..], key), e.length)
  }

  /** The place in the text of a dictionary. */
  function Locate(utf8: Utf8, s: View, key: Bytes): Option<Place>
    requires s != [] && s[0] == DICT_START
  {
    Shift(LocatePair(utf8, s[1..], key), 1)
  }

  /** The decoder reads `v` at this place, and reads all of it. */
  ghost predicate ReadAt(utf8: Utf8, s: View, p: Place, v: Value) {
    In(p, s) && Decode(utf8, s[p.begin..]) == Ok(p.end - p.begin, v)
  }

  lemma ReadAtShift(utf8: Utf8, s: View, n: nat, p: Place, v: Value)
    requires n <= |s| && ReadAt(utf8, s[n..], p, v)
    ensures ReadAt(utf8, s, Place(p.begin + n, p.end + n), v)
  {
    hide Decode;
    assert s[n..][p.begin..] == s[p.begin + n..];
  }

  lemma PairParts(utf8: Utf8, s: View)
    requires DecodePair(utf8, s).Ok?
    ensures var e := DecodePair(utf8, s);
            && DecodeString(utf8, s).Ok?
            && ReadAt(utf8, s, Place(DecodeString(utf8, s).length, e.length), e.value.value)
  {
    hide Decode, DecodeString;
  }

  lemma {:induction false} LocatePairFinds(utf8: Utf8, s: View, key: Bytes)
    requires DecodePairs(utf8, s).Ok?
    ensures var found, p := Lookup(DecodePairs(utf8, s).value, key), LocatePair(utf8, s, key);
            && (p.None? ==> found.None?)
            && (p.Some? ==> found.Some? && ReadAt(utf8, s, p.value, found.value))
    decreases |s|
  {
    hide Decode, DecodeString, DecodePair, ReadAt;
    if !(s != [] && s[0] == END) {
      var e := DecodePair(utf8, s);
      PairParts(utf8, s);
      if e.value.key != key {
        var rest := s[e.length..];
        LocatePairFinds(utf8, rest, key);
        var p, found := LocatePair(utf8, rest, key), Lookup(DecodePairs(utf8, rest).value, key);
        if p.Some? {
          ReadAtShift(utf8, s, e.length, p.value, found.value);
        }
      }
    }
  }

  lemma DictOf(utf8: Utf8, s: View)
    requires s != [] && s[0] == DICT_START && Decode(utf8, s).Ok?
    ensures var pairs := DecodePairs(utf8, s[1..]);
            pairs.Ok? && Decode(utf8, s).value == Dict(InsertAll([], pairs.value))
  {
    hide DecodePairs, InsertAll;
  }

  /** The value that a decoded dictionary has for a key was read at the place `Locate` names. */
  lemma LocateFinds(utf8: Utf8, s: View, key: Bytes)
    requires s != [] && s[0] == DICT_START && Decode(utf8, s).Ok?
    ensures Decode(utf8, s).value.Dict?
    ensures var found, p := Lookup(Decode(utf8, s).value.entries, key), Locate(utf8, s, key);
            && (p.None? ==> found.None?)
            && (p.Some? ==> found.Some? && ReadAt(utf8, s, p.value, found.value))
  {
    hide Decode, DecodePairs, LocatePair, ReadAt, InsertAll;
    DictOf(utf8, s);
    LocatePairFinds(utf8, s[1..], key);
    var pairs := DecodePairs(utf8, s[1..]).value;
    FirstWins([], pairs, key);
    var p := LocatePair(utf8, s[1..], key);
    if p.Some? {
      ReadAtShift(utf8, s, 1, p.value, Lookup(pairs, key).value);
    }
  }

  /** Re-encoding a value that was read gives back the bytes it was read from if and only if those
      bytes are canonical. */
  lemma SliceIffEncoding(utf8: Utf8, s: View, p: Place, v: Value)
    requires ReadAt(utf8, s, p, v)
    ensures Canonical(utf8, Slice(s, p)) <==> Encode(v) == Some(Slice(s, p))
  {
    hide Decode, Canonical;
    var slice, rest := Slice(s, p), s[p.end..];
    if Canonical(utf8, slice) {
      assert slice + rest == s[p.begin..];
      CanonicalDecodes(utf8, slice, rest);
    }
    if Encode(v) == Some(slice) {
      DecodedIsNormal(utf8, s[p.begin..]);
      EncodedIsCanonical(utf8, v);
    }
  }

  /** In canonical pairs every located value is canonical. */
  lemma {:induction false} LocatedPairIsCanonical(utf8: Utf8, last: Option<Bytes>, body: Bytes, t: Bytes, key: Bytes)
    requires |body + [END] + t| <= MAX_VIEW && CanonicalPairs(utf8, last, body)
    ensures var s := body + [END] + t;
            var p := LocatePair(utf8, s, key);
            p.Some? ==> In(p.value, s) && Canonical(utf8, Slice(s, p.value))
    decreases |body|
  {
    hide Canonical, Decode, DecodeString, DecodePair, CanonicalPairAt, In, Slice;
    var s := body + [END] + t;
    if body == [] {
      assert s[0] == END;
    } else {
      var k, n :| 0 < k < n <= |body| && CanonicalPairAt(utf8, last, body, k, n);
      var rest := body[n..] + [END] + t;
      assert s == body[..n] + rest && s[n..] == rest && s[k..n] == body[k..n];
      var name := CanonicalPair(utf8, last, body, k, n, rest);
      LocatedPairIsCanonical(utf8, Some(name), body[n..], t, key);
      LocatedNext(utf8, s, k, n, name, key);
    }
  }

  /** The place is in the first pair, or is one of the rest. */
  lemma LocatedNext(utf8: Utf8, s: View, k: nat, n: nat, name: Bytes, key: Bytes)
    requires s != [] && s[0] != END && 0 < k < n <= |s|
    requires DecodeString(utf8, s).Ok? && DecodeString(utf8, s).length == k
    requires var e := DecodePair(utf8, s); e.Ok? && e.length == n && e.value.key == name
    requires Canonical(utf8, s[k..n])
    requires var p := LocatePair(utf8, s[n..], key);
             p.Some? ==> In(p.value, s[n..]) && Canonical(utf8, Slice(s[n..], p.value))
    ensures var p := LocatePair(utf8, s, key);
            p.Some? ==> In(p.value, s) && Canonical(utf8, Slice(s, p.value))
  {
    hide Canonical, Decode, DecodeString, DecodePair;
    var p := LocatePair(utf8, s[n..], key);
    if name != key && p.Some? {
      SliceShift(s, n, p.value);
    }
  }

  lemma CanonicalPair(utf8: Utf8, last: Option<Bytes>, body: Bytes, k: nat, n: nat, rest: Bytes) returns (name: Bytes)
    requires 0 < k < n <= |body| && CanonicalPairAt(utf8, last, body, k, n)
    requires |body[..n] + rest| <= MAX_VIEW
    ensures var s := body[..n] + rest;
            && s[0] != END && DecodeString(utf8, s).Ok? && DecodeString(utf8, s).length == k
            && var e := DecodePair(utf8, s);
               e.Ok? && e.length == n && e.value.key == name
    ensures Canonical(utf8, body[k..n]) && CanonicalPairs(utf8, Some(name), body[n..])
  {
    hide Canonical, CanonicalBytes, Decode, DecodeString, CanonicalPairs, EncodeBytes;
    name := Payload(body[..k]);
    var s := body[..n] + rest;
    assert s == body[..k] + (body[k..n] + rest) && s[k..] == body[k..n] + rest;
    BytesOf(body[..k]);
    DecodeEncodedBytes(utf8, name, body[k..n] + rest);
    assert s[0] == EncodeBytes(name)[0];
    CanonicalDecodes(utf8, body[k..n], rest);
  }

  lemma DictBody(utf8: Utf8, s: Bytes)
    requires Canonical(utf8, s) && s[0] == DICT_START
    ensures |s| >= 2 && s[|s| - 1] == END && CanonicalPairs(utf8, None, s[1..|s| - 1])
  {
    hide CanonicalPairs;
  }

  /** In a canonical dictionary every located value is canonical. */
  lemma LocatedIsCanonical(utf8: Utf8, s: View, key: Bytes)
    requires Canonical(utf8, s) && s[0] == DICT_START
    ensures var p := Locate(utf8, s, key);
            p.Some? ==> In(p.value, s) && Canonical(utf8, Slice(s, p.value))
  {
    hide Canonical, CanonicalPairs, LocatePair;
    DictBody(utf8, s);
    var body := s[1..|s| - 1];
    assert s[1..] == body + [END] + [];
    LocatedPairIsCanonical(utf8, None, body, [], key);
    var p := LocatePair(utf8, s[1..], key);
    if p.Some? {
      SliceShift(s, 1, p.value);
    }
  }
}
