/** The codec byte for byte: what is written, and exactly which texts are read as what. */
module BencodeText {
  import opened Bytes
  import opened Decimal
  import opened Wrappers
  import opened Bencode
  import opened BencodeRoundTrip

  // What is written.

  function Concat(parts: seq<Bytes>): Bytes {
    if parts == [] then [] else parts[0] + Concat(parts[1..])
  }

  /** An integer is `i`, its decimal text and `e`; a byte string is its length, a colon and the bytes. */
  lemma EncodesScalars(n: int, x: Bytes)
    ensures Encode(Int(n)) == Some([0x69] + Print(n) + [0x65])
    ensures Encode(Str(x)) == Encode(Bin(x)) == Some(Print(|x|) + [0x3a] + x)
    ensures Encode(Null).None?
  {
  }

  lemma {:induction false} EncodesItems(items: seq<Value>, parts: seq<Bytes>)
    requires |parts| == |items| && forall i :: 0 <= i < |items| ==> Encode(items[i]) == Some(parts[i])
    ensures EncodeItems(items) == Some(Concat(parts))
  {
    hide Encode;
    if items != [] {
      EncodesItems(items[1..], parts[1..]);
    }
  }

  /** A list is `l`, its items in order and `e`. */
  lemma EncodesList(items: seq<Value>, parts: seq<Bytes>)
    requires |parts| == |items| && forall i :: 0 <= i < |items| ==> Encode(items[i]) == Some(parts[i])
    ensures Encode(List(items)) == Some([0x6c] + Concat(parts) + [0x65])
  {
    hide EncodeItems, EncodeEntries, Concat;
    EncodesItems(items, parts);
  }

  lemma {:induction false} RefusesItem(items: seq<Value>, i: nat)
    requires i < |items| && Encode(items[i]).None?
    ensures EncodeItems(items).None?
  {
    hide Encode;
    if i > 0 {
      RefusesItem(items[1..], i - 1);
    }
  }

  /** And is refused if one of them is. */
  lemma RefusesList(items: seq<Value>, i: nat)
    requires i < |items| && Encode(items[i]).None?
    ensures Encode(List(items)).None?
  {
    hide EncodeItems, EncodeEntries;
    RefusesItem(items, i);
  }

  /** A key is written as a byte string before its value. */
  function PairText(e: Entry, value: Bytes): Bytes {
    Print(|e.key|) + [0x3a] + e.key + value
  }

  function PairTexts(es: seq<Entry>, parts: seq<Bytes>): seq<Bytes>
    requires |parts| == |es|
  {
    if es == [] then [] else [PairText(es[0], parts[0])] + PairTexts(es[1..], parts[1..])
  }

  lemma {:induction false} EncodesPairs(es: seq<Entry>, parts: seq<Bytes>)
    requires |parts| == |es| && forall i :: 0 <= i < |es| ==> Encode(es[i].value) == Some(parts[i])
    ensures EncodeEntries(es) == Some(Concat(PairTexts(es, parts)))
  {
    hide Encode;
    if es != [] {
      EncodesPairs(es[1..], parts[1..]);
      assert PairTexts(es, parts)[1..] == PairTexts(es[1..], parts[1..]);
      assert EncodeEntry(es[0]) == Some(PairText(es[0], parts[0]));
    }
  }

  /** A dictionary is `d`, its pairs in the order of the map and `e`. */
  lemma EncodesDict(es: seq<Entry>, parts: seq<Bytes>)
    requires |parts| == |es| && forall i :: 0 <= i < |es| ==> Encode(es[i].value) == Some(parts[i])
    ensures Encode(Dict(es)) == Some([0x64] + Concat(PairTexts(es, parts)) + [0x65])
  {
    hide EncodeItems, EncodeEntries, Concat;
    EncodesPairs(es, parts);
  }

  lemma {:induction false} RefusesPair(es: seq<Entry>, i: nat)
    requires i < |es| && Encode(es[i].value).None?
    ensures EncodeEntries(es).None?
  {
    hide Encode;
    if i > 0 {
      RefusesPair(es[1..], i - 1);
    }
  }

  lemma RefusesDict(es: seq<Entry>, i: nat)
    requires i < |es| && Encode(es[i].value).None?
    ensures Encode(Dict(es)).None?
  {
    hide EncodeItems, EncodeEntries;
    RefusesPair(es, i);
  }

  // What is read.

  /** The first byte decides: `i`, a digit, `l` or `d`, and nothing else is a value. */
  lemma OtherTexts(utf8: Utf8, s: View)
    requires s == [] || (s[0] != 0x69 && s[0] != 0x6c && s[0] != 0x64 && !(0x30 <= s[0] <= 0x39))
    ensures Decode(utf8, s) == NoValue
  {
  }

  /** `i`, some text and the first `e`: an integer exactly if the text is one. */
  lemma IntegerText(utf8: Utf8, x: Bytes, t: Bytes)
    requires 0x65 !in x && |[0x69] + x + [0x65] + t| <= MAX_VIEW
    ensures Decode(utf8, [0x69] + x + [0x65] + t)
            == if ToInteger(x).Some? then Ok(|x| + 2, Int(ToInteger(x).value)) else NoValue
  {
    hide ToInteger;
    var s := [0x69] + x + [0x65] + t;
    assert forall j :: 0 <= j < |x| ==> s[j + 1] == x[j];
    assert forall j :: 1 <= j < |x| + 1 ==> s[j] == x[j - 1];
    FindIs(s, END, |x| + 1);
    assert s[1..|x| + 1] == x;
  }

  lemma NoEnd(utf8: Utf8, s: View)
    requires s != [] && s[0] == 0x69 && 0x65 !in s
    ensures Decode(utf8, s) == NoValue
  {
    assert forall i :: 0 <= i < |s| ==> s[i] != 0x65;
  }

  /** Digits and a colon: a byte string exactly if there are as many bytes as they say, leading zeros or not. */
  lemma StringText(utf8: Utf8, d: Bytes, rest: Bytes)
    requires d != [] && AllDigits(d) && |d + [0x3a] + rest| <= MAX_VIEW
    ensures var n := Numeral(d);
            Decode(utf8, d + [0x3a] + rest)
            == if n <= |rest| then Ok(|d| + 1 + n, if utf8(rest[..n]) then Str(rest[..n]) else Bin(rest[..n]))
               else NoValue
  {
    hide Numeral, DecodeString, DecodeItems, DecodePairs;
    var s := d + [0x3a] + rest;
    assert s[0] == d[0] && IsDigit(d[0]);
    StringParts(utf8, d, rest, s);
  }

  lemma StringParts(utf8: Utf8, d: Bytes, rest: Bytes, s: View)
    requires d != [] && AllDigits(d) && s == d + [0x3a] + rest
    ensures var n := Numeral(d);
            DecodeString(utf8, s)
            == if n <= |rest| then Ok(|d| + 1 + n, if utf8(rest[..n]) then Str(rest[..n]) else Bin(rest[..n]))
               else NoValue
  {
    hide Numeral, ToInteger, Find, DecodeString, AllDigits;
    LengthRead(d);
    ColonAt(d, rest, s);
    StringAt(utf8, s, |d|);
    if Numeral(d) <= |rest| {
      Behind(d, rest, s, Numeral(d));
    }
  }

  lemma LengthRead(d: Bytes)
    requires d != [] && AllDigits(d)
    ensures ToInteger(d) == if Numeral(d) <= MAX_VIEW then Some(Numeral(d)) else None
  {
    hide Numeral, ToInteger;
    ToIntegerAccepts(d);
  }

  lemma Behind(d: Bytes, rest: Bytes, s: Bytes, n: nat)
    requires s == d + [0x3a] + rest && n <= |rest|
    ensures s[|d| + 1..|d| + 1 + n] == rest[..n]
  {
  }

  lemma ColonAt(d: Bytes, rest: Bytes, s: Bytes)
    requires AllDigits(d) && s == d + [0x3a] + rest
    ensures Find(s, DELIMITER) == |d| && s[..|d|] == d
  {
    assert forall j :: 0 <= j < |d| ==> s[j] == d[j] && IsDigit(d[j]);
    FindIs(s, DELIMITER, |d|);
  }

  lemma StringAt(utf8: Utf8, s: View, d: nat)
    requires d == Find(s, DELIMITER) < |s|
    requires ToInteger(s[..d]).Some? ==> ToInteger(s[..d]).value >= 0
    ensures DecodeString(utf8, s)
            == if ToInteger(s[..d]).None? || d + 1 + ToInteger(s[..d]).value > |s| then NoValue
               else
                 var end := d + 1 + ToInteger(s[..d]).value;
                 Ok(end, if utf8(s[d + 1..end]) then Str(s[d + 1..end]) else Bin(s[d + 1..end]))
  {
    hide ToInteger, Find, LastPosition;
    if ToInteger(s[..d]).Some? {
      NoWrap(d, ToInteger(s[..d]).value);
    }
  }

  lemma NoWrap(d: nat, n: int)
    requires d < MAX_VIEW && 0 <= n <= INT64_MAX
    ensures LastPosition(d, n) == d + 1 + n
  {
  }

  /** Where the items of a list end, one after the other from `at` on, with `e` behind the last. */
  ghost predicate ItemsAt(utf8: Utf8, s: View, vs: seq<Value>, n: nat)
    decreases |s|
  {
    if vs == [] then n == 1 && s != [] && s[0] == 0x65
    else
      && s != [] && s[0] != 0x65
      && var v := Decode(utf8, s);
         v.Ok? && v.value == vs[0] && n >= v.length && ItemsAt(utf8, s[v.length..], vs[1..], n - v.length)
  }

  lemma {:induction false} ItemsIff(utf8: Utf8, s: View, vs: seq<Value>, n: nat)
    ensures ItemsAt(utf8, s, vs, n) <==> DecodeItems(utf8, s) == Ok(n, vs)
    decreases |s|
  {
    hide Decode;
    if s != [] && s[0] == END {
    } else {
      var v := Decode(utf8, s);
      if v.Ok? {
        var rest := DecodeItems(utf8, s[v.length..]);
        if vs != [] && n >= v.length {
          ItemsIff(utf8, s[v.length..], vs[1..], n - v.length);
        }
        if rest.Ok? && DecodeItems(utf8, s) == Ok(n, vs) {
          assert vs == [v.value] + rest.value && vs[1..] == rest.value;
        }
        if ItemsAt(utf8, s, vs, n) {
          assert vs == [vs[0]] + vs[1..];
        }
      }
    }
  }

  /** `l`: a list exactly if values follow one after the other and then `e`. */
  lemma ListText(utf8: Utf8, s: View, r: Value, n: nat)
    requires |[0x6c] + s| <= MAX_VIEW
    ensures Decode(utf8, [0x6c] + s) == Ok(n + 1, r) <==> r.List? && ItemsAt(utf8, s, r.items, n)
  {
    hide DecodeItems, ItemsAt;
    assert ([0x6c] + s)[1..] == s;
    if r.List? {
      ItemsIff(utf8, s, r.items, n);
    }
  }

  /** The pairs of a dictionary, keys first, with `e` behind the last; in any order, and some perhaps twice. */
  ghost predicate PairsAt(utf8: Utf8, s: View, es: seq<Entry>, n: nat)
    decreases |s|
  {
    if es == [] then n == 1 && s != [] && s[0] == 0x65
    else
      && s != [] && s[0] != 0x65
      && var key := DecodeString(utf8, s);
         && key.Ok? && key.value == Str(es[0].key)
         && var v := Decode(utf8, s[key.length..]);
            && v.Ok? && v.value == es[0].value && n >= key.length + v.length
            && PairsAt(utf8, s[key.length + v.length..], es[1..], n - (key.length + v.length))
  }

  lemma {:induction false} PairsIff(utf8: Utf8, s: View, es: seq<Entry>, n: nat)
    ensures PairsAt(utf8, s, es, n) <==> DecodePairs(utf8, s) == Ok(n, es)
    decreases |s|
  {
    hide Decode, DecodeString, DecodePair;
    if s != [] && s[0] != END {
      PairIff(utf8, s);
      var e := DecodePair(utf8, s);
      if e.Ok? && es != [] && n >= e.length {
        PairsIff(utf8, s[e.length..], es[1..], n - e.length);
        assert es == [es[0]] + es[1..];
      }
      if e.Ok? {
        MorePairs(utf8, s, es, n);
      }
    }
  }

  lemma MorePairs(utf8: Utf8, s: View, es: seq<Entry>, n: nat)
    requires s != [] && s[0] != END && DecodePair(utf8, s).Ok?
    ensures var e := DecodePair(utf8, s);
            DecodePairs(utf8, s) == Ok(n, es)
            <==> es != [] && es[0] == e.value && n >= e.length
                 && DecodePairs(utf8, s[e.length..]) == Ok(n - e.length, es[1..])
  {
    hide Decode, DecodeString, DecodePair;
    var e := DecodePair(utf8, s);
    var rest := DecodePairs(utf8, s[e.length..]);
    if rest.Ok? {
      var all := [e.value] + rest.value;
      assert all[1..] == rest.value;
      assert es != [] ==> es == [es[0]] + es[1..];
    }
  }

  lemma PairIff(utf8: Utf8, s: View)
    ensures var key := DecodeString(utf8, s);
            DecodePair(utf8, s).Ok? <==> key.Ok? && key.value.Str? && Decode(utf8, s[key.length..]).Ok?
    ensures DecodePair(utf8, s).Ok? ==>
              var key := DecodeString(utf8, s);
              var v := Decode(utf8, s[key.length..]);
              && DecodePair(utf8, s).value == Entry(key.value.text, v.value)
              && DecodePair(utf8, s).length == key.length + v.length
  {
    hide Decode, DecodeString;
  }

  /** `d`: a dictionary exactly if pairs follow one after the other and then `e`; they are inserted in order. */
  lemma DictText(utf8: Utf8, s: View, r: Value, n: nat)
    requires |[0x64] + s| <= MAX_VIEW
    ensures Decode(utf8, [0x64] + s) == Ok(n + 1, r)
            <==> exists es :: PairsAt(utf8, s, es, n) && r == Dict(InsertAll([], es))
  {
    hide DecodePairs, PairsAt, InsertAll;
    assert ([0x64] + s)[1..] == s;
    if Decode(utf8, [0x64] + s) == Ok(n + 1, r) {
      PairsIff(utf8, s, DecodePairs(utf8, s).value, n);
    }
    if es :| PairsAt(utf8, s, es, n) && r == Dict(InsertAll([], es)) {
      PairsIff(utf8, s, es, n);
    }
  }

  /** A key that is no text throws, but only after its value was read: a malformed value gives no value. */
  lemma BinaryKey(utf8: Utf8, s: View)
    requires |[0x64] + s| <= MAX_VIEW && (s == [] || s[0] != 0x65)
    requires var key := DecodeString(utf8, s); key.Ok? && key.value.Bin?
    ensures var v := Decode(utf8, s[DecodeString(utf8, s).length..]);
            Decode(utf8, [0x64] + s) == if v.NoValue? then NoValue else Thrown
  {
    hide Decode, DecodeString;
    var e := DecodePair(utf8, s);
    assert DecodePairs(utf8, s) == Cons(e, NoValue);
    DictFails(utf8, s);
  }

  lemma DictFails(utf8: Utf8, s: View)
    requires |[0x64] + s| <= MAX_VIEW && !DecodePairs(utf8, s).Ok?
    ensures Decode(utf8, [0x64] + s) == if DecodePairs(utf8, s).NoValue? then NoValue else Thrown
  {
    hide DecodePairs, DecodeItems, DecodeString, DecodeInteger;
    assert ([0x64] + s)[1..] == s;
  }
}
