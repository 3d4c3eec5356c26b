/** Decoding undoes encoding, whatever follows the encoding. */
module BencodeRoundTrip {
  import opened Bytes
  import opened Decimal
  import opened Wrappers
  import opened Bencode

  /** Values the codec is for: 64-bit integers, byte strings, lists, and dictionaries whose keys are
      text, in the order of the map. */
  ghost predicate Encodable(utf8: Utf8, v: Value)
    decreases v, 0
  {
    match v
    case Null => false
    case Int(i) => InInt64(i)
    case Str(text) => |text| <= MAX_VIEW
    case Bin(bin) => |bin| <= MAX_VIEW
    case List(items) => forall x | x in items :: Encodable(utf8, x)
    case Dict(entries) => Sorted(entries) && forall e | e in entries :: EncodableEntry(utf8, e)
  }

  ghost predicate EncodableEntry(utf8: Utf8, e: Entry)
    decreases e, 1
  {
    utf8(e.key) && |e.key| <= MAX_VIEW && Encodable(utf8, e.value)
  }

  /** The value with every byte string kept as text or binary as the decoder would. */
  function Retag(utf8: Utf8, v: Value): Value
    decreases v, 0
  {
    match v
    case Null => Null
    case Int(i) => Int(i)
    case Str(text) => Tag(utf8, text)
    case Bin(bin) => Tag(utf8, bin)
    case List(items) => List(RetagItems(utf8, items))
    case Dict(entries) => Dict(RetagEntries(utf8, entries))
  }

  function RetagItems(utf8: Utf8, items: seq<Value>): (r: seq<Value>)
    ensures |r| == |items|
    decreases items, 1
  {
    if items == [] then [] else [Retag(utf8, items[0])] + RetagItems(utf8, items[1..])
  }

  function RetagEntries(utf8: Utf8, es: seq<Entry>): (r: seq<Entry>)
    ensures |r| == |es|
    ensures forall i :: 0 <= i < |es| ==> r[i].key == es[i].key
    decreases es, 1
  {
    if es == [] then [] else [Entry(es[0].key, Retag(utf8, es[0].value))] + RetagEntries(utf8, es[1..])
  }

  lemma FindIs(s: Bytes, c: byte, i: nat)
    requires i < |s| && s[i] == c
    requires forall j :: 0 <= j < i ==> s[j] != c
    ensures Find(s, c) == i
  {
  }

  lemma PrintSmall(n: nat)
    ensures Print(n) == PrintNat(n)
  {
  }

  lemma DecodeEncodedBytes(utf8: Utf8, x: Bytes, t: Bytes)
    requires |EncodeBytes(x) + t| <= MAX_VIEW
    ensures DecodeString(utf8, EncodeBytes(x) + t) == Ok(|EncodeBytes(x)|, Tag(utf8, x))
    ensures IsDigit(EncodeBytes(x)[0])
  {
    hide PrintNat, ToInteger, Numeral, Find;
    var s, d := EncodeBytes(x) + t, PrintNat(|x|);
    FindIs(s, DELIMITER, |d|);
    assert s[..|d|] == d;
    ToIntegerOfPrint(|x|);
    assert s[|d| + 1..|d| + 1 + |x|] == x;
    assert LastPosition(|d|, |x|) == |d| + 1 + |x|;
    PrintSmall(|x|);
  }

  lemma DecodeEncodedInt(i: int, t: Bytes)
    requires InInt64(i) && |EncodeInt(i) + t| <= MAX_VIEW
    ensures DecodeInteger(EncodeInt(i) + t) == Ok(|EncodeInt(i)|, Int(i))
  {
    hide PrintNat, ToInteger, Numeral, Find;
    var s, d := EncodeInt(i) + t, Print(i);
    assert forall j :: 0 <= j < |d| ==> s[1 + j] == d[j];
    assert forall j :: 0 <= j < |d| ==> d[j] == MINUS || IsDigit(d[j]);
    FindIs(s, END, 1 + |d|);
    assert s[1..1 + |d|] == d;
    ToIntegerOfPrint(i);
  }

  /** The first byte of an encoding is no end symbol, so list and dictionary frames are unambiguous. */
  lemma FirstByte(v: Value)
    requires Encode(v).Some?
    ensures Encode(v).value != [] && Encode(v).value[0] != END
  {
  }

  lemma InsertLast(es: seq<Entry>, e: Entry)
    requires Sorted(es + [e])
    ensures Insert(es, e) == es + [e]
  {
    if es != [] {
      assert Less((es + [e])[0].key, (es + [e])[|es|].key);
      LessIrreflexive(e.key);
      if Less(e.key, es[0].key) {
        LessTransitive(e.key, es[0].key, e.key);
      }
      assert Sorted(es[1..] + [e]) by {
        assert es[1..] + [e] == (es + [e])[1..];
      }
      InsertLast(es[1..], e);
      assert es + [e] == [es[0]] + (es[1..] + [e]);
    } else {
      assert es + [e] == [e];
    }
  }

  /** Inserting pairs that are already sorted changes nothing. */
  lemma {:induction false} InsertSorted(es: seq<Entry>, pairs: seq<Entry>)
    requires Sorted(es + pairs)
    ensures InsertAll(es, pairs) == es + pairs
    decreases |pairs|
  {
    if pairs == [] {
      assert es + pairs == es;
    } else {
      assert (es + [pairs[0]]) + pairs[1..] == es + pairs;
      assert es + [pairs[0]] == (es + pairs)[..|es| + 1];
      InsertLast(es, pairs[0]);
      InsertSorted(es + [pairs[0]], pairs[1..]);
    }
  }

  /** Decoding undoes encoding: for every tail, exactly the encoding is consumed and the value comes
      back, byte strings tagged by the predicate. */
  lemma {:induction false} RoundTrip(utf8: Utf8, v: Value, t: Bytes)
    requires Encodable(utf8, v)
    ensures Encode(v).Some?
    ensures |Encode(v).value + t| <= MAX_VIEW ==>
              Decode(utf8, Encode(v).value + t) == Ok(|Encode(v).value|, Retag(utf8, v))
    decreases v, 0
  {
    hide DecodeItems, DecodePairs, DecodeString, DecodeInteger, EncodeItems, EncodeEntries, InsertAll, PrintNat, Print,
         RetagItems, RetagEntries;
    match v
    case Int(i) =>
      if |EncodeInt(i) + t| <= MAX_VIEW {
        DecodeEncodedInt(i, t);
      }
    case Str(text) =>
      if |EncodeBytes(text) + t| <= MAX_VIEW {
        DecodeEncodedBytes(utf8, text, t);
      }
    case Bin(bin) =>
      if |EncodeBytes(bin) + t| <= MAX_VIEW {
        DecodeEncodedBytes(utf8, bin, t);
      }
    case List(items) =>
      RoundTripItems(utf8, items, t);
      var b := EncodeItems(items).value;
      assert (Encode(v).value + t)[1..] == b + [END] + t;
    case Dict(entries) =>
      RoundTripEntries(utf8, entries, t);
      var b := EncodeEntries(entries).value;
      assert (Encode(v).value + t)[1..] == b + [END] + t;
      var r := RetagEntries(utf8, entries);
      assert [] + r == r;
      InsertSorted([], r);
  }

  lemma {:induction false} RoundTripItems(utf8: Utf8, items: seq<Value>, t: Bytes)
    requires forall x | x in items :: Encodable(utf8, x)
    ensures EncodeItems(items).Some?
    ensures |EncodeItems(items).value + [END] + t| <= MAX_VIEW ==>
              DecodeItems(utf8, EncodeItems(items).value + [END] + t)
              == Ok(|EncodeItems(items).value| + 1, RetagItems(utf8, items))
    decreases items, 1
  {
    hide Decode, Retag, Encode, Encodable;
    if items != [] {
      assert items[0] in items;
      RoundTripItems(utf8, items[1..], t);
      var body := EncodeItems(items[1..]).value;
      var rest := body + [END] + t;
      RoundTrip(utf8, items[0], rest);
      FirstByte(items[0]);
      var first := Encode(items[0]).value;
      assert EncodeItems(items).value + [END] + t == first + rest;
      assert (first + rest)[|first|..] == rest && (first + rest)[0] == first[0];
    }
  }

  lemma {:induction false} RoundTripEntries(utf8: Utf8, es: seq<Entry>, t: Bytes)
    requires forall e | e in es :: EncodableEntry(utf8, e)
    ensures EncodeEntries(es).Some?
    ensures |EncodeEntries(es).value + [END] + t| <= MAX_VIEW ==>
              DecodePairs(utf8, EncodeEntries(es).value + [END] + t)
              == Ok(|EncodeEntries(es).value| + 1, RetagEntries(utf8, es))
    decreases es, 1
  {
    hide Decode, DecodeString, DecodePair, EncodeBytes, Retag;
    if es != [] {
      var e := es[0];
      assert e in es;
      RoundTripEntries(utf8, es[1..], t);
      var body := EncodeEntries(es[1..]).value;
      var rest := body + [END] + t;
      RoundTripEntry(utf8, e, rest);
      var pair := EncodeEntry(e).value;
      assert EncodeEntries(es).value + [END] + t == pair + rest;
      assert (pair + rest)[|pair|..] == rest;
    }
  }

  lemma {:induction false} RoundTripEntry(utf8: Utf8, e: Entry, t: Bytes)
    requires EncodableEntry(utf8, e)
    ensures EncodeEntry(e).Some? && EncodeEntry(e).value != [] && EncodeEntry(e).value[0] != END
    ensures |EncodeEntry(e).value + t| <= MAX_VIEW ==>
              DecodePair(utf8, EncodeEntry(e).value + t)
              == Ok(|EncodeEntry(e).value|, Entry(e.key, Retag(utf8, e.value)))
    decreases e, 1
  {
    hide Decode, DecodeString, Encode, Retag;
    RoundTrip(utf8, e.value, t);
    var key, value := EncodeBytes(e.key), Encode(e.value).value;
    assert EncodeEntry(e) == Some(key + value);
    assert key != [] && (key + value)[0] == key[0] && IsDigit(key[0]);
    var s := EncodeEntry(e).value + t;
    assert s == key + (value + t) && s[|key|..] == value + t;
    if |s| <= MAX_VIEW {
      DecodeEncodedBytes(utf8, e.key, value + t);
    }
  }

  /** The encoding does not see the tags. */
  lemma {:induction false} EncodeRetag(utf8: Utf8, v: Value)
    ensures Encode(Retag(utf8, v)) == Encode(v)
    decreases v, 0
  {
    match v
    case Null =>
    case Int(_) =>
    case Str(_) =>
    case Bin(_) =>
    case List(items) => EncodeRetagItems(utf8, items);
    case Dict(entries) => EncodeRetagEntries(utf8, entries);
  }

  lemma {:induction false} EncodeRetagItems(utf8: Utf8, items: seq<Value>)
    ensures EncodeItems(RetagItems(utf8, items)) == EncodeItems(items)
    decreases items, 1
  {
    if items != [] {
      EncodeRetag(utf8, items[0]);
      EncodeRetagItems(utf8, items[1..]);
      assert RetagItems(utf8, items)[1..] == RetagItems(utf8, items[1..]);
    }
  }

  lemma {:induction false} EncodeRetagEntries(utf8: Utf8, es: seq<Entry>)
    ensures EncodeEntries(RetagEntries(utf8, es)) == EncodeEntries(es)
    decreases es, 1
  {
    if es != [] {
      EncodeRetag(utf8, es[0].value);
      EncodeRetagEntries(utf8, es[1..]);
      assert RetagEntries(utf8, es)[1..] == RetagEntries(utf8, es[1..]);
    }
  }
}
