/** The bencode codec of `src/bencode`: values, the encoder and the decoder. */
module Bencode {
  import opened Bytes
  import opened Decimal
  import opened Wrappers

  const END: byte := 0x65 // e
  const LIST_START: byte := 0x6c // l
  const DICT_START: byte := 0x64 // d
  const INTEGER_START: byte := 0x69 // i
  const DELIMITER: byte := 0x3a // :

  const TWO_64 := 0x1_0000_0000_0000_0000

  /** What a JSON value can be here.  `Null` stands for everything the encoder refuses.  A dictionary
      lists its entries in the order of the underlying `std::map`. */
  datatype Value =
    | Null
    | Int(i: int)
    | Str(text: Bytes)
    | Bin(bin: Bytes)
    | List(items: seq<Value>)
    | Dict(entries: seq<Entry>)

  datatype Entry = Entry(key: Bytes, value: Value)

  predicate Sorted(es: seq<Entry>) {
    forall i, j :: 0 <= i < j < |es| ==> Less(es[i].key, es[j].key)
  }

  function Lookup(es: seq<Entry>, key: Bytes): Option<Value> {
    if es == [] then None else if es[0].key == key then Some(es[0].value) else Lookup(es[1..], key)
  }

  /** `std::map::insert`: an existing key keeps its value. */
  function Insert(es: seq<Entry>, e: Entry): seq<Entry> {
    if es == [] then [e]
    else if es[0].key == e.key then es
    else if Less(e.key, es[0].key) then [e] + es
    else [es[0]] + Insert(es[1..], e)
  }

  /** Insert the pairs from left to right. */
  function InsertAll(es: seq<Entry>, pairs: seq<Entry>): seq<Entry>
    decreases |pairs|
  {
    if pairs == [] then es else InsertAll(Insert(es, pairs[0]), pairs[1..])
  }

  // The encoder.

  function EncodeBytes(s: Bytes): Bytes {
    PrintNat(|s|) + [DELIMITER] + s
  }

  function EncodeInt(i: int): Bytes {
    [INTEGER_START] + Print(i) + [END]
  }

  function Encode(v: Value): Option<Bytes>
    decreases v, 0
  {
    match v
    case Null => None
    case Int(i) => Some(EncodeInt(i))
    case Str(text) => Some(EncodeBytes(text))
    case Bin(bin) => Some(EncodeBytes(bin))
    case List(items) => Frame(LIST_START, EncodeItems(items))
    case Dict(entries) => Frame(DICT_START, EncodeEntries(entries))
  }

  function Frame(start: byte, body: Option<Bytes>): Option<Bytes> {
    if body.None? then None else Some([start] + body.value + [END])
  }

  function Join(front: Option<Bytes>, rest: Option<Bytes>): Option<Bytes> {
    if front.None? || rest.None? then None else Some(front.value + rest.value)
  }

  lemma JoinEmpty(rest: Option<Bytes>)
    ensures Join(Some([]), rest) == rest
  {
    if rest.Some? {
      assert [] + rest.value == rest.value;
    }
  }

  /** What is in the stream, then a key and a value, then the rest. */
  lemma JoinMore(stream: Bytes, key: Bytes, value: Option<Bytes>, rest: Option<Bytes>)
    ensures value.None? ==> Join(Some(stream), Join(Join(Some(key), value), rest)).None?
    ensures value.Some? ==>
              Join(Some(stream), Join(Join(Some(key), value), rest)) == Join(Some(stream + key + value.value), rest)
  {
    if value.Some? && rest.Some? {
      assert stream + (key + value.value + rest.value) == stream + key + value.value + rest.value;
    }
  }

  function EncodeItems(items: seq<Value>): Option<Bytes>
    decreases items, 1
  {
    if items == [] then Some([]) else Join(Encode(items[0]), EncodeItems(items[1..]))
  }

  function EncodeEntry(e: Entry): Option<Bytes>
    decreases e, 1
  {
    Join(Some(EncodeBytes(e.key)), Encode(e.value))
  }

  function EncodeEntries(es: seq<Entry>): Option<Bytes>
    decreases es, 1
  {
    if es == [] then Some([]) else Join(EncodeEntry(es[0]), EncodeEntries(es[1..]))
  }

  /** The dispatch of `encode`, over the loops below. */
  method EncodeValue(v: Value) returns (r: Option<Bytes>)
    ensures r == Encode(v)
    decreases v, 1
  {
    match v
    case Null => r := None;
    case Int(i) => r := Some(EncodeInt(i));
    case Str(text) => r := Some(EncodeBytes(text));
    case Bin(bin) => r := Some(EncodeBytes(bin));
    case List(items) => r := EncodeList(items);
    case Dict(entries) => r := EncodeDict(entries);
  }

  method EncodeList(items: seq<Value>) returns (r: Option<Bytes>)
    ensures r == Encode(List(items))
    decreases items, 0
  {
    var stream: Bytes := [];
    assert items[0..] == items;
    JoinEmpty(EncodeItems(items));
    for i := 0 to |items|
      invariant Join(Some(stream), EncodeItems(items[i..])) == EncodeItems(items)
    {
      assert items[i..][0] == items[i] && items[i..][1..] == items[i + 1..];
      var encoded := EncodeValue(items[i]);
      JoinMore(stream, [], encoded, EncodeItems(items[i + 1..]));
      JoinEmpty(encoded);
      if encoded.None? {
        return None;
      }
      assert stream + [] == stream;
      stream := stream + encoded.value;
    }
    assert items[|items|..] == [] && stream + [] == stream;
    r := Some([LIST_START] + stream + [END]);
  }

  method EncodeDict(entries: seq<Entry>) returns (r: Option<Bytes>)
    ensures r == Encode(Dict(entries))
    decreases entries, 0
  {
    var stream: Bytes := [];
    assert entries[0..] == entries;
    JoinEmpty(EncodeEntries(entries));
    for i := 0 to |entries|
      invariant Join(Some(stream), EncodeEntries(entries[i..])) == EncodeEntries(entries)
    {
      hide Encode, EncodeBytes, Join;
      assert entries[i..][0] == entries[i] && entries[i..][1..] == entries[i + 1..];
      ghost var was := stream;
      var key := EncodeBytes(entries[i].key);
      stream := stream + key;
      var encoded := EncodeValue(entries[i].value);
      JoinMore(was, key, encoded, EncodeEntries(entries[i + 1..]));
      if encoded.None? {
        return None;
      }
      stream := stream + encoded.value;
    }
    assert entries[|entries|..] == [] && stream + [] == stream;
    r := Some([DICT_START] + stream + [END]);
  }

  // The decoder.

  /** Text that a `std::string_view` can hold. */
  const MAX_VIEW := INT64_MAX
  type View = s: Bytes | |s| <= MAX_VIEW

  /** Decides whether a byte string is kept as text or as binary: any predicate will do. */
  type Utf8 = Bytes -> bool

  /** A decoded value with the number of bytes it took; nothing; or the exception that the conversion
      of a binary dictionary key to a string throws. */
  datatype Decoded<+T> = NoValue | Thrown | Ok(length: nat, value: T)

  /** The index of the first `c`, or the length. */
  function Find(s: Bytes, c: byte): (i: nat)
    ensures i <= |s|
    ensures i < |s| ==> s[i] == c
    ensures forall j :: 0 <= j < i ==> s[j] != c
  {
    if s == [] || s[0] == c then 0 else 1 + Find(s[1..], c)
  }

  /** `delimiter_index + 1 + *len` in the arithmetic of `size_t`. */
  function LastPosition(delimiter: nat, len: int): nat {
    (delimiter + 1 + len) % TWO_64
  }

  function Tag(utf8: Utf8, payload: Bytes): Value {
    if utf8(payload) then Str(payload) else Bin(payload)
  }

  /** `decode_string`.  A negative length, which only a dictionary key can have, wraps around in the
      position and, as the count of `substr`, takes all that is left. */
  function DecodeString(utf8: Utf8, s: View): (r: Decoded<Value>)
    ensures r.Ok? ==> r.length <= |s| && (r.value.Str? || r.value.Bin?)
    ensures s != [] && IsDigit(s[0]) && r.Ok? ==> 2 <= r.length
    ensures !r.Thrown?
  {
    var delimiter := Find(s, DELIMITER);
    if delimiter == |s| then NoValue
    else
      var len := ToInteger(s[..delimiter]);
      if len.None? then NoValue
      else
        var last := LastPosition(delimiter, len.value);
        if last > |s| then NoValue
        else
          var payload := if len.value < 0 then s[delimiter + 1..] else s[delimiter + 1..last];
          Ok(last, Tag(utf8, payload))
  }

  function DecodeInteger(s: View): (r: Decoded<Value>)
    requires s != [] && s[0] == INTEGER_START
    ensures r.Ok? ==> 2 <= r.length <= |s|
    ensures !r.Thrown?
  {
    var end := Find(s, END);
    if end == |s| then NoValue
    else
      var i := ToInteger(s[1..end]);
      if i.None? then NoValue else Ok(end + 1, Int(i.value))
  }

  function Cons<T>(v: Decoded<T>, rest: Decoded<seq<T>>): Decoded<seq<T>> {
    match (v, rest)
    case (Ok(n, x), Ok(m, xs)) => Ok(n + m, [x] + xs)
    case (Ok(_, _), NoValue) => NoValue
    case (Ok(_, _), Thrown) => Thrown
    case (NoValue, _) => NoValue
    case (Thrown, _) => Thrown
  }

  /** `decode_bencoded_value`.  Every value takes at least two bytes, and no more than there are. */
  function Decode(utf8: Utf8, s: View): (r: Decoded<Value>)
    ensures r.Ok? ==> 2 <= r.length <= |s|
    decreases |s|, 0
  {
    if s == [] then NoValue
    else if s[0] == INTEGER_START then DecodeInteger(s)
    else if IsDigit(s[0]) then DecodeString(utf8, s)
    else if s[0] == LIST_START then
      match DecodeItems(utf8, s[1..])
      case NoValue => NoValue
      case Thrown => Thrown
      case Ok(n, items) => Ok(1 + n, List(items))
    else if s[0] == DICT_START then
      match DecodePairs(utf8, s[1..])
      case NoValue => NoValue
      case Thrown => Thrown
      case Ok(n, pairs) => Ok(1 + n, Dict(InsertAll([], pairs)))
    else NoValue
  }

  /** Values up to the end symbol, which is consumed. */
  function DecodeItems(utf8: Utf8, s: View): (r: Decoded<seq<Value>>)
    ensures r.Ok? ==> 1 <= r.length <= |s|
    decreases |s|, 1
  {
    if s != [] && s[0] == END then Ok(1, [])
    else
      var v := Decode(utf8, s);
      if v.Ok? then Cons(v, DecodeItems(utf8, s[v.length..])) else Cons(v, NoValue)
  }

  /** A key and its value. */
  function DecodePair(utf8: Utf8, s: View): (r: Decoded<Entry>)
    ensures r.Ok? ==> 2 <= r.length <= |s|
    decreases |s|, 1
  {
    match DecodeString(utf8, s)
    case NoValue => NoValue
    case Thrown => Thrown
    case Ok(k, key) =>
      match Decode(utf8, s[k..])
      case NoValue => NoValue
      case Thrown => Thrown
      case Ok(n, value) => if key.Bin? then Thrown else Ok(k + n, Entry(key.text, value))
  }

  /** Pairs up to the end symbol, which is consumed. */
  function DecodePairs(utf8: Utf8, s: View): (r: Decoded<seq<Entry>>)
    ensures r.Ok? ==> 1 <= r.length <= |s|
    decreases |s|, 2
  {
    if s != [] && s[0] == END then Ok(1, [])
    else
      var e := DecodePair(utf8, s);
      if e.Ok? then Cons(e, DecodePairs(utf8, s[e.length..])) else Cons(e, NoValue)
  }

  method DecodeValue(utf8: Utf8, s: View) returns (r: Decoded<Value>)
    ensures r == Decode(utf8, s)
    decreases |s|, 1
  {
    if s == [] {
      r := NoValue;
    } else if s[0] == INTEGER_START {
      r := DecodeInteger(s);
    } else if IsDigit(s[0]) {
      r := DecodeString(utf8, s);
    } else if s[0] == LIST_START {
      r := DecodeList(utf8, s);
    } else if s[0] == DICT_START {
      r := DecodeDict(utf8, s);
    } else {
      r := NoValue;
    }
  }

  /** `rest` after what has been read gives what the whole view gives. */
  ghost predicate Resumes<T>(read: seq<T>, taken: nat, rest: Decoded<seq<T>>, whole: Decoded<seq<T>>) {
    match rest
    case NoValue => whole == NoValue
    case Thrown => whole == Thrown
    case Ok(n, xs) => whole == Ok(taken + n, read + xs)
  }

  lemma ResumesAtStart<T>(whole: Decoded<seq<T>>)
    ensures Resumes([], 0, whole, whole)
  {
    if whole.Ok? {
      assert [] + whole.value == whole.value;
    }
  }

  lemma ResumesNext<T>(read: seq<T>, taken: nat, v: Decoded<T>, rest: Decoded<seq<T>>, whole: Decoded<seq<T>>)
    requires Resumes(read, taken, Cons(v, rest), whole) && v.Ok?
    ensures Resumes(read + [v.value], taken + v.length, rest, whole)
  {
    if rest.Ok? {
      assert read + ([v.value] + rest.value) == (read + [v.value]) + rest.value;
    }
  }

  method DecodeList(utf8: Utf8, s: View) returns (r: Decoded<Value>)
    requires s != [] && s[0] == LIST_START
    ensures r == Decode(utf8, s)
    decreases |s|, 0
  {
    var remaining := s[1..];
    var list: seq<Value> := [];
    ResumesAtStart(DecodeItems(utf8, s[1..]));
    while !(remaining != [] && remaining[0] == END)
      invariant |remaining| < |s|
      invariant Resumes(list, |s| - 1 - |remaining|, DecodeItems(utf8, remaining), DecodeItems(utf8, s[1..]))
      decreases |remaining|
    {
      var decoded := DecodeValue(utf8, remaining);
      match decoded
      case NoValue => return NoValue;
      case Thrown => return Thrown;
      case Ok(n, v) =>
        ResumesNext(list, |s| - 1 - |remaining|, decoded, DecodeItems(utf8, remaining[n..]), DecodeItems(utf8, s[1..]));
        list := list + [v];
        remaining := remaining[n..];
    }
    remaining := remaining[1..];
    assert list + [] == list;
    r := Ok(|s| - |remaining|, List(list));
  }

  lemma InsertNothing()
    ensures InsertAll([], []) == []
  {
  }

  lemma {:induction false} InsertAllSnoc(es: seq<Entry>, pairs: seq<Entry>, e: Entry)
    ensures InsertAll(es, pairs + [e]) == Insert(InsertAll(es, pairs), e)
    decreases |pairs|
  {
    if pairs == [] {
      assert pairs + [e] == [e];
      assert InsertAll(Insert(es, e), [e][1..]) == Insert(es, e);
    } else {
      assert (pairs + [e])[0] == pairs[0] && (pairs + [e])[1..] == pairs[1..] + [e];
      InsertAllSnoc(Insert(es, pairs[0]), pairs[1..], e);
    }
  }

  /** The body of the loop below: a key, then a value, then the conversion of the key. */
  method DecodeKeyValue(utf8: Utf8, s: View) returns (r: Decoded<Entry>)
    ensures r == DecodePair(utf8, s)
    decreases |s|, 2
  {
    hide DecodeString, Decode;
    var key := DecodeString(utf8, s);
    if !key.Ok? {
      return NoValue;
    }
    var decoded := DecodeValue(utf8, s[key.length..]);
    match decoded
    case NoValue => r := NoValue;
    case Thrown => r := Thrown;
    case Ok(n, v) => r := if key.value.Bin? then Thrown else Ok(key.length + n, Entry(key.value.text, v));
  }

  method DecodeDict(utf8: Utf8, s: View) returns (r: Decoded<Value>)
    requires s != [] && s[0] == DICT_START
    ensures r == Decode(utf8, s)
    decreases |s|, 0
  {
    hide InsertAll, Insert, DecodePair;
    var remaining := s[1..];
    var dict: seq<Entry> := [];
    ghost var pairs: seq<Entry> := [];
    ResumesAtStart(DecodePairs(utf8, s[1..]));
    InsertNothing();
    while !(remaining != [] && remaining[0] == END)
      invariant |remaining| < |s|
      invariant dict == InsertAll([], pairs)
      invariant Resumes(pairs, |s| - 1 - |remaining|, DecodePairs(utf8, remaining), DecodePairs(utf8, s[1..]))
      decreases |remaining|
    {
      var pair := DecodeKeyValue(utf8, remaining);
      match pair
      case NoValue => return NoValue;
      case Thrown => return Thrown;
      case Ok(n, e) =>
        ResumesNext(pairs, |s| - 1 - |remaining|, pair, DecodePairs(utf8, remaining[n..]), DecodePairs(utf8, s[1..]));
        InsertAllSnoc([], pairs, e);
        remaining := remaining[n..];
        dict := Insert(dict, e);
        pairs := pairs + [e];
    }
    remaining := remaining[1..];
    assert pairs + [] == pairs;
    r := Ok(|s| - |remaining|, Dict(dict));
  }
}
