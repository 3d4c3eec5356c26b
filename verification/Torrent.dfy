/** The torrent file of `src/torrent.cpp`: the info hash, the piece hashes and the piece lengths. */
module Torrent {
  import opened Bytes
  import opened Wrappers
  import opened Bencode
  import opened BencodeRoundTrip
  import opened BencodeCanonical
  import opened BencodeNormal
  import opened DictPlaces
  import Sha1Spec
  import Sha1

  const INFO: Bytes := [0x69, 0x6e, 0x66, 0x6f] // info
  const PIECES: Bytes := [0x70, 0x69, 0x65, 0x63, 0x65, 0x73] // pieces
  const PIECE_HASH_LENGTH := 20

  /** `TypeError` is what the JSON library throws; `Malformed` is the `runtime_error` of `hash`. */
  datatype Error = TypeError | Malformed

  /** Bytes as the bit vectors that SHA-1 works on. */
  function Octets(s: Bytes): seq<Sha1Spec.Octet> {
    seq(|s|, i requires 0 <= i < |s| => s[i] as Sha1Spec.Octet)
  }

  /** `json::value(key, default)`, the default being null: an object only. */
  function Member(v: Value, key: Bytes): Result<Value, Error> {
    if !v.Dict? then Failure(TypeError)
    else if Lookup(v.entries, key).None? then Success(Null)
    else Success(Lookup(v.entries, key).value)
  }

  /** `json::empty`. */
  predicate Empty(v: Value) {
    v.Null? || v == List([]) || v == Dict([])
  }

  /** What `hash` promises: SHA-1 over the encoding of the info value. */
  function InfoHash(raw: Value): Result<Bytes, Error> {
    var info := Member(raw, INFO);
    if info.Failure? then Failure(info.error)
    else
      var encoded := Encode(info.value);
      if encoded.None? || Empty(info.value) then Failure(Malformed)
      else Success(Sha1.HexDigest(Octets(encoded.value)))
  }

  /** The octets are the bytes. */
  lemma OctetsAre(s: Bytes)
    ensures |Octets(s)| == |s| && forall i :: 0 <= i < |s| ==> Octets(s)[i] as int == s[i]
  {
    forall i | 0 <= i < |s|
      ensures Octets(s)[i] as int == s[i]
    {
      ByteAndBack(s[i]);
    }
  }

  /** The info value, under the key "info". */
  function InfoOf(raw: Value): Option<Value>
    requires raw.Dict?
  {
    Lookup(raw.entries, [0x69, 0x6e, 0x66, 0x6f])
  }

  /** Of a dictionary the hash is that of the encoding of its info value, except when there is none, when it is
      null, an empty list or an empty dictionary, or when the encoder refuses it; of anything else the JSON
      library throws. */
  ghost predicate IsInfoHash(raw: Value, r: Result<Bytes, Error>) {
    if !raw.Dict? then r == Failure(TypeError)
    else
      var info := InfoOf(raw);
      if info.None? || info.value == Null || info.value == List([]) || info.value == Dict([])
         || Encode(info.value).None? then r == Failure(Malformed)
      else r == Success(Sha1.HexDigest(Octets(Encode(info.value).value)))
  }

  lemma InfoHashIsThat(raw: Value)
    ensures IsInfoHash(raw, InfoHash(raw))
  {
    hide Encode, Sha1.HexDigest;
    EncodeNull();
  }

  lemma EncodeNull()
    ensures Encode(Null).None?
  {
  }

  /** Every ordinary torrent has a hash. */
  lemma DictHash(raw: Value, es: seq<Entry>, encoded: Bytes)
    requires raw.Dict? && InfoOf(raw) == Some(Dict(es)) && es != [] && Encode(Dict(es)) == Some(encoded)
    ensures InfoHash(raw) == Success(Sha1.HexDigest(Octets(encoded)))
  {
    hide Encode, Sha1.HexDigest, InfoHash;
    InfoHashIsThat(raw);
  }

  method Hash(raw: Value) returns (r: Result<Bytes, Error>)
    ensures IsInfoHash(raw, r) && r == InfoHash(raw)
    ensures r.Success? ==> |r.value| == 40 && IsHexText(r.value)
  {
    hide Sha1.HexDigest, Sha1.Consistent, Sha1.Value, IsInfoHash;
    InfoHashIsThat(raw);
    var info := Member(raw, INFO);
    if info.Failure? {
      return Failure(info.error);
    }
    var encoded := EncodeValue(info.value);
    if encoded.None? || Empty(info.value) {
      return Failure(Malformed);
    }
    var checksum := new Sha1.SHA1();
    assert [] + Octets(encoded.value) == Octets(encoded.value);
    checksum.Update(Octets(encoded.value));
    var hex := checksum.Final();
    r := Success(hex);
  }

  // The info hash and the bytes of the file.

  lemma InfoHashIs(raw: Value, info: Value, encoded: Bytes)
    requires raw.Dict? && Lookup(raw.entries, INFO) == Some(info)
    requires Encode(info) == Some(encoded) && info != List([]) && info != Dict([])
    ensures InfoHash(raw) == Success(Sha1.HexDigest(Octets(encoded)))
  {
    hide Encode, Sha1.HexDigest;
    EncodeNull();
  }

  /** For every accepted file with an info value: its encoding is byte for byte the slice of the file that held
      it if and only if that slice is canonical, and then, but for an empty list or dictionary, the info hash
      is the SHA-1 of the slice. */
  lemma InfoHashOfSlice(utf8: Utf8, file: View)
    requires file != [] && file[0] == DICT_START && Decode(utf8, file).Ok?
    requires Locate(utf8, file, INFO).Some?
    ensures var raw, p := Decode(utf8, file).value, Locate(utf8, file, INFO).value;
            && raw.Dict? && Lookup(raw.entries, INFO).Some?
            && var info := Lookup(raw.entries, INFO).value;
               && ReadAt(utf8, file, p, info)
               && (Canonical(utf8, Slice(file, p)) <==> Encode(info) == Some(Slice(file, p)))
               && (Canonical(utf8, Slice(file, p)) && info != List([]) && info != Dict([]) ==>
                     InfoHash(raw) == Success(Sha1.HexDigest(Octets(Slice(file, p)))))
  {
    hide Decode, Canonical, Locate, InfoHash, Encode, Sha1.HexDigest;
    LocateFinds(utf8, file, INFO);
    var raw, p := Decode(utf8, file).value, Locate(utf8, file, INFO).value;
    var info := Lookup(raw.entries, INFO).value;
    SliceIffEncoding(utf8, file, p, info);
    if Encode(info) == Some(Slice(file, p)) && info != List([]) && info != Dict([]) {
      InfoHashIs(raw, info, Slice(file, p));
    }
  }

  /** The info hash of a canonical torrent file is the SHA-1 of the bytes of the file that hold the
      info value. */
  lemma CanonicalTorrent(utf8: Utf8, file: View)
    requires Canonical(utf8, file) && file[0] == DICT_START
    requires Locate(utf8, file, INFO).Some?
    ensures Decode(utf8, file).Ok? && Decode(utf8, file).length == |file|
    ensures var raw, p := Decode(utf8, file).value, Locate(utf8, file, INFO).value;
            raw.Dict? && Lookup(raw.entries, INFO).Some? && In(p, file) &&
            (Lookup(raw.entries, INFO).value != List([]) && Lookup(raw.entries, INFO).value != Dict([]) ==>
               InfoHash(raw) == Success(Sha1.HexDigest(Octets(Slice(file, p)))))
  {
    hide Decode, Canonical, Locate, InfoHash, Encode, ReadAt, Sha1.HexDigest;
    assert file + [] == file;
    CanonicalDecodes(utf8, file, []);
    LocatedIsCanonical(utf8, file, INFO);
    InfoHashOfSlice(utf8, file);
  }

  // The piece hashes.

  /** `json::value("pieces", binary_t())`: a string that happens to be text is no binary. */
  function PieceBytes(raw: Value): Result<Bytes, Error> {
    var info := Member(raw, INFO);
    if info.Failure? then Failure(info.error)
    else
      var pieces := Member(info.value, PIECES);
      if pieces.Failure? then Failure(pieces.error)
      else if Lookup(info.value.entries, PIECES).None? then Success([])
      else if pieces.value.Bin? then Success(pieces.value.bin)
      else Failure(TypeError)
  }

  /** The binary under the keys "info" and "pieces"; nothing if there is no such key; and the JSON library throws
      for anything else. */
  lemma PieceBytesAre(raw: Value)
    ensures !raw.Dict? ==> PieceBytes(raw) == Failure(TypeError)
    ensures raw.Dict? && (InfoOf(raw).None? || !InfoOf(raw).value.Dict?) ==> PieceBytes(raw) == Failure(TypeError)
    ensures raw.Dict? && InfoOf(raw).Some? && InfoOf(raw).value.Dict? ==>
              var pieces := Lookup(InfoOf(raw).value.entries, [0x70, 0x69, 0x65, 0x63, 0x65, 0x73]);
              PieceBytes(raw) == if pieces.None? then Success([])
                                 else if pieces.value.Bin? then Success(pieces.value.bin)
                                 else Failure(TypeError)
  {
  }

  method Pieces(raw: Value) returns (r: Result<seq<Bytes>, Error>)
    requires PieceBytes(raw).Success? ==> |PieceBytes(raw).value| % PIECE_HASH_LENGTH == 0
    ensures PieceBytes(raw).Failure? ==> r == Failure(PieceBytes(raw).error)
    ensures PieceBytes(raw).Success? ==>
              var bytes := PieceBytes(raw).value;
              && r.Success? && 20 * |r.value| == |bytes|
              && forall i :: 0 <= i < |r.value| ==> r.value[i] == bytes[20 * i..20 * i + 20]
  {
    var source := PieceBytes(raw);
    if source.Failure? {
      return Failure(source.error);
    }
    var bytes := source.value;
    var pieces: seq<Bytes> := [];
    var iter := 0;
    while iter != |bytes|
      invariant iter == 20 * |pieces| <= |bytes|
      invariant forall i :: 0 <= i < |pieces| ==> pieces[i] == bytes[20 * i..20 * i + 20]
      decreases |bytes| - iter
    {
      pieces := pieces + [bytes[iter..iter + PIECE_HASH_LENGTH]];
      iter := iter + PIECE_HASH_LENGTH;
    }
    r := Success(pieces);
  }

  lemma {:induction false} RetagAt(utf8: Utf8, es: seq<Entry>, i: nat)
    requires i < |es| && RetagEntries(utf8, es) == es
    ensures Retag(utf8, es[i].value) == es[i].value
  {
    var rs := RetagEntries(utf8, es);
    assert rs[0].value == Retag(utf8, es[0].value) && rs[1..] == RetagEntries(utf8, es[1..]);
    if i > 0 {
      RetagAt(utf8, es[1..], i - 1);
    }
  }

  lemma {:induction false} LookupIsEntry(es: seq<Entry>, key: Bytes)
    requires Lookup(es, key).Some?
    ensures exists i :: 0 <= i < |es| && es[i] == Entry(key, Lookup(es, key).value)
  {
    if es[0].key == key {
      assert es[0] == Entry(key, Lookup(es, key).value);
    } else {
      LookupIsEntry(es[1..], key);
      var i :| 0 <= i < |es[1..]| && es[1..][i] == Entry(key, Lookup(es[1..], key).value);
      assert es[i + 1] == es[1..][i];
    }
  }

  /** What a decoded dictionary has for a key is tagged as the decoder does. */
  lemma MemberIsTagged(utf8: Utf8, v: Value, key: Bytes)
    requires Retag(utf8, v) == v && v.Dict? && Lookup(v.entries, key).Some?
    ensures var x := Lookup(v.entries, key).value; Retag(utf8, x) == x
  {
    hide Retag;
    RetagDict(utf8, v);
    LookupIsEntry(v.entries, key);
    var i :| 0 <= i < |v.entries| && v.entries[i] == Entry(key, Lookup(v.entries, key).value);
    RetagAt(utf8, v.entries, i);
  }

  lemma RetagDict(utf8: Utf8, v: Value)
    requires Retag(utf8, v) == v && v.Dict?
    ensures RetagEntries(utf8, v.entries) == v.entries
  {
  }

  /** Of every accepted file that has a byte string for `pieces`, the piece hashes come back if and only if
      that string is no text. */
  lemma PiecesIffNoText(utf8: Utf8, file: View, info: Value, pieces: Value)
    requires Decode(utf8, file).Ok? && Member(Decode(utf8, file).value, INFO) == Success(info)
    requires Member(info, PIECES) == Success(pieces) && (pieces.Str? || pieces.Bin?)
    ensures var p := if pieces.Str? then pieces.text else pieces.bin;
            PieceBytes(Decode(utf8, file).value) == if utf8(p) then Failure(TypeError) else Success(p)
  {
    hide Decode, Retag, Encodable, Lookup;
    DecodedIsNormal(utf8, file);
    MemberIsTagged(utf8, Decode(utf8, file).value, INFO);
    MemberIsTagged(utf8, info, PIECES);
    StringIsTagged(utf8, pieces);
  }

  lemma StringIsTagged(utf8: Utf8, v: Value)
    requires Retag(utf8, v) == v && (v.Str? || v.Bin?)
    ensures if v.Str? then utf8(v.text) else !utf8(v.bin)
  {
  }

  /** A small torrent file with these piece hashes. */
  function SmallTorrent(p: Bytes): Value {
    Dict([Entry(INFO, Dict([Entry(PIECES, Str(p))]))])
  }

  /** Such a file is canonical, and its piece hashes are refused exactly if they happen to be text. */
  lemma SmallTorrentPieces(utf8: Utf8, p: Bytes, file: View)
    requires utf8(INFO) && utf8(PIECES) && |p| <= MAX_VIEW && Encode(SmallTorrent(p)) == Some(file)
    ensures Canonical(utf8, file) && Decode(utf8, file).Ok?
    ensures PieceBytes(Decode(utf8, file).value) == if utf8(p) then Failure(TypeError) else Success(p)
  {
    hide Decode, Canonical, Encode;
    var v := SmallTorrent(p);
    SmallIsEncodable(utf8, p);
    EncodedIsCanonical(utf8, v);
    assert file + [] == file;
    RoundTrip(utf8, v, []);
    SmallRetagged(utf8, p);
  }

  /** Twenty times the letter `a` is such a hash, for a predicate that takes ASCII for text. */
  lemma LettersAreRefused(file: View)
    requires Encode(SmallTorrent(seq(20, _ => 0x61))) == Some(file)
    ensures Canonical(Ascii(), file) && Decode(Ascii(), file).Ok?
    ensures PieceBytes(Decode(Ascii(), file).value) == Failure(TypeError)
  {
    hide Decode, Canonical, Encode, PieceBytes;
    SmallTorrentPieces(Ascii(), seq(20, _ => 0x61), file);
  }

  lemma SmallIsEncodable(utf8: Utf8, p: Bytes)
    requires utf8(INFO) && utf8(PIECES) && |p| <= MAX_VIEW
    ensures Encodable(utf8, SmallTorrent(p))
  {
    var inner := Dict([Entry(PIECES, Str(p))]);
    assert Encodable(utf8, Str(p)) && EncodableEntry(utf8, Entry(PIECES, Str(p)));
    assert Encodable(utf8, inner) && EncodableEntry(utf8, Entry(INFO, inner));
  }

  lemma SmallRetagged(utf8: Utf8, p: Bytes)
    ensures Retag(utf8, SmallTorrent(p)) == Dict([Entry(INFO, Dict([Entry(PIECES, Tag(utf8, p))]))])
    ensures PieceBytes(Retag(utf8, SmallTorrent(p))) == if utf8(p) then Failure(TypeError) else Success(p)
  {
    var inner := [Entry(PIECES, Str(p))];
    assert inner[1..] == [] && RetagEntries(utf8, inner) == [Entry(PIECES, Tag(utf8, p))];
    var outer := [Entry(INFO, Dict(inner))];
    assert outer[1..] == [] && RetagEntries(utf8, outer) == [Entry(INFO, Dict(RetagEntries(utf8, inner)))];
  }
}
