# BitTorrent client

The client downloads the file of a torrent: it reads the bencoded torrent file, hashes its info value with
SHA-1, greets peers, asks each for pieces block by block, and puts the pieces together. These modules model
the parts where that can go wrong and prove what the program is for.

| module | what it is |
|---|---|
| `Wrappers`, `Bytes`, `Decimal` | optional values and results; bytes, their order and hexadecimal text; decimal text of 64-bit integers |
| `Sha1Spec`, `Sha1`, `Sha1Known` | FIPS 180-4 as functions; the streaming, unrolled, in-place implementation proved against it; a known answer |
| `Bencode`, `BencodeText` | encoder and decoder, as functions and as the loops that compute them; what is written and read byte for byte |
| `BencodeRoundTrip`, `BencodeCanonical`, `BencodeNormal` | decode undoes encode; canonical texts; what the lax decoder makes of everything else |
| `DictPlaces`, `Torrent`, `HashBytes`, `PieceLengths` | where a value lies in the text; the info hash and the piece hashes; the octets of a hash; the lengths of the pieces |
| `Proto` | the messages of the peer protocol |
| `TcpTransfer`, `Transfers` | one transfer: handlers, two timers and the event loop, under every order of events; what the workers see of it |
| `Session`, `SessionDetails`, `SessionOrder`, `SessionStream` | the protocol of one worker as functions of its fields and its peer; what it throws and sends; what it says when; where its reads leave the stream |
| `SessionHonest`, `SessionHaves`, `SessionBlocks` | downloads from peers that answer in full; what becomes of announcements; the block loop against any peer |
| `PieceWorkers` | the worker object, its thread, and start and join |
| `Scheduler`, `SchedulerRuns`, `AnyPeers` | the rounds of a download; what they keep with reliable, merely connected, and arbitrary peers |
| `Interleaving`, `InterleavingEnds` | the main thread and the threads of the workers in any order |
| `Gathering`, `Downloading`, `WholeFile` | the output; the loops of the scheduler on the worker objects; the file that comes out |
| `Heralds`, `HeraldRuns` | peers that announce piece after piece; whole downloads from them |
| `Peers`, `Seeds`, `HeraldWorlds`, `HostilePeers` | peers that greet; one that serves a file; some that announce it; some that keep a download from ending |

How things are read:

- A peer is a function from the messages it has been sent to the bytes that arrive after the last of them.
  On any given run every peer, however it behaves, is one. Faults of the connection are a separate stream:
  a transfer may fail at any point, having taken any number of bytes off the stream.
- "Is valid UTF-8" is an arbitrary predicate on bytes, a parameter everywhere.
- The shuffle is any permutation. The files are a map from piece index to bytes, and may hold anything before.
- A thread of a worker is a sequence of steps (the connection, then one block each), since a dishonest peer can
  keep it going forever. The sequential reading lets a join wait for a given number of steps and says `Hung`
  when that was not enough; `Interleaving` has no such bound and shows that every interleaving agrees with
  every bound that is large enough.
- Sizes are unbounded integers, with the wrap-around of `size_t` and `uint32_t` written out where the code can
  reach it: key lengths, the bit counter, the remaining bytes of a piece, the fields of a request.

## Deviations

Where the code does other than it or the protocol says, the model follows the code:

- A key of negative length is accepted (`BencodeNormal.NegativeKeyExample`); `PrefixIffPlain` says exactly when
  this matters.
- Leading zeros, `-0`, unsorted and duplicate keys are accepted. The result is the same as for the canonical
  text of the value (`DecodeNormalises`, `FirstWins`).
- The last piece of a file whose length is a positive multiple of the piece length is taken to be empty. The
  output is then the file without it (`PiecesTile`, `LastPieceOfMultiple`, `GatheredFile`).
- A worker in have mode that waits in vain, until the time-out or until an Unchoke, is marked complete without a
  piece. `CompleteIff` says exactly when, and `EarlyCounts` and `EarlyInRound` what the scheduler makes of it.
- A piece that is announced again, or a wait in vain after the last announcement, ends a download by the exception
  of `pop_piece`, although every peer is honest (`TwoAnnouncements`, `LoneAnnouncement`). `GoesOnIff` and
  `RoundTwiceIff` say exactly when, for any peers, and `AnnouncerDownload` for whole downloads from one.
- A failing worker in have mode is used again. `RoundStallsIff` says exactly when a round makes no progress, and
  `HaveModeLivelock` and `GonePeerLivelocks` show a download that goes on forever. It may go on from the middle
  of a message (`BrokenReadLosesBoundary`).
- The block loop compares for equality, so a peer with empty or over-long blocks can keep it from ending.
  `EndsIffHit` says exactly when it ends, and `SizedPeerStarves` shows downloads that do not. Index and offset of
  an answer are not looked at (`LabelsIgnored`).
- BEP 3 lets a peer send a Have, a keep-alive or another message between two blocks; the loop then throws
  (`TurnIff`, `KeepAliveFails`).
- Piece hashes that happen to be text are refused (`PiecesIffNoText`, `LettersAreRefused`).
- An announcement made while connecting for a piece that was asked for is dropped (`SelectedIsNamed`).
- An expiry of the write timer can be lost, or can hit the read that follows (`LostCancel`, `LateExpiry`).
  `DataIffClean` says exactly when a transfer returns data.
- The comment on `decode_string` speaks of ASCII; the code asks for UTF-8.

## Model

| member | source | states |
|---|---|---|
| `Sha1.Slots` | src/misc/sha1.hpp:86-93 | the four slots that `blk` reads hold the schedule words 3, 8, 14 and 16 before the next one, for every round of any schedule kept in sixteen slots |
| `Sha1.Slide` | src/misc/sha1.hpp:115-129 | overwriting one slot keeps the sixteen newest schedule words in the circular buffer |
| `Sha1.NextWord` | src/misc/sha1.hpp:86-93 | the word computed in place is W(t) of section 6.1.2 of FIPS 180-4 (the method of section 6.1.3) |
| `Sha1.ChForm` | src/misc/sha1.hpp:100-129 | the rewritten boolean form of the first twenty rounds is Ch of section 4.1.1 |
| `Sha1.MajForm` | src/misc/sha1.hpp:147-161 | the rewritten form of rounds 40 to 59 is Maj of section 4.1.1 |
| `Sha1.Round` | src/misc/sha1.hpp:100-177 | one update of `z` and `w` in rotated register roles is one register shift of the specification |
| `Sha1.R0` | src/misc/sha1.hpp:100-113 | rounds 0 to 15: registers and buffer agree with the specification before and after |
| `Sha1.R1` | src/misc/sha1.hpp:115-129 | rounds 16 to 19: the same, with the schedule word made in place |
| `Sha1.R2` | src/misc/sha1.hpp:131-145 | rounds 20 to 39: the same with Parity |
| `Sha1.R3` | src/misc/sha1.hpp:147-161 | rounds 40 to 59: the same with Maj |
| `Sha1.R4` | src/misc/sha1.hpp:163-177 | rounds 60 to 79: the same with Parity and the last constant |
| `Sha1.Transform` | src/misc/sha1.hpp:183-285 | for every digest and every block the 80 unrolled calls compute the compression of section 6.1.2 |
| `Sha1.BufferToBlock` | src/misc/sha1.hpp:288-299 | the block holds the big-endian words of the buffer (section 5.2.1) |
| `Sha1.FinishShort` | src/misc/sha1.hpp:341-366 | when the length fits behind the marker, the padding made in place completes the digest of section 5.1.1 padding |
| `Sha1.FinishLong` | src/misc/sha1.hpp:341-366 | when it does not, the two blocks made in place do |
| `Sha1.BitCount` | src/misc/sha1.hpp:343-344 | the counter modulo 2^64 gives the length field of the padding for every number of octets |
| `Sha1.SHA1.constructor` | src/misc/sha1.hpp:301-305 | a new object has hashed nothing |
| `Sha1.SHA1.Update` | src/misc/sha1.hpp:320-339 | whatever is in the buffer, exactly the input is added to what has been hashed; fewer than 64 octets stay in the buffer, and 64 * transforms + |buffer| counts them all |
| `Sha1.SHA1.Final` | src/misc/sha1.hpp:341-378 | the result is the SHA-1 of everything hashed since the last reset, in forty lower-case digits, and the object starts over |
| `Sha1.HashChunks` | src/misc/sha1.hpp:320-378 | however the input is split over calls of `update`, the result is the SHA-1 of the concatenation |
| `Sha1Spec.HashBlocksAppend` | src/misc/sha1.hpp:320-339 | hashing in two goes, cut between blocks, is hashing at once |
| `Sha1Known.RootConstants` | src/misc/sha1.hpp:100-177 | the round constants are the square roots of 2, 3, 5 and 10, times 2^30, without fraction |
| `Sha1Known.DigestKnown` | src/misc/sha1.hpp:183-285 | the digest of the octets of `abc` is a9993e36 4706816a ba3e2571 7850c26c 9cd0d89d, as FIPS 180 gives it, by its 80 schedule words and 80 rounds |
| `Sha1Known.TextKnown` | src/misc/sha1.hpp:341-378 | the text that `final` returns for `abc` is these forty digits, in lower case |
| `Bytes.ToHexOfFromHex` | src/misc/sha1.hpp:389-405 | hex text to bytes and back is the identity on lower-case text of even length |
| `Bytes.FromHexOfToHex` | src/misc/sha1.hpp:389-405 | bytes to hex text and back is the identity |
| `Bytes.HexOfByte` | src/proto/deserialize.cpp:93-94 | a byte is written as two of the digits 0123456789abcdef, the more significant first |
| `Bytes.LessIff` | src/bencode/types.hpp:30-30 | the order of keys is decided at the first byte that differs, the smaller byte first, and a proper prefix is first |
| `HashBytes.DigestFromHex` | src/misc/sha1.hpp:368-405 | the bytes of the text that `final` returns are the twenty octets of the digest, most significant first |
| `HashBytes.HandshakeCarriesDigest` | src/proto/serialize.cpp:61-75 | so a handshake for a computed hash carries exactly these octets |
| `Decimal.ToIntegerOfPrint` | src/bencode/tools.hpp:11-21 | every 64-bit integer is parsed back from its printed form |
| `Decimal.PrintOfToInteger` | src/bencode/tools.hpp:11-21 | text that parses is its own value printed if and only if it is minimal (no leading zero, no `-0`) |
| `Decimal.ToIntegerAccepts` | src/bencode/tools.hpp:11-21 | exactly which texts are integers: digits, after a minus sign or not, leading zeros and a negative zero included, up to 2^63 - 1 and down to -2^63 |
| `Bencode.EncodeValue` | src/bencode/encoders.cpp:12-38 | the dispatch computes the encoding function, refusing what the encoder refuses |
| `Bencode.EncodeDict` | src/bencode/encoders.cpp:64-84 | the loop gives the framed concatenation of all encoded entries, or nothing if one value is refused |
| `Bencode.EncodeList` | src/bencode/encoders.cpp:86-104 | the same for lists |
| `BencodeText.EncodesScalars` | src/bencode/encoders.cpp:42-62 | an integer is written as `i`, decimal text and `e`; a byte string, text or not, as its length, a colon and the bytes |
| `BencodeText.EncodesList` | src/bencode/encoders.cpp:86-104 | a list is written as `l`, the texts of its items in order and `e` |
| `BencodeText.EncodesDict` | src/bencode/encoders.cpp:64-84 | a dictionary is written as `d`, each key as a byte string before the text of its value, in the order of the map, and `e` |
| `Bencode.Decode` | src/bencode/decoders.cpp:22-46 | a decoded value takes at least two bytes and no more than there are, so the recursion ends on what remains |
| `Bencode.DecodeString` | src/bencode/decoders.cpp:86-141 | text that starts with a digit takes at least two bytes and no more than there are, and no string throws; a key of negative length can take none at all, such as `-3:` |
| `Bencode.DecodeList` | src/bencode/decoders.cpp:201-239 | the loop over the shrinking view computes what the recursive decoder does, failure included |
| `Bencode.DecodeDict` | src/bencode/decoders.cpp:257-303 | the loop inserting into the map computes the recursive decoding, with a non-text key thrown only after its value was decoded |
| `BencodeText.OtherTexts` | src/bencode/decoders.cpp:50-66 | a text that starts with none of `i`, `l`, `d` and the digits is no value |
| `BencodeText.IntegerText` | src/bencode/decoders.cpp:157-183 | `i`, a text without `e`, and `e` is an integer exactly if the text is one, whatever follows |
| `BencodeText.StringText` | src/bencode/decoders.cpp:86-141 | digits, a colon and bytes is a string exactly if there are as many bytes as the digits say, leading zeros or not |
| `BencodeText.ListText` | src/bencode/decoders.cpp:201-239 | `l` starts a list exactly if values follow one after the other and then `e` |
| `BencodeText.DictText` | src/bencode/decoders.cpp:257-303 | `d` starts a dictionary exactly if keys that are text and values follow in turn and then `e`, in any order, some perhaps twice; they are inserted in order |
| `BencodeText.BinaryKey` | src/bencode/decoders.cpp:265-284 | a key that is no text throws, but only after its value was read: a malformed value gives no value |
| `BencodeRoundTrip.RoundTrip` | src/bencode/decoders.cpp:22-303 | decoding undoes encoding: for every encodable value and every tail exactly the encoding is consumed, and the value comes back with byte strings tagged by the UTF-8 predicate |
| `BencodeRoundTrip.EncodeRetag` | src/bencode/encoders.cpp:49-62 | the encoding does not depend on whether bytes are kept as text or as binary |
| `BencodeRoundTrip.InsertSorted` | src/bencode/decoders.cpp:283-284 | a map filled in order of the keys keeps the pairs as they came |
| `BencodeCanonical.EncodedIsCanonical` | src/bencode/encoders.cpp:12-104 | every encoding is canonical: minimal decimals, keys strictly increasing |
| `BencodeCanonical.CanonicalIffEncoded` | src/bencode/encoders.cpp:12-104 | the canonical texts are exactly the encodings of encodable values |
| `BencodeCanonical.CanonicalDecodes` | src/bencode/decoders.cpp:22-303 | a canonical text before any tail is decoded, exactly it is consumed, and encoding the result gives it back byte for byte |
| `BencodeNormal.LookupInsert` | src/bencode/decoders.cpp:283-284 | inserting into the map changes no key that is there and no other key |
| `BencodeNormal.FirstWins` | src/bencode/decoders.cpp:265-285 | of duplicate keys the first one counts, whatever was in the map |
| `BencodeNormal.DecodedIsNormal` | src/bencode/decoders.cpp:86-303 | whatever is accepted, canonical or not, decodes to an encodable value with strictly increasing keys |
| `BencodeNormal.DecodeNormalises` | src/bencode/decoders.cpp:265-301 | for every accepted input the encoding of the value exists, is canonical, and decodes back to the same value |
| `BencodeNormal.Prefix` | src/bencode/decoders.cpp:86-303 | without negative key lengths the result depends on the consumed bytes only |
| `BencodeNormal.PrefixIffPlain` | src/bencode/decoders.cpp:102-107 | the result is determined by the consumed bytes if and only if no key length is negative |
| `BencodeNormal.PrefixFree` | src/bencode/decoders.cpp:86-303 | no accepted text without negative key lengths is a proper prefix of another |
| `BencodeNormal.NegativeKeyExample` | src/bencode/decoders.cpp:265-272 | a key of length -2 is accepted and takes in everything that follows, whenever that makes it a text |
| `BencodeNormal.NegativeKeyMatters` | src/bencode/decoders.cpp:265-272 | for every predicate that rejects a final 0xff, as UTF-8 does, and accepts three short texts, as `AsciiMeetsPremises` shows of ASCII: the same seven bytes are consumed with and without a tail, and the results differ |
| `DictPlaces.LocateFinds` | src/bencode/decoders.cpp:257-303 | the value that a decoded dictionary has for a key was read from a definite slice of the text |
| `DictPlaces.SliceIffEncoding` | src/bencode/encoders.cpp:64-84 | re-encoding a value gives the bytes it was read from if and only if those are canonical |
| `Torrent.Hash` | src/torrent.cpp:58-73 | of a dictionary the hash is the SHA-1 of the encoding of its info value, except exactly when there is none, when it is null, an empty list or an empty dictionary, or when the encoder refuses it; of anything else the JSON library throws |
| `Torrent.DictHash` | src/torrent.cpp:60-72 | every ordinary torrent, with a dictionary that is not empty as info value, has a hash |
| `Torrent.OctetsAre` | src/torrent.cpp:69-70 | the octets that are hashed are the bytes of the encoding |
| `Torrent.InfoHashOfSlice` | src/torrent.cpp:58-73 | for every accepted file: the hashed text is the slice of the file that held the info value if and only if that slice is canonical, and then, but for an empty list or dictionary, the hash is that of the slice |
| `Torrent.CanonicalTorrent` | src/torrent.cpp:58-73 | the info hash of a canonical torrent file whose info value is no empty list or dictionary is the SHA-1 of the slice that held it |
| `Torrent.Pieces` | src/torrent.cpp:75-88 | hash `i` is bytes 20i to 20i+20 of the binary `pieces`, for all of them; a text value fails |
| `Torrent.PieceBytesAre` | src/torrent.cpp:77-78 | which bytes: the binary under the keys `info` and `pieces`, nothing if the second is missing, and an exception for anything else |
| `Torrent.PiecesIffNoText` | src/torrent.cpp:75-80 | of every accepted file with a byte string for `pieces` the piece hashes come back if and only if that string is no text; otherwise the JSON library throws |
| `Torrent.SmallTorrentPieces` | src/torrent.cpp:75-80 | there are such canonical files, for every string of piece hashes |
| `PieceLengths.PiecesTile` | src/client/piece.cpp:46-50 | piece `i` starts at `i * piece_length`, and the lengths sum to `length` if and only if it is no positive multiple of `piece_length`; of a multiple the last piece is lost |
| `Proto.Unpack32OfPack32` | src/proto/utils.hpp:11-32 | unpacking undoes packing of every 32-bit number, whatever follows |
| `Proto.Pack32OfUnpack32` | src/proto/utils.hpp:11-32 | packing undoes unpacking of any four bytes |
| `Proto.HeaderRoundTrip` | src/proto/serialize.cpp:82-87 | for all nine ids and every length a header is read back with the length of its body |
| `Proto.IdNumbers` | src/proto/types.hpp:14-25 | the numbers 0 to 8 of all nine ids, written and read |
| `Proto.HeaderErrors` | src/proto/deserialize.cpp:19-38 | which headers are refused, and how: shorter than five bytes, length zero, an id above 8, and no other |
| `Proto.BigEndian` | src/proto/utils.hpp:28-32 | four bytes are a number with the most significant first |
| `Proto.BodyLayouts` | src/proto/deserialize.cpp:40-72 | the body of a block is index, offset and bytes, that of a Have an index, and only shorter ones are refused |
| `Proto.WireFormats` | src/proto/serialize.cpp:14-59 | the layout of the messages that the client sends |
| `Proto.RequestRoundTrip` | src/proto/serialize.cpp:30-46 | a peer reads the three numbers of a request as they were packed |
| `Proto.HaveRoundTrip` | src/proto/deserialize.cpp:61-72 | a packed Have is read back as the same index |
| `Proto.UnpackPieceOfBody` | src/proto/deserialize.cpp:40-59 | a block is read back with its index, offset and exactly its bytes |
| `Proto.HandshakeRoundTrip` | src/proto/deserialize.cpp:74-96 | a packed handshake has the 68 bytes of BEP 3, and unpacking returns the same hash and the peer id in hexadecimal |
| `Proto.HandshakeStart` | src/proto/serialize.cpp:61-75 | the first 28 bytes of a handshake, literally |
| `Proto.UnpackHandshakeReads` | src/proto/deserialize.cpp:74-96 | hash and peer id are read behind the prefix and eight bytes, whatever these are |
| `Proto.SplitOfFrames` | src/proto/deserialize.cpp:19-38 | any concatenation of well-formed messages is split into the same ids and bodies by reading headers and then bodies |
| `Proto.FramesOfSplit` | src/proto/deserialize.cpp:19-38 | whatever splits is the framing of what it splits into |
| `TcpTransfer.StepKeepsInv` | src/misc/tcp_transfer.hpp:162-250 | in every interleaving: what was sent is a prefix of the request and nothing is read before it is complete; what was read is in the buffer in order, at most one wait of the read timer is live, and a pending read is guarded by one or about to be aborted |
| `TcpTransfer.StepDecreases` | src/misc/tcp_transfer.hpp:59-250 | every step of handlers or environment shortens the rest of the run |
| `TcpTransfer.RunsAreBounded` | src/misc/tcp_transfer.hpp:59-250 | every run keeps the invariants and is no longer than a bound known at its start |
| `TcpTransfer.Progress` | src/misc/tcp_transfer.hpp:59-89 | while anything is pending some step is possible, so every run reaches a state with nothing pending |
| `TcpTransfer.DataIffClean` | src/misc/tcp_transfer.hpp:80-88 | at rest, data is returned if and only if no operation has failed and no expired timer was handled while one was in flight |
| `TcpTransfer.StepBlames` | src/misc/tcp_transfer.hpp:162-250 | the first mishap decides the error that comes out, and no later event changes it |
| `TcpTransfer.CauseDecides` | src/misc/tcp_transfer.hpp:80-88 | at rest the outcome is data exactly if nothing went wrong, the error itself exactly if the first mishap was a failed operation, and `operation_aborted` exactly if it was an expired timer that hit one in flight |
| `TcpTransfer.WriteCompletes` | src/misc/tcp_transfer.hpp:162-190 | a completed write leaves no write timer running and starts the read with two waits on the read timer begun, the first of them cancelled |
| `TcpTransfer.TransferIsSafe` | src/misc/tcp_transfer.hpp:59-89 | over whole runs, expiries queued before their cancellation included: data and errors come out exactly so, and data only if the whole request was written and exactly the expected bytes were read, in order |
| `TcpTransfer.ReadIsSafe` | src/misc/tcp_transfer.hpp:91-113 | the same of a read on its own |
| `TcpTransfer.SmoothRunsAreClean` | src/misc/tcp_transfer.hpp:59-89 | so a run in which nothing fails and no timer expires returns data |
| `TcpTransfer.SilentRun` | src/misc/tcp_transfer.hpp:192-202 | a run without the peer that cannot go on without it is at rest, unless and only unless a write is left without its timer; and it is no longer than a bound known at its start |
| `TcpTransfer.LostCancel` | src/misc/tcp_transfer.hpp:192-202 | such a run exists: a cancellation between two parts of a write gets lost |
| `TcpTransfer.LateExpiry` | src/misc/tcp_transfer.hpp:162-202 | an expiry of the write timer that is queued when the write completes aborts the read that has begun, and however the run goes on the transfer ends with `operation_aborted` |
| `TcpTransfer.Transfer.RunLoop` | src/misc/tcp_transfer.hpp:73-73 | the event loop over the handlers ends, after a run of the machine, with nothing pending |
| `TcpTransfer.Transfer.DoTransfer` | src/misc/tcp_transfer.hpp:59-89 | the object returns data exactly if its run was clean, and otherwise the error of its first mishap; data only for a request sent in full and with an answer of the expected size |
| `TcpTransfer.Transfer.DoRead` | src/misc/tcp_transfer.hpp:91-113 | the same for a read on its own |
| `Transfers.ReadRefines` | src/misc/tcp_transfer.hpp:281-290 | however its events are interleaved, a read gives a worker the data, a time-out or a broken connection as its first mishap was none, an expiry or a failure, as the model of the connection does, and takes the same bytes off the stream |
| `Transfers.ExchangeRefines` | src/misc/tcp_transfer.hpp:269-279 | the same of a request and its answer; a reply means that the request was sent in full |
| `PieceWorkers.PieceWorker.DoHandshake` | src/client/piece.cpp:155-186 | it throws nothing exactly if the handshake and an answer with the same info hash are added to the history |
| `PieceWorkers.PieceWorker.DoBitfieldOrUnchoke` | src/client/piece.cpp:188-228 | it throws nothing exactly if what is added to the history is an Unchoke, or a Bitfield with the whole of its body |
| `PieceWorkers.PieceWorker.DoInterested` | src/client/piece.cpp:230-278 | it throws nothing exactly if Interested was answered by an Unchoke or by a Have with an index; have mode begins with a Have, whose index is kept, and nothing else changes |
| `PieceWorkers.PieceWorker.ConnectToPeer` | src/client/piece.cpp:143-153 | a worker is established exactly if nothing is thrown, and then the whole greeting is at the front of the history |
| `PieceWorkers.PieceWorker.WaitHave` | src/client/piece.cpp:336-389 | it throws nothing exactly after a time-out with nothing read, an Unchoke, or a Have with an index; an announcement is found exactly in the last case, and then it is the one that is kept |
| `PieceWorkers.PieceWorker.TransferBlock` | src/client/piece.cpp:56-128 | one turn of the loop: the history gets the request, a Piece header and its body, the buffer gets the block of that body and nothing else, and its size is returned; an exception leaves the buffer as it was |
| `PieceWorkers.PieceWorker.TransferBlocks` | src/client/piece.cpp:56-140 | the loop is the iteration of the steps that the theorems about threads speak of |
| `PieceWorkers.PieceWorker.DownloadPiece` | src/client/piece.cpp:20-141 | so is the whole download: how it ends and the fields it leaves, for every peer |
| `PieceWorkers.PieceWorker.DownloadPieceAsync` | src/client/piece.hpp:76-91 | a worker is started exactly if its last thread has been joined, and is then not complete |
| `PieceWorkers.PieceWorker.WaitPieceTransfer` | src/client/piece.hpp:108-116 | joining makes visible what the thread has done; complete means that it threw nothing |
| `PieceWorkers.PieceWorker.WaitConnectionEstablished` | src/client/piece.hpp:118-126 | the same for a connection check |
| `SessionDetails.HandshakeThrows` | src/client/piece.cpp:169-185 | which exception: a lost connection, an answer that cannot be read, or another hash, each exactly then |
| `SessionDetails.BitfieldThrows` | src/client/piece.cpp:192-227 | the same of the message after it |
| `SessionDetails.InterestedThrows` | src/client/piece.cpp:236-277 | the same of the answer to Interested |
| `SessionDetails.WaitThrows` | src/client/piece.cpp:342-386 | the same of a wait, of which a time-out is no exception and any other loss is |
| `SessionDetails.BlockThrows` | src/client/piece.cpp:67-113 | the same of a turn of the block loop |
| `SessionDetails.FirstMessage` | src/client/piece.cpp:165-167 | the first message to its last byte |
| `SessionDetails.BlockSizes` | src/client/piece.cpp:57-60 | the size of the next block: what is missing, at most 16384 bytes; behind the end of the piece, what is missing modulo 2^64 |
| `SessionOrder.NoEarlyRequest` | src/client/piece.cpp:42-44 | over whole lives of workers, whatever peers send and whatever fails: no request before a handshake with the same hash, a Bitfield or Unchoke, and an Unchoke or Have after Interested |
| `SessionOrder.ConnectKeepsManners` | src/client/piece.cpp:143-278 | established means that the whole greeting is at the front of the history |
| `SessionStream.FramedFront` | src/proto/deserialize.cpp:19-38 | at the front of a stream of whole messages is a header, its body and whole messages again |
| `SessionStream.StepOnBoundary` | src/client/piece.cpp:77-105 | after every step that neither fails nor gives up, the read position is between two messages |
| `SessionStream.RunOnBoundary` | src/client/piece.cpp:20-141 | so it is after every number of steps of such a download, connection included |
| `SessionStream.LifeOnBoundary` | src/client/piece.cpp:20-389 | from a new worker on, with or without a connection check, over every number of such downloads: a connected worker is between two messages of its peer |
| `SessionStream.QuietWaitKeepsBoundary` | src/client/piece.cpp:336-353 | a wait that ends without having taken part of a message leaves the stream between two messages |
| `SessionStream.PartOfHeader` | src/client/piece.cpp:336-353 | the bytes that a failing wait takes, when they are fewer than a header, are whole messages if and only if there are none |
| `SessionStream.BrokenReadLosesBoundary` | src/client/download_file.cpp:323-328 | not so one that breaks off inside a message: a worker in have mode that loses the first byte of an announcement to the time-out reads the rest as a header when it is started again, and fails although its peer sent one whole message |
| `HeraldWorlds.LifeLosesBoundary` | src/client/piece.cpp:336-389 | a life that comes to this, from the connection check on: one announced piece is delivered, and the wait for the next announcement times out inside it |
| `SessionStream.StepKeepsFields` | src/client/piece.cpp:24-36 | every step keeps: an announced piece implies have mode, the bytes counted are those in the buffer, and after a full download no announcement is left and the buffer has the length of the piece that is named |
| `SessionStream.IterateKeepsFields` | src/client/piece.cpp:137-140 | the same over whole downloads |
| `SessionHaves.BeginSelects` | src/client/piece.cpp:24-44 | connected or not, the piece of a download is the one an announcement selects or else the one asked for; what selects it and what is kept afterwards are together what was kept before and what was announced meanwhile |
| `SessionHaves.AnnouncementsSelectOnce` | src/client/piece.cpp:253-270 | over every life of a worker, whatever its peer sends and whatever fails: the announcements that select downloads, then the one kept, are the announcements made with some left out; so each selects at most one download, in order |
| `SessionHaves.SelectedIsNamed` | src/client/piece.cpp:137-140 | a full download names the piece selected for it and leaves no announcement, so one made while connecting for a piece that was asked for comes too late |
| `SessionBlocks.LoopFills` | src/client/piece.cpp:56-128 | at every point of the loop the history is that of a number of turns, each a request for the same piece at the offset reached and its answer, and the buffer is the concatenation of their blocks |
| `SessionBlocks.FullDownloadFills` | src/client/piece.cpp:20-141 | after a full download `last_piece_idx` names the piece that every request was for, and the buffer is exactly the blocks received for them, in order |
| `SessionBlocks.LabelsIgnored` | src/client/piece.cpp:107-125 | index and offset in an answer are not compared with the request: answers that differ only in them fill the buffer alike |
| `SessionStream.AnsweredBlock` | src/client/piece.cpp:64-125 | a request answered by one Piece message costs two transfers and adds exactly its block |
| `SessionStream.TurnIff` | src/client/piece.cpp:77-125 | with whole messages next and no fault, a turn of the loop succeeds if and only if the first of them is a Piece with an index and an offset, and then takes that message and no more |
| `SessionStream.KeepAliveFails` | src/client/piece.cpp:77-90 | a keep-alive in its place ends the download |
| `SessionStream.LastPieceOfMultiple` | src/client/piece.cpp:47-50 | the last piece of a file whose length is a multiple of the piece length ends at once and empty |
| `SessionStream.EndsEarlyIff` | src/client/piece.cpp:30-34 | a download is given up without an exception if and only if a worker in have mode with no announcement kept reads nothing before the time-out or reads an Unchoke; it has no piece then |
| `SessionBlocks.FullIffFirstHit` | src/client/piece.cpp:56-128 | the loop is left full after exactly n answered blocks if and only if the n-th partial sum of their sizes is the first that equals the length of the piece modulo 2^64 |
| `SessionBlocks.EndsIffHit` | src/client/piece.cpp:56-128 | against a peer that goes on answering, the loop ends if and only if some partial sum does |
| `SessionBlocks.ModestPeersFinish` | src/client/piece.cpp:56-60 | against a peer whose blocks have at least one byte and no more than was asked for, the loop is full after at most as many turns as there are bytes |
| `SessionBlocks.ConstantEndsIff` | src/client/piece.cpp:56-128 | against a peer with blocks of one size, it ends if and only if a number of them has the length of the piece modulo 2^64 |
| `SessionBlocks.StarvingSizes` | src/client/piece.cpp:56-128 | empty blocks never do, and blocks of 16384 bytes do not when the piece is no multiple: the last one jumps past the end |
| `SessionHonest.RequestsTile` | src/client/piece.cpp:56-65 | the requests of a piece tile it without gap or overlap, none above 16384 bytes, and there are as many as it takes |
| `SessionHonest.HonestBlocks` | src/client/piece.cpp:56-128 | against a peer that answers in full the loop ends after that many turns, from any point on and in have mode or not, and the buffer is the piece |
| `SessionHonest.HonestDownload` | src/client/piece.cpp:52-141 | the whole download, of whatever piece its beginning has come to, connected before or not: exactly these requests are sent, exactly the piece is in the buffer and named, and the connection is open for the next |
| `SessionHonest.HonestAnnouncement` | src/client/piece.cpp:24-36 | a piece whose announcement is kept, or is all that is unread, ends up in the buffer whatever was asked for, if the peer then answers every request by exactly the part that is asked for |
| `Heralds.HeraldBlocks` | src/client/piece.cpp:56-128 | against a peer that follows the last part of a piece by the announcement of the next, the block loop gets the piece and leaves exactly that announcement unread |
| `Heralds.HeraldDownload` | src/client/piece.cpp:20-141 | a download from such a peer delivers the next announced piece, whatever was asked for, and leaves the worker at its next turn |
| `Heralds.HeraldLife` | src/client/piece.cpp:20-389 | over the life of a worker, from the connection check on, its downloads deliver the announced pieces in order |
| `SessionHonest.HonestConnecting` | src/client/piece.cpp:42-44 | a worker that was asked for a piece before it was connected gets that piece from an honest peer, whatever is announced meanwhile |
| `SessionHonest.WelcomeConnects` | src/client/piece.cpp:143-278 | connecting to a peer that greets leaves nothing unread, and puts the worker in have mode exactly if Interested is answered by an announcement, which is kept |
| `SessionHonest.WelcomeMakesReady` | src/client/piece.cpp:143-278 | a peer that greets without announcing makes a worker ready |
| `Downloading.PopPiece` | src/client/download_file.cpp:121-133 | the search and erase is the pop that `PopTakesFirst` is about, with the error for a piece that is not there |
| `Scheduler.PopTakesFirst` | src/client/download_file.cpp:121-133 | popping fails exactly for a piece that is not pending and otherwise takes out its first occurrence and nothing else |
| `Downloading.StartWorkers` | src/client/download_file.cpp:194-215 | the loop starts the workers as `StartsFirst` describes, and returns how many |
| `Scheduler.StartsFirst` | src/client/download_file.cpp:194-215 | with nobody started, the first pending pieces go to the first workers, one each, until either runs out, and nobody else changes |
| `Scheduler.NoIndexTwice` | src/client/download_file.cpp:194-215 | no index is given to two workers in a round |
| `Downloading.JoinWorkers` | src/client/download_file.cpp:318-345 | the loop over the started workers comes to the pool and board of `Collect`, however it is left |
| `Downloading.RunRounds` | src/client/download_file.cpp:315-346 | the main loop comes to the board of `Rounds` |
| `Downloading.SetupWorkers` | src/client/download_file.cpp:135-181 | the workers kept are those whose connection was established, in the order of the peers |
| `Scheduler.PlainThreads` | src/client/piece.cpp:20-141 | a connected worker that is not in have mode downloads the piece it was asked for, or fails, whatever the peer sends |
| `SchedulerRuns.TakeHead` | src/client/download_file.cpp:321-339 | taking the piece at the head of the pending ones keeps the books: what is not pending was written up to standard, and no other file was touched |
| `SchedulerRuns.CollectRound` | src/client/download_file.cpp:318-345 | in a round every piece that arrives is the head of the pending ones, so no pop fails and the books stay in order |
| `SchedulerRuns.KeepRounds` | src/client/download_file.cpp:315-346 | over whole downloads: pending and written are a partition at every loop head, in the order of the shuffle, nobody is started there, and the rounds are ceil(n / workers) |
| `SchedulerRuns.PlainDownload` | src/client/download_file.cpp:315-346 | with workers that are not in have mode, whatever their peers send: no piece is popped twice, every written file has the length of its piece, and the loop is left at its head only when all are written |
| `SchedulerRuns.HonestDownloads` | src/client/download_file.cpp:315-346 | with honest peers the loop ends at its head after exactly ceil(n / workers) rounds with exactly the pieces in the files, for every shuffle |
| `AnyPeers.RoundsAccount` | src/client/download_file.cpp:315-346 | whatever the peers do, in have mode or not: at every loop head each piece is pending or has a file, none is pending twice, nobody is started |
| `AnyPeers.NothingMissing` | src/client/download_file.cpp:233-249 | so `gather_pieces` never misses a piece after the loop |
| `AnyPeers.RaisesOwn` | src/client/download_file.cpp:322-325 | a worker that fails and is not in have mode ends the download by the exception of its own thread |
| `PieceWorkers.CheckKeepsException` | src/client/piece.hpp:93-106 | a connection check that fails keeps its exception, which a later failure replaces |
| `AnyPeers.GoesOnIff` | src/client/download_file.cpp:318-345 | for any peers and any place in a round: joining the rest of the workers goes on to the end if and only if all of them join, complete or in have mode, and the complete ones name different pieces that are all pending; then exactly these are pending no more, in the old order |
| `AnyPeers.RoundTwiceIff` | src/client/download_file.cpp:121-133 | a round of workers that join so ends with a piece popped twice if and only if two complete ones name one piece or one names a piece that is not pending |
| `AnyPeers.RoundStallsIff` | src/client/download_file.cpp:318-345 | a round that is not left makes progress if and only if some started worker ends without an exception; otherwise it leaves pending pieces and files as they were |
| `AnyPeers.HaveModeLivelock` | src/client/download_file.cpp:322-329 | with only workers in have mode whose connections have failed for good, the pending pieces never change: no number of rounds is enough |
| `HostilePeers.GonePeerLivelocks` | src/client/download_file.cpp:263-346 | such a download exists, from the connection check on: a peer that announces a piece and is gone |
| `AnyPeers.CompleteIff` | src/client/piece.hpp:83-87 | a worker that is marked complete has transferred a piece, unless and only unless it waited in vain (a time-out or an Unchoke) |
| `AnyPeers.EarlyCounts` | src/client/download_file.cpp:331-339 | joining a worker that waited in vain, at any place in any pool: an empty file is written for the piece it had before, or piece 0, if that is pending, and otherwise `pop_piece` throws |
| `AnyPeers.EarlyInRound` | src/client/download_file.cpp:318-345 | so whenever one waits in vain, the round is left, or that piece was pending, is so no more, and has an empty file at the end of the round |
| `HeraldRuns.TwoAnnouncements` | src/client/download_file.cpp:331-339 | two honest peers that announce the same piece: nothing fails and nobody waits in vain, and the first round ends with that piece popped twice |
| `HeraldRuns.LoneAnnouncement` | src/client/download_file.cpp:331-339 | an honest peer that announces one of several pieces and then pauses past the time-out: the download ends with that piece popped twice |
| `HeraldRuns.HeraldRounds` | src/client/download_file.cpp:315-346 | with one peer that announces piece after piece, the rounds follow its announcements up to the first that was made before, or up to the last; then a piece is popped twice, unless all pieces were delivered before |
| `HeraldRuns.AnnouncerDownload` | src/client/download_file.cpp:263-346 | a whole download from such a peer, for every shuffle, is left at the loop head if and only if its first announcements, as many as there are pieces, are a permutation of the pieces, and then the files hold exactly the pieces |
| `Interleaving.MainKeepsRest` | src/client/download_file.cpp:315-346 | no step of the main thread changes what the rest of the download comes to |
| `Interleaving.RunKeepsRest` | src/client/piece.hpp:76-116 | what a download comes to is the same for every interleaving of the threads between start and join |
| `Interleaving.InterleavedIsSequential` | src/client/download_file.cpp:315-346 | every interleaving that gets past the loop does so with the board and the number of rounds of the sequential reading |
| `Interleaving.NeverStuck` | src/client/piece.hpp:108-116 | before the end the main thread or the thread it joins can take a step |
| `Interleaving.PlainInterleaving` | src/client/download_file.cpp:315-346 | at no point of any interleaving has a piece been popped twice, whatever peers of workers not in have mode send |
| `Interleaving.HonestInterleaving` | src/client/download_file.cpp:315-346 | with honest peers every interleaving writes exactly the pieces, in ceil(n / workers) rounds, without exception |
| `InterleavingEnds.MovesBounded` | src/client/download_file.cpp:315-346 | with honest peers no interleaving is longer than a bound known at its start, from any point on |
| `InterleavingEnds.HonestEnds` | src/client/download_file.cpp:315-346 | so every download from honest peers ends, fair scheduling or not |
| `Gathering.GatherPieces` | src/client/download_file.cpp:233-260 | the copy in chunks of at most 512 bytes, however many bytes each read delivers, puts out the files in index order, and throws exactly for the first that is missing |
| `Gathering.PiecesTogether` | src/client/download_file.cpp:217-260 | the pieces of a file in index order are the front of the file |
| `Downloading.DownloadFile` | src/client/download_file.cpp:263-351 | a whole download, from the peers to the output, comes to the result that the theorems below speak of |
| `WholeFile.BecomesWorker` | src/client/download_file.cpp:149-180 | a peer that can be connected to becomes a worker that is ready, and any other none |
| `WholeFile.ConnectedInOrder` | src/client/download_file.cpp:149-180 | the workers come in the order of the peers |
| `WholeFile.NoneConnectedIff` | src/client/download_file.cpp:296-298 | there are no workers if and only if no peer can be connected to |
| `WholeFile.GatheredFile` | src/client/download_file.cpp:348-348 | the output is the original file if and only if its length is no positive multiple of the piece length |
| `WholeFile.HonestDownloadFile` | src/client/download_file.cpp:263-351 | with peers that are honest or cannot be connected to: the output of a whole download is the file up to the pieces' total length, and all of it exactly in that case |
| `WholeFile.HonestInterleavedFile` | src/client/download_file.cpp:315-348 | the same for every shuffle and every interleaving |
| `HeraldRuns.AnnouncerFile` | src/client/download_file.cpp:263-351 | with one peer that announces piece after piece there is an output if and only if the first announcements are a permutation of the pieces; it is the file if and only if moreover its length is no positive multiple of the piece length; otherwise `pop_piece` throws |
| `HostilePeers.SizedPeerStarves` | src/client/piece.cpp:56-128 | a peer that greets as it should and answers with blocks of one size keeps a whole download from ending when no number of them makes up the first piece |
| `Seeds.SeedServes` | src/client/piece.cpp:143-278 | an honest peer exists for every file that 32-bit fields can describe |
| `HeraldWorlds.HeraldExists` | src/client/piece.cpp:143-278 | a peer that announces piece after piece exists for every such file and every plan of announcements |

## Left out

- Vendored libraries under `src/lib`, the user interface, progress bars, logging, libcurl and URLs.
- The list of peers from the tracker, and the regular expression that splits address and port: the model starts from connected sockets.
- Real sockets, clocks and the file system: byte streams, abstract events and a map. Failures to create or write files are not modelled.
- The Mersenne Twister: the shuffle is any permutation.
- JSON internals and UTF-8 decoding: the value type and an arbitrary predicate. Nesting is not bounded by the stack.
- `_try_have` and `_check_piece_hash`, which nothing calls; so nothing is said about wrong bytes from a peer beyond their number.
- Checks of `from_file` in strict mode and the conversion of its fields.
- Upper-case and odd-length text in `sha1_hash_to_bytes`; the client only packs hashes it has printed itself.
- Indexing an empty view in the decoder (undefined in the source): read as "no value". An unterminated list or dictionary ends there.
- A handshake whose prefix length points past the message (undefined in the source): read as a failed handshake.
- The order in which handlers that are queued together run: any order, which includes that of the event loop.
- What a peer makes of a request that was cut off: it answers as to the whole, or anything else, since it is arbitrary.
- Workers that write to a stream other than their own buffer.
- Torrent.Pieces: the `pieces` bytes come in multiples of 20; otherwise the iterator of the source runs past the end.
- SessionHonest.HonestDownload: pieces shorter than 2^32 bytes and fewer than 2^32 of them, since requests have 32-bit fields.
- SchedulerRuns.PlainDownload: lengths of files are as `size_t` counts them, modulo 2^64, which is how the block loop compares them.
- InterleavingEnds.HonestEnds: the bound is for honest peers; others can keep a thread going forever.
