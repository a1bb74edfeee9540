# A verified model of the livego media pipeline

livego is a live streaming server: publishers send it RTMP, and it fans each stream out to RTMP
players, FLV files and HLS playlists. This project models the parts of that pipeline that transform
or route bytes, in Dafny, and proves what they promise of each other.

| modules | what they model |
|---|---|
| `Bytes`, `Options`, `Buffers` | fixed-width integers, byte layouts, the growing buffer behind every writer |
| `ChunkSpec`, `ChunkRun`, `ChunkSession`, `ChunkPeer`, `ChunkAcks`, `ChunkLayout`, `ChunkConn` | the RTMP chunk layer (Adobe RTMP Specification 1.0, sections 5.3.1 and 5.4.1): reader, writer, control messages, acknowledgements, and the memory messages are read into |
| `Amf0Spec`, `Amf0Theorems`, `Amf0Markers`, `Amf0Codec` | AMF 0: encoder, decoder, round trips, what every marker reads as whoever wrote it |
| `Amf3Spec`, `Amf3Theorems`, `Amf3References`, `Amf3Markers`, `Amf3Codec` | AMF 3: encoder, decoder with reference tables, round trips, what references and flags read as |
| `Crc32`, `TsSpec`, `TsTimes`, `TsMux` | MPEG transport streams (ISO/IEC 13818-1): CRC, PES units, packets, tables, a reference demultiplexer, the times and the clock it reads |
| `AnnexB`, `Adts` | H.264 to the byte stream of Annex B of Recommendation H.264; AAC behind ADTS headers (ISO/IEC 13818-7, section 6.2) |
| `Av`, `GopSpec`, `StoreSpec`, `Fanout`, `LatePlayer`, `Sharing`, `StreamCache`, `StreamRun` | packets, the group-of-pictures ring and the store its references point into, the cache, the fan-out to players, and players that rewrite the cached packets they are handed |
| `LossyQueue`, `Timestamps`, `Flv` | the queue in front of a slow player, timestamps across publishers, FLV files |
| `HlsSpec`, `HlsTheorems`, `HlsMedia`, `HlsCuts`, `Playlist`, `HlsRun`, `HlsSource`, `HlsPictures`, `HlsIntake`, `HlsSharing` | the HLS segmenter, from published packets to segments and the playlist, and what it does to the packets it shares |

Each part has a specification made of functions, theorems about it, and classes and methods that
update state in place as the Go code does and are proved to compute exactly what the specification
says. What the specification decides is stated a second time without its functions, in bytes, fields
and the numbers of the formats: `ChunkAcks`, `ChunkLayout`, `Amf0Markers`, `Amf3Markers`, `TsTimes`,
`LatePlayer`, `HlsCuts` and `HlsIntake` are made of such statements. `dafny verify dfyconfig.toml`
checks everything.

## What was found

Several properties that one would expect hold only under a condition. Each is stated as an
if-and-only-if, so that the condition is known to be exact.

- A session over the chunk layer is faithful exactly for lists of messages that are not empty and do
  not set a chunk size below four (`ChunkSession.SessionIff`): an empty message writes no chunk, and
  a new chunk size is in force before the message that carries it is written.
- A continuation chunk that repeats an extended time field is read correctly exactly when that field
  equals the timestamp reached (`ChunkSession.ContinuationReadIff`), which a delta of 0xffffff or more
  need not do.
- A type 3 chunk that starts a message after a type 0 one keeps the timestamp, where section 5.3.1.2.4
  of the RTMP specification adds the type 0 timestamp to it. The two agree exactly when that timestamp
  is zero (`ChunkRun.StartAfterAbsoluteIff`; `ChunkRun.KeptTimestamp` is an input where they do not).
- An AMF 0 or AMF 3 value whose encoding ends in an empty string does not decode at the end of the
  input (`Amf0Theorems.RoundTripIff`, `Amf3Theorems.RoundTripIff`), and an AMF 3 integer from 2^28 up
  comes back negative although the encoder writes it as an integer (`Amf3Theorems.IntegerIff`). An AMF 3
  string reference panics exactly when it points past the string table (`Amf3References.StringReferenceIff`).
- References to arrays and objects are halved once too often: a reference to entry k reads entry k / 2. It
  panics exactly when that is past the table, and gives the entry it means exactly when the two entries are
  equal (`Amf3References.ObjectReferenceIff`, `Amf3References.ArrayReferenceIff`; `Amf3References.WrongEntry` is
  an input). An object's own entry is null and stays so (`Amf3References.OwnEntryNull`).
- The reader files all chunk stream ids from 64 on under two entries. What a chunk stream sends arrives with
  its own fields as long as another id in its entry is only followed by a full header once it is done
  (`ChunkPeer.PeerReassembly`); a shorter header there is right exactly when both ids would lend it the same
  fields (`ChunkPeer.SharedEntryIff`; `ChunkPeer.TwoIdsMixed` is an input).
- A key frame comes out of the TS muxer whole exactly when its PES unit has 176 bytes, or 184 and more
  (`TsSpec.MuxRecoveredIff`); otherwise nothing that looks like a unit arrives, while counters, tables and all
  other frames are right (`TsSpec.MuxAllIff`, `HlsMedia.SegmentStandsAlone`). Its clock is whole
  exactly when the unit is not 178 to 183 bytes long (`TsTimes.ClockIff`). Time stamps are exact below 2^33
  (`TsSpec.ExactStamp`), because the code subtracts 2^33 - 1 and not 2^33.
- H.264 data whose first unit is one byte long is taken for a byte stream (`AnnexB.MistakenIff`), and a
  decoder configuration gives the right picture parameter set exactly when nothing follows it
  (`AnnexB.ConfigIff`). Parameter sets of every sequence header are appended to those of the earlier ones:
  the stored sets are the latest header's exactly when nothing was stored before (`AnnexB.LatestStoredIff`).
- A picture has both kinds of parameter sets in front of it exactly when those of its own access unit
  have both kinds, or there are none and the stored ones have both (`AnnexB.BothSetsIff`): one set in
  band suppresses the stored ones.
- The group-of-pictures ring survives every run exactly for counts one and two (`GopSpec.SafeIff`).
- Players are handed the cached pictures themselves, and an HLS writer converts the data of what it is
  handed in place. Over every run, and however that rewriting is scheduled, each player has received
  exactly the snapshot at its first packet and what followed if and only if no rewriting player was
  served from a cache that held a group (`Sharing.RunServesIff`). A step keeps the law exactly when it
  does not put another packet where the ring, or a player's queue, still has one (`Fanout.StepIff`). The input:
  a publisher's first packet is a key frame, the HLS writer is served with it, and a second player
  attaches in the same group (`HlsSharing.SecondPlayerSpoilt`). HLS is on by default.
- A player that was served right sees a gapless suffix of the pictures exactly when no group it was sent
  from the cache is longer than the 1024 packets the cache keeps (`Fanout.LateJoinerIff`).
- The playlist shows the last three segments, in order, at all times exactly when no two segments at most
  two apart were made in the same second, because their file names tell nothing else
  (`Playlist.ShowsLastIff`).
- Removing the metadata command name always cuts 16 bytes, which is exactly the name if and only if it
  came as a short string (`Flv.StripsNameIff`).
- Thinning a full queue puts the packets it keeps behind newer ones: order survives exactly when there
  are none to keep (`LossyQueue.OrderKeptIff`). The packet that triggers it is itself not queued, and
  metadata is not protected.
- Composition times are read as unsigned, so exactly the non-negative ones are right (`Av.CompositionIff`);
  FLV 10.1, Annex E.4.3.1, makes them signed.
- ADTS headers are right exactly for object types 1 to 4, fewer than 4 channels and frames up to 8184
  bytes (`Adts.HeaderIff`).

## Model

| member | source | states |
|---|---|---|
| ChunkPeer.PeerReassembly | livego/protocol/rtmp/core/chunk_stream.go:123-225 | for chunks of any sender on chunk streams of any ids, in any order, with any header types, deltas and in-band chunk sizes, the reader delivers exactly the completed messages, in order of completion, with the fields that section 5.3.1 of the RTMP specification gives each chunk stream; on three conditions: an entry of the reader that another id used last is only used with that id's message complete and a full header, an extended delta that continuation chunks repeat equals the timestamp reached (`ChunkSession.ContinuationReadIff`), and a type 3 start after a type 0 message has a zero time to add (`ChunkRun.StartAfterAbsoluteIff`) |
| ChunkPeer.SharedEntryIff | livego/protocol/rtmp/core/conn.go:55-61 | a message started with a type 1 or 2 header where another id was filed last is read with the fields of its own chunk stream if and only if the other one lends it the same |
| ChunkPeer.TwoIdsMixed | livego/protocol/rtmp/core/conn.go:55-61 | a concrete one: audio due at 1020 on stream 64 arrives as video at 5020 behind a video on stream 65 |
| ChunkPeer.BusyEntryFails | livego/protocol/rtmp/core/chunk_stream.go:124-126 | while a message of one id is in flight, no full header is read in its entry, whoever sends it |
| ChunkSession.InterleavedReassembly | livego/protocol/rtmp/core/chunk_stream.go:123-225 | the same seen from the reader's own entries: whatever is sent into them in any order, exactly the completed messages are delivered, in order, with the fields the entries lend them, and both sides agree afterwards |
| ChunkSession.ContinuationReadIff | livego/protocol/rtmp/core/chunk_stream.go:194-206 | a continuation chunk is read and nothing else consumed if and only if its repeated extended time field is below 0xffffff or equals the timestamp reached |
| ChunkSession.UnrecognisedDelta | livego/protocol/rtmp/core/chunk_stream.go:194-206 | a concrete conforming message with a large delta whose last byte is replaced by a byte of the repeated delta |
| ChunkRun.StartAfterAbsoluteIff | livego/protocol/rtmp/core/chunk_stream.go:183-208 | a type 3 start behind a type 0 message is read with the timestamp unchanged and nothing else consumed, which is the timestamp the standard asks for if and only if the type 0 time is zero |
| ChunkRun.KeptTimestamp | livego/protocol/rtmp/core/chunk_stream.go:183-208 | a concrete one: due at 2000, read at 1000 |
| ChunkSession.WriterIsRun | livego/protocol/rtmp/core/chunk_stream.go:83-121 | what the writer emits for a message that reads back is a valid run of exactly one message, so the writer is a conforming sender |
| ChunkSession.MessageReadsBack | livego/protocol/rtmp/core/conn.go:48-87 | one written message, whatever follows it, is the next message the peer reads, and reader and writer agree on the chunk size again |
| ChunkSession.SessionRefinement | livego/protocol/rtmp/core/conn.go:48-87 | any list of messages that read back, with chunk sizes renegotiated in between, arrives as exactly that list, and both ends hold the same chunk size after it |
| ChunkSession.SessionIff | livego/protocol/rtmp/core/conn.go:82-87 | over all lists of sendable messages, the list arrives if and only if no message is empty and no Set Chunk Size message is for fewer than four bytes |
| ChunkSession.EmptyMessageVanishes | livego/protocol/rtmp/core/chunk_stream.go:94-97 | an empty message writes no byte |
| ChunkSession.SmallChunkSizeGarbles | livego/protocol/rtmp/core/conn.go:82-86 | a Set Chunk Size message for one to three bytes arrives with another payload, whatever follows |
| ChunkSession.FreshConnection | livego/protocol/rtmp/core/conn.go:35-46 | a new connection agrees with a peer that has sent nothing, at chunk size 128 |
| ChunkAcks.AcksConserve | livego/protocol/rtmp/core/conn.go:48-80 | over any run of reads that deliver messages, the acknowledgements given are exactly those due by the payload lengths of the messages delivered, and their counts with what is pending at the end are what was pending before and all payload bytes, modulo 2^32; what is pending stays below the window |
| ChunkAcks.AckIff | livego/protocol/rtmp/core/conn.go:135-146 | reading a message gives an acknowledgement if and only if its payload bytes bring the pending count to the window, a window set by that very message included; it carries that count, which starts over, and otherwise the bytes stay pending |
| ChunkAcks.AckReads | livego/protocol/rtmp/core/conn.go:109-111 | what is sent for an acknowledgement is read by a peer as a message of type 3 on chunk stream 2 whose payload is the count in four bytes, most significant first |
| ChunkLayout.HeaderLaid | livego/protocol/rtmp/core/chunk_stream.go:38-81 | every chunk header byte by byte: one, two or three bytes of id, then eleven, seven, three or no bytes of fields, then the time in full if it does not fit three bytes |
| ChunkLayout.MessageLaid | livego/protocol/rtmp/core/chunk_stream.go:83-121 | every message as it goes out: audio on chunk stream 4, video and data on 6, all else on its own; a full header, the first piece, and the other pieces behind headers without fields; an empty message leaves nothing |
| ChunkLayout.ControlIff | livego/protocol/rtmp/core/conn.go:127-133 | message types 1 and 5 set the chunk size and the window to the big-endian number in their first four bytes and panic if and only if these are not there; no other type changes either |
| ChunkLayout.PoolIff | livego/protocol/rtmp/core/chunk_stream.go:31-36 | a message whose header is read panics if and only if its length is above 512000 bytes |
| ChunkConn.Pool.Get | livego/utils/pool/pool.go:10-18 | every slice ever handed out is apart from every other, including those from a block that was replaced |
| ChunkConn.ReadWriter.ReadUintBE | livego/protocol/rtmp/core/read_writer.go:33-47 | the big-endian value of the next n bytes, with the sticky error once the input ends |
| ChunkConn.ReadWriter.ReadUintLE | livego/protocol/rtmp/core/read_writer.go:49-63 | the little-endian value of the next n bytes, with the sticky error once the input ends |
| ChunkConn.ReadWriter.Read | livego/protocol/rtmp/core/read_writer.go:20-27 | fills exactly its part of the slice with the next bytes and touches no other element; a short input sets the error |
| ChunkConn.ReadWriter.WriteUintBE | livego/protocol/rtmp/core/read_writer.go:87-99 | appends the low n bytes of the value, most significant first |
| ChunkConn.ReadWriter.WriteUintLE | livego/protocol/rtmp/core/read_writer.go:101-114 | appends the low n bytes of the value, least significant first |
| ChunkConn.WriteHeader | livego/protocol/rtmp/core/chunk_stream.go:38-81 | appends the basic and message header that the reading side is proved to invert, or refuses a length above 24 bits |
| ChunkConn.WriteChunk | livego/protocol/rtmp/core/chunk_stream.go:83-121 | appends exactly the specified chunks of the message, or refuses a length above 24 bits |
| ChunkConn.ReadHead | livego/protocol/rtmp/core/chunk_stream.go:136-208 | updates a chunk stream by its header as specified for each of the four types, taking new memory only where a message starts |
| ChunkConn.ReadPayload | livego/protocol/rtmp/core/chunk_stream.go:209-224 | puts the next piece of payload behind what the message already has, and changes no byte outside its slice |
| ChunkConn.ReadChunkStream | livego/protocol/rtmp/core/chunk_stream.go:123-225 | one chunk has exactly the specified effect on state, input and memory, including its errors |
| ChunkConn.Conn.ReadOne | livego/protocol/rtmp/core/conn.go:49-68 | reading one chunk is the specified step on the table of chunk streams, and keeps the memory of delivered messages |
| ChunkConn.Conn.Read | livego/protocol/rtmp/core/conn.go:48-80 | reading a message is the specified read: same message, state, acknowledgement bytes and errors; its memory joins that of the earlier messages, none of whose bytes change |
| ChunkConn.Conn.Write | livego/protocol/rtmp/core/conn.go:82-87 | a new chunk size is taken over before the message is written in chunks of that size |
| ChunkConn.Conn.Ack | livego/protocol/rtmp/core/conn.go:135-146 | counts as specified and writes an acknowledgement exactly when the window is used up |
| ChunkConn.Conn.HandleControlMsg | livego/protocol/rtmp/core/conn.go:127-133 | Set Chunk Size and Window Acknowledgement Size change exactly their field; a payload too short for the value is a panic |
| Amf0Theorems.DecodeEncode | livego/protocol/amf/decoder_amf0.go:10-151 | decoding any well-formed encoded value in front of any bytes returns the value and leaves those bytes, except an ending empty string at the end of the input, which fails |
| Amf0Theorems.RoundTripIff | livego/protocol/amf/encoder_amf0.go:11-174 | for every value in any property order, the round trip holds if and only if keys have 1 to 65535 bytes, lengths fit their fields, and the encoding does not end in an empty string at the end of the input |
| Amf0Theorems.DecodedOk | livego/protocol/amf/decoder_amf0.go:10-54 | whatever bytes are decoded, a result always fits the format: every key and length is one that its field can hold |
| Amf0Theorems.DecodeSuffix | livego/protocol/amf/decoder_amf0.go:119-151 | what a decoding leaves unread is always a suffix of its input |
| Amf0Spec.Decode | livego/protocol/amf/decoder_amf0.go:10-54 | on any byte string, a successful decoding leaves strictly less than it was given, so nesting and declared array lengths up to 2^32-1 terminate |
| Amf0Markers.EcmaArrayReads | livego/protocol/amf/decoder_amf0.go:199-217 | marker 0x08, any four bytes for a length, well-formed properties and the end marker read as the object of those properties and leave what follows, whatever the four bytes say |
| Amf0Markers.ObjectReads | livego/protocol/amf/decoder_amf0.go:119-151 | marker 0x03, properties whose values read as they do, nested to any depth, and the end marker read as the object, where later properties take the place of earlier ones |
| Amf0Markers.TypedReads | livego/protocol/amf/decoder_amf0.go:315-337 | marker 0x10, a class name, properties and the end marker read as the typed object of that name |
| Amf0Markers.StrictArrayReads | livego/protocol/amf/decoder_amf0.go:219-244 | marker 0x0a, a length and that many values read as the array of them, in order |
| Amf0Markers.DateReads | livego/protocol/amf/decoder_amf0.go:248-264 | a date reads as its eight bytes, and its time zone is dropped whatever it is |
| Amf0Markers.TextReads | livego/protocol/amf/decoder_amf0.go:268-311 | strings have their length in two bytes, long strings and XML documents in four |
| Amf0Markers.NullReads | livego/protocol/amf/decoder_amf0.go:155-168 | null, undefined and unsupported read as null and take one byte |
| Amf0Markers.RefusedIff | livego/protocol/amf/decoder_amf0.go:10-54 | a marker is refused, whatever follows, if and only if it is none of the thirteen that are read |
| Amf0Markers.KnownBytes | livego/protocol/amf/encoder_amf0.go:11-174 | one encoding of each kind, byte by byte |
| Amf0Theorems.BatchRoundTrip | livego/protocol/amf/amf.go:8-18 | a batch of encoded values decodes to those values and reads everything, but loses the last one if it ends in an empty string |
| Amf0Codec.EncodeAmf0 | livego/protocol/amf/encoder_amf0.go:11-57 | succeeds exactly on values without typed objects, and then appends an encoding of the value in some property order and returns its length |
| Amf0Codec.EncodeObject | livego/protocol/amf/encoder_amf0.go:138-174 | the same for objects, whatever order the map is walked in |
| Amf0Codec.EncodeStrictArray | livego/protocol/amf/encoder_amf0.go:237-264 | the same for arrays |
| Amf0Codec.EncodeBatch | livego/protocol/amf/amf.go:31-38 | appends the encodings one behind the other, stops at the first value it refuses, and returns a count of zero |
| Amf0Codec.DecodeAmf0 | livego/protocol/amf/decoder_amf0.go:10-54 | result and unread input are those of the specified decoding, on every input |
| Amf0Codec.DecodeObject | livego/protocol/amf/decoder_amf0.go:119-151 | the property loop decodes exactly the specified map, up to the empty key and end marker |
| Amf0Codec.DecodeStrictArray | livego/protocol/amf/decoder_amf0.go:219-244 | the element loop decodes exactly the specified elements |
| Amf0Codec.DecodeBatch | livego/protocol/amf/amf.go:8-18 | terminates on every input with exactly the values and unread rest of the specification |
| Amf3Theorems.U29Reads | livego/protocol/amf/encoder_amf3.go:415-432 | decoding inverts the 29-bit integer encoding for every value below 2^29, whatever follows |
| Amf3Theorems.IntegerIff | livego/protocol/amf/decoder_amf3.go:80-96 | an integer below 2^29 survives the round trip if and only if it is below 2^28 |
| Amf3Theorems.DecodeEncode | livego/protocol/amf/decoder_amf3.go:117-374 | from any reference tables, decoding an encoded value in front of any bytes gives the value as the decoder reads it and leaves those bytes, except an ending empty string at the end of the input |
| Amf3Theorems.FaithfulIff | livego/protocol/amf/encoder_amf3.go:264-362 | reading back changes nothing about a value if and only if all its integers are below 2^28 and no object has a class name |
| Amf3Theorems.RoundTripIff | livego/protocol/amf/encoder_amf3.go:227-432 | from any reference tables, the exact value comes back and the rest is left if and only if the value is faithful and does not end in an empty string at the end of the input |
| Amf3Codec.SortedUnique | livego/protocol/amf/encoder_amf3.go:281-285 | a set of property names has one sorted list |
| Amf3Codec.CanonicalUnique | livego/protocol/amf/encoder_amf3.go:264-362 | two items in the encoder's form that stand for one value are one item |
| Amf3Codec.EncodingUnique | livego/protocol/amf/encoder_amf3.go:264-362 | a value has one encoding, in whatever order its maps are walked |
| Amf3Codec.SortedKeys | livego/protocol/amf/encoder_amf3.go:281-285 | every property name once, in byte order |
| Amf3Codec.EncodeU29 | livego/protocol/amf/encoder_amf3.go:415-432 | appends the 29-bit encoding, and refuses exactly the values from 2^29 up |
| Amf3Codec.EncodeAmf3 | livego/protocol/amf/encoder_amf3.go:14-81 | succeeds exactly when every length fits its header, and then appends the canonical encoding of what is sent for the value and returns its length |
| Amf3Codec.EncodeArray | livego/protocol/amf/encoder_amf3.go:227-260 | the same for dense arrays |
| Amf3Codec.EncodeObject | livego/protocol/amf/encoder_amf3.go:264-362 | the same for sealed objects: sorted trait names, then values in that order |
| Amf3Codec.Decoder.DecodeU29 | livego/protocol/amf/decoder_amf3.go:463-485 | the loop over up to four bytes reads the specified integer |
| Amf3References.StringReferenceIff | livego/protocol/amf/decoder_amf3.go:129-132 | a string reference gives the entry it stands for and leaves the rest, or panics if and only if it points past the table |
| Amf3References.ObjectReferenceIff | livego/protocol/amf/decoder_amf3.go:250-255 | an object reference to entry k reads entry k / 2: it panics if and only if that is past the table, and gives entry k if and only if the two are equal |
| Amf3References.ArrayReferenceIff | livego/protocol/amf/decoder_amf3.go:203-212 | the same for array references, which also fail where entry k / 2 is no array |
| Amf3References.WrongEntry | livego/protocol/amf/decoder_amf3.go:203-212 | a reference to the second of two arrays gives the first, and one to the second entry of a table of one does not panic |
| Amf3References.OwnEntryNull | livego/protocol/amf/decoder_amf3.go:257-293 | decoding only adds to the tables, and what an object that is spelled out adds for itself is null, for good |
| Amf3Markers.LimbsRead | livego/protocol/amf/decoder_amf3.go:463-485 | a 29-bit integer is seven bits to a byte, most significant first, the top bit saying that another follows, and eight in the fourth byte |
| Amf3Markers.SpelledReads | livego/protocol/amf/decoder_amf3.go:258-374 | an object spelled out, sealed or dynamic, with values nested to any depth: the flag in bit 3 and the number of names above it, the class name, the names, their values, and for a dynamic one pairs up to an empty name, read as the object of those members; its class enters the table |
| Amf3Markers.ReferredReads | livego/protocol/amf/decoder_amf3.go:258-263 | an object whose class is referred to by number reads the members that class names, and the pairs if it is dynamic |
| Amf3Markers.UnknownClass | livego/protocol/amf/decoder_amf3.go:258-263 | a class number past the table is a panic |
| Amf3Markers.ArrayReads | livego/protocol/amf/decoder_amf3.go:214-234 | a dense array reads as its elements, and is then the newest entry of the object table |
| Amf3Markers.StringAgain | livego/protocol/amf/decoder_amf3.go:134-143 | a string that is not empty gets the next number: a reference to that number behind it gives it again |
| Amf3Markers.IntegerReads | livego/protocol/amf/decoder_amf3.go:80-98 | from 2^28 on, an integer reads as 2^29 less |
| Amf3Markers.SimpleReads | livego/protocol/amf/decoder_amf3.go:51-78 | undefined and null, false and true are one byte |
| Amf3Markers.KnownBytes | livego/protocol/amf/encoder_amf3.go:98-365 | one encoding of each kind, byte by byte |
| Amf3Codec.Decoder.DecodeAmf3String | livego/protocol/amf/decoder_amf3.go:117-146 | strings by reference or spelled out, the latter remembered unless empty, exactly as specified, panics included |
| Amf3Codec.Decoder.DecodeAmf3 | livego/protocol/amf/decoder_amf3.go:11-47 | result, unread input and reference tables are those of the specified decoding, on every input, with errors and panics told apart |
| Amf3Codec.Decoder.DecodeAmf3Array | livego/protocol/amf/decoder_amf3.go:191-235 | the same for arrays, which enter the object table when complete |
| Amf3Codec.Decoder.DecodeTrait | livego/protocol/amf/decoder_amf3.go:258-295 | traits by reference, or spelled out and then remembered |
| Amf3Codec.Decoder.DecodeAmf3Object | livego/protocol/amf/decoder_amf3.go:239-374 | the same for objects, sealed and dynamic |
| Crc32.GenCrc32 | livego/container/ts/crc32.go:3-78 | for every byte sequence, the table loop computes the register of bit-by-bit division by 0x04C11DB7 from 0xFFFFFFFF |
| Crc32.TableStep | livego/container/ts/crc32.go:69-76 | one table lookup does the work of feeding eight bits |
| Crc32.ResidueIsZero | livego/container/ts/crc32.go:3-78 | dividing any message followed by its own check value leaves zero |
| Crc32.CheckValue | livego/container/ts/crc32.go:3-78 | the digits 1 to 9 give 0x0376E6E7, the value that catalogues list for CRC-32/MPEG-2 |
| TsSpec.StampIff | livego/container/ts/muxer.go:345-364 | a time stamp reads back modulo 2^33 if and only if it is below 2^33, the fold being off by one |
| TsSpec.ExactStamp | livego/container/ts/muxer.go:345-364 | a time stamp reads back exactly if and only if it is below 2^33 |
| TsSpec.PcrReads | livego/container/ts/muxer.go:270-286 | the program clock reference reads back modulo 2^33 |
| TsSpec.UnitReads | livego/container/ts/muxer.go:292-343 | a PES unit gives back its own length behind the length field, or zero if that does not fit, the frame's data behind the declared header length, and each time stamp exactly when it is below 2^33 |
| TsTimes.TimesRead | livego/container/ts/muxer.go:38-48 | the stamps read from a unit's bytes are 90 times the frame's time plus composition time, and 90 times its time, each if and only if that is below 2^33; the second is there if and only if the composition time of a picture is not zero; start code, stream kind and flags are those of the standard |
| TsTimes.ClockIff | livego/container/ts/muxer.go:99-156 | the clock of a key frame's first packet is 90 times the frame's time, modulo 2^33, and whole, if and only if its unit is not 178 to 183 bytes long |
| TsTimes.NoClock | livego/container/ts/muxer.go:99-106 | no other packet of a frame that is no key frame has a clock |
| TsTimes.StuffingLaid | livego/container/ts/muxer.go:258-268 | a packet with less than 184 bytes to carry is filled up in front of them by a field of the right length without flags and with nothing but 0xff in it |
| TsSpec.MuxRecoveredIff | livego/container/ts/muxer.go:34-159 | a frame's packets demultiplex to exactly its PES unit if and only if it is not a key frame whose unit is below 184 bytes and not 176 |
| TsSpec.FrameThen | livego/container/ts/muxer.go:54-156 | in front of any stream, a frame adds one unit to its own PID, nothing to any other, and steps its continuity counter by one modulo 16 from packet to packet |
| TsSpec.MuxAllIff | livego/container/ts/muxer.go:34-159 | over any interleaving of audio and video frames: whole packets with gapless counters, and each PID's receiver gets one unit for each frame of its stream, in order; a unit is the frame's own, with its data, if and only if the frame is no key frame whose unit is below 184 bytes and not 176, and otherwise it does not look like a unit; audio always is right |
| TsSpec.TablesCheck | livego/container/ts/muxer.go:162-256 | every PAT and PMT, after any number of calls, carries a section that passes its CRC |
| TsSpec.TablesSay | livego/container/ts/muxer.go:162-256 | a receiver reads from the tables: the map of program 1 on PID 0x1001, H.264 on PID 0x100 if there is video, AAC or MP3 on PID 0x101, and the PID with the clock |
| TsMux.Muxer.Mux | livego/container/ts/muxer.go:34-159 | terminates, and appends exactly the specified packets although array and byte counters are reused and wrap |
| TsMux.Muxer.FillPacket | livego/container/ts/muxer.go:69-147 | the array holds exactly the specified first or later packet, and the index arithmetic in bytes never leaves it |
| TsMux.Muxer.Adapt | livego/container/ts/muxer.go:114-127 | the frame's rest always ends at the packet's end, even where the stuffing length wraps |
| TsMux.Muxer.AdaptationBufInit | livego/container/ts/muxer.go:258-268 | a stuffing field of the given length, and nothing in front of it changed |
| TsMux.Muxer.WritePcr | livego/container/ts/muxer.go:270-286 | the six clock bytes, and nothing else changed |
| TsMux.Muxer.PAT | livego/container/ts/muxer.go:162-196 | the specified table packet with the next counter value, whatever the array held before |
| TsMux.Muxer.PMT | livego/container/ts/muxer.go:199-256 | the specified table packet for the given streams with the next counter value |
| TsMux.MakePesHeader | livego/container/ts/muxer.go:292-343 | the specified PES header |
| TsMux.WriteTs | livego/container/ts/muxer.go:345-364 | the five bytes of a time stamp, and nothing else changed |
| AnnexB.TilesIff | livego/parser/h264/parser.go:145-216 | the conversion accepts its input if and only if it is a sequence of units with positive four-byte lengths |
| AnnexB.SplitJoin | livego/parser/h264/parser.go:133-143 | length-prefixed units split into exactly those units |
| AnnexB.StreamReads | livego/parser/h264/parser.go:145-216 | cutting a coded byte stream at its start codes gives back the units, if they keep emulation prevention and end in a non-zero byte |
| AnnexB.StreamReadsIff | livego/parser/h264/parser.go:145-216 | the same exactly: the units come back if and only if each one with another behind it is empty or clean and the last one has no break in it |
| AnnexB.UnitSurvivesIff | livego/parser/h264/parser.go:145-216 | a unit with others behind it survives the byte stream if and only if it is clean |
| AnnexB.ConvertedReads | livego/parser/h264/parser.go:145-216 | where forwarded units, parameter sets and stored sets are clean (no break in them, no zero at their end), a decoder of the output sees a delimiter, the forwarded units in order, and before the first IDR the parameter sets of this access unit, or the stored ones |
| AnnexB.TypesRead | livego/parser/h264/parser.go:145-216 | for clean units, cutting the output at its start codes gives the delimiter, exactly the input units whose first byte modulo 32 is 1, 5 or 6, in order, and in front of the first of type 5 the units of types 7 and 8 that stood before it, or the stored ones if there were none |
| AnnexB.UnitTypes | livego/parser/h264/parser.go:145-216 | the same of the units picked, clean or not |
| AnnexB.BothSetsIff | livego/parser/h264/parser.go:168-213 | the first IDR picture has a sequence and a picture parameter set in front of it if and only if the sets of this access unit before it have both kinds, or there are none and the stored ones have both |
| AnnexB.ConfigIff | livego/parser/h264/parser.go:77-121 | a decoder configuration's sets are read right if and only if nothing follows the first picture parameter set |
| AnnexB.LatestStoredIff | livego/parser/h264/parser.go:117-118 | after any run of sequence headers, the stored sets are those of the latest good one if and only if every one before it was bad |
| AnnexB.MistakenIff | livego/parser/h264/parser.go:123-131 | length-prefixed data is taken for a byte stream if and only if its first unit is one byte long |
| AnnexB.Parser.GetAnnexbH264 | livego/parser/h264/parser.go:145-217 | the one-pass loop writes exactly "split, then pick": the units in front of the first fault, and fails with exactly that fault |
| AnnexB.Parser.ParseSpecificInfo | livego/parser/h264/parser.go:77-121 | appends the two sets to the stored ones; a bad record changes nothing |
| AnnexB.Parser.Parse | livego/parser/h264/parser.go:219-232 | sequence headers are stored, byte streams pass unchanged, the rest is converted; what was converted in front of a fault has been written |
| Adts.SpecificReads | livego/parser/aac/parser.go:51-60 | object type, rate index and channels are read from any two configuration bytes that say them |
| Adts.HeaderReads | livego/parser/aac/parser.go:62-96 | what a header says for any configuration and length: two bits of the type, two of the channels, thirteen of the length |
| Adts.HeaderStarts | livego/parser/aac/parser.go:69-71 | a reader finds the syncword, MPEG-4, layer 0, and protection_absent set |
| Adts.HeaderIff | livego/parser/aac/parser.go:62-96 | for every configuration, the header says it and the true length if and only if the object type is 1 to 4, channels are below 4 and the frame has at most 8184 bytes |
| Adts.FramesRead | livego/parser/aac/parser.go:62-96 | a run of frames, each under a configuration of its own, splits back at the syncwords by the length field, each with its configured fields and no check sum announced |
| Adts.FramesReadIff | livego/parser/aac/parser.go:62-96 | the raw frames come back if and only if none is longer than 8184 bytes, whatever their configurations |
| Adts.AacParser.SpecificInfo | livego/parser/aac/parser.go:51-60 | takes the configuration over, or refuses fewer than two bytes and changes nothing |
| Adts.AacParser.Adts | livego/parser/aac/parser.go:62-96 | appends one framed frame built in the parser's own header array; refuses empty data and data before a configuration |
| Adts.RateLaws | livego/parser/aac/parser.go:27-104 | the rates are those of the standard, in its order; 44100 is the rate of index 4 and of every index outside the table, and two configurations share a rate exactly if they share the index or both stand for 44100 |
| Av.ParseVideoHeader | livego/container/flv/tag.go:164-181 | the byte loop reads the specified header |
| Av.CompositionIff | livego/container/flv/tag.go:164-181 | a signed composition time is read right if and only if it is not negative |
| Av.VideoTagReads | livego/container/flv/tag.go:164-181 | a video tag's frame type and codec are four bits each; packet type and composition time are read of frame types 1 and 2 alone; fewer than five bytes are refused |
| Av.AudioTagReads | livego/container/flv/tag.go:145-162 | an audio tag's format is four bits; format 10 alone has a packet type, whose missing is a panic |
| GopSpec.RingRefinesList | livego/protocol/rtmp/cache/gop.go:67-116 | for counts one and two, after every run the ring sends the last groups, oldest first, each cut to 1024 packets, and visits no empty slot |
| GopSpec.SafeIff | livego/protocol/rtmp/cache/gop.go:67-85 | every run is free of an empty slot or a zero divisor if and only if the count is one or two; otherwise a key frame and then any other packet crash it |
| Fanout.CacheRuns | livego/protocol/rtmp/cache/cache.go:24-55 | over every run, the cache holds the newest metadata and sequence headers, and the groups of the packets routed to the ring |
| Fanout.CacheShows | livego/protocol/rtmp/cache/cache.go:57-75 | a send shows them in that order |
| LatePlayer.PlayerGets | livego/protocol/rtmp/cache/cache.go:24-75 | after any run, in tag fields: a player gets nothing before the first packet behind its attachment, then the newest metadata, the newest video packet of frame type 1 and AVC packet type 0 and the newest audio packet of format 10 and AAC packet type 0, each if one was published, and the last groups of the other pictures, each from frame type 1 on and cut to 1024, and then every packet as it comes; no other audio comes out of the cache |
| LatePlayer.PlayersIff | livego/protocol/rtmp/stream.go:317-355 | a player is there from its attachment until it is detached, or a packet is written to it over a broken connection; it stays under a new publisher |
| LatePlayer.PlayerKept | livego/protocol/rtmp/rtmp.go:308-345 | a player stays where it attached, what it sent stays sent, and its thread sends the first of what waits; it starts over under a new publisher |
| Fanout.StepIff | livego/protocol/rtmp/stream.go:309-357 | attaching, detaching, publishing with failing connections, publishers taking over, players sending what waits, and rewrites: a step keeps it that the cache holds what was published and each player has sent, or has waiting, exactly the snapshot at its first packet and then every packet, if and only if it does not put another packet where the ring or a player's queue still has one |
| Sharing.RunServesIff | livego/protocol/rtmp/cache/gop.go:41-50 | over every run, with any rewriting of held packets in between: that law holds at all times if and only if no rewriting player is served from a cache whose ring holds a group |
| Sharing.NextPlayerIff | livego/protocol/rtmp/stream.go:335-343 | after a spoiling rewrite, the next player to attach starts right if and only if its first packet pushes the changed one out of the ring; otherwise it is handed the changed packet |
| HlsSharing.SecondPlayerSpoilt | livego/protocol/hls/source.go:213-245 | a concrete input: the first packet is a key frame, the HLS writer is served with it and converts it, and a player attaching in the same group receives a key frame that nobody published |
| HlsSource.RewrittenIsForeign | livego/protocol/hls/source.go:239 | what the HLS writer leaves in a picture packet differs from every picture packet it would accept, published or not |
| StoreSpec.LoadWrite | livego/protocol/rtmp/cache/gop.go:67-99 | writing a reference into the ring and the packet into the store is writing the packet into a ring of packets, crashes included |
| StoreSpec.SendsAll | livego/protocol/rtmp/cache/gop.go:101-116 | a send hands out references to exactly what is in the ring, and to something if and only if it holds a group |
| Fanout.GopsTile | livego/protocol/rtmp/cache/gop.go:87-99 | the groups tile what was written from the first key frame on, and each has one key frame, at its start |
| Fanout.LateJoinerIff | livego/protocol/rtmp/stream.go:335-348 | of a player that the law holds for: what it has of the pictures is a suffix of all published if and only if no group it was sent was longer than the cache keeps, and it starts at a key frame |
| StreamCache.GopArray.Send | livego/protocol/rtmp/cache/gop.go:41-50 | hands out every packet of the group in order, the packets themselves, or stops at a broken connection; a writer that rewrites then holds them |
| StreamCache.GopCache.Write | livego/protocol/rtmp/cache/gop.go:67-99 | for every count, slots, counters and crashes are those of the specified ring of references |
| StreamCache.GopCache.SendTo | livego/protocol/rtmp/cache/gop.go:101-116 | for every count, hands out what the specified ring sends, in its order, the packets themselves |
| StreamCache.SpecialCache.Send | livego/protocol/rtmp/cache/special.go:42-50 | hands out the packet it holds, if any |
| StreamCache.Cache.Write | livego/protocol/rtmp/cache/cache.go:24-55 | routes each packet as specified |
| StreamCache.Cache.Send | livego/protocol/rtmp/cache/cache.go:57-75 | sends what the specified cache sends, or stops at a broken connection |
| StreamRun.Stream.Publish | livego/protocol/rtmp/stream.go:317-355 | one turn of the loop is the specified step for all writers, in whatever order they are visited, and keeps the law of `Fanout.StepIff` |
| StreamRun.Stream.AddWriter | livego/protocol/rtmp/stream.go:145-149 | a writer is entered to start over; the law is kept |
| StreamRun.Stream.RemoveWriter | livego/protocol/rtmp/stream.go:382-389 | a writer is taken out; the law is kept |
| StreamRun.Stream.SendFrom | livego/protocol/rtmp/rtmp.go:308-345 | a writer's own thread sends what waits first, as it is by then: the specified step, which keeps the law |
| StreamRun.Stream.Rewrite | livego/protocol/hls/source.go:239 | a writer that puts another packet where it holds one is the specified step; the law survives exactly when neither the ring nor a queue still has that place |
| StreamRun.Stream.TakeOver | livego/protocol/rtmp/stream.go:129-138 | the specified step: a new publisher's stream has all the writers of the old one, each to start over behind an empty cache and with its clock rebased, and the old one none |
| LossyQueue.ThinnedKeeps | livego/protocol/rtmp/rtmp.go:255-284 | thinning loses no protected packet, and nothing but what it throws out |
| LossyQueue.WriteIff | livego/protocol/rtmp/rtmp.go:255-306 | over every run, in tag fields: a packet is refused if and only if the queue is 24 short of its capacity, and then the newest 60 packets stay and behind them the audio and the video of frame type 1 among the older ones |
| LossyQueue.TurnsThin | livego/protocol/rtmp/rtmp.go:255-284 | from the mark up to ten below the capacity, the drop loop is never blocked on an empty queue and leaves the newest packets and behind them the protected ones of the rest |
| LossyQueue.OrderKeptIff | livego/protocol/rtmp/rtmp.go:255-284 | a thinned queue is still in arrival order if and only if nothing passed over was protected |
| LossyQueue.RunAccounts | livego/protocol/rtmp/rtmp.go:287-306 | over every run of writes and reads, the queue stays at or below its mark, every packet is sent, queued, thrown out or refused exactly once, and nothing protected is thrown out |
| LossyQueue.ProtectedSurvive | livego/protocol/rtmp/rtmp.go:255-306 | a protected packet is sent, still queued, or was refused at the mark |
| LossyQueue.Queue.DropPacket | livego/protocol/rtmp/rtmp.go:255-284 | the loop as it is, from any length up to the capacity: never takes from an empty queue, never puts into a full one |
| LossyQueue.Queue.Write | livego/protocol/rtmp/rtmp.go:287-306 | queues the packet, or at the mark thins the queue instead and loses the packet; nothing once closed |
| LossyQueue.Queue.Read | livego/protocol/rtmp/rtmp.go:311-312 | takes the oldest packet |
| Timestamps.SteadyIff | livego/av/rwbase.go:28-42 | over any number of publishers, sent times go forward within audio and within video, and past everything of earlier publishers, if and only if every packet's time and the base it meets stay below 2^32 together and each publisher's audio and video go forward |
| Timestamps.WrapUnsteady | livego/protocol/rtmp/rtmp.go:317-318 | a sum that wraps sends a time before one of an earlier publisher |
| Timestamps.RunGrounded | livego/av/rwbase.go:28-42 | the base is always a time that was sent under an earlier publisher, or zero |
| Timestamps.RWBaser.CalcBaseTimestamp | livego/av/rwbase.go:28-34 | the new base is the later of the last audio and video times |
| Timestamps.RWBaser.RecTimeStamp | livego/av/rwbase.go:36-42 | audio and video times are noted, others are not |
| Flv.ForwardIff | livego/container/flv/muxer.go:81-125 | reading a file's tags forward by data size gives exactly the tags, with 32-bit times and zero stream ids, if and only if every size fits 24 bits |
| Flv.BackwardReads | livego/container/flv/muxer.go:117-120 | reading them backward by previous tag size gives exactly the tags |
| Flv.TagLaid | livego/container/flv/muxer.go:105-122 | every tag field by field: type, 24 bits of size, 24 and 8 bits of time, a zero stream id, the data, and the size of all that behind it |
| Flv.FlvWriter.FileReads | livego/container/flv/muxer.go:62-125 | after any sequence of writes, the file is the 13 bytes of an FLV header with audio and video, and behind them parses backward into exactly the tags written, and forward if and only if every size fits 24 bits |
| Flv.RemoveAddIff | livego/protocol/amf/metadata.go:31-71 | removing the metadata command name undoes adding it if and only if it was not there |
| Flv.StripsNameIff | livego/protocol/amf/metadata.go:49-63 | removal takes away exactly the name if and only if its marker is that of a short string; otherwise two bytes of it stay in front |
| Flv.PutBE | livego/utils/pio/writer.go:17-34 | the low n bytes of the value, most significant first, at their place, and nothing else changed |
| Flv.FlvWriter.constructor | livego/container/flv/muxer.go:62-79 | a new file is the file of no tags |
| Flv.FlvWriter.Write | livego/container/flv/muxer.go:81-125 | the file stays that of the tags written: a tag of type 9 for video, 18 for metadata and 8 for audio joins them, at the packet's time plus the base modulo 2^32; metadata that does not start with a name changes nothing |
| Flv.FlvWriter.WriteTag | livego/container/flv/muxer.go:105-122 | appends the whole tag although the header array is reused for the trailer |
| HlsTheorems.Conserved | livego/protocol/hls/source.go:190-211 | over every run, published segments and open buffer joined are the trace of all multiplexed output with the tables put in, with counters that run through |
| HlsTheorems.RunFormed | livego/protocol/hls/source.go:190-211 | every published segment has its number, starts with tables and then a key frame, has tables nowhere else, and a duration of at least three seconds that is its last time minus its first; fewer than six audio frames wait |
| HlsCuts.PublishIff | livego/protocol/hls/source.go:190-211 | over every run, a frame publishes a segment if and only if it is a key frame, a segment is open, and that segment's last time minus its first is at least 3000 milliseconds; what is published never changes |
| HlsCuts.SegmentsBegin | livego/protocol/hls/source.go:155-211 | over every run: segments begin at the first key frame and then at the next key frame that finds three seconds since the beginning; each published segment has exactly the times and pictures of the frames from its beginning to the next, and their sound in packets of six frames with the rest in the last; the open one those since, with fewer than six frames of sound waiting |
| HlsCuts.BeginsOnce | livego/protocol/hls/source.go:190-211 | every list of frames has exactly one such list of beginnings |
| HlsCuts.TablesCount | livego/container/ts/muxer.go:162-256 | over every run, the two tables at the head of the i-th published segment carry the continuity counter i modulo 16 |
| HlsMedia.MediaConserved | livego/protocol/hls/source.go:257-279 | from the first key frame on, every video frame is in exactly one place, in order, and audio bytes in segments followed by waiting ones are the audio bytes of the frames |
| HlsMedia.CutKeeps | livego/protocol/hls/source.go:190-211 | a cut loses, repeats and reorders nothing: waiting audio goes into the segment that ends |
| HlsMedia.LogIff | livego/container/ts/muxer.go:34-159 | the same for any stretch of segment output, tables or not |
| HlsMedia.PlaybackIff | livego/protocol/hls/source.go:190-211 | playing all segments in turn: whole packets, gapless counters, and one unit for each of a stream's packets, in order, each right if and only if it is no key frame too short for its clock field; audio always is |
| HlsMedia.SegmentStandsAlone | livego/protocol/hls/source.go:190-211 | every published segment, whatever is in it, is whole packets, begins with a PAT and a PMT that pass their checks, and demultiplexes by itself to one unit for each of its packets, in order, each right if and only if it is no key frame too short for its clock field; audio always is |
| HlsMedia.AlignedNear | livego/protocol/hls/align.go:12-29 | alignment moves an audio time by at most two milliseconds |
| HlsMedia.GridKept | livego/protocol/hls/align.go:12-29 | an audio frame more than two milliseconds off its place goes out when it came and starts a grid, and those behind it go out exactly on the grid while each comes within two milliseconds of its place |
| HlsMedia.AudioTime | livego/protocol/hls/source.go:261-270 | grouped audio goes out within two milliseconds of its first frame |
| HlsRun.SegmentClock.Update | livego/protocol/hls/status.go:23-32 | first time kept, last time moved |
| HlsRun.Aligner.AlignTo | livego/protocol/hls/align.go:12-29 | the specified alignment |
| HlsRun.AudioBuffer.Cache | livego/protocol/hls/audio_cache.go:24-35 | appends to the waiting audio; the first frame sets the time and discards what was handed out |
| HlsRun.AudioBuffer.GetFrame | livego/protocol/hls/audio_cache.go:37-40 | hands out everything that waits, and nothing waits afterwards |
| HlsRun.Segmenter.Cut | livego/protocol/hls/source.go:190-211 | the specified cut, with one buffer reused for all segments; the playlist is told exactly the segments, numbered from one |
| HlsRun.Segmenter.PlaylistIff | livego/protocol/hls/source.go:190-211 | of the segmenter's own playlist: it shows the last three segments at all times if and only if names near each other differ, and then its sequence number counts the segments that have left |
| Playlist.ShowsLastIff | livego/protocol/hls/cache.go:67-76 | over every run of segments, the playlist shows the last three, in order, at all times if and only if no two at most two apart have one name |
| Playlist.TargetHolds | livego/protocol/hls/cache.go:40-65 | every segment shown is shorter than the target duration, which is at most a second too long |
| Playlist.SequenceCounts | livego/protocol/hls/cache.go:40-65 | where names near each other differ, the media sequence number is one more than the number of segments that have left |
| Playlist.LinesAre | livego/protocol/hls/cache.go:40-65 | one line for each segment shown, in order, with its own duration and name |
| Playlist.TsCacheItem.SetItem | livego/protocol/hls/cache.go:67-76 | a fourth name drops the oldest, with whatever is stored under it by now |
| Playlist.TsCacheItem.GenM3U8PlayList | livego/protocol/hls/cache.go:40-65 | target duration, sequence number and lines are those of the segments found under the listed names |
| HlsRun.Segmenter.MuxAudio | livego/protocol/hls/source.go:261-270 | the specified flush |
| HlsRun.Segmenter.Frame | livego/protocol/hls/source.go:155-163 | one frame is the specified step of the segmenter |
| HlsSource.AudioReadsBackIff | livego/protocol/hls/source.go:122-168 | for every list of published packets: all audio bytes, in segments and waiting, split by their length fields into exactly the raw AAC frames published from the first key frame on, if and only if none is longer than 8184 bytes; the configuration may change on the way |
| HlsPictures.PicturesReadBackIff | livego/protocol/hls/source.go:122-168 | for every list of published packets: the segments and what waits behind them demultiplex to one PES unit for each picture from the first key frame on, in order, and cutting its data at the start codes gives the picture's units if and only if it is no key frame too short for its clock field and its units can be told apart by start codes |
| HlsIntake.CountsFrom | livego/protocol/hls/source.go:122-168 | which packets the two laws above count, packet by packet: nothing before the first key picture, then every picture and all raw audio until a tag header does not parse |
| HlsIntake.PictureIff | livego/protocol/hls/source.go:213-245 | a packet becomes a picture if and only if it is H.264 video, neither a sequence header nor an end of sequence, and its body is a byte stream or units behind four-byte lengths; kind, time and composition time are those of its bytes |
| HlsIntake.PictureBytes | livego/parser/h264/parser.go:219-232 | a byte stream stays as it is, units are converted with the parameter sets stored so far |
| HlsIntake.SoundIff | livego/protocol/hls/source.go:225-245 | a packet becomes sound if and only if it is AAC and raw data behind a configuration, or of an unknown packet type, which gives none; a frame lasts 1024 samples at the configured rate |
| HlsIntake.CodecIff | livego/parser/parser.go:38-70 | only sequence headers change what is remembered: parameter sets join those stored, an AAC configuration replaces the one before |
| HlsIntake.StopIff | livego/container/flv/demuxer.go:30-45 | the sender ends if and only if a tag header does not parse: fewer than five bytes of video, no audio, or an AAC tag without its type |
| HlsSource.Source.TakeVideo | livego/protocol/hls/source.go:213-245 | a video packet is converted, stored or passed over as specified |
| HlsSource.Source.TakeAudio | livego/protocol/hls/source.go:213-245 | an audio packet is framed, taken as configuration or passed over as specified |
| HlsSource.Source.SendOne | livego/protocol/hls/source.go:122-168 | one more packet: parsers and segments are those specified for all packets taken so far, and the sender has ended exactly if one of them had a header that does not parse |

## Left out

- ChunkConn.Pool.Get: a request above 500 KiB panics in the source; here it is a precondition, and the reader reports a panic before it asks.
- ChunkConn.WriteHeader: write errors of the connection are not modelled; the buffered writer is a byte sequence.
- ChunkConn.WriteChunk: likewise.
- ChunkSession.SessionRefinement: messages above 500 KiB (which the reader cannot hold) and chunk stream ids outside 2 to 65599 are not sendable.
- ChunkPeer.PeerReassembly: what a sender meets outside the row's conditions is said by the exact conditions for one chunk, not by a run.
- ChunkSession.InterleavedReassembly: from 64 on its streams are the reader's entries 0 and 1, not the ids; `ChunkPeer.PeerReassembly` is about the ids.
- ChunkAcks.AcksConserve: section 5.4.3 of the RTMP specification counts all bytes received and reports the running total; the source counts payload bytes of messages since the last acknowledgement, and so does the model.
- Amf0Spec.Decode: marker 0x11, which hands over to AMF 3, is refused here; numbers are eight opaque bytes.
- Amf0Codec.EncodeAmf0: only the value kinds the router tells apart are modelled; Go's integer kinds and structs enter as numbers and objects.
- Amf0Codec.DecodeAmf0: error texts are not modelled, and neither is the decoder's reference cache, which the decoding router fills and never reads.
- Amf3Codec.EncodeAmf3: the eight bytes of a double for an integer outside 0 to 2^29-1 are a parameter; dates and byte arrays are not modelled, and lengths are below 2^31.
- Amf3Codec.Decoder.DecodeAmf3: dates, XML, byte arrays and externalizable objects are refused here, and after a failure the tables are not described.
- Amf3Codec.Decoder.DecodeAmf3Object: externalizable objects are refused here.
- TsMux.Muxer.Mux: a nil writer and write errors are not modelled; composition times are not negative, as they never are when they come from a tag.
- Av.ParseVideoHeader: an audio header cut off behind its AAC format byte indexes past its end in the source; the specification calls it a panic, and that it leaves the previous packet's header in place upstream is not modelled.
- Fanout.StepIff: a rewrite, like a send, is one step between two publications and may leave any packet in any place the player was handed; pictures handed out as copies share bytes, which nothing writes into. A player that is taken out stops sending and rewriting, and what still waits when a publisher is taken over is out of its record. A full queue's thinning is in `LossyQueue`.
- StreamRun.Stream.Publish: static pushes, the log lines, and what a removed writer received last are not modelled; races between goroutines inside one turn are not, each turn is one step. It is proved for counts one and two, the ones that do not crash.
- StreamRun.Stream.TakeOver: the clocks it rebases are noted by the writers' own senders, which are in `Timestamps`.
- LossyQueue.Queue.Read: a read that waits for a packet is a precondition; a sender that takes packets in the middle of a thinning is not modelled.
- Timestamps.SteadyIff: the writer is synchronous; packets of the old publisher that still wait in a queue are sent with the new base in the source.
- Flv.FlvWriter.Write: file errors are not modelled.
- HlsRun.Segmenter.Cut: a file name is the second it is made in, a parameter here; the key in front of it is one for the whole playlist.
- Playlist.TsCacheItem.GenM3U8PlayList: durations are kept in milliseconds instead of being printed with three decimals; that it runs beside SetItem without a lock is not modelled.
- HlsSource.Source.SendOne: its packet queue is `LossyQueue` with a capacity of 512; packets with both kinds set are not modelled. Audio that is not AAC is passed over, as in the source, so the MP3 parser is never reached from here.
- Sockets, TLS, HTTP servers, deadlines, flushing, logging, configuration, handshake digests, random ids, the API, static relay and the web front end: plumbing, foreign calls or easy members.
- The `httpflv` writer's own thinning: it takes a second packet for every video packet, so the never-empty property does not hold.
- AMF 3 object and trait references on the encoding side, and AMF 0 typed objects: the encoders write none.
