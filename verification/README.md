# BunATV protocol models

A Dafny model of the protocol code of BunATV, an Apple TV client: the byte codecs, the stream
framing, the RAOP audio sender, and the state machines that authenticate, correlate requests and
follow what is playing. Code that changes state step by step is modelled by classes and loops;
each method is proved equal to a function of the old state, and the theorems are about those
functions, over all inputs and all runs.

`dafny verify dfyconfig.toml` checks everything.

## What is modelled

| files | component |
|---|---|
| `Logging.dfy` | wildcard matching of logger names, and the DEBUG variable that switches them |
| `Opack.dfy`, `OpackRoundTrip.dfy` | OPACK: both directions as functions over writers with room for everything, and when a round trip holds |
| `OpackWire.dfy` | OPACK byte for byte: which bytes stand for which value |
| `OpackPool.dfy`, `OpackPoolRoundTrip.dfy`, `OpackPoolFailures.dfy` | packing with writers out of the shared pool: when the bytes are still right, and two families for which they are not |
| `OpackEncoder.dfy`, `OpackCodec.dfy` | the recursive packer over its pool, the reader, and both one after the other |
| `BufferPools.dfy`, `Buffers.dfy`, `StreamBuffers.dfy` | BufferPool, BufferReader, BufferWriter, and StreamBuffer with the memory that its views share |
| `Streams.dfy`, `HapFrames.dfy` | parsers that are fed pieces; sealed HAP frames and their nonce counters |
| `HapFrameHandler.dfy`, `HapFrameRuns.dfy` | Companion frames: one parsing pass over shared memory, and all interleavings of push and process |
| `ProtobufBatches.dfy`, `DataStreams.dfy`, `DataStreamChannel.dfy` | varints and batches, data stream messages, and the channel from ciphertext to replies |
| `Tlv8.dfy` | TLV8 items and records |
| `PacketFifos.dfy`, `RaopStreams.dfy`, `Ntp.dfy` | the retransmit backlog, the streaming loop, retransmit answers, and time stamps |
| `PairVerify.dfy` | pair-verify, suspended at every await |
| `CompanionSessions.dfy` | requests, responses, timers, session start and stop |
| `PlayerStates.dfy`, `NowPlaying.dfy` | players, clients, the current item and artwork requests; what each message does, and what a player shows after any run |

Ciphers, signatures, key derivation and property lists are parameters. Of the cipher only the tag
length and "open undoes seal" are assumed (`HapFrames.Aead.Lawful`), of property lists only that
`params.data` comes back (`DataStreams.Plist.Lawful`). Clocks, timers, sends and the resumption of
awaiting functions are events or inputs.

## Where the code falls short of its intent

Each is stated as it is, with the exact condition under which the intent is met.

- OPACK: the decoder lists sized integers, floats and empty strings in its object list and the
  encoder does not, so later references name the wrong object; and it rejects the four-byte references
  (0xC3) that the encoder writes. `OpackRoundTrip.RoundTrip` says when
  the round trip holds, `OpackRoundTrip.DriftFamily` shows a family where it does not.
- OPACK writers trust their pool for the size they ask for, but the pool files a buffer under the next
  larger bucket and hands it out for any size up to that. A container that passes 512 bytes on the way
  to 514 to 1024 may so get a buffer that is too short, and what does not fit is dropped without an
  error. Which values come out right over every such pool is `OpackPoolRoundTrip.CalmIsExact` and
  `OpackPoolRoundTrip.CalmIsExactForFew`; up to 512 bytes
  in all they do (`OpackPoolRoundTrip.SmallIsCalm`). `{a: {x: <600 bytes>, y: 1}}` does not, from the very
  first encoding of a process (`OpackPoolFailures.ColdPoolUnderruns`), and one byte string in an array may
  come back shorter without any error (`OpackPoolFailures.ByteStringShortened`).
- StreamBuffer: `consume` may move the remaining data over the bytes it has just returned
  (`StreamBuffers.IntactForAllContents`). Companion frames that arrive together can so be emitted
  twice or not at all (`HapFrameHandler.SafePassIsExact`, `HapFrameHandler.SecondFrameEmittedTwice`),
  and data stream messages be answered twice or not at all (`DataStreams.SafeStreamIsExact`,
  `DataStreams.SecondMessageAnsweredTwice`). Both are safe while no more than half of the buffer waits.
- Companion frames of the two session types are valid to the parser and rejected by the validator,
  whose list leaves them out. With validation on, which is the default, they are dropped, and each
  ends the pass that comes to it, so the frames behind it wait for more data
  (`HapFrameRuns.SessionFrameEndsPass`). A run delivers every frame if and only if validation lets
  all their types through (`HapFrameRuns.SegmentationDoesNotMatter`, `HapFrameRuns.WholeScanIsExact`).
- Batches: a protobuf of exactly 8 bytes looks like one without a length
  (`ProtobufBatches.BatchRoundTrip`). Lengths from 2^31 come back negative and move the offset backwards,
  and if it is ever at one place twice the loop never ends (`ProtobufBatches.EndsUnlessItRepeats`): five bytes
  are enough (`ProtobufBatches.FiveBytesNeverEnd`), and so is a length that leads back to any message behind
  any batch (`ProtobufBatches.BackToMessageNeverEnds`). A sync message with such data is not answered, nothing
  behind it is looked at, and the call does not return (`DataStreams.SyncNeverAnswered`). Data that bytes
  cannot be made of makes an exception escape, and the sync is not answered either. What holds of messages
  that are handled is said of those (`DataStreams.OneReplyPerSync`, `DataStreamChannel.EndToEnd`); all lengths
  below 2^31 are enough (`DataStreams.ForwardReturns`).
- Pair-verify: two calls of `verify` that overlap before M1 is sent can make one handler work on two
  messages, and deliver keys of the one whose signature was not checked
  (`PairVerify.OverlappingCallsMixExchanges`), from any idle service with a start pending
  (`PairVerify.MixingDelivers`). Calls that wait for each other cannot
  (`PairVerify.PoliteCallsGetAgreedKeys`), and waiting is exactly what it takes (`PairVerify.WaitingIsExact`).
- Companion session: the retry counter is reset by the cleanup and not by `start`, so a second `start`
  after failure makes one attempt more than intended (`CompanionSessions.SecondStartGoesBeyond`), and
  so does a retry delay that is still running when the session is stopped
  (`CompanionSessions.CarriedDelayGoesBeyond`); which numbers of both keep the bound is exact
  (`CompanionSessions.AttemptBoundIsExact`). `stop` without session information leaves requests pending
  (`CompanionSessions.StopLeavesNothing`, `CompanionSessions.StoppedWhileStarting`).
- TLV8: the size estimate of a record is two bytes short for every empty value
  (`Tlv8.EstimatesAre`); the writer grows exactly then (`Tlv8.EncodeObjectBytes`).

## Model

| member | source | states |
|---|---|---|
| Logging.MatchesTemplate | src/logging/logging.ts:92-129 | true exactly when the template matches, a star standing for any substring; terminates |
| Logging.LastStarSuffices | src/logging/logging.ts:113-118 | if the text after an earlier star can match from a later place, the literal between the stars can be met where it was met first: older stars never need to be tried again |
| Logging.LiteralPrefix | src/logging/logging.ts:99-112 | star-free text matches exactly itself, and the rest must match the rest |
| Logging.EmptySearch | src/logging/logging.ts:124-128 | the empty string is matched by stars only |
| Logging.StepBacktrack | src/logging/logging.ts:113-117 | moving the match one place on keeps the loop's meaning |
| Logging.TokensAreWords | src/logging/logging.ts:64 | trim, replace, split and filter give the maximal runs free of spaces and commas |
| Logging.NameSpaceCache.LoadEnabledModules | src/logging/logging.ts:55-74 | the cache holds the words of the given value, dashed words apart |
| Logging.NameSpaceCache.ModuleEnabled | src/logging/logging.ts:76-90 | on if and only if some word matches and no dashed word does |
| Logging.StarStandsForAnything | src/logging/logging.ts:99-112 | a star in front of text lets anything stand before it, one behind it anything after it, and text without a star matches itself only |
| Logging.SeparatorSplits | src/logging/logging.ts:64 | the words of two texts with a comma or any white space between them are those of the one and those of the other |
| Logging.TextIsOneWord | src/logging/logging.ts:64 | printable characters other than the comma and the blank make one word |
| OpackRoundTrip.RoundTrip | src/core/encoding/opack.ts:108-250 | for every value in the encoder's ranges, written with room for everything, decoding its encoding gives it back if and only if all references point before the first item that only the decoder lists |
| OpackRoundTrip.DriftFamily | src/core/encoding/opack.ts:176-218 | any number the decoder lists, followed by a string sent twice, comes back with the number in place of the repeat |
| OpackRoundTrip.DecodingComputesEcho | src/core/encoding/opack.ts:429-690 | encodings are self-delimiting: whatever follows and whatever the tables hold, decoding takes exactly the encoding and computes the value's echo |
| OpackRoundTrip.EchoInSync | src/core/encoding/opack.ts:176-218 | from aligned tables, the echo is the value exactly when references stay in sync, and the tables stay aligned |
| OpackRoundTrip.ReferenceIsGood | src/core/encoding/opack.ts:186-210 | a reference gives back its string exactly when its index is two bytes at most and below the first decoder-only item |
| OpackRoundTrip.NeverStartsWithTerminator | src/core/encoding/opack.ts:379-427 | no encoding starts with the terminator 0x03 |
| OpackRoundTrip.ArrayDecodes | src/core/encoding/opack.ts:627-649 | arrays of any length and depth, counted or terminated, end where they were encoded to end |
| OpackRoundTrip.DictDecodes | src/core/encoding/opack.ts:652-677 | likewise for dictionaries |
| OpackRoundTrip.PackSucceedsInRange | src/core/encoding/opack.ts:130-174 | packing throws exactly for a number or string out of range |
| OpackRoundTrip.CollectIsIdentity | src/core/encoding/opack.ts:652-677 | assigning decoded pairs key by key gives a dictionary exactly when the pairs are its entries |
| OpackWire.ConstantBytes | src/core/encoding/opack.ts:130-137 | null and the two truth values are 0x04, 0x01 and 0x02 |
| OpackWire.NumberBytes | src/core/encoding/opack.ts:252-277 | numbers below 40 are one byte; up to 2^32 - 1 they follow 0x30, 0x31 or 0x32 in the least of one, two or four bytes, lowest first; others throw |
| OpackWire.BigBytes | src/core/encoding/opack.ts:295-317 | a bigint below 2^64 is 0x33 and eight bytes, lowest first; others throw |
| OpackWire.FloatBytes | src/core/encoding/opack.ts:282-287 | a float is 0x36 and its eight bytes |
| OpackWire.TextBytes | src/core/encoding/opack.ts:322-374 | strings and byte strings: up to 32 bytes the length is in the tag, then in one or two bytes; longer ones throw |
| OpackWire.ReferenceBytes | src/core/encoding/opack.ts:176-218 | a string is listed where it comes first, and is 0xa0 plus its place after that, or its place in one, two or four bytes after 0xc1, 0xc2 or 0xc3 |
| OpackWire.TextIsReused | src/core/encoding/opack.ts:130-174 | strings and byte strings go through that list |
| OpackWire.ArrayBytes | src/core/encoding/opack.ts:379-397 | up to 14 elements are counted in the tag; from 15 on the array is open and ends with 0x03 |
| OpackWire.DictBytes | src/core/encoding/opack.ts:402-427 | likewise for the entries of dictionaries |
| OpackWire.ItemsInOrder | src/core/encoding/opack.ts:379-397 | elements stand one after the other and hand the list on; the first that throws ends it |
| OpackWire.EntriesInOrder | src/core/encoding/opack.ts:402-427 | likewise for entries |
| OpackWire.KeyBeforeValue | src/core/encoding/opack.ts:402-427 | an entry is its key and then its value, which may refer to the key |
| OpackWire.ReadsConstant | src/core/encoding/opack.ts:429-489 | which tags stand for null, the truth values and the numbers up to 39, and which are errors |
| OpackWire.ReadsNumber | src/core/encoding/opack.ts:491-534 | 0x30 to 0x34 are numbers of 1 to 16 bytes, those from eight on bigints; 0x35 and 0x36 are floats; all are listed |
| OpackWire.ReadsShortText | src/core/encoding/opack.ts:536-566 | 0x40 to 0x60 and 0x70 to 0x90 hold the length, and the string ends with the input if that is shorter |
| OpackWire.ReadsLongText | src/core/encoding/opack.ts:542-595 | 0x61 to 0x64 are followed by a length of 1, 2, 3 or 4 bytes, 0x91 to 0x94 by one of 1, 2, 4 or 8 |
| OpackWire.DoublesAreNearest | src/core/encoding/opack.ts:580-595 | a 64-bit length becomes the nearest double, itself below 2^53, and of two as near the one with the even significand |
| OpackWire.ReadsZeroTerminated | src/core/encoding/opack.ts:567-575 | 0x6f reads a string up to the zero byte, which is taken |
| OpackWire.ReadsReference | src/core/encoding/opack.ts:596-624 | 0xa0 to 0xc0 name a place in the list; 0xc1, 0xc2 and 0xc4 do in 1, 2 and 4 bytes; a place that is not there throws |
| OpackWire.ReadsContainer | src/core/encoding/opack.ts:626-677 | 0xd0 to 0xde and 0xe0 to 0xee announce how many elements or entries follow; 0xdf and 0xef go up to the terminator |
| OpackWire.LaterValueWins | src/core/encoding/opack.ts:652-677 | a key that comes again keeps its place and takes the later value |
| OpackWire.ReadsUuid | src/core/encoding/opack.ts:464-470 | 0x05 reads 16 bytes as hexadecimal text in groups of 8, 4, 4, 4 and 12 |
| OpackWire.HexAt | src/core/encoding/opack.ts:464-470 | two lower-case digits for each byte, the higher one first |
| OpackWire.ReadsDate | src/core/encoding/opack.ts:472-478 | 0x06 reads eight bytes as a number |
| OpackWire.NullRootIsRefused | src/core/encoding/opack.ts:108-124 | null as a whole can be neither encoded nor decoded |
| OpackWire.OpenContainersEnd | src/core/encoding/opack.ts:626-677 | an open array or dictionary ends with 0x03, which is taken, or with the input |
| OpackPoolRoundTrip.CalmIsExact | src/core/encoding/opack.ts:379-427 | packing a value returns the right bytes over every pool whose buffers are whole but for those under 1024, which have 513 bytes or more, if and only if no container in it is taken past 512 bytes to between 514 and 1024 by one write |
| OpackPoolRoundTrip.CalmIsExactForFew | src/core/encoding/opack.ts:379-427 | the same over the pools the encoder can meet, which keep five buffers in a bucket, for values with no more than five strings and containers |
| OpackPoolRoundTrip.SmallIsCalm | src/core/encoding/opack.ts:379-427 | a value whose encoding has no more than 512 bytes is such a value |
| OpackPoolRoundTrip.PooledRoundTrip | src/core/encoding/opack.ts:108-250 | over any pool, such a value comes back if and only if its references are in sync |
| OpackPool.CalmWriteIsExact | src/core/encoding/buffer-utils.ts:482-499 | for a container's writer, every pool gives a buffer as long as required if and only if the write does not end between 514 and 1024 |
| OpackPool.WriteIsExact | src/core/encoding/buffer-utils.ts:472-499 | a write through the pool leaves exactly the data so far and the new data if and only if the buffer it gets has room for both |
| OpackPoolFailures.ByteStringShortened | src/core/encoding/opack.ts:379-397 | an array of one byte string of 509 to 1020 bytes comes back if and only if the buffer on offer is long enough; otherwise it comes back cut off, without an error |
| OpackPoolFailures.ColdPoolUnderruns | src/core/encoding/opack.ts:402-427 | from a new pool, every dictionary in a dictionary with a byte string of 507 to 1012 bytes, in sync and in range, loses six bytes, and decoding runs out of input |
| OpackPoolFailures.BucketsKeepFive | src/core/encoding/opack.ts:49-53 | the encoder's pool files a buffer under the least power of two from 4 to 1024 that holds it, or its own size, and keeps five of each |
| OpackPoolFailures.NumbersTake | src/core/encoding/opack.ts:252-317 | a number in a byte takes no buffer of the pool, another one of 5 bytes, a bigint one of 9 |
| OpackPoolFailures.FloatsLeaveABuffer | src/core/encoding/opack.ts:282-287 | a float asks for 8 bytes, writes 9, and leaves its first buffer in the pool |
| Opack.FindIndex | src/core/encoding/opack.ts:186-188 | the first equal entry of the table, or none |
| OpackEncoder.Encoder.CheckAndReuseObject | src/core/encoding/opack.ts:176-218 | emits a reference or lists the object, as specified |
| OpackEncoder.Encoder.PackValue | src/core/encoding/opack.ts:130-174 | returns the bytes or the error, and leaves the object list and the pool, that packing over the pool specifies |
| OpackEncoder.Encoder.PackInteger | src/core/encoding/opack.ts:252-277 | the specified bytes through a pooled writer that is never too short, or out of range |
| OpackEncoder.Encoder.PackFloat | src/core/encoding/opack.ts:282-287 | nine bytes through a writer that asked for eight, so that its first buffer goes back to the pool |
| OpackEncoder.Encoder.PackString | src/core/encoding/opack.ts:322-348 | likewise for strings, the short ones in a buffer of their own |
| OpackEncoder.Encoder.Append | src/core/encoding/buffer-utils.ts:472-499 | one element into a container: the buffer shows what a write through the pool leaves, exact or cut off |
| OpackEncoder.Encoder.PackArray | src/core/encoding/opack.ts:379-400 | likewise for arrays, element by element through a pooled writer |
| OpackEncoder.Encoder.PackDict | src/core/encoding/opack.ts:402-427 | likewise for dictionaries |
| OpackCodec.Decoder.UnpackValue | src/core/encoding/opack.ts:429-690 | advances the reader and the object list as specified, or throws the specified error |
| OpackCodec.Decoder.UnpackNullTerminated | src/core/encoding/opack.ts:567-575 | reads to the next zero byte, or to the end |
| OpackCodec.Decoder.UnpackEndlessItems | src/core/encoding/opack.ts:627-649 | reads elements up to the terminator |
| OpackCodec.Decoder.UnpackEndlessEntries | src/core/encoding/opack.ts:652-677 | reads entries up to the terminator, later keys replacing earlier ones |
| OpackCodec.Encode | src/core/encoding/opack.ts:108-128 | the whole encoding from an empty list over the pool as earlier encodings left it; right whenever the value is calm |
| OpackCodec.Decode | src/core/encoding/opack.ts:227-250 | the whole decoding; a null root is an error |
| OpackCodec.EncodeThenDecode | src/core/encoding/opack.ts:108-250 | running both over any pool: a calm value comes back if and only if its references are in sync |
| Buffers.BufferReader.ReadUIntLE | src/core/encoding/buffer-utils.ts:331-373 | reads and advances, or throws without moving |
| Buffers.BufferReader.ReadBuffer | src/core/encoding/buffer-utils.ts:375-379 | a short buffer gives a short result; the offset moves on regardless |
| Buffers.BufferWriter.EnsureCapacity | src/core/encoding/buffer-utils.ts:482-499 | asks the pool for twice the size or what is required, keeps what fits, gives the old buffer back; the capacity and the pool are then as specified, short or not |
| Buffers.BufferWriter.WriteBuffer | src/core/encoding/buffer-utils.ts:472-476 | the data is copied as far as the buffer goes, and the offset moves on regardless |
| Buffers.BufferWriter.WriteUIntBE | src/core/encoding/buffer-utils.ts:437-470 | the number's bytes, or a throw when the buffer that was handed out has no room |
| Buffers.WrittenIsAppended | src/core/encoding/buffer-utils.ts:472-499 | a write appends exactly its data if and only if the buffer has room for it, and a prefix otherwise |
| StreamBuffers.ConsumedBytes | src/core/encoding/buffer-utils.ts:124-137 | each byte a consumed view shows: its own, or one of the remaining data moved over it |
| StreamBuffers.NoOverlapIntact | src/core/encoding/buffer-utils.ts:124-137 | without overlap the view shows what was consumed |
| StreamBuffers.IntactForAllContents | src/core/encoding/buffer-utils.ts:124-137 | for given positions, every content is returned right if and only if the compaction does not overlap the view |
| BufferPools.BufferPool.Acquire | src/core/encoding/buffer-utils.ts:33-45 | for any size: the newest buffer of its bucket, cut to the size and perhaps shorter than it, or a new one; held by nobody else |
| BufferPools.BufferPool.Release | src/core/encoding/buffer-utils.ts:50-65 | for any length: filed under the next larger bucket, zeroed if so configured, unless the bucket is full |
| BufferPools.BucketIs | src/core/encoding/buffer-utils.ts:67-73 | the smallest bucket that fits, or the size itself beyond the last |
| BufferPools.ReleasedIsNext | src/core/encoding/buffer-utils.ts:33-65 | what was given back last is handed out next, cut to the size, unless its bucket was full; other buckets stay |
| StreamBuffers.StreamBuffer.Append | src/core/encoding/buffer-utils.ts:96-119 | succeeds if and only if available plus data is at most maxSize; the queue grows by exactly the data; says the new capacity and position |
| StreamBuffers.StreamBuffer.Grow | src/core/encoding/buffer-utils.ts:159-180 | terminates; doubles until the size fits, cut at maxSize; contents kept |
| StreamBuffers.GrownIsEnough | src/core/encoding/buffer-utils.ts:159-170 | the new size is enough, less than twice what is needed, and the old one doubled or maxSize |
| StreamBuffers.RoomIsEnough | src/core/encoding/buffer-utils.ts:96-119 | room for more is made only if needed, by moving to the front if that is enough, else by growing |
| StreamBuffers.StreamBuffer.Compact | src/core/encoding/buffer-utils.ts:182-189 | the overlapping move in place keeps the contents and leaves the bytes behind them |
| StreamBuffers.StreamBuffer.Consume | src/core/encoding/buffer-utils.ts:124-137 | drops exactly the prefix, or nothing and null if there is not enough; the view shows what the model says |
| StreamBuffers.StreamBuffer.Peek | src/core/encoding/buffer-utils.ts:142-150 | the bytes at an offset, or null, and nothing changes |
| StreamBuffers.StreamBuffer.Reset | src/core/encoding/buffer-utils.ts:195-198 | empties the queue |
| StreamBuffers.DoublingIsExact | src/core/encoding/buffer-utils.ts:67-73 | for both pools in use, every size from 4096 doubled up to 1048576 is kept exactly |
| Streams.CutsDoNotMatter | src/protocols/airplay/layers/DataStreamChannel.ts:217-236 | an incremental parser fed any pieces, of any contents, yields what their concatenation yields |
| Streams.FedPrefix | src/protocols/airplay/layers/DataStreamChannel.ts:217-236 | what the first pieces yield is a prefix of what all yield |
| HapFrames.NonceRepeats | src/core/encoding/buffer-utils.ts:212-227 | two counters give the same nonce if and only if they agree modulo 2^32 or 2^64 |
| HapFrames.NoncesDistinct | src/protocols/shared/layers/ChaCha20EncryptionLayer.ts:70-108 | within the counter's range all nonces of a run differ |
| HapFrames.NonceIs | src/core/encoding/buffer-utils.ts:212-227 | twelve bytes: read as a little-endian number, the Companion nonce is the counter modulo 2^32 and the HAP nonce the counter modulo 2^64 shifted by 32 bits |
| HapFrames.EncryptionLayer.Enable | src/protocols/shared/layers/ChaCha20EncryptionLayer.ts:44-59 | both counters start at zero under the given keys |
| HapFrames.EncryptionLayer.Encrypt | src/protocols/shared/layers/ChaCha20EncryptionLayer.ts:70-108 | seals under the next nonce and counts once, or passes data through uncounted |
| HapFrames.EncryptionLayer.Decrypt | src/protocols/shared/layers/ChaCha20EncryptionLayer.ts:110-154 | opens under the next nonce; counts also when it fails, and is then in error |
| HapFrames.HapFrameLayer.Encrypt | src/protocols/airplay/layers/HapFrameLayer.ts:30-49 | frames of at most 1024 bytes; the counter advances by the number of frames |
| HapFrames.HapFrameLayer.Decrypt | src/protocols/airplay/layers/HapFrameLayer.ts:55-95 | opens every complete frame, returns the incomplete rest, or throws at the first that cannot be opened |
| HapFrames.OpenMore | src/protocols/airplay/layers/HapFrameLayer.ts:55-95 | for any bytes, more input continues where the remainder left off |
| HapFrames.OpenSealed | src/protocols/airplay/layers/HapFrameLayer.ts:30-95 | what one call sealed is opened in front of any input, with the counters in step |
| HapFrames.StreamIndependentOfCuts | src/protocols/airplay/layers/HapFrameLayer.ts:30-95 | any cut of any sequence of encrypted messages yields exactly their concatenation, nothing left over, receive counter equal to send counter |
| HapFrames.DeliveredIsPrefix | src/protocols/airplay/layers/DataStreamChannel.ts:217-236 | at every moment the plaintext so far is a prefix of what was sent |
| HapFrames.FrameBytes | src/protocols/airplay/layers/HapFrameLayer.ts:30-49 | the first sealed frame, byte for byte: two bytes of length, lowest first, then at most 1024 bytes sealed under the counter's nonce with the length as associated data; the rest is sealed under the next counter |
| HapFrames.PlainFrameBytes | src/protocols/airplay/layers/HapFrameLayer.ts:30-49 | without encryption a frame is its length and its text |
| HapFrames.FirstFrameOpens | src/protocols/airplay/layers/HapFrameLayer.ts:55-95 | the first frame is opened under the counter's nonce with its length as associated data; the counter has moved on even if that fails |
| HapFrameHandler.SafeProcess | src/protocols/companion/layers/HapFrameHandler.ts:291-387 | a safe pass emits the intended frames, although listeners read through views afterwards |
| HapFrameHandler.SafePassIsExact | src/protocols/companion/layers/HapFrameHandler.ts:291-387 | a layout of buffered frames is processed right whatever the first frame's type and first byte if and only if the pass is safe |
| HapFrameHandler.SecondFrameEmittedTwice | src/protocols/companion/layers/HapFrameHandler.ts:328-366 | two frames together at the front, the first over half the buffer: the second is emitted twice |
| HapFrameHandler.HalfEmptyIsSafe | src/protocols/companion/layers/HapFrameHandler.ts:294-361 | a pass is safe when no more waits than half the capacity |
| HapFrameHandler.UnsafeOverwrites | src/core/encoding/buffer-utils.ts:124-137 | an unsafe pass leaves in the first payload a byte that does not depend on what was there |
| HapFrameHandler.GetFrameSize | src/protocols/companion/layers/HapFrameHandler.ts:172-188 | at least the header, so that every iteration that goes on consumes four bytes or more |
| HapFrameHandler.FrameBytes | src/protocols/companion/layers/HapFrameHandler.ts:156-170 | one byte of type, three of length, highest first, then the payload |
| HapFrameHandler.LookAtHeader | src/protocols/companion/layers/HapFrameHandler.ts:92-188 | what any four bytes in front of any others come to: not a frame, not yet complete, or how many bytes are taken, with the types and the limit of 65536 by number |
| HapFrameHandler.ScanHeader | src/protocols/companion/layers/HapFrameHandler.ts:294-366 | what a pass does first, by number: which frames are delivered under the next number, which are dropped with one, and which without, and when it ends |
| HapFrameRuns.ScanPrefix | src/protocols/companion/layers/HapFrameHandler.ts:294-361 | for frames of all types: a pass over the start of an encoded list takes whole frames off it and delivers them, until one is dropped by validation and ends it |
| HapFrameRuns.WholeScanIsExact | src/protocols/companion/layers/HapFrameHandler.ts:294-361 | one pass delivers a whole list if and only if validation lets all its types through |
| HapFrameRuns.SessionFrameEndsPass | src/protocols/companion/layers/HapFrameHandler.ts:328-361 | with validation on, a session frame in front is dropped, and the frame behind it is only delivered by the next pass, under number 1 |
| HapFrameRuns.TypesDelivered | src/protocols/companion/layers/HapFrameHandler.ts:190-224 | by number: 3, 4, 5, 6 and 8 are delivered with and without validation, 0x10 and 0x11 without it only, and no others |
| HapFrameRuns.EncryptedMessageArrives | src/protocols/companion/layers/HapFrameHandler.ts:121-224 | an encrypted message of 1 to 65536 bytes is delivered as it was sent, with validation on |
| HapFrameRuns.RunsEmitInOrder | src/protocols/companion/layers/HapFrameHandler.ts:273-361 | every interleaving of pushes and safe passes keeps, for frames of all types: emitted are the first frames under the numbers of their places, without those that validation drops; the rest is buffered or to come |
| HapFrameRuns.SegmentationDoesNotMatter | src/protocols/companion/layers/HapFrameHandler.ts:273-387 | from a new handler with any bytes in its buffer, any cut and interleaving emits a prefix of the frames that are not dropped, in order and under their numbers; a run that ends with a pass has emitted every frame if and only if all types are let through |
| HapFrameRuns.SmallBacklogIsSafe | src/protocols/companion/layers/HapFrameHandler.ts:291-361 | amounts alone that keep every pass safe |
| HapFrameRuns.FrameHandler.Encode | src/protocols/companion/layers/HapFrameHandler.ts:156-170 | type, 24-bit length and payload, or the length does not fit and throws |
| HapFrameRuns.FrameHandler.Push | src/protocols/companion/layers/HapFrameHandler.ts:273-289 | appends, or throws beyond 1048576 bytes and changes nothing |
| HapFrameRuns.FrameHandler.Process | src/protocols/companion/layers/HapFrameHandler.ts:291-361 | the loop ends; frames, sequence number and buffer are what the pass says |
| HapFrameRuns.FrameHandler.ProcessAndEmit | src/protocols/companion/layers/HapFrameHandler.ts:291-387 | when the pass is safe, listeners are shown what was sent |
| ProtobufBatches.VarintRoundTrip | src/protocols/airplay/layers/DataStreamChannel.ts:203-211 | any length, read back in front of any bytes, comes back as a signed 32-bit number: itself exactly below 2^31 |
| ProtobufBatches.VarintBytes | src/protocols/airplay/layers/DataStreamChannel.ts:203-215 | digits of seven bits, lowest first, all but the last with the high bit set; together they are the number |
| ProtobufBatches.SubarrayIs | src/protocols/airplay/layers/DataStreamChannel.ts:382-383 | indices below zero count from the end, those beyond either end stop there, and crossed ones hold nothing |
| ProtobufBatches.BatchRoundTrip | src/protocols/airplay/layers/DataStreamChannel.ts:193-201 | a batch comes back if and only if no message has length 8 |
| ProtobufBatches.BatchUpToFirstEight | src/protocols/airplay/layers/DataStreamChannel.ts:356-390 | messages before the first of length 8 come back one by one, the rest as one item with its prefix |
| ProtobufBatches.EndsIsDecided | src/protocols/airplay/layers/DataStreamChannel.ts:356-390 | the decoding loop ends if and only if it has ended after as many rounds as there are bytes, with the same messages |
| ProtobufBatches.EndsUnlessItRepeats | src/protocols/airplay/layers/DataStreamChannel.ts:356-390 | it ends if and only if its offset, which may move back and in front of the buffer, is never twice at one place |
| ProtobufBatches.ForwardEnds | src/protocols/airplay/layers/DataStreamChannel.ts:356-390 | it ends when every length that is read is below 2^31 |
| ProtobufBatches.BackToMessageNeverEnds | src/protocols/airplay/layers/DataStreamChannel.ts:356-390 | behind any messages of lengths other than 8, a length that leads back to the beginning of one of them, or to itself, makes it run for ever |
| ProtobufBatches.BackToStartNeverEnds | src/protocols/airplay/layers/DataStreamChannel.ts:356-390 | and so does one that leads to the beginning of the buffer or in front of it |
| ProtobufBatches.FiveBytesNeverEnd | src/protocols/airplay/layers/DataStreamChannel.ts:392-416 | fb ff ff ff 0f is such a batch |
| ProtobufBatches.HugeMessageNeverEnds | src/protocols/airplay/layers/DataStreamChannel.ts:193-211 | the batch of a single message from 2^31 bytes on is, as it is sent |
| ProtobufBatches.BackwardsMayEnd | src/protocols/airplay/layers/DataStreamChannel.ts:356-390 | a negative length need not be the end of it: a batch with one that is decoded |
| ProtobufBatches.WriteVarintBytes | src/protocols/airplay/layers/DataStreamChannel.ts:203-211 | the loop writes the specified digits |
| ProtobufBatches.ReadVarintAt | src/protocols/airplay/layers/DataStreamChannel.ts:392-416 | the loop reads the specified number, also in front of the buffer, or throws for one too long or incomplete |
| ProtobufBatches.DecodeBatch | src/protocols/airplay/layers/DataStreamChannel.ts:356-390 | the loop, its offset moving both ways, returns the specified messages, or is found never to end |
| DataStreams.DecodeEncoded | src/protocols/airplay/layers/DataStreamChannel.ts:166-181 | every message that fits decodes to itself, number split and all |
| DataStreams.EncodeDecoded | src/protocols/airplay/layers/DataStreamChannel.ts:288-310 | every string of at least 32 bytes whose size field is right is the encoding of what it decodes to |
| DataStreams.MessageBytes | src/protocols/airplay/layers/DataStreamChannel.ts:166-181 | a message, byte for byte: size, type, command, number and padding at 0, 4, 16, 20 and 28, highest byte first, and the payload from 32 on |
| DataStreams.LookAtFront | src/protocols/airplay/layers/DataStreamChannel.ts:267-311 | less than 32 bytes, or than the size field says, waits; a size field below 32 throws; otherwise the message with these fields is handled and the pass goes on behind it |
| DataStreams.SyncMessageIs | src/protocols/airplay/layers/DataStreamChannel.ts:118-147 | a sent protobuf: type "sync", command "comm", its number, and the property list with the length in front of it |
| DataStreams.BatchIsReceived | src/protocols/airplay/layers/DataStreamChannel.ts:243-263 | every protobuf of a batch is put out in order, and then the reply if the type begins with "sync"; nothing is for a message of type "rply" |
| DataStreams.NothingIsReceived | src/protocols/airplay/layers/DataStreamChannel.ts:329-352 | a message without data is only answered |
| DataStreams.UnusableThrows | src/protocols/airplay/layers/DataStreamChannel.ts:329-352 | data that bytes cannot be made of throws |
| DataStreams.ScanMore | src/protocols/airplay/layers/DataStreamChannel.ts:238-265 | parsing messages is incremental, whatever the bytes |
| DataStreams.CutMessages | src/protocols/airplay/layers/DataStreamChannel.ts:238-265 | any cut of any list of messages that can be handled puts out what the messages put out one by one |
| DataStreams.OneReplyPerSync | src/protocols/airplay/layers/DataStreamChannel.ts:243-263 | for every list of messages, the replies are the numbers of the syncs before the first message whose handling throws or never ends, in order and once each; and of all syncs if and only if none comes at it or behind it |
| DataStreams.BatchThatNeverEnds | src/protocols/airplay/layers/DataStreamChannel.ts:332-390 | a message whose batch never ends puts out nothing, and the pass neither returns nor looks at what is behind it |
| DataStreams.SyncNeverAnswered | src/protocols/airplay/layers/DataStreamChannel.ts:243-263 | for instance a sync message with the five bytes fb ff ff ff 0f |
| DataStreams.ForwardReturns | src/protocols/airplay/layers/DataStreamChannel.ts:332-390 | a message whose data can be made bytes of, with all lengths below 2^31, is handled |
| DataStreams.HugeIsNeverHandled | src/protocols/airplay/layers/DataStreamChannel.ts:118-147 | a protobuf from 2^31 bytes on, as it is sent, never is |
| DataStreams.SafeStreamShows | src/protocols/airplay/layers/DataStreamChannel.ts:238-311 | a safe pass over the shared memory does what is meant, also when it throws or never ends |
| DataStreams.HarmlessTakeIsExact | src/protocols/airplay/layers/DataStreamChannel.ts:284-297 | the message at the front is read right whatever its type byte if and only if the move stays within its size field |
| DataStreams.SafeStreamIsExact | src/protocols/airplay/layers/DataStreamChannel.ts:238-297 | over messages whose payloads can be handled: a pass replies to every sync once, under its own number, whatever the type of any of its messages, if and only if the pass is safe |
| DataStreams.SecondMessageAnsweredTwice | src/protocols/airplay/layers/DataStreamChannel.ts:284-297 | two syncs together at the front, the first over half the buffer: both replies carry the second's number, or there is none, if what is read as the first payload cannot be handled |
| DataStreams.HalfEmptyStreamIsSafe | src/protocols/airplay/layers/DataStreamChannel.ts:238-240 | a pass is safe when no more waits than half the capacity |
| DataStreams.SentIsReceived | src/protocols/airplay/layers/DataStreamChannel.ts:118-147 | a protobuf below 2^31 bytes wrapped by sendProtobuf is handled, and received as sent and answered if and only if it is not 8 bytes long |
| DataStreamChannel.EndToEnd | src/protocols/airplay/layers/DataStreamChannel.ts:217-265 | messages of which none throws, sealed in any grouping, cut anywhere, opened, buffered in memory that held anything, and parsed: those before the first that never ends do exactly what they do, in order, each sync answered once; that is all of them, with nothing left in any buffer and the counters in agreement, if and only if none never ends |
| DataStreamChannel.SmallBacklogIsSafe | src/protocols/airplay/layers/DataStreamChannel.ts:217-240 | amounts alone that keep every pass of such a run safe |
| DataStreamChannel.EncodedRepliesAreMessages | src/protocols/airplay/layers/DataStreamChannel.ts:183-191 | replies are themselves messages, and nobody answers them |
| DataStreamChannel.ReplyBytes | src/protocols/airplay/layers/DataStreamChannel.ts:183-191 | a reply, byte for byte: 32 bytes, zero but for size, type "rply" and number |
| DataStreamChannel.SealedRepliesStream | src/protocols/airplay/layers/DataStreamChannel.ts:257-263 | the replies handed to the transport are one sealed stream, one frame each |
| DataStreamChannel.Channel.EncodeMessage | src/protocols/airplay/layers/DataStreamChannel.ts:166-181 | the encoding, or a field out of range throws |
| DataStreamChannel.Channel.SendProtobuf | src/protocols/airplay/layers/DataStreamChannel.ts:118-147 | one sealed sync message under the next number |
| DataStreamChannel.Channel.DecodeMessage | src/protocols/airplay/layers/DataStreamChannel.ts:267-311 | takes the message at the front, read through the view after the buffer has moved |
| DataStreamChannel.Channel.ProcessStream | src/protocols/airplay/layers/DataStreamChannel.ts:238-265 | the loop puts out what the pass says, ends as it says, and seals one reply for each it puts out |
| DataStreamChannel.Channel.HandleData | src/protocols/airplay/layers/DataStreamChannel.ts:217-236 | one piece of data is one step of the runs of EndToEnd; the errors of decryption, overflow and of messages that throw, and the pass that never ends |
| Tlv8.RoundTrip | src/core/encoding/tlv8.ts:224-340 | records in any order are encoded exactly when their keys are 0 to 255, and come back whole, empty values and multiples of 255 included |
| Tlv8.ItemBytes | src/core/encoding/tlv8.ts:143-170 | an item, byte for byte: fragment j stands at 257 j, with the type, the number of bytes that follow, and the bytes of the value from 255 j on |
| Tlv8.ToMapIs | src/core/encoding/tlv8.ts:224-238 | the record that comes back holds every property, and nothing else |
| Tlv8.TryDecodesLongestPrefix | src/core/encoding/tlv8.ts:247-302 | on every input the data of decodeObject; bytesProcessed is the longest prefix of whole items; complete exactly when no errors |
| Tlv8.DecodeMore | src/core/encoding/tlv8.ts:186-218 | more input continues where decoding stopped |
| Tlv8.FragmentsSize | src/core/encoding/tlv8.ts:153-155 | the size computed for one value is exact |
| Tlv8.EstimatesAre | src/core/encoding/tlv8.ts:309-315 | the size computed for a record misses two bytes for every empty value |
| Tlv8.EncodeBytes | src/core/encoding/tlv8.ts:143-170 | fragments of 255, or an error for a key out of range; the writer never reallocates |
| Tlv8.EncodeObjectBytes | src/core/encoding/tlv8.ts:308-340 | the loops write the specified bytes, and the writer reallocates if and only if a value is empty |
| Tlv8.DecodeItemList | src/core/encoding/tlv8.ts:186-218 | all complete items up to the first incomplete one |
| Tlv8.DecodeObjectData | src/core/encoding/tlv8.ts:224-238 | repeated types are concatenated in order |
| Tlv8.TryDecodeObjectData | src/core/encoding/tlv8.ts:247-302 | data, position, completeness and errors as specified |
| PacketFifos.PacketFifo.Set | src/protocols/raop/packets/PacketFifo.ts:19-29 | a known key keeps its packet; a new one leaves the last maxSize entries, oldest first |
| PacketFifos.PacketFifo.Get | src/protocols/raop/packets/PacketFifo.ts:15-17 | the packet stored under a key |
| RaopStreams.BacklogHolds | src/protocols/raop/packets/PacketFifo.ts:19-29 | after n packets of one stream, across the 16-bit wrap, a number finds the packet sent under it if and only if that is among the last 1000 |
| RaopStreams.ThousandAreKept | src/protocols/raop/packets/PacketFifo.ts:19-29 | by number: of the last 65536 packets those of the last 1000 are found, and no others |
| RaopStreams.PacketCarries | src/protocols/raop/RaopStreamClient.ts:345-386 | behind the header a packet holds what was read, up to 352 frames of it, and zeros behind that, or nothing but zeros when there was no read |
| RaopStreams.PayloadsAreReads | src/protocols/raop/RaopStreamClient.ts:345-386 | from a source of whole packets, the payloads one after the other are what was read |
| RaopStreams.HeaderBytes | src/protocols/raop/packets/RtpPacket.ts:11-27 | the header, byte for byte: 0x80, 0xe0 or 0x60, number, time stamp and session, highest byte first |
| RaopStreams.NextSeqnoIsNew | src/protocols/raop/packets/PacketFifo.ts:19-21 | the number of the next packet is never in the backlog, so the early return is never taken |
| RaopStreams.PaddingEndsStream | src/protocols/raop/RaopStreamClient.ts:350-356 | a source exhausted for good ends the stream after at most ceil(latency/352) more packets |
| RaopStreams.StreamLength | src/protocols/raop/RaopStreamClient.ts:345-386 | a source of N packets is sent in exactly N + ceil(latency/352) packets |
| RaopStreams.StreamClient.SendPacket | src/protocols/raop/RaopStreamClient.ts:345-386 | one packet on, with number, time stamp, padding, backlog and payload where n + 1 packets put them, or nothing once the silence suffices |
| RaopStreams.StreamClient.SendBurst | src/protocols/raop/RaopStreamClient.ts:388-400 | exactly count packets, or fewer and the stream is over |
| RaopStreams.StreamClient.Round | src/protocols/raop/RaopStreamClient.ts:269-295 | a burst never passes the frames expected by the clock, and catches up unless its limit stops it |
| RaopStreams.StreamClient.StreamLoop | src/protocols/raop/RaopStreamClient.ts:259-343 | throughout, totalFrames is 352 times the packets sent and everything is where they put it |
| RaopStreams.StreamClient.StreamToEnd | src/protocols/raop/RaopStreamClient.ts:259-343 | with a finite source the loop ends by itself within the bound, having sent the source's reads in order: packet i holds read i behind its header, and zeros behind that |
| RaopStreams.OneResponsePerNumber | src/protocols/raop/RaopControlChannel.ts:170-202 | exactly one response for each number asked for, naming it in bytes 2 and 3 and carrying its packet, or four zeros |
| RaopStreams.ControlChannel.OnMessage | src/protocols/raop/RaopControlChannel.ts:157-168 | only retransmit requests are answered; a short one throws |
| RaopStreams.ControlChannel.HandleRetransmit | src/protocols/raop/RaopControlChannel.ts:170-202 | the loop sends the specified responses in order |
| RaopStreams.ControlChannel.AnswerRetransmit | src/protocols/raop/RaopControlChannel.ts:170-202 | over a sender's backlog, the responses are the right ones |
| Ntp.MillisRoundTrip | src/core/encoding/ntp.ts:68-96 | every millisecond from the Unix epoch on survives the trip |
| Ntp.EpochIs | src/core/encoding/ntp.ts:14-24 | in both directions, 1 January 1970 is 2208988800 seconds after the beginning of the count, and a second is 2^32 |
| Ntp.PartsAre | src/core/encoding/ntp.ts:119-134 | the parts are the upper and the lower 32 bits |
| Ntp.MillisMonotone | src/core/encoding/ntp.ts:68-77 | the conversion is strictly monotone |
| Ntp.NearestMillis | src/core/encoding/ntp.ts:88-96 | any time stamp is converted to the nearest millisecond |
| Ntp.PartsAndCombine | src/core/encoding/ntp.ts:119-134 | inverse on 64 bits and on 32-bit parts, and no further |
| Ntp.IncrementError | src/protocols/raop/RaopControlChannel.ts:30-33 | the increment is never ahead and less than two steps behind |
| Ntp.WholeSeconds | src/protocols/raop/RaopControlChannel.ts:30-33 | the increment of whole seconds is exact |
| Ntp.FractionIs | src/protocols/raop/RaopControlChannel.ts:30-33 | the rest of a second is its fraction of 2^32 - 1 steps, rounded down; half a second is 0x7fffffff |
| Ntp.IncrementMonotone | src/protocols/raop/RaopControlChannel.ts:30-33 | later frames get later times |
| Ntp.WrapDoesNotMatter | src/protocols/raop/RaopControlChannel.ts:22-28 | the result does not depend on where the 32-bit counter wraps |
| Ntp.RtpTimesAreOrderedAndClose | src/protocols/raop/RaopControlChannel.ts:16-36 | for any two moments of a stream: ordered, each within two steps, and so is their distance |
| PairVerify.DeliveredKeysAreEarned | src/protocols/companion/layers/HAPAuthenticationService.ts:278-322 | in every run, a handler that delivers keys was handed a message by some frame of the run and accepted it at some step of the run, its own check under the secret of its own exchange having succeeded; the keys derive from the secret it shares with the sender of a message that some frame of the run handed to it |
| PairVerify.PoliteCallsGetAgreedKeys | src/protocols/companion/layers/HAPAuthenticationService.ts:496-531 | when calls wait for each other, a call is answered by its own handler with keys from the very message that a frame handed to it and that it checked and accepted |
| PairVerify.AuthenticIsSigned | src/protocols/companion/layers/HAPAuthenticationService.ts:894-947 | a message passes the check if and only if the secret shared with its public key opens it, it holds an identifier (1) and a signature (10), and the signature verifies, under the accessory's key, for its public key, the identifier and the handler's public key in this order |
| PairVerify.DeliveredKeysAreSigned | src/protocols/companion/layers/HAPAuthenticationService.ts:894-947 | in every run, a handler that delivers keys was handed and accepted a message so signed for it |
| PairVerify.HandedOver | src/protocols/companion/layers/HAPAuthenticationService.ts:376-410 | what handing over means: a frame with number 2 and no error while M2 is awaited, its public key (3) and encrypted data (5) going to the current handler |
| PairVerify.NoSignatureNoKeys | src/protocols/companion/layers/HAPAuthenticationService.ts:939-947 | where no signature verifies, every call of every run is rejected |
| PairVerify.PoliteKeysAreSigned | src/protocols/companion/layers/HAPAuthenticationService.ts:894-947 | when calls wait for each other, the keys come from the secret under which that message was signed |
| PairVerify.SignedExchangeDelivers | src/protocols/companion/layers/HAPAuthenticationService.ts:278-322 | the run that is meant, by the numbers of its frames' fields, delivers the keys of any message so signed |
| PairVerify.UnsignedM2Rejects | src/protocols/companion/layers/HAPAuthenticationService.ts:894-997 | a message that is not so signed, or whose secret cannot be computed, rejects the call and resets the service |
| PairVerify.IncompleteM2Rejects | src/protocols/companion/layers/HAPAuthenticationService.ts:496-508 | so does an M2 without public key or encrypted data, or one that no handler waits for |
| PairVerify.EarlyM4Rejects | src/protocols/companion/layers/HAPAuthenticationService.ts:513-531 | so does an M4 for which there is no handler with keys |
| PairVerify.ErrorFrameRejects | src/protocols/companion/layers/HAPAuthenticationService.ts:327-371 | so does a frame with an error, in any state |
| PairVerify.TimeoutRejects | src/protocols/companion/layers/HAPAuthenticationService.ts:315-320 | so does a timer, unless the service is verified |
| PairVerify.BusyRejects | src/protocols/companion/layers/HAPAuthenticationService.ts:278-287 | a call while another is under way is rejected and changes nothing else |
| PairVerify.FailedStartRejects | src/protocols/companion/layers/HAPAuthenticationService.ts:295-322 | a call whose key pair or M1 fails is rejected |
| PairVerify.OtherFramesAreIgnored | src/protocols/companion/layers/HAPAuthenticationService.ts:376-410 | frames with a number that the state does not wait for change nothing |
| PairVerify.ExchangeDelivers | src/protocols/companion/layers/HAPAuthenticationService.ts:278-322 | the run that is meant: one call, an M2 that passes and M4 give the call the keys of that exchange |
| PairVerify.WaitingIsExact | src/protocols/companion/layers/HAPAuthenticationService.ts:278-322 | after any polite run that left the service idle, everything that can follow one more call gives agreed keys if and only if no other call is still starting |
| PairVerify.MixingDelivers | src/protocols/companion/layers/HAPAuthenticationService.ts:278-322 | from any idle service with a start pending, whatever else is pending, one more call can be answered with the keys of a message that was not checked |
| PairVerify.OverlappingCallsMixExchanges | src/protocols/companion/layers/HAPAuthenticationService.ts:894-981 | a run of two overlapping calls, each with its own credentials and key pair, that delivers the keys of the message that was not checked |
| PairVerify.StepKeepsSound | src/protocols/companion/layers/HAPAuthenticationService.ts:376-410 | frames, resumptions, errors and timers keep the invariant, stale continuations included |
| PairVerify.StepKeepsTidy | src/protocols/companion/layers/HAPAuthenticationService.ts:546-607 | likewise the stronger one of polite runs |
| PairVerify.HAPAuthenticationService.Verify | src/protocols/companion/layers/HAPAuthenticationService.ts:278-295 | rejected unless idle; otherwise suspended at the key pair |
| PairVerify.HAPAuthenticationService.ResumeStart | src/protocols/companion/layers/HAPAuthenticationService.ts:295-322 | a handler is made and becomes the current one; after M1 the call becomes the current operation and its timer runs |
| PairVerify.HAPAuthenticationService.ResumeM2 | src/protocols/companion/layers/HAPAuthenticationService.ts:894-997 | secret, check, signature and M3 of the suspended handler, or the error that resets the service |
| PairVerify.HAPAuthenticationService.HandleFrame | src/protocols/companion/layers/HAPAuthenticationService.ts:327-410 | an error frame resets; others are routed by state and number |
| PairVerify.HAPAuthenticationService.HandleM2 | src/protocols/companion/layers/HAPAuthenticationService.ts:496-508 | the current handler starts on the message, or the service is reset |
| PairVerify.HAPAuthenticationService.HandleM4 | src/protocols/companion/layers/HAPAuthenticationService.ts:513-531 | the current handler's keys go to the current operation, once |
| PairVerify.HAPAuthenticationService.HandleError | src/protocols/companion/layers/HAPAuthenticationService.ts:546-607 | the operation is rejected and everything current forgotten |
| PairVerify.HAPAuthenticationService.TimerFires | src/protocols/companion/layers/HAPAuthenticationService.ts:315-320 | rejects and resets unless verified, also when the timer is stale |
| PairVerify.HAPAuthenticationService.RunAll | src/protocols/companion/layers/HAPAuthenticationService.ts:101-131 | any run of the service is a run of the steps the theorems are about |
| CompanionSessions.EveryRun | src/protocols/companion/layers/CompanionSessionService.ts:325-428 | in every interleaving requests, timers and messages are conserved, and start attempts are bounded by starts, retries and delays carried over |
| CompanionSessions.ConservedMeans | src/protocols/companion/layers/CompanionSessionService.ts:325-364 | issued is pending plus settled, each settled once and no longer pending, each pending one with its timer |
| CompanionSessions.MessageSettlesOrIsEmitted | src/protocols/companion/layers/CompanionSessionService.ts:378-428 | a message settles the one pending request it names, or is emitted; never both |
| CompanionSessions.TimeoutSettles | src/protocols/companion/layers/CompanionSessionService.ts:336-347 | a timer that fires settles its request as timed out, and only that; its entry and its timer are gone |
| CompanionSessions.FailedSendSettles | src/protocols/companion/layers/CompanionSessionService.ts:352-362 | a send that fails settles its request as failed if that still waits; one that succeeds settles nothing |
| CompanionSessions.EndsByFirstCause | src/protocols/companion/layers/CompanionSessionService.ts:325-428 | from any point of any run, a pending request waits, with its timer, until the first response, timeout, failed send or cleanup that is for it, and ends the way that says |
| CompanionSessions.TimedOutForGood | src/protocols/companion/layers/CompanionSessionService.ts:336-347 | in every run, a request whose timer fires while it waits has timed out, whatever comes after, and is settled in no other way |
| CompanionSessions.CleanupTerminatesInOrder | src/protocols/companion/layers/CompanionSessionService.ts:484-499 | the cleanup settles exactly the pending requests, as terminated, in the order in which they were made |
| CompanionSessions.CleanupCounts | src/protocols/companion/layers/CompanionSessionService.ts:484-499 | after the cleanup there is no session information, no start under way and no retry counted; delays that are running go on |
| CompanionSessions.SendingIs | src/protocols/companion/layers/CompanionSessionService.ts:240-276 | a command is one request more, under the next number, with its timer; a message without one only takes a number |
| CompanionSessions.StartIsRequest | src/protocols/companion/layers/CompanionSessionService.ts:156-195 | a start is one request more unless the channel is not ready, the session is active, or a start is under way; so is the end of a retry delay |
| CompanionSessions.StartGoesOn | src/protocols/companion/layers/CompanionSessionService.ts:290-322 | a start goes on to an active session, a retry delay while retries are left, or the error state |
| CompanionSessions.SettledStays | src/protocols/companion/layers/CompanionSessionService.ts:335-362 | what is settled stays settled the same way |
| CompanionSessions.CleanupEmpties | src/protocols/companion/layers/CompanionSessionService.ts:484-499 | after the cleanup nothing is pending and no timer runs |
| CompanionSessions.StopLeavesNothing | src/protocols/companion/layers/CompanionSessionService.ts:197-238 | stop leaves nothing pending once its request is settled; when it returns early it leaves exactly what was pending |
| CompanionSessions.StoppedWhileStarting | src/protocols/companion/layers/CompanionSessionService.ts:197-212 | started and stopped at once, the session is stopped with its start request pending |
| CompanionSessions.OneCallerAttempts | src/protocols/companion/layers/CompanionSessionService.ts:278-323 | one start, or one delay carried over, gets at most maxRetries + 1 attempts |
| CompanionSessions.AttemptsAttained | src/protocols/companion/layers/CompanionSessionService.ts:278-323 | for all numbers of starts and of delays carried over, a run that makes as many attempts as the bound of EveryRun allows |
| CompanionSessions.AttemptBoundIsExact | src/protocols/companion/layers/CompanionSessionService.ts:278-323 | every run with these numbers keeps to maxRetries + 1 attempts if and only if together they are one at the most |
| CompanionSessions.SecondStartGoesBeyond | src/protocols/companion/layers/CompanionSessionService.ts:299-317 | for every maxRetries, a run with two starts and maxRetries + 2 attempts between cleanups |
| CompanionSessions.CarriedDelayGoesBeyond | src/protocols/companion/layers/CompanionSessionService.ts:299-317 | for every positive maxRetries, a run with one start, one delay carried over the cleanup, and maxRetries + 2 attempts |
| CompanionSessions.CompanionSessionService.SendRequest | src/protocols/companion/layers/CompanionSessionService.ts:325-364 | a new number, its timer and its entry |
| CompanionSessions.CompanionSessionService.HandleMessage | src/protocols/companion/layers/CompanionSessionService.ts:378-428 | settles the named request and its timer, or emits |
| CompanionSessions.CompanionSessionService.StartSession | src/protocols/companion/layers/CompanionSessionService.ts:156-195 | starts unless not ready, active, or already starting |
| CompanionSessions.CompanionSessionService.ResumeStart | src/protocols/companion/layers/CompanionSessionService.ts:290-322 | active, a retry while some are left, or failure |
| CompanionSessions.CompanionSessionService.CleanUp | src/protocols/companion/layers/CompanionSessionService.ts:484-499 | every pending request is rejected, in order |
| CompanionSessions.CompanionSessionService.Dispatch | src/protocols/companion/layers/CompanionSessionService.ts:105-142 | every event of the service is a step of the runs above |
| PlayerStates.EveryRun | src/protocols/mrp/MRPPlayerState.ts:506-633 | after every sequence of messages recorded ids are keys, last items are current items, events are chained, and no artwork is asked for twice until a cleanup |
| PlayerStates.NextMessageContinues | src/protocols/mrp/MRPPlayerState.ts:352-357 | whatever comes next, no player's accepted time stamp goes back and no event is lost |
| PlayerStates.SetStateKeeps | src/protocols/mrp/MRPPlayerState.ts:278-311 | a state message keeps the player's invariant and never takes an older time stamp |
| PlayerStates.UpdateKeeps | src/protocols/mrp/MRPPlayerState.ts:320-351 | merging an item never changes the current one, so it never causes an event |
| PlayerStates.FindIndexIsFirst | src/protocols/mrp/MRPPlayerState.ts:361-363 | an event's location is the first place of its identifier in the queue, or -1 |
| PlayerStates.RequestAllKeeps | src/protocols/mrp/MRPPlayerState.ts:683-727 | requests are distinct and are those recorded |
| PlayerStates.DropKeeps | src/protocols/mrp/MRPPlayerState.ts:585-601 | removing a player forgets it as the active one |
| PlayerStates.ActivateKeeps | src/protocols/mrp/MRPPlayerState.ts:556-565 | the player that becomes active is one of the client's |
| PlayerStates.PlayerState.EmitChange | src/protocols/mrp/MRPPlayerState.ts:359-373 | one event if the identifier changed, with the item before and after |
| PlayerStates.PlayerState.Apply | src/protocols/mrp/MRPPlayerState.ts:278-311 | an older message changes nothing; otherwise the fields present are taken over |
| PlayerStates.PlayerState.Update | src/protocols/mrp/MRPPlayerState.ts:320-351 | updates are merged in order into the first item with their identifier |
| PlayerStates.MRPPlayerState.Handle | src/protocols/mrp/MRPPlayerState.ts:514-633 | every message handler is a step of the runs above |
| PlayerStates.MRPPlayerState.ResolvePlayer | src/protocols/mrp/MRPPlayerState.ts:658-677 | client and player of a path are created as needed |
| PlayerStates.MRPPlayerState.OnSetState | src/protocols/mrp/MRPPlayerState.ts:514-523 | the player object applies the state, and its new events are acted on |
| PlayerStates.MRPPlayerState.OnUpdateContentItem | src/protocols/mrp/MRPPlayerState.ts:536-546 | likewise for updates of its items |
| PlayerStates.MRPPlayerState.OnActiveItemChange | src/protocols/mrp/MRPPlayerState.ts:683-701 | artwork is asked for exactly when available, not inline, not cached and not asked for before |
| PlayerStates.MRPPlayerState.RemoveOne | src/protocols/mrp/MRPPlayerState.ts:573-584 | the client goes, and with it its being active |
| NowPlaying.StateIsReceived | src/protocols/mrp/MRPPlayerState.ts:278-311 | every field present in a message that is not older is the player's, the others stay, a queue brings its items and its location or 0, and one event is sent exactly when the item there has another identifier than the last, naming both items and the first place of the new one; an older message changes nothing |
| NowPlaying.UpdateIsMerged | src/protocols/mrp/MRPPlayerState.ts:320-351 | an update is merged into the first item with its identifier, field by field and metadata key by key, the update's values winning, and changes nothing else |
| NowPlaying.LastUpdateIsLast | src/protocols/mrp/MRPPlayerState.ts:320-351 | of several updates the last one is merged last; items, their places and their identifiers stay |
| NowPlaying.StateReachesItsPlayer | src/protocols/mrp/MRPPlayerState.ts:514-523 | a state message does so to the player its path names, made if it is not there, and to no other; artwork is asked for exactly when its event leaves it missing |
| NowPlaying.UpdatesReachTheirPlayer | src/protocols/mrp/MRPPlayerState.ts:536-546 | likewise for updates, which send no event and no request |
| NowPlaying.MissingIsRequested | src/protocols/mrp/MRPPlayerState.ts:683-701 | artwork is asked for when the item has an identifier and available artwork that is neither inline, nor cached, nor asked for already |
| NowPlaying.LastStateIsShown | src/protocols/mrp/MRPPlayerState.ts:514-633 | in every run, after the last state message for a player, whatever comes that does not remove it, the player shows what that message left |
| NowPlaying.QueueIsNowPlaying | src/protocols/mrp/MRPPlayerState.ts:278-373 | so the item at the location of the last queue is the current one, and the last event led to it |
| NowPlaying.ClientMessagesAre | src/protocols/mrp/MRPPlayerState.ts:547-584 | a client becomes active, is renamed or made, or goes, and nothing else changes; the cleanup leaves nothing |
| NowPlaying.UpdatePlayerIs | src/protocols/mrp/MRPPlayerState.ts:524-535 | a player is renamed or made, and nothing else changes |
| NowPlaying.NowPlayingPlayerIs | src/protocols/mrp/MRPPlayerState.ts:556-565 | a player is renamed or made, and is the active one of its client |
| NowPlaying.RemovePlayerIs | src/protocols/mrp/MRPPlayerState.ts:585-601 | a player with an identifier goes, and is no longer the active one if it was, also by default |
| NowPlaying.ActivePlayerIs | src/protocols/mrp/MRPPlayerState.ts:461-466 | the active player is the one recorded, or else the one named "MediaRemote-DefaultPlayer" |
| NowPlaying.OtherMessagesAre | src/protocols/mrp/MRPPlayerState.ts:602-619 | default commands are the client's; a path without a player changes no more than the client's name |
| NowPlaying.NamelessIsIgnored | src/protocols/mrp/MRPPlayerState.ts:661-666 | a message that names no client, or an empty one, changes nothing |

## Left out

- HTTP and RTSP, mDNS, DAAP, HID, volume and touch control, storage and the command line: thin, or repeats of the above.
- SRP, Ed25519, X25519, HKDF, ChaCha20-Poly1305, property lists, protobuf messages and base64: parameters or not modelled; nothing is said about secrecy.
- Pair-setup (M1 to M6): not part of the pair-verify model. Its stale M6 continuation resolves the same `currentOperation`, which a model with both flows would have to cover.
- PairVerify: what M1 and M3 hold is not part of the model; only that they are sent, and when.
- PairVerify: awaits between which nothing shared is read or written are one step (key derivation, decryption and verification; signing and encryption). The OPACK envelope and the parsing of frames are before it.
- OPACK strings are byte strings: UTF-8 conversion and invalid sequences, UUID and date objects beyond what the decoder returns, and float bit patterns such as -0 are not interpreted.
- OPACK dictionaries are ordered lists of entries whose decoded keys stay values: JavaScript's conversion of keys to strings, its order of integer-like keys and `__proto__` are not modelled.
- OpackPoolRoundTrip.CalmIsExact: "every pool" includes pools in which more than five short buffers wait under 1024, more than the encoder's pool keeps. Over those it keeps, a value with many long strings may use them all up before a write that would be cut short; `CalmIsExactForFew` is the statement for the others.
- OpackPoolRoundTrip.PooledRoundTrip: says nothing about values that are not calm; some of them come back over every pool, for example when only the terminator of a last inner array is cut off.
- OPACK values are taken to have floats of eight bytes and distinct string keys, as JavaScript objects do. What is left in a buffer past the data is not determined, and nothing is claimed about it.
- Views that outlive a pass (frames kept by listeners after they ran) and memory reused through the pool are not followed.
- StreamBuffer: the second size check and second grow after the first are dead code once the first grow has succeeded, and are folded into it.
- HapFrameRuns: listeners are taken to run after the pass and before the next push, as microtasks do; a throwing listener does not affect the parser and is not modelled.
- DataStreamChannel: listeners are taken not to throw and not to send during a pass. `EndToEnd` leaves out messages that throw: the pass ends at one, and the messages behind it wait for the next piece.
- ProtobufBatches.DecodeBatch: a loop that never ends is one that returns nothing here; the memory it fills with messages in the source is not followed. What `Buffer.from` makes of values other than bytes is the property list's decoder, a parameter.
- EncodeBatch: lengths from 2^32, which cannot occur for buffers in memory, are written modulo 2^32 as in the source.
- HapFrames: counters are exact beyond 2^53, where JavaScript numbers are not.
- Tlv8: record keys are integers; keys that only start with digits are not modelled.
- RAOP: a failing send ends the stream and is not modelled; frame sizes are whole bytes; sleeping, throughput logs, feedback and sync packets are left out.
- Ntp.IncrementError: stated over exact arithmetic, as are IncrementMonotone and RtpTimesAreOrderedAndClose. `ntpFromRtp` divides floating-point numbers. For sample rates below 2^20 every quotient is further from the next integer than rounding can move it, so exact arithmetic gives the same floors; higher rates are not covered. Times before 1970 are not covered.
- CompanionSessions: what commands send and parse is the `parsed` outcome of an event; the delay before a retry is an event.
- PlayerStates.PlayerState.EmitChange: the source's last item is a shallow copy whose metadata object is the queue item's, so that later updates show in it; here it is a value. Only identifiers of items are claimed about events.
- PlayerStates: players are values of their client, and objects while they handle a message, so a player object kept by somebody after its removal is not followed; the artwork cache is an input; property-list fields of the metadata are not decoded; time stamps are numbers, NaN excluded.
- RecoveryManager: its bound on attempts does not hold in the source and is not stated.
