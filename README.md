# daw-audio-forwarder, modelled in Dafny

The forwarder receives raw PCM sample chunks over UDP from a DAW plug-in. It
cuts them into fixed 20 ms frames (960 samples per channel, two channels),
encodes each frame with Opus and wraps it in an RTP packet: payload type 100,
SSRC 111111, with a running sequence number and timestamp. It then sends the
packet to a mediasoup plain transport on the local host, once the transport's
port is known. Separately, a SQLite helper parses a sound's `Articulations`
column into `(name, MIDI key)` pairs; keys are given either as decimal
numbers or as note names such as `C1`, `D#2` or `bb3`.

The model has seven modules, one per concern:

- `Wrappers` (`wrappers.dfy`): the `Option` and `Result` types the other
  modules share.
- `Buffers` (`buffers.dfy`): typed-array and Node `Buffer` operations.
  - `SetAt` is generic in the element type. It stands for
    `Float32Array.prototype.set` on the accumulator's scratch buffer and for
    `payload.copy` into an RTP packet.
  - `write*BE` is `WriteUIntBE`. Like Node's, it fails on a value that does
    not fit its width.
  - Big-endian encoding, with its inverse.
- `Accumulator` (`accumulator.dfy`): the class `AudioAccumulator` over an
  `array`. It is specified by the value functions `Chop` (cut frames off the
  front) and `Ingest` (one `addSamples` call). `IngestAll` runs a stream of
  calls.
- `Rtp` (`rtp.dfy`): `CreateRtpPacket` fills a fresh byte array as the
  source does, and is proved equal to the value function `RtpPacket`.
  `ParseRtp`, a receiver's reading of the fixed header in section 5.1 of RFC
  3550, is the inverse that `RtpPacketParses` proves it against.
- `Forwarder` (`forwarder.dfy`): the per-frame loop of the UDP message
  handler.
  - The functions `Step` and `Run` express it as a state machine over the
    two counters.
  - The class `Bridge` holds the accumulator, the encoder, the counters and
    the destination port, a `Port` below 65536 as `dgram` requires. Its
    methods update them as the handler does.
- `Text` (`text.dfy`): JavaScript `split`, `trim`, `/^\d+$/` and
  `parseInt(_, 10)` on `seq<char>`. Each comes with the properties the parser
  relies on.
- `Articulations` (`articulations.dfy`): `noteNameToMidi` and the
  articulation parse. The parse is a `for` loop with `continue` and a push,
  proved against the value function `ArticulationsOfValue`.

The code disagrees with its comments or with RFC 3550 in four places. The
model follows the code each time:

- Marker bit: the byte-1 comment at `server.js:147` says the marker bit is 0.
  The code writes `0x80 | 100`, i.e. `0xE4`, so the marker bit is set on
  every packet.
- Timestamp: RTP timestamps are 32-bit and wrap modulo 2^32 (section 5.1 of
  RFC 3550). The code never wraps it, and `writeUInt32BE` throws once it
  reaches 2^32 (see Findings).
- Sequence number after a failure:
  - Section 5.1 of RFC 3550 has the sequence number increment by one for
    each packet sent.
  - In the code, `sequenceNumber++` is evaluated before `createRtpPacket`
    can throw. So the code uses up a sequence number on a packet it never
    builds, while the timestamp stays put.
- Note range: the `noteNameToMidi` comment promises notes C-1 (0) to G9
  (127). No range check is made, so `Cb-1` gives -1, `C-2` gives -12 and
  `G#9` gives 128.

## Model

| member | source | states |
|---|---|---|
| Buffers.SetAt | server/AudioAccumulator.js:12 | `buffer.set(src, at)` overwrites exactly `a[at..at+|src|]` with `src`; the prefix before `at` and everything after the copied range are unchanged |
| Buffers.BigEndianRoundTrip | server/mediasoupHandler.js:122-124 | a value below 256^n written as n big-endian bytes reads back as the same value |
| Buffers.WriteUIntBE | server.js:148-150 | `writeUIntBE` succeeds exactly when the value fits in `width` bytes; then the bytes at `offset` are its big-endian encoding and the rest of the buffer is untouched; on failure the buffer is unchanged |
| Accumulator.ChopConserves | server/AudioAccumulator.js:17-25 | the frames cut off the front, concatenated in order, followed by the leftover give back the input |
| Accumulator.ChopFrameSize | server/AudioAccumulator.js:18 | every frame cut has exactly `targetSamples` samples |
| Accumulator.ChopCount | server/AudioAccumulator.js:17-24 | the loop cuts `n / t` frames and leaves `n % t` samples |
| Accumulator.ChopSpec | server/AudioAccumulator.js:17-25 | conservation, frame size and count together |
| Accumulator.IngestConserves | server/AudioAccumulator.js:11-13 | one call copies `min(|samples|, free)` samples and drops nothing when the chunk fits; buffered plus copied samples equal frames plus leftover, in order; frames have `targetSamples` samples; fewer than `targetSamples` remain buffered |
| Accumulator.IngestCount | server/AudioAccumulator.js:15-27 | one call returns `(buffered + copied) / targetSamples` frames, never more than two, and keeps the remainder buffered |
| Accumulator.IngestSpec | server/AudioAccumulator.js:10-28 | everything `IngestConserves` and `IngestCount` state, for one `addSamples` call |
| Accumulator.IngestAllConserves | server/AudioAccumulator.js:10-28 | over any stream of calls, the emitted frames in order plus what is still buffered equal the initial buffer plus every sample that was not dropped |
| Accumulator.IngestAllFrameSize | server/AudioAccumulator.js:17-19 | over any stream of calls, every emitted frame has `targetSamples` samples |
| Accumulator.AudioAccumulator.constructor | server/AudioAccumulator.js:2-8 | `targetSamples = frameSize * channels`; the scratch buffer has twice that length; the offset starts at 0, so nothing is buffered |
| Accumulator.AudioAccumulator.AddSamples | server/AudioAccumulator.js:10-28 | the frames returned and the new buffered prefix are those of `Ingest` on the old buffered prefix; the offset ends below `targetSamples`; every frame has `targetSamples` samples |
| Accumulator.FeedTwoFrames | server/mediasoupHandler.js:35 | a fresh 960×2 accumulator fed 3840 samples returns exactly two frames that concatenate to the input, and its offset ends at 0 |
| Rtp.CreateRtpPacket | server/mediasoupHandler.js:117-127 | filling the buffer field by field gives exactly `RtpPacket`, or its RangeError; on success the packet has `12 + |payload|` bytes and the payload verbatim from byte 12 |
| Rtp.RtpPacketParses | server.js:139-156 | the packet is built exactly when timestamp and SSRC are below 2^32; a receiver then reads version 2, no padding/extension/CSRC, marker set, payload type 100, sequence number mod 65536, the timestamp, the SSRC and the payload |
| Rtp.SequenceFieldWraps | server.js:148 | sequence numbers 65536 apart give identical packets; counter 65536 puts `00 00` in bytes 2-3 |
| Rtp.RtpPacketExample | server/mediasoupHandler.js:117-127 | sequence 5, timestamp 9600, SSRC 111111 and payload `01 02` give `80 E4 00 05 00 00 25 80 00 01 B2 07 01 02` |
| Forwarder.RoomSpec | server/mediasoupHandler.js:123 | the m-th packet after timestamp `ts` has a timestamp that fits in 32 bits exactly when `m < Room(ts)` |
| Forwarder.RunAsWritten | server/mediasoupHandler.js:80-94 | after any run of encoder outcomes: sequence number = start + successful encodes; packets = min(successful encodes, Room(start timestamp)); timestamp = start + 960 per packet; the i-th packet is `RtpPacket` of the i-th encoded payload with sequence start+i and timestamp start+960·i; failed encodes change nothing |
| Forwarder.RunFromStart | server.js:92-118 | from counters (0, 0), N successful encodes give sequence number N and, for N ≤ 4473925, timestamp 960·N and N packets |
| Forwarder.TimestampStalls | server.js:104-105 | from (0, 0), more than 4473925 successful encodes yield only 4473925 packets, and the timestamp is stuck at 4294968000 ≥ 2^32 |
| Forwarder.RunWrappedCount | server.js:104-105 | with the timestamp kept mod 2^32, every successful encode yields a packet; the sequence number and the wrapped timestamp advance per packet |
| Forwarder.RunWrapped | server/mediasoupHandler.js:85-86 | with the timestamp kept mod 2^32, packet i carries payload i, sequence start+i and timestamp (start+960·i) mod 2^32, for every successful encode |
| Forwarder.Bridge.constructor | server/mediasoupHandler.js:35-74 | a fresh 960×2 accumulator, the encoder, SSRC 111111 and no destination port (lines 35-41); both counters 0 (lines 73-74); nothing sent |
| Forwarder.Bridge.DiscoverTuple | server/mediasoupHandler.js:64-71 | the timer callback sets the port to the tuple's local port if there is a tuple, and otherwise leaves it alone; counters and sends are unchanged |
| Forwarder.Bridge.ForwardEncoded | server/mediasoupHandler.js:81-93 | one loop pass moves the counters as `Step` does; its packet, if any, is sent to `127.0.0.1:port` only when the port is known and non-zero |
| Forwarder.Bridge.ForwardFrames | server.js:99-118 | after the loop, the counters are those of `Run` over the encoder's outcomes, whether or not the port is known; the packets built are appended to the sends, in order, exactly when the port is known |
| Forwarder.Bridge.OnMessage | server/mediasoupHandler.js:76-95 | the accumulator moves as `Ingest` does; counters and sends move as `ForwardFrames` does on the frames it completes |
| Text.SplitJoin | server/sqliteHandler.js:58 | joining the pieces of `split(sep)` with `sep` gives back the string |
| Text.SplitPieces | server/sqliteHandler.js:59 | no piece contains the separator; there is one piece more than there are separators |
| Text.JoinSplit | server/sqliteHandler.js:58-59 | splitting a join of one or more separator-free pieces gives back the pieces |
| Text.TrimSpec | server/sqliteHandler.js:66-67 | `trim` keeps a slice whose first and last characters are not white space; everything removed is white space |
| Text.TrimIdempotent | server/sqliteHandler.js:66-67 | trimming twice is trimming once |
| Text.DecimalRoundTrip | server/sqliteHandler.js:70-71 | the decimal rendering of n is all digits and reads back as n |
| Text.LeadingZeros | server/sqliteHandler.js:70-71 | leading zeros do not change the value `parseInt(_, 10)` reads from a digit string |
| Text.SignedRoundTrip | server/sqliteHandler.js:93 | the rendering of an integer matches `-?\d+` and reads back as that integer |
| Articulations.ParseNoteNameSpec | server/sqliteHandler.js:88-91 | a note name is accepted exactly when the whole string matches `^([A-Ga-g])([#b]?)(-?\d+)$`; the groups read are the letter, the accidental and the octave's value |
| Articulations.RenderParses | server/sqliteHandler.js:86-100 | any valid letter, accidental and octave, rendered, parses back to itself and yields `(octave+1)·12 + base + accidental` |
| Articulations.LetterCaseIgnored | server/sqliteHandler.js:92 | upper- and lower-case letters give the same result |
| Articulations.OctaveIsTwelve | server/sqliteHandler.js:96 | one octave up is 12 semitones up |
| Articulations.NoteExamples | server/sqliteHandler.js:87 | C-1 → 0, C4 → 60, G9 → 127 |
| Articulations.AccidentalExamples | server/sqliteHandler.js:97-98 | D#2 → 39, bb3 → 58 |
| Articulations.NotesOutOfRange | server/sqliteHandler.js:96-99 | Cb-1 → -1, C-2 → -12, G#9 → 128: no clamp to 0..127 |
| Articulations.NoteRejections | server/sqliteHandler.js:88-90 | "", "H1", "C", "C#", "C##1", "CB1", "C1 " and "C-" give null |
| Articulations.ParseKeySpec | server/sqliteHandler.js:70-75 | an all-digit key, with any number of leading zeros, reads as its decimal value, as `parseInt(kw, 10)` does; a rendered note name is never all digits and reads as its MIDI number |
| Articulations.KeyExamples | server/sqliteHandler.js:70-75 | "C1" → 24, "36" → 36, "036" → 36, "X9" → null |
| Articulations.ParseLineSpec | server/sqliteHandler.js:62-66 | a line is kept exactly when it holds one comma; the kept name has no comma and no surrounding white space |
| Articulations.PairParses | server/sqliteHandler.js:59-76 | `name,key`, both comma-free, gives the trimmed name and the key read from the trimmed key |
| Articulations.NoteKeyLine | server/sqliteHandler.js:66-76 | "Legato, C1" → ("Legato", 24) |
| Articulations.DecimalKeyLine | server/sqliteHandler.js:66-76 | "Staccato,36" → ("Staccato", 36) |
| Articulations.UnreadableKeyLine | server/sqliteHandler.js:66-76 | "Pizz, X9" → ("Pizz", null): an unreadable key is still pushed |
| Articulations.NoCommaLine | server/sqliteHandler.js:63-65 | a line with no comma is skipped |
| Articulations.ArticulationsAppend | server/sqliteHandler.js:61-77 | the result for two blocks of lines is the result of each, in order: output keeps input order |
| Articulations.ArticulationsBound | server/sqliteHandler.js:61-77 | at most one entry per line |
| Articulations.ArticulationsOfLines | server/sqliteHandler.js:58-59 | a non-empty text made of newline-free lines is parsed line by line |
| Articulations.ParseArticulations | server/sqliteHandler.js:55-78 | the loop returns `ArticulationsOfValue(text)`: null exactly when the column is missing or empty, otherwise the entries of its lines |

## Left out

- `decodePCM` and `float32ToInt16`: these are Float32 arithmetic and
  host-endian reinterpretation of the datagram. The accumulator is generic
  in its sample type. The conversion and the Opus encoder together are the
  `encode` function of `Bridge`, which may fail (`None`). `new Int16Array`
  throws a RangeError when the datagram's `byteOffset` is odd (`server.js:131`,
  `server/mediasoupHandler.js:109`). That happens before the frame loop and
  outside its `try`, so `OnMessage`, which starts from decoded samples, does
  not model that error path.
- `OpusEncoder.encode`: a foreign codec. It is a function parameter, so the
  encoder's internal state is not modelled.
- The mediasoup worker, router, transport and producer setup, and the
  socket.io signalling (`server/initializeWebRTC.js`): these are
  asynchronous foreign calls. Only their effect is kept: an optional
  destination port, given to `DiscoverTuple`.
- `dgram` sockets, `bind`, `send` and the Express/HTTP server: I/O. A send
  is recorded as a `Datagram` appended to `Bridge.sent`.
- `rtpSocket` is always created before the handler runs, so its truthiness
  test is not modelled.
- The SQLite connection and query (`_getConnection`, `db.get`, the Promise
  wrappers, `getLibraryForSound`): database I/O. `ParseArticulations` models
  only what the callback does with the `Articulations` value (missing, or a
  string).
- The default arguments `frameSize = 960, channels = 2` of the
  `AudioAccumulator` constructor: every caller passes both, so the model's
  constructor takes them explicitly.
- `Accumulator.AudioAccumulator.constructor`: requires `frameSize * channels
  > 0`. With a zero product the source's `while` loop never ends. Negative
  or fractional sizes are also not modelled.
- Frames are returned as sequence values rather than fresh `Float32Array`
  copies. Nothing aliases them.
- `Text.DecimalValue` and `Text.SignedValue`: JavaScript numbers are IEEE
  doubles, so `parseInt` loses precision above 2^53. The model reads digit
  strings exactly.
- `Text.IsSpace`: characters are Unicode scalar values. JavaScript strings
  are UTF-16, so lone surrogates and code points outside the Basic
  Multilingual Plane are not distinguished.
- `Rtp.ParseRtp`: reads only the fixed header and the CSRC count. It does
  not interpret header extensions or padding, which this stream never sets.
- `Forwarder.Bridge.OnMessage`: each datagram is handled to completion
  before the next. This matches Node's single-threaded event loop, so no
  concurrency is modelled.
- Console logging and the `setTimeout` delay itself are left out.

## Findings

| source | as written | input that shows it | evidently intended | confidence | as-written member | corrected member |
|---|---|---|---|---|---|---|
| server/mediasoupHandler.js:85-86 | `timestamp += 960` is never reduced modulo 2^32. `writeUInt32BE` throws once the timestamp reaches 2^32, and the `catch` reports it as an encode failure. The sequence number has already advanced, the timestamp never moves again, and every later frame is lost. The same lines appear at `server.js:104-105`. | 4473926 successfully encoded frames after start-up, about 24.85 hours of audio: the timestamp is 4294968000 and no further packet is built | the RTP timestamp wraps modulo 2^32 (section 5.1 of RFC 3550), so every encoded frame is sent | not executed | Forwarder.TimestampStalls | Forwarder.RunWrapped |

`Bridge` takes the choice as its `wrapTimestamp` constant:

- `false` is the code as written (`RunAsWritten` describes it);
- `true` is the corrected handler (`RunWrapped` describes it).
