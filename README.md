# ohNetmon in Dafny

ohNetmon measures one-way network latency between two OpenHome devices. A measuring client
(`ohNetmon.cpp`) finds a sender and a receiver endpoint (`OpenHome/ohNetmon.js` runs on both).
It sends the sender a `start` line over TCP and reads back one reply line. While the session
runs, the sender emits one UDP datagram per interval. Each datagram carries a 32-bit session
id, a frame number and a send timestamp in microseconds, all big-endian. The receiver endpoint
stamps each arriving datagram with its arrival time. It queues the result as a 16-byte entry
in a ring buffer of 10000 slots and streams the entries back to the client over a second TCP
connection. The client decodes each entry and either prints it or analyses it. Analysis
counts frames, counts frames missed across gaps in the frame numbers, keeps the extremes of
the one-way time and keeps a 100-bucket histogram of it in whole milliseconds offset by 10.

The model has one module per concern:

- `Bytes`: 32-bit wrap-around, signed reinterpretation, C truncating division and
  big-endian 4-byte encoding.
- `Text`: JavaScript's `split` on one character, and decimal numerals.
- `FrameCodec`: the 16-byte record and the stream of records.
- `Analyser`: the client's `ReceiverThread`. `Analysed` is a pure specification of one
  `Analyse` call. The class `ReceiverThread` keeps the C++ fields, and its methods are proved
  to update them exactly as `Analysed` says.
- `Control`: the client's `main`, from the id and delay checks to the reply check.
- `Sender`: the sending half of the JavaScript endpoint. This is the `data` handler of the
  control connection as the class `TxServer`, and `txSend`.
- `Receiver`: the receiving half of the JavaScript endpoint. This is the ring buffer and the
  report connection as the class `RxEndpoint`.
- `EndToEnd`: the three parts composed. It covers the `start` line round trip, the reply and
  the datagram-to-entry-to-frame path.

JavaScript numbers are modelled as `JsNum` (an integer or `NaN`). A field that is not a
decimal numeral is taken to parse as `NaN`. Every comparison with `NaN` is false. `>>> 0`
maps `NaN` to 0. A buffer with a `NaN` size is empty. Globals that are still `undefined`
behave like `NaN` in every use here.

Where the code departs from what a reader might expect, the model follows the code:

- The histogram guard is `0 < index < 100`, so bucket 99 (one-way times from 89 to 90 ms) is
  counted and bucket 0 never is (`ohNetmon.cpp:230`).
- The last frame number is updated after an out-of-order or repeated frame too
  (`ohNetmon.cpp:245`).
- The client checks only that the id and the delay are non-zero. The size and the
  one-millisecond floor are checked only by the JavaScript sender, which then refuses the
  session (`EndToEnd.SessionRunsIffSenderAccepts`).

## Model

| member | source | states |
|---|---|---|
| Bytes.Low32 | ohNetmon.cpp:207-208 | the result is congruent to the input modulo 2^32 and equals it when it already fits in 32 bits |
| Bytes.AsSigned | ohNetmon.cpp:224 | the signed value has the same low 32 bits as the unsigned one and is non-negative exactly when the top bit is clear |
| Bytes.TruncDiv | ohNetmon.cpp:226 | the quotient rounds toward zero: for n >= 0, q*d <= n < q*d + d; for n < 0, q*d - d < n <= q*d <= 0 |
| Bytes.Low32AddOne | ohNetmon.cpp:250 | incrementing and wrapping at every step is the same as wrapping once at the end |
| Bytes.ReadUintBe | ohNetmon.cpp:265 | the value's top byte is the first byte read and its low byte is the last |
| Bytes.BigEndian | OpenHome/ohNetmon.js:168-171 | the four bytes are the value's base-256 digits, most significant first |
| Bytes.ReadUintBeOfBigEndian | ohNetmon.cpp:265-268 | reading back the four bytes written for a 32-bit value gives the value |
| Bytes.BigEndianOfReadUintBe | ohNetmon.cpp:265-268 | writing out the value read from four bytes gives those bytes |
| Bytes.BigEndianInjective | OpenHome/ohNetmon.js:168-171 | two values with the same four bytes are equal |
| Bytes.BigEndianZero | OpenHome/ohNetmon.js:47-54 | four zero bytes encode 0 and only 0 |
| Text.Split | OpenHome/ohNetmon.js:212 | split gives at least one piece and no piece contains the separator |
| Text.JoinSplit | OpenHome/ohNetmon.js:212 | rejoining the pieces with the separator gives the original string |
| Text.SplitJoin | OpenHome/ohNetmon.js:220 | splitting a join of separator-free pieces gives the pieces back |
| Text.Decimal | ohNetmon.cpp:462-472 | a decimal numeral is non-empty, all digits, and has no leading zero |
| Text.ValueOfDecimal | OpenHome/ohNetmon.js:238 | the digits of a numeral read back to the number |
| Text.DecimalInjective | ohNetmon.cpp:462-472 | different numbers get different numerals |
| Text.DecimalHasNoSeparator | ohNetmon.cpp:463-472 | a numeral holds no space, colon or line feed, so it cannot break the line's fields |
| FrameCodec.DecodeRecord | ohNetmon.cpp:265-268 | each field's big-endian bytes are the entry's bytes 0-3, 4-7, 8-11 and 12-15 |
| FrameCodec.EncodeRecord | OpenHome/ohNetmon.js:93-102 | an encoded record is 16 bytes long |
| FrameCodec.DecodeEncode | ohNetmon.cpp:265-268 | decoding an encoded frame gives the frame |
| FrameCodec.EncodeDecode | ohNetmon.cpp:265-268 | encoding a decoded 16-byte entry gives the entry |
| FrameCodec.Records | ohNetmon.cpp:256-268 | the stream yields one record per whole 16-byte chunk, the k-th decoded from bytes 16k to 16k+15; a partial tail yields nothing |
| FrameCodec.RecordsOfEncoded | ohNetmon.cpp:256-276 | the stream written for any frame sequence is read back as that sequence |
| Analyser.Initial | ohNetmon.cpp:165-177 | a fresh analyser has 100 zero buckets, zero counters and min <= 0 <= max |
| Analyser.Classify | ohNetmon.cpp:194-222 | a frame is unrecognised exactly when its id is another session's, the baseline exactly when it is the session's first, and after that out of order, repeated, consecutive or a gap exactly when its number is below, equal to, one above or more than one above the last frame; a gap counts the frames skipped |
| Analyser.NetworkTime | ohNetmon.cpp:207-224 | the one-way time's low 32 bits are the 32-bit receive offset minus the 32-bit send offset |
| Analyser.Analysed | ohNetmon.cpp:192-251 | one frame's effect keeps the 100 buckets and the session id; what it changes is stated by the lemmas below, and BaselineKept states that later frames keep the baselines |
| Analyser.BaselineKept | ohNetmon.cpp:199-208 | once a frame has been accepted, later frames leave the tx and rx baselines unchanged, so the baseline is set once per session |
| Analyser.Sampled | ohNetmon.cpp:224-241 | a sample changes only the buckets and the extremes; min and max move outward to bracket the sample; bucket 0 is kept and the bucket sum grows by at most one |
| Analyser.TimingsIndex | ohNetmon.cpp:226-228 | the bucket index is 10 plus the whole milliseconds truncated toward zero, for both signs |
| Analyser.TotalCountsAcceptedFrames | ohNetmon.cpp:194-197 | a frame with another id changes nothing; a frame with the session id adds one to total modulo 2^32 |
| Analyser.FirstFrameSetsBaseline | ohNetmon.cpp:199-205 | the first accepted frame sets both time bases and the last frame, and touches no counter other than total, and no bucket or extreme |
| Analyser.MissedOnlyOnGap | ohNetmon.cpp:216-222 | missed grows only across a forward gap, by the number of frames skipped, modulo 2^32 |
| Analyser.LastFrameFollowsEveryAcceptedFrame | ohNetmon.cpp:245 | every accepted frame becomes the last frame, out-of-order and repeated ones included |
| Analyser.HistogramOnlyOnConsecutive | ohNetmon.cpp:223-232 | the histogram changes only for a consecutive frame, by one in bucket trunc(t/1000)+10 when it is 1 to 99; bucket 0 never changes; the sum grows by at most one |
| Analyser.SumIncrement | ohNetmon.cpp:231 | a wrapping increment of one bucket adds at most one to the bucket sum |
| Analyser.ExtremesBracketSamples | ohNetmon.cpp:234-241 | min only falls and max only rises; after a consecutive frame the new min is the lesser of the old min and its one-way time and the new max the greater of the old max and that time; otherwise they are unchanged |
| Analyser.TimingsIndexBoundaries | ohNetmon.cpp:226-230 | -10000 us falls in bucket 0, -9999 and -9000 us in bucket 1, -999 and 999 us both in bucket 10, 89999 us in bucket 99, 90000 us in bucket 100 |
| Analyser.TotalCountsAccepted | ohNetmon.cpp:250 | after any frame sequence, total is the number of frames with the session id, modulo 2^32 |
| Analyser.AnalysedAll | ohNetmon.cpp:256-276 | the frames of a stream folded in arrival order keep the 100 buckets and the session id |
| Analyser.HistogramBoundedByAccepted | ohNetmon.cpp:230-232 | the histogram never gains more samples than frames accepted |
| Analyser.FreshHistogramBoundedByTotal | ohNetmon.cpp:170-177 | from a fresh analyser with fewer than 2^32 accepted frames, total is their exact count and bounds the histogram sum |
| Analyser.ExtremesBracketZero | ohNetmon.cpp:172-173 | min <= 0 <= max holds after any frame sequence |
| Analyser.ConsecutiveFramesMissNothing | ohNetmon.cpp:216-222 | frames numbered first, first+1, ... miss nothing, are all counted and leave the last as the last frame |
| Analyser.GapExample | ohNetmon.cpp:192-251 | frames 100, 101 and 106 of session 7 give 4 missed, total 3, one sample of 300 us in bucket 10, max 300, min 0 |
| Analyser.ConsecutiveExample | ohNetmon.cpp:192-251 | frames 0, 1 and 2 with one-way times 300 us and 0 us give no missed frames and two samples in bucket 10 |
| Analyser.ReceiverThread.constructor | ohNetmon.cpp:165-181 | the fields hold the fresh analyser state for the given id |
| Analyser.ReceiverThread.ReportTimings | ohNetmon.cpp:183-190 | one row per bucket with its label i-10 (the whole milliseconds, truncated toward zero, of the times it counts) and its count, then total and missed, each printed by %d as a signed value |
| Analyser.ReceiverThread.Analyse | ohNetmon.cpp:192-251 | the fields are updated in place to exactly `Analysed` of the old state and the frame |
| Analyser.ReceiverThread.Sample | ohNetmon.cpp:224-241 | the bucket and extremes are updated as `Sampled` says |
| Analyser.ReceiverThread.Run | ohNetmon.cpp:253-282 | when analysing, the state becomes the fold of `Analysed` over every record of the stream; otherwise every record is printed in order and the state is unchanged |
| Control.StartRequest | ohNetmon.cpp:457-473 | the start line ends with its one line feed |
| Control.StartRequestIsJoinedFields | ohNetmon.cpp:457-473 | the start line is its seven fields (start, address:port, id, count, bytes, delay, ttl) joined by spaces, then a line feed |
| Control.ReadLine | ohNetmon.cpp:481 | the line read is the reply up to its first line feed, and there is none exactly when no line feed arrives |
| Control.StartAccepted | ohNetmon.cpp:481-483 | the reply line read up to the first line feed is exactly OK, so an accepted reply starts with OK and a line feed |
| Control.StartAcceptedIff | ohNetmon.cpp:481-483 | the client accepts a reply exactly when it begins with OK and a line feed |
| Control.ErrorRepliesRejected | ohNetmon.cpp:481-483 | an ERROR reply and an empty line are not accepted, and neither is a reply with nothing in it |
| Control.SetupSession | ohNetmon.cpp:386-490 | the session aborts before sending when id or delay is 0; otherwise it sends the start line, the reply is lost exactly when no line feed arrives, it runs exactly when the reply line is OK, and it is refused with the line read otherwise |
| Control.BadArgsAbortsSession | ohNetmon.cpp:481-490 | a sender replying `ERROR bad args` refuses the session with that line, and a sender closing without a reply loses it |
| Control.ReadLineOfLine | ohNetmon.cpp:481 | a line without a line feed, followed by one and anything else, reads back as that line |
| Sender.ParseInt | OpenHome/ohNetmon.js:227-228 | a field parses to a number exactly when it is a decimal numeral, and that number is non-negative |
| Sender.ParseIntOfDecimal | OpenHome/ohNetmon.js:238 | the numeral of n parses to n |
| Sender.ToUint32 | OpenHome/ohNetmon.js:168-171 | the 32 bits sent are the number modulo 2^32, and 0 for NaN |
| Sender.BufferLength | OpenHome/ohNetmon.js:164 | a non-negative size gives a buffer of that many bytes, and only a numeric size gives a non-empty one |
| Sender.Reply | OpenHome/ohNetmon.js:156-161 | a reply ends with a line feed, begins with OK exactly when there is no error, and is `ERROR <message>` otherwise |
| Sender.StripLast | OpenHome/ohNetmon.js:212 | the received text is the stripped text plus its last character, and empty text stays empty |
| Sender.DelayMs | OpenHome/ohNetmon.js:289 | the converted delay is a signed 32-bit number, 0 for NaN, and the truncated milliseconds for delays below 1000*2^31 us |
| Sender.CheckStart | OpenHome/ohNetmon.js:214-225 | a start with other than seven parts or an endpoint without exactly one colon is refused and assigns nothing; a refused start keeps the ttl |
| Sender.CheckId | OpenHome/ohNetmon.js:245-259 | later checks keep the endpoint and id; an id of 0 is refused with nothing further assigned |
| Sender.CheckBytes | OpenHome/ohNetmon.js:266-277 | later checks change only delay and ttl; a size below 12 or above 65536 is refused with nothing further assigned |
| Sender.CheckDelay | OpenHome/ohNetmon.js:284-297 | the start is accepted exactly when the delay is not 0 and not 0 once converted; then the converted delay and the ttl are assigned |
| Sender.NumericStartAccepted | OpenHome/ohNetmon.js:214-304 | with numeric fields, start is accepted exactly for seven parts, one colon, id not 0, 12 to 65536 bytes and a non-zero converted delay, and then holds every field |
| Sender.RejectedStartKeepsAssignments | OpenHome/ohNetmon.js:214-297 | for every start line, the error of the first failing check and the globals it leaves: nothing assigned after the first two checks; port, address and id after the id check; also count and size after the size checks; the parsed delay after the zero-delay check; the converted delay after the 1 ms check; the ttl only when accepted |
| Sender.NonNumericFields | OpenHome/ohNetmon.js:237-294 | a non-numeric id or size passes every check, and a non-numeric delay is refused only by the one-millisecond check |
| Sender.Message | OpenHome/ohNetmon.js:164-183 | the datagram has the buffer's length, id, frame and send time big-endian in bytes 0 to 11, and zeros after |
| Sender.CountedRunStops | OpenHome/ohNetmon.js:190-191 | a run of n > 0 frames has n-k left after k sends and stops exactly at the n-th |
| Sender.CountAfterSend | OpenHome/ohNetmon.js:189-190 | a count of 0 or NaN is kept and any other count drops by one |
| Sender.LastSend | OpenHome/ohNetmon.js:189-191 | a send is the last of its run exactly when the count before it is 1 |
| Sender.UnboundedRunNeverStops | OpenHome/ohNetmon.js:190 | a count of 0 or NaN never changes and never stops the run |
| Sender.TxServer.constructor | OpenHome/ohNetmon.js:21-31 | the globals start undefined (NaN) and the sender is not started |
| Sender.TxServer.SetConfig | OpenHome/ohNetmon.js:227-297 | the globals become the given configuration and nothing else changes |
| Sender.TxServer.OnData | OpenHome/ohNetmon.js:211-334 | start assigns what the checks assigned and replies OK or the first error, starting at frame 0 when accepted; stop clears started, replies OK and sends the sentinel only if a run was active; anything else replies with the unrecognised-command error and changes nothing |
| Sender.TxServer.Send | OpenHome/ohNetmon.js:163-200 | one datagram with the current frame, the frame advances, the count drops unless unbounded, and the last send of a counted run also sends the 12-byte zero sentinel and stops |
| Receiver.MakeEntry | OpenHome/ohNetmon.js:90-102 | the entry copies the datagram's first 12 bytes (missing ones read as 0) and holds the arrival time modulo 2^32 in bytes 12-15 |
| Receiver.HasZeroId | OpenHome/ohNetmon.js:47-54 | the loop answers true exactly when the entry's four id bytes are zero |
| Receiver.IsEndMarker | OpenHome/ohNetmon.js:47-56 | an entry ends the report stream exactly when the id it decodes to is 0 |
| Receiver.RxEndpoint.constructor | OpenHome/ohNetmon.js:8-19 | an empty queue of 10000 empty slots, no overflow and no report connection |
| Receiver.RxEndpoint.Append | OpenHome/ohNetmon.js:134-141 | the entry joins the back of the queue and the write index wraps at 10000 |
| Receiver.RxEndpoint.OnMessage | OpenHome/ohNetmon.js:90-154 | not overflowing with room: the entry is queued; full: it is dropped and overflow is set; after overflow: entries are dropped until more than 10 slots are free, then a zero marker and the entry are queued and overflow clears; reporting starts if the report connection is up |
| Receiver.RxEndpoint.Dequeue | OpenHome/ohNetmon.js:34-45 | the oldest entry leaves the queue, its slot is cleared, the read index wraps, and reporting pauses when the queue empties |
| Receiver.RxEndpoint.Report | OpenHome/ohNetmon.js:33-65 | the oldest entry is written to the report connection, or, if its id is zero, the connection ends and reporting stops |
| Receiver.RxEndpoint.OnConnect | OpenHome/ohNetmon.js:70-77 | the report connection is up and reporting runs exactly when entries are queued |
| Receiver.RxEndpoint.OnEnd | OpenHome/ohNetmon.js:79-85 | reporting stops and the queue is kept |
| EndToEnd.ReplyAccepted | OpenHome/ohNetmon.js:156-161 | the client accepts the sender's reply exactly when the sender reports no error |
| EndToEnd.StartLineSplits | OpenHome/ohNetmon.js:212-220 | the sender splits the client's start line back into its seven fields, and the endpoint into address and port |
| EndToEnd.StartLineAccepted | OpenHome/ohNetmon.js:214-304 | the sender accepts the client's line exactly when id != 0, 12 <= bytes <= 65536 and delay >= 1000 us, and then holds the client's values with the delay in ms |
| EndToEnd.DelayConversion | OpenHome/ohNetmon.js:289-291 | a 32-bit microsecond delay converts to milliseconds without wrapping, and is 0 exactly below 1000 us |
| EndToEnd.SessionRunsIffSenderAccepts | ohNetmon.cpp:386-490 | a session runs exactly when id != 0, 12 <= bytes <= 65536 and delay >= 1000 us |
| EndToEnd.StopLineRecognised | ohNetmon.cpp:509 | the client's stop line reaches the sender's stop branch |
| EndToEnd.DatagramDecodes | OpenHome/ohNetmon.js:163-183 | a sent datagram of at least 12 bytes, once queued and decoded, gives the id, the frame number, the send time and the arrival time, each modulo 2^32 |
| EndToEnd.FrameIsNotEndMarker | OpenHome/ohNetmon.js:47-54 | a datagram whose 32-bit id is non-zero never ends the report stream |
| EndToEnd.ZeroIdsEndTheStream | OpenHome/ohNetmon.js:104-112 | the end-of-run sentinel, the overflow marker and an empty datagram each end the report stream |
| EndToEnd.ZeroIdIgnored | ohNetmon.cpp:194-197 | a zero-id record leaves a session's analysis unchanged |
| EndToEnd.ConcreteStartLine | ohNetmon.cpp:457-473 | endpoint 10.0.0.5:9000, id 7, count 0, 12 bytes, 10000 us, ttl 1 gives the line "start 10.0.0.5:9000 7 0 12 10000 1" |
| EndToEnd.ConcreteSessionAccepted | OpenHome/ohNetmon.js:284-310 | the sender accepts that line with a 10 ms send interval |

## Left out

- Device discovery, command-line parsing, sockets, threads, timers, the keyboard loop and all
  console output are not modelled. Timestamps are parameters (`clock`, `rxClock`, in
  microseconds, i.e. `getTime() * 1000`).
- `Endpoint::AppendAddress` formats the receiver's address with a library that is not part of
  this model. The address is a string parameter. The end-to-end lemmas require it to contain
  no space and no colon, as a dotted IPv4 address does not.
- Sender.ParseInt: models `parseInt` only on whole decimal numerals. Signs, leading
  whitespace, hexadecimal prefixes, trailing garbage after digits and precision loss above
  2^53 are not modelled; every other field is taken as `NaN`. The `try`/`catch` blocks around
  `parseInt` are unreachable because `parseInt` does not throw, so their messages never appear.
- Sender.TxServer.OnData: each `data` event is modelled as one whole line. TCP may split or
  merge lines, and the handler does not reassemble them. A second accepted `start` starts a
  second interval without clearing the first. That leaked timer is not modelled.
- Sender.TxServer.constructor: `txFrame` starts undefined in the source; the model starts it
  at 0. No send reads it before an accepted `start` sets it to 0.
- Sender.Message: `dgram.send` delivery, TTL and loss are not modelled. A datagram is a
  value handed to the network.
- Analyser.Initial: the C++ constructor leaves the last-frame, last-time and time-base fields
  uninitialised. The model sets them to 0. Nothing reads them before the first accepted frame
  sets them.
- Analyser.ReceiverThread.Run: models the stream as everything the data connection delivers
  before it closes. The read that fails on a partial tail or a closed connection ends the
  loop, and its message is output only.
- Receiver.RxEndpoint.OnConnect: the `connect` event is modelled as the moment the client's
  report connection is established. Whether Node raises it on a server-side socket is not
  modelled.
- Control.SetupSession: the failures to find or contact a device are not modelled: each makes
  `main` return 1 before the start line is sent, and SetupSession assumes both endpoints were
  found and connected. The raw printing of the refused reply is output only. A lost reply ends `main` on an uncaught reader error, which
  the model records only as the outcome `ReplyLost`. The reply is read into a 1000-byte
  buffer. A reply line that does not fit makes the reader fail as well, but the model reads
  lines of any length, because the reader class is not part of this model.
