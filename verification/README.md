# SensorLink, verified

A Dafny 4.11 model of SensorLink's shared protocol library, server core, node command handling and client
line reader, with proofs of what they promise. `dafny verify dfyconfig.toml` checks the whole project.

SensorLink carries sensor readings from microcontroller nodes to a server as CRC-checked, byte-stuffed frames;
the server smooths them, latches alerts until an operator acknowledges them, fans everything out to dashboards
as text lines, and slows nodes down when a dashboard falls behind. The model follows the code's own layers:

| files | what they model |
|---|---|
| `Bits`, `Crc16`, `CrcDivision` | the CRC-16 loops, the bit-serial register behind them, the long division it computes; bursts and odd errors |
| `Polynomials`, `MachineWords`, `Divisors`, `CrcOrder`, `CrcFewErrors` | the register as a polynomial, the order of x, and errors of up to three bits |
| `Cobs` | the byte-stuffing loops and their inverse laws |
| `Common`, `Sequences`, `Modular`, `Split`, `Delimited` | shared types and facts, cutting streams at a delimiter, and what one damaged byte can do |
| `FrameEncoder`, `FrameParser`, `FrameStream`, `FrameErrors` | the frame encoder, the three-state parser, both ends together, and what is reported |
| `RingBuffer`, `SpscRing` | the ring buffer called by one thread, and under every interleaving of two |
| `Smoothing`, `StoreModel`, `StoreRuns`, `StoreFanout`, `DataStore` | the store: average, history, alerts, fan-out |
| `Messages`, `RateProtocol`, `Devices`, `Housekeeping`, `Liveness`, `Telemetry` | HELLO / CONFIG / SLOW_DOWN, sessions, the periodic sweep, silence, readings end to end |
| `Connection`, `Timers` | write buffering and epoll interest, the timer queue |
| `Decimal`, `TextProtocol`, `TextStream`, `LineLoops`, `LineGrammar`, `Subscriptions`, `Replies`, `Commands`, `Dashboards` | the line protocol, written by the server and read by the client; which lines are which; what a dashboard gets to see; commands and the store |
| `ServerRuns`, `ServerLinks`, `ServerOutput` | the whole server: accepts, bytes, commands and sweeps in any order; each device as a link; what dashboards are sent |

How things are represented:

- A byte is a number below 256; a `uint16_t` CRC register is its sixteen bits, most significant first.
- Each object the code updates in place is a class whose methods are proved to compute a function on values; the
  properties over whole runs are lemmas about those functions.
- The kernel's answers, clocks, hash-map iteration orders, callbacks, the bytes a device sends and, in the sweep, the
  bytes of a dashboard's lines are parameters,
  and the properties hold for all of them.
- Episode numbers of alerts, and the logs of what was sent, fired or told, are history added to state a
  property; no decision depends on them.

Where the code and its comments disagree, the model follows the code:

- "One lost or corrupted byte costs at most one frame" (proto/frame_parser.hpp:28) fails for a delimiter between
  two frames: losing or changing it always costs both. `OneByteCostsOneFrame` gives the exact condition, and
  `TwoFramesLostToOneByte` the smallest failing streams.
- server/store.hpp:108-110 says an excursion closes once the reading is below the threshold; the code also closes
  it at exactly the threshold. `ClosesAtThreshold` is a run that does, `OpenUntilAcknowledged` the exact condition.
- server/device_session.hpp:33-35 says every frame marks the device as heard from; the code does so for HELLO
  (by starting over), HEARTBEAT and SAMPLE of the right size only. `HeardExactly` is the exact condition,
  `TalkingDeviceIsEvicted` shows a device evicted right after a valid frame, and `GoneExactly` says what a sweep evicts.
- Nothing stops a caller from registering a subscriber twice, and it is then told of each new alert twice
  (`RegisteredTwiceToldTwice`). `LinesPerOpenAlert` gives the exact number for every run, and
  `ExactlyOneLinePerOpenAlert` the one line for callers that, like `accept_subscribers`, register a subscriber once.
- The 32-bit subtraction at server/store.cpp:103 overflows on readings a device can send (`ReadingsCanOverflow`).
  `RunsStayIn32Bits` says exactly which ranges of readings are safe; the store's other results use unbounded numbers
  and so describe the code on such ranges.
- Enqueueing zero bytes on an idle connection watches EPOLLOUT for nothing; `OutExactExactly` is the exact condition.
- proto/messages.hpp:34 says SLOW_DOWN lowers the rate; a session granted rate 0 is raised to 1 (`HelloOfZeroIsRaised`).
  `SweepsNeverRaise` is the exact condition.
- server/subscriber.cpp:44-46 says the arguments of ACK must be one decimal number; the code also takes a sign, and
  `ACK -1` acknowledges session 65535 (`MinusOneIsAcknowledged`). `AckAnsweredExactly` says which arguments are taken.
- proto/ring_buffer.hpp:60-61 calls `size` approximate while the other side is running. Called by the producer or the
  consumer it is exact for one of its two loads (`ProducerSees`, `ConsumerSees`); called by a third thread it can say
  full of a buffer that is empty throughout (`EmptyLooksFull`), and `ThirdThreadSees` says when it does not.

## Model

| member | source | states |
|---|---|---|
| Crc16.PolyIs | proto/crc16.hpp:9-15 | the polynomial x^16 + x^12 + x^5 + 1 is the constant 0x1021 |
| Crc16.InitIs | proto/crc16.hpp:10-16 | the initial register is the constant 0xFFFF |
| Crc16.Crc16Update | proto/crc16.hpp:19-29 | the eight-turn loop folds one byte into the register |
| Crc16.Crc16 | proto/crc16.hpp:32-38 | the loop over a buffer computes the CRC of its first `len` bytes |
| Crc16.FoldIsBitSerial | proto/crc16.hpp:11-29 | the byte-wise code equals a register fed one message bit at a time, most significant first |
| CrcDivision.CrcIsRemainder | proto/crc16.hpp:9-38 | for every message the CRC is the remainder of a schoolbook long division by 0x11021 of the message with sixteen zeros behind it and its first sixteen bits inverted |
| CrcDivision.CrcOfNothing | proto/crc16.hpp:32-38 | the CRC of nothing is 0xFFFF |
| Crc16.ResidueZero | proto/crc16.hpp:13-14 | a blob has residue 0 if and only if its last two bytes are, high byte first, the CRC of the rest |
| Crc16.DetectsBursts | README.md:125-129 | at any length, every error confined to 16 consecutive bits changes the CRC |
| Crc16.DetectsOddErrors | proto/crc16.hpp:9-38 | at any length, every error with an odd number of flipped bits changes the CRC |
| CrcOrder.OrderOfX | proto/crc16.hpp:9-28 | shifting a register d times gives it back exactly if d is a multiple of 32767: the order of x modulo the polynomial |
| CrcFewErrors.DetectsDoubleErrors | proto/crc16.hpp:19-38 | at any length, two flipped bits go unnoticed if and only if their distance is a multiple of 32767 |
| CrcFewErrors.DetectsThreeErrors | proto/crc16.hpp:19-38 | up to 4095 bytes, every error of one to three flipped bits changes the CRC |
| Cobs.EncodedSize | proto/cobs.hpp:29-32 | an encoding has exactly 1 + length + full-block count bytes, within the advertised maximum |
| Cobs.MaxSizeIsReached | proto/cobs.hpp:29-32 | the advertised maximum is reached at every length |
| Cobs.EncodeByRuns | proto/cobs.hpp:35-73 | the three equations, run by run, that determine every encoding |
| Cobs.EncodingHasNoZero | proto/cobs.hpp:8-10 | no encoding contains 0x00 |
| Cobs.DecodeUndoesEncode | proto/cobs.hpp:34-113 | decoding undoes encoding for every input of any length |
| Cobs.DecodeEncodeFrom | proto/cobs.hpp:45-110 | an encoding followed by more bytes decodes to its data, one zero, and the decoding of the rest |
| Cobs.EncodeUndoesDecode | proto/cobs.hpp:53-60 | re-encoding an accepted input gives it back, with 0x01 added exactly when it is empty or ends in a full block |
| Cobs.ChangedData | proto/cobs.hpp:77-113 | changing one data byte of an accepted input to another non-zero byte changes exactly the byte it decodes to |
| Cobs.DecodedPrefix | proto/cobs.hpp:77-113 | in inputs too short for a full block, what the first bytes decode to does not depend on the bytes behind them |
| Cobs.CobsEncode | proto/cobs.hpp:35-73 | succeeds if and only if the capacity is at least the exact size, and then writes the encoding |
| Cobs.EncodeByte | proto/cobs.hpp:45-69 | one turn of the encoder loop keeps written bytes plus encoding of the rest unchanged, or the result cannot fit |
| Cobs.CobsDecode | proto/cobs.hpp:77-113 | exact status (ok, overflow, invalid) and, on success, the decoded bytes |
| Cobs.CopyBlock | proto/cobs.hpp:88-100 | the inner loop copies one block, or reports the first fault it meets |
| FrameEncoder.FrameShape | proto/frame_encoder.hpp:38-41 | a body is non-empty and free of 0x00, and every frame fits the advertised size |
| FrameErrors.BlobLayout | proto/frame_encoder.hpp:53-64 | where type, size, payload and the two CRC bytes lie, and what number the latter are |
| FrameEncoder.BuildBlob | proto/frame_encoder.hpp:53-64 | the local buffer holds type, length, payload and big-endian CRC |
| FrameEncoder.EncodeFrame | proto/frame_encoder.hpp:43-74 | refuses oversized payloads, otherwise succeeds exactly when the frame fits, and writes the frame |
| FrameParser.FrameParser.PushByte | proto/frame_parser.hpp:57-88 | one byte through the transition table updates state, buffer, counters and error as the step function says |
| FrameParser.FrameParser.FinishFrame | proto/frame_parser.hpp:130-159 | decode, length and CRC checks in order, with the right error and counter |
| FrameParser.FrameParser.PushBytes | proto/frame_parser.hpp:92-99 | a run of bytes hands the sink exactly the frames completed, in order |
| FrameParser.ParserRefinesSplit | proto/frame_parser.hpp:57-88 | from a boundary, over every stream, the machine equals "split at 0x00, decode each segment": frames, both counters, state and buffer |
| FrameParser.FeedConcat | proto/frame_parser.hpp:90-99 | cutting the input anywhere changes nothing |
| FrameStream.DeliveredExactly | proto/frame_parser.hpp:119-159 | a segment is delivered as f if and only if it is the encoder's body for f, possibly without the 0x01 behind a final full block |
| FrameErrors.VerdictExactly | proto/frame_parser.hpp:130-159 | which error a segment gets, from the segment alone: no encoding within the limit, wrong size byte, wrong CRC, or none |
| FrameErrors.LastErrorExactly | proto/frame_parser.hpp:57-88 | after every byte of every stream, what `last_error` reports |
| FrameStream.DamagedBlobIsRejected | proto/frame_parser.hpp:148-152 | damage that keeps the decoded length and is a burst, odd, or of at most three bits is never delivered |
| FrameStream.EncodeAllAppend | proto/frame_encoder.hpp:72-73 | the stream of a list of frames is their encodings back to back |
| FrameStream.DelimiterReachesBoundary | proto/frame_parser.hpp:23-27 | from any state, after any garbage, a delimiter leads to a frame boundary |
| FrameStream.RoundTrip | proto/frame_parser.hpp:10-28 | after any garbage ending in 0x00, any list of frames in any chunks is delivered exactly, with no drops |
| FrameStream.FrameDamageIsConfined | proto/frame_parser.hpp:27-28 | replacing one body by arbitrary bytes leaves all other frames delivered in order |
| FrameStream.ChangedDataCostsThatFrame | proto/frame_parser.hpp:27-28 | on the wire, changing a data byte of a frame to another non-zero byte always loses that frame, and no other |
| FrameStream.OtherLengthIsRejected | proto/frame_parser.hpp:130-147 | damage behind the third byte that changes the length of a body with at most 249 payload bytes is never delivered |
| FrameStream.LostByteCostsThatFrame | proto/frame_parser.hpp:27-28 | losing any byte behind the third of such a frame always loses that frame, and no other |
| FrameStream.LostDelimiterCostsBoth | proto/frame_parser.hpp:27-28 | losing or changing the delimiter between two frames costs exactly those two |
| FrameStream.OneByteCostsOneFrame | proto/frame_parser.hpp:28 | one damaged byte costs at most one frame if and only if it is not a delimiter with a frame behind it |
| FrameStream.TwoFramesLostToOneByte | proto/frame_parser.hpp:28 | any frame sent twice with the inner delimiter lost delivers nothing |
| RingBuffer.RingBuffer.Push | proto/ring_buffer.hpp:27-36 | appends, or refuses exactly when all but one slot are used |
| RingBuffer.RingBuffer.Pop | proto/ring_buffer.hpp:40-48 | removes the oldest, or refuses exactly when empty |
| RingBuffer.RingBuffer.Size | proto/ring_buffer.hpp:62-66 | the index arithmetic gives the number of elements |
| RingBuffer.RingBuffer.Empty | proto/ring_buffer.hpp:50-53 | true exactly when nothing is held |
| RingBuffer.RingBuffer.Full | proto/ring_buffer.hpp:55-58 | true exactly when Capacity - 1 elements are held |
| SpscRing.Fifo | proto/ring_buffer.hpp:8-15 | under every interleaving, popped then held equals pushed, and at most Capacity - 1 are held |
| SpscRing.NoSlotRace | proto/ring_buffer.hpp:33-46 | the slot being written is never being read nor holds an unread value |
| SpscRing.RefusalsAreJustified | proto/ring_buffer.hpp:30-44 | push (pop) gives up exactly when the buffer is full (empty) as it loads the other index |
| SpscRing.PopReturnsOldest | proto/ring_buffer.hpp:40-48 | the value a pop holds is the oldest one not yet popped, whatever the producer does meanwhile |
| SpscRing.ProducerSees | proto/ring_buffer.hpp:50-66 | asked by the producer, `size` and `full` tell the count at their head load, and `empty` at its head load, whatever the consumer does |
| SpscRing.ConsumerSees | proto/ring_buffer.hpp:50-66 | asked by the consumer, the same for the tail load |
| SpscRing.ThirdThreadSees | proto/ring_buffer.hpp:60-66 | asked by anybody else, `size` is pushes at the tail load less pops at the head load modulo the capacity, and that number itself exactly if nothing pushed in between was popped |
| SpscRing.EmptyLooksFull | proto/ring_buffer.hpp:60-66 | two loads around one push and one pop of an empty buffer say full |
| Smoothing.AverageWithin | server/store.cpp:99-104 | the average stays between the smallest and largest sample |
| Smoothing.MovesAQuarter | server/store.cpp:99-104 | a sample moves the average by exactly the floor of a quarter of the difference |
| Smoothing.OverflowFreeRange | server/store.cpp:103 | no samples of a range overflow the 32-bit subtraction if and only if the range is narrower than 2^31 |
| Smoothing.SteadyReachesLimit | server/store.cpp:99-104 | constant input is reached exactly from above, and only to within three from below |
| Smoothing.CrossesThreshold | server/store.cpp:103-111 | constant input lifts an average over a threshold eventually if and only if it is at least four above it |
| StoreModel.KeysAreDistinct | server/store.cpp:41-48 | different (session, metric) pairs get different keys |
| StoreRuns.HistoryReturnsLatest | server/store.cpp:61-91 | history is the last 64 samples recorded for that pair, oldest first, in every run |
| StoreRuns.AverageStaysInRange | server/store.cpp:99-104 | in every run the stored average lies within the samples recorded |
| StoreRuns.EachSampleMovesAQuarter | server/store.cpp:99-104 | in every run the first sample is the average and each further one moves it by exactly the floor of a quarter of the difference |
| StoreRuns.AverageOnlyMovesBySamples | server/store.cpp:83-104 | nothing else touches it |
| StoreRuns.RunsStayIn32Bits | server/store.cpp:99-104 | over all runs, the samples of a session and metric never overflow if and only if their range is narrower than 2^31 |
| StoreRuns.WideStepOverflows | server/store.cpp:103 | two readings 2^31 apart are a run that does |
| StoreRuns.HotIsAlerted | server/store.cpp:111-121 | in every reachable state a smoothed temperature over 5500 has an open excursion alert |
| StoreRuns.OpenUntilAcknowledged | server/store.cpp:155-186 | over any further run an open excursion stays open in its episode, unchanged, if and only if no ack of that session came while the average was at most 5500 |
| StoreRuns.ClosesAtThreshold | server/store.cpp:175-182 | a run whose average is exactly 5500: the alert is open, and ack closes it |
| StoreRuns.OnlyHotSampleOpens | server/store.cpp:111-121 | an excursion opens exactly when a temperature sample lifts the average over 5500, recording that average and time |
| StoreRuns.RecordFixedWithinEpisode | server/store.hpp:105-120 | over any run an excursion record is unchanged or belongs to a later episode |
| StoreRuns.RepeatedAcksReportMore | server/store.hpp:111-120 | two acks in one episode report non-decreasing durations |
| StoreRuns.ExcursionFollowsRun | server/store.cpp:83-121 | in every run an excursion is open, and since when, as the samples and acks alone determine |
| StoreRuns.AckReportsExcursion | server/store.cpp:155-186 | ack reports an excursion exactly if one is open, as still active exactly if it stays open, and the whole milliseconds since the sample that opened it |
| StoreRuns.OfflineSinceFirstLatch | server/store.cpp:123-131 | an OFFLINE alert is open exactly if a latch came since the last ack of that session, keeps the first latch's times, and ack reports the time since |
| StoreRuns.OfflineUntilAcknowledged | server/store.cpp:164-169 | over any further run an open OFFLINE alert stays open in its episode, unchanged, if and only if the session was not acknowledged |
| StoreRuns.SteadyInputDecides | server/store.cpp:99-121 | enough steady input at most 5500 lets ack close; at least 5504 latches |
| StoreRuns.JustAboveNeverLatches | server/store.cpp:99-121 | steady input up to 5503 never latches a quiet session |
| StoreRuns.SteadyLatchesIff | server/store.cpp:99-121 | steady input latches a quiet session if and only if it is at least 5504 |
| StoreFanout.NotifyTellsEachEntry | server/store.cpp:143-153 | each subscriber is told as often as it is listed, nobody else is |
| StoreFanout.ReadingsToldExactly | server/store.cpp:107-109 | in every run a subscriber has been handed exactly the readings recorded since it registered, in order, each as often as it was listed |
| StoreFanout.RecordTellsInOrder | server/store.cpp:106-121 | one sample hands out its reading first and then the alert it opens |
| StoreFanout.OpenExactly | server/store.cpp:20-34 | what is open, field by field |
| StoreFanout.ReplaysInOrder | server/store.cpp:20-34 | a new subscriber is told session by session, of each the excursion right before OFFLINE |
| StoreFanout.LinesPerOpenAlert | server/store.cpp:20-39 | in every run, however often it registers, a subscriber has had one line per open alert older than its latest registration, and for a later one a line per listing when it latched |
| StoreFanout.ExactlyOneLinePerOpenAlert | server/store.cpp:20-39 | in every run a registered subscriber has had exactly one line per open alert episode since registering |
| StoreFanout.LatchTellsPerListing | server/store.cpp:115-131 | a new alert, excursion or OFFLINE, reaches a subscriber exactly as often as it is registered |
| StoreFanout.RegisteredTwiceToldTwice | server/store.cpp:20-34 | a run from the empty store in which a subscriber registered twice is told of one alert twice |
| DataStore.DataStore.Tell | server/store.cpp:107-109 | the loop over the subscriber list |
| DataStore.DataStore.AddSubscriber | server/store.cpp:20-34 | registers and replays every open alert |
| DataStore.DataStore.RemoveSubscriber | server/store.cpp:36-39 | drops every occurrence |
| DataStore.DataStore.UpdateHistory | server/store.cpp:86-104 | ring slot, indices and average |
| DataStore.DataStore.Record | server/store.cpp:83-121 | history, average, fan-out and latching of one sample |
| DataStore.DataStore.LatchOffline | server/store.cpp:123-131 | latches unless one is open |
| DataStore.DataStore.Ack | server/store.cpp:155-187 | new alert state and the reported durations |
| DataStore.DataStore.History | server/store.cpp:61-81 | the loop that reads the ring out |
| Messages.ConfigRoundTrip | proto/messages.hpp:51-55 | the node reads back the CONFIG the server wrote |
| Messages.SlowDownRoundTrip | proto/messages.hpp:64-67 | the node reads back the SLOW_DOWN the server wrote |
| Messages.HelloRoundTrip | proto/messages.hpp:44-49 | the server reads back the HELLO fields it uses from the node's packed struct |
| Messages.SampleRoundTrip | proto/messages.hpp:57-62 | the server reads back every field of a SAMPLE, negative values included, and takes it for nothing else |
| Messages.ParsesExactly | server/ingest.cpp:29-54 | which frames are which messages, by type and exact size |
| Messages.ConfigLayout | proto/messages.hpp:51-55 | the bytes of a CONFIG: packed, least significant first |
| Messages.SlowDownLayout | proto/messages.hpp:64-67 | the bytes of a SLOW_DOWN |
| Messages.HelloLayout | proto/messages.hpp:44-49 | the bytes of a HELLO |
| Messages.SampleLayout | proto/messages.hpp:57-62 | the bytes of a SAMPLE with a negative value |
| RateProtocol.NodeObeysDelivered | node/tasks/command_task.cpp:64-84 | the command task obeys exactly the frames its parser delivers, in order |
| RateProtocol.NodeFollowsLast | node/tasks/command_task.cpp:64-84 | after any bytes the node has the rate it was last told (2 before that), the session it was last given, and is connected exactly from the first CONFIG on |
| RateProtocol.ObeysExactly | node/tasks/command_task.cpp:64-84 | what the node does with a frame, by its type, size and bytes |
| RateProtocol.GrantedExactly | server/device_session.cpp:28-33 | the granted rate is the smaller of the offer and ten |
| RateProtocol.MaskExactly | server/device_session.cpp:34-38 | bit i of the mask is set exactly for metrics offered, of at most eight |
| RateProtocol.RateAgreement | server/ingest.cpp:74-96 | in every run, delivering the bytes in flight leaves the node with the session's id and rate, which never exceeds 10 |
| RateProtocol.DeliveringSettles | node/tasks/command_task.cpp:49-86 | delivering byte by byte leads to that settled node and changes nothing on the server |
| RateProtocol.SweepsHalve | server/main.cpp:204-212 | between HELLOs only congested sweeps change the rate, each halving it |
| RateProtocol.HalvedTimesIsQuotient | server/main.cpp:209-210 | k sweeps give max(1, rate / 2^k) |
| RateProtocol.SweptRate | server/main.cpp:204-212 | in every run without a new HELLO, k congested sweeps and delivery leave server and node at max(1, rate / 2^k) |
| RateProtocol.ThreeSweepsSuffice | server/main.cpp:204-212 | three or more congested sweeps without a HELLO bring session and node to rate 1 |
| RateProtocol.SweepsNeverRaise | proto/messages.hpp:34 | congested sweeps do not raise the rate if and only if it was at least 1 |
| RateProtocol.SamplesStayInSession | server/ingest.cpp:64-72 | a device records only under its own session id, and nothing before HELLO |
| RateProtocol.IdsDiffer | server/main.cpp:139-140 | session ids collide exactly at multiples of 65536 accepts |
| RateProtocol.IdsCountUp | server/main.cpp:139-140 | the first id is 1, each further one the next, wrapping behind 65535 |
| Telemetry.HelloArrives | server/ingest.cpp:74-79 | the bytes of a HELLO frame open the session at the granted rate and put exactly one CONFIG frame on the wire |
| Telemetry.HelloOfZeroIsRaised | server/main.cpp:204-212 | a HELLO that offers 0 is granted 0, and the first congested sweep raises it to 1 |
| Telemetry.SamplesArrive | server/ingest.cpp:13-72 | the bytes of any list of SAMPLE frames reach the store as exactly those readings, in order, under the session's own id |
| Telemetry.ReadingsReachHistory | node/tasks/telemetry_task.cpp:34-48 | from the node's frames to `history`, after any run of the store and with any other traffic interleaved: per metric the last 64 readings, oldest first, values and timestamps intact |
| Telemetry.ReadingsCanOverflow | server/store.cpp:103 | two SAMPLE frames a device can send whose smoothing leaves 32 bits |
| Liveness.HeardExactly | server/device_session.hpp:33-36 | a frame marks the device as heard from if and only if its type and size are those of a HELLO, HEARTBEAT or SAMPLE, and any other frame changes nothing |
| Liveness.ActivityIsLastHeard | server/ingest.cpp:29-79 | in every run a session's activity time is when the bytes that arrived last completed such a frame |
| Liveness.UptimeIsLastTold | server/ingest.cpp:57-79 | in every run the uptime a session holds, and an OFFLINE alert shows, is the one its device told last since HELLO |
| Liveness.SilentExactly | server/device_session.cpp:14-17 | a session has timed out exactly if the device said HELLO and everything it said that counts is older than the timeout |
| Liveness.GoneExactly | server/main.cpp:185-203 | what a sweep evicts, in terms of the bytes the device sent |
| Liveness.TalkingDeviceIsEvicted | server/device_session.hpp:33-36 | a device that sends a valid frame of another type or size just before the sweep is evicted as silent |
| Devices.DeviceSession.HandleHello | server/device_session.cpp:28-39 | rate capped at 10, one mask bit per metric offered up to eight, CONFIG to match |
| Devices.IngestConnection.OnFrame | server/ingest.cpp:29-72 | dispatch by type and payload size |
| Devices.IngestConnection.OnHello | server/ingest.cpp:74-79 | a fresh session and a CONFIG frame |
| Devices.IngestConnection.SendSlowDown | server/ingest.cpp:81-88 | a no-op before HELLO, otherwise new rate and SLOW_DOWN frame |
| Devices.IngestConnection.SendFrame | server/ingest.cpp:90-96 | the encoder cannot fail in that buffer, so the frame is always enqueued whole |
| Devices.IngestConnection.OnReadable | server/ingest.cpp:13-27 | every byte goes through parser and dispatcher, and the store calls come in order |
| Devices.CommandTask.OnByte | node/tasks/command_task.cpp:64-84 | CONFIG sets rate, id and connected; SLOW_DOWN sets the rate |
| Housekeeping.SweepOutcome | server/main.cpp:168-219 | exactly the closed or silent devices and the closed dashboards go; every other device with a session gets one SLOW_DOWN frame for max(1, rate / 2) and goes at that rate exactly if a connected dashboard has 65536 bytes or more unsent, and is otherwise untouched; the other dashboards get the lines of what the store told them; an OFFLINE alert is open exactly if it was or a lost device had that session, with that device's uptime; no other alert, and no history, changes; the next sweep is due a second later |
| Housekeeping.NextSweepInASecond | server/main.cpp:215-218 | the next sweep has run by a call of the event loop exactly if that is a second or more after it was armed |
| Housekeeping.SweepIsStoreRun | server/main.cpp:168-219 | to the store a sweep is a run of removals and latches, so every property of its runs survives |
| ServerRuns.StoreIsRun | server/main.cpp:129-219 | in every run of the server its store is a run of the store from empty |
| ServerRuns.ServerRegistersOnce | server/main.cpp:150-166 | accepting and sweeping register a subscriber only while it is not registered, and replay every alert |
| ServerRuns.EveryDashboardToldOnce | server/store.cpp:20-39 | in every run of the server each connected dashboard has been told exactly once of each open alert |
| ServerRuns.DeviceOutputIsWhole | server/ingest.cpp:90-96 | in every run, bytes a device's socket took then bytes buffered are every CONFIG and SLOW_DOWN frame sent to it, in order |
| ServerLinks.DeviceIsLink | server/main.cpp:129-219 | in every run each device's ingest is the server end of a link with the bytes read from it and the sweeps, congested exactly under a backlog |
| ServerLinks.EveryDeviceSettles | node/tasks/command_task.cpp:64-84 | in every run a node that has read what its socket took and its buffer holds agrees with the server on session id and rate |
| ServerLinks.ThreeBacklogsSuffice | server/main.cpp:204-212 | three sweeps of the server that find a backlog bring a session to rate 1, without a HELLO |
| ServerOutput.DashboardOutputIsWhole | server/subscriber.cpp:71-94 | in every run, bytes a dashboard's socket took then bytes buffered are the lines of everything its subscriber was told, in order, with its replies in between |
| ServerOutput.QuietDashboardHasItsLog | server/subscriber.cpp:71-94 | without commands they are the lines of its whole log and nothing else |
| ServerRuns.EveryOperatorSeesOnce | server/store.hpp:69-72 | from device bytes to the client behind a connected dashboard: one alert item for each open alert, and everything fits the line protocol |
| Housekeeping.Housekeeper.SweepDashboards | server/main.cpp:172-183 | closed subscribers leave table and store, congestion of the others is found |
| Housekeeping.Housekeeper.SweepDevices | server/main.cpp:185-214 | the device table walk, with what it puts on device and dashboard connections |
| Housekeeping.Housekeeper.Housekeeping | server/main.cpp:168-219 | the two walks together, and the timer for the next sweep |
| Connection.WriteConservation | server/connection.cpp:47-113 | bytes sent then bytes buffered equal bytes enqueued, in order, in every run |
| Connection.NeverWatchedForNothing | server/connection.cpp:57-66 | while open: pending output is watched, input is watched exactly below the high-water mark, never neither |
| Connection.EnqueueKeepsOutExact | server/connection.cpp:47-51 | enqueueing keeps EPOLLOUT exact if and only if something is pending afterwards |
| Connection.OutExactExactly | server/connection.cpp:47-113 | over any run EPOLLOUT is always watched exactly while output is pending if and only if nothing is never enqueued on an idle open connection |
| Connection.OutExactOverRuns | server/connection.cpp:92-113 | in particular with non-empty enqueues |
| Connection.SendsAllItCan | server/connection.cpp:92-108 | a write call sends as much as the kernel takes, up to the whole buffer |
| Connection.WriteClosesExactly | server/connection.cpp:92-108 | a write call closes the connection exactly if a fatal error came while output was left |
| Connection.ReadsAllThatArrives | server/connection.cpp:68-90 | a read call appends everything that arrived, in order, also before the peer closed |
| Connection.ReadClosesExactly | server/connection.cpp:68-90 | a read call closes it exactly if the peer closed or an error came before the kernel had no more |
| Connection.ReadConservation | server/connection.cpp:43-90 | bytes consumed then bytes buffered equal bytes that arrived, in order, in every run |
| Connection.Connection.Enqueue | server/connection.cpp:47-51 | appends and watches EPOLLOUT |
| Connection.Connection.Write | server/connection.cpp:92-113 | the send loop, including partial sends, EINTR and fatal errors |
| Connection.Connection.Read | server/connection.cpp:68-90 | the receive loop |
| Timers.TimersFireInOrder | server/event_loop.cpp:29-44 | over a run no timer fires before its deadline or twice, and deadlines fire in order |
| Timers.ScheduledFiresExactly | server/event_loop.cpp:29-44 | over any run, a timer armed at `now` with `delay` has fired by a later call at `at` if and only if `at - now >= delay` |
| Timers.CallbackTimerFiresExactly | server/event_loop.cpp:29-44 | the same for a timer armed by the callback of any timer fired in any call |
| Timers.NoTimerIsLost | server/event_loop.cpp:29-44 | in every run each timer ever added is either pending or has fired |
| Timers.SweepStaysArmed | server/main.cpp:215-218 | if every callback arms one timer, as the sweep does, as many are always pending as were scheduled |
| Timers.NothingDueRemains | server/event_loop.cpp:33-44 | a call fires everything due and undoes nothing |
| Timers.DueTimersFire | server/event_loop.cpp:33-44 | a call fires a pending timer if and only if it is due, and keeps it if and only if it is not |
| Timers.FiringMakesProgress | server/event_loop.cpp:35-43 | each firing leaves one due timer fewer, whatever its callback adds, so a call ends |
| Timers.RearmingEnds | server/event_loop.cpp:33-44 | a call whose callbacks each arm another timer ends if and only if that timer lies in the future |
| Timers.EventLoop.Schedule | server/event_loop.cpp:29-31 | adds a timer due the delay after now |
| Timers.EventLoop.FireDue | server/event_loop.cpp:33-44 | the firing loop, callbacks adding to the same queue |
| TextProtocol.UpdateReadBack | client/line_protocol.cpp:11-46 | the client recovers every field of every sample and alert line the server writes |
| LineGrammar.SampleExactly | client/line_protocol.cpp:11-19 | exactly which lines the client takes for a sample, and with which fields |
| LineGrammar.AlertExactly | client/line_protocol.cpp:26-46 | exactly which lines it takes for an alert |
| LineGrammar.MalformedExactly | client/line_protocol.cpp:72-86 | a line counts as malformed exactly if it is neither |
| Replies.SampleLines | server/subscriber.cpp:71-84 | sample lines, spelled out |
| Replies.ExcursionLine | server/subscriber.cpp:86-90 | an excursion line, spelled out |
| Replies.OfflineLine | server/subscriber.cpp:91-94 | an offline line, spelled out |
| TextProtocol.StatsIsUnrecognized | server/subscriber.cpp:40-42 | a STATS reply is neither sample nor alert |
| TextProtocol.AckIsUnrecognized | server/subscriber.cpp:54-57 | an ACK_OK reply is neither sample nor alert |
| Replies.AckReplyDetermines | server/subscriber.cpp:54-57 | the reply to ACK determines session, both durations and whether the excursion goes on |
| Replies.StatsReplyDetermines | server/subscriber.cpp:40-42 | the reply to STATS determines the count and the metric shown |
| Subscriptions.StatsAnswers | server/subscriber.cpp:40-42 | STATS is answered with the metric asked for last and the number of readings sent so far, in every run |
| Subscriptions.OtherLinesIgnored | server/subscriber.cpp:60-62 | a line with any other verb does nothing |
| Replies.StripExactly | client/line_protocol.cpp:57-64 | one carriage return before the newline is dropped and nothing else |
| TextStream.SubscribeCommand | server/subscriber.cpp:35-37 | SUBSCRIBE takes whatever follows its space as the metric |
| TextStream.UnsubscribeCommand | server/subscriber.cpp:38-39 | UNSUBSCRIBE clears the metric, whatever follows it |
| Decimal.ReadUnsignedExactly | server/subscriber.cpp:49-52 | which texts stream extraction reads as one unsigned number with nothing behind it, and as which |
| TextStream.MinusOneIsAcknowledged | server/subscriber.cpp:44-52 | `ACK -1` acknowledges session 65535 |
| Commands.AcksReachStore | server/subscriber.cpp:43-58 | a dashboard's ACK commands in any chunks, with anything else happening to the store in between, acknowledge their sessions in order and are answered with what the store reports at that time |
| Commands.LoopExecutes | server/subscriber.cpp:11-31 | the scanning loop, given what the store reports to each line in turn, is this joint run of commands and store |
| Commands.AckedExactly | server/subscriber.cpp:43-58 | a line acknowledges a session in the store exactly if it is answered as an acknowledgement |
| TextStream.AckAnsweredExactly | server/subscriber.cpp:43-58 | ACK is answered for a session exactly if its arguments are white space, an optional sign, decimal digits of at most 65535 and white space that stand for it, and otherwise changes nothing |
| TextStream.TextRoundTrip | client/line_protocol.cpp:50-92 | any lines in any chunks give exactly their items in order, and leave exactly the unfinished bytes buffered |
| TextStream.CountersAgree | server/subscriber.cpp:76-94 | the client's sample count is the server's updates_sent, its alert count the alerts published, its malformed count the replies |
| Subscriptions.ClientSeesShown | server/subscriber.cpp:76-94 | over any run of publications and commands, in any chunks, the client reads exactly, in order, the alerts published and the readings published while their metric was the one asked for last |
| Subscriptions.CountersMean | server/subscriber.cpp:76-84 | the counters on both ends are the number of those readings |
| Dashboards.ClientSeesAlerts | client/line_protocol.cpp:50-92 | the client's alert items are exactly the alerts the store told its subscriber, in order, whatever commands and chunks |
| Dashboards.OperatorSeesEachAlertOnce | server/store.hpp:105-120 | from the store to the client: one alert item for each open alert episode, and it is that alert's |
| Dashboards.RunFits | server/subscriber.cpp:76-94 | over 32-bit readings everything the store tells a subscriber fits the line protocol |
| LineLoops.LineClient.HandleIncoming | client/line_protocol.cpp:50-92 | a chunk appended and scanned: lines read, counters updated, rest kept |
| LineLoops.LineClient.ScanBuffer | client/line_protocol.cpp:52-91 | the scanning loop and the erase |
| LineLoops.LineClient.Take | client/line_protocol.cpp:72-86 | each line counts in exactly one counter |
| LineLoops.SubscriberConnection.OnReadable | server/subscriber.cpp:11-31 | every complete line is executed in order, the rest stays buffered |
| Split.SegmentsResume | client/line_protocol.hpp:9-15 | splitting may stop anywhere and resume with the unfinished rest |

## Left out

- Sockets, accept and listen, epoll calls, argument parsing, printing, the benchmark and the integration test: I/O.
- FreeRTOS wrappers, UART driver, start-up code, the task loops and the sensor task, everything under node/cmsis: hardware.
  Of the telemetry task the SAMPLE frame it builds is modelled.
- Weak memory: `SpscRing` interleaves atomic steps sequentially, which the acquire/release pairs justify; the
  interleaved machine is a value with a step function, not a pair of running objects.
- Pointer lifetime: a delivered frame's payload is a copy here, not a view into the parser's storage.
- Counters of type size_t are unbounded integers, and so are readings; `StoreRuns.RunsStayIn32Bits` says where 32 bits differ.
- Heartbeats sent by the node, and the UART shared by two tasks: bytes from the node are arbitrary, and `Telemetry` says
  what happens when they are whole HELLO and SAMPLE frames.
- Node tasks other than command handling, and the mutex around the shared configuration.
- The eviction of a device ends its link; reconnecting devices get a new id and a new link.
- `proto/static_vector.hpp`: a bounded vector, easy members only.
- Stream extraction is modelled for words and decimal integers as the GNU library reads them, not in general.
