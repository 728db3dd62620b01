# RickyNet: a verified model

RickyNet lets a Windows machine use a phone's cellular data over a cable. Windows takes IP packets
from a virtual adapter (Wintun), frames each as a two-byte big-endian length and the packet, and
pushes the frames down a byte stream; the phone deframes them into a packet device that a user-space
netstack drives, and replies come back the same way. This project models the parts of RickyNet whose
correctness is a matter of order, framing and interleaving, and proves what they promise for every
input and every run.

`dafny verify dfyconfig.toml` checks all of it.

## How it is built

Code that changes state step by step is modelled as classes and loops, each method tied by its
`ensures` to a function of the old state or of its inputs: the frame decoder, the readers and writers
over byte streams, the packet device, the reader, writer and pump loops, the logger, the log store,
the route table, the shared state, the usbmux exchange and the argument parser.

Where several threads or queues are involved, a module adds a run model: a state, a list of events (one
per step of one thread, or per thing the outside may do), and `Run`, which folds any list of events.
An event that cannot happen in a state is skipped, so a theorem about all event lists is a theorem about
all interleavings. The run models use the same functions as the methods: `UploadPipeline` reads the
device by `Device.AfterRead` and `Device.ReadOut`, and `LogStore` runs the blocks by the functions that
specify the class.

| module | models |
|---|---|
| Bytes | bytes, fixed-width integers, shared result types |
| Framing, FrameDecoding, Streams | the frame codec: the reference parse, the incremental decoder, the blocking reader and writer |
| Device, Pumps | the loops at the two ends of the cable, taken one by one |
| Cable | what a stream of frames conserves between its two ends, in either direction |
| UploadPipeline, DownloadPipeline | all of them together, over every interleaving and every failure |
| SharedState, Worker, CoreLifecycle | the life of a connection, and of the phone core |
| Logger, LogStore | log lines from any thread to the ring, the callback, the screen and the file |
| Routing | the capture routes, over longest-prefix match |
| Usbmux, Icmp, CommandLine | usbmux messages, echo replies, arguments and their quoting |

## Assumptions

- Calls into Windows, the network and the libraries are events or parameters that may go either way. A
  stream delivers bytes in order and may break after any byte; `Streams.ByteSink` is quantified over the
  byte at which it breaks.
- The system routes to the longest matching prefix, and among those to the lowest metric plus interface
  metric (longest match, section 5.2.4.3 of RFC 1812). Creating a row that exists fails; deleting a row
  that exists succeeds. Closing the adapter deletes the rows on it, and no others (win/src/tun.rs:3-6).
- A Wintun session may fail at any time, but need not: on an idle one `receive_blocking` waits. A session that is
  shut down takes no more packets, hands out those still in its ring, and then fails. A write may wait for the peer
  for ever; on a socket that has been shut down it ends, and so does a read.
- Integer arithmetic is that of a release build. 16-bit and 32-bit truncation is written out; the 64-bit
  byte counters are unbounded.
- A command line is split by the Microsoft C rules as Rust's own start-up code applies them: inside
  quotes, a doubled quote is a literal quote and the quotes stay open.

## Where the code and its documentation differ

The model follows the code.

- The decoder's documentation (rickynet-wire/src/lib.rs:81-82) says that its memory stays bounded by about one
  frame. `BoundedExactly` says for which consumers: those that never let more than so many bytes be pushed
  before `next_frame` finds nothing, or leaves nothing unread, again. `OneForOneCatchesUp` is a consumer of that
  kind, the one of the repository's own test; `OneBehindNeverCompacts` is one that pops after every push and
  still keeps every byte it was given.
- `encode_frame` cuts a packet of more than 65535 bytes in a release build, so `RoundTripExactly` is an
  if-and-only-if. `write_frame` refuses such a packet, which ends the upload pump; the phone's writer
  task drops it and carries on.
- `connect_inner` returns early if duplicating the stream fails (win/src/worker.rs:85-86), past the removal of the
  routes. Dropping the adapter takes the capture routes with it, as win/src/tun.rs:3-6 says, but not a Wi-Fi
  carve-out, which is on the physical interface. `Worker.RunConnect` says exactly when the route table is as it was.
- The counters are documented as reset on each `rn_start` (rickynet-core/src/lib.rs:35). A thread that a concurrent
  `rn_stop` has yet to join may still add to them: `CountersOwnExactly` says when they are the new thread's own.
- An empty frame makes `poll_read` complete with no bytes, which the netstack would take for the end of
  the stream. `LooksLikeEofExactly` says exactly when, and `NeverLooksLikeEof` that it does not happen if
  Wintun never hands out an empty packet.
- The quoting used for the elevated restart (win/src/elevation.rs:57-62) does not double backslashes before a
  quote. `RelaunchPreservesExactly` says for which argument lists it still works; `TrailingBackslashLost` is a family
  for which it does not.

## Model

| member | source | states |
|---|---|---|
| Framing.ParseReassembles | rickynet-wire/src/lib.rs:109-129 | the frames of any byte string, re-encoded, followed by the incomplete rest, are that byte string |
| Framing.ParseAppend | rickynet-wire/src/lib.rs:76-79 | reading on after more bytes arrive resumes exactly where the first parse stopped |
| Framing.ParseUnique | rickynet-wire/src/lib.rs:150-157 | a split of a stream into whole frames and an incomplete rest is its parse: decoding is unique |
| Framing.RoundTrip | rickynet-wire/src/lib.rs:59-66 | any list of packets that fit a frame is read back from its encoding with nothing left over |
| Framing.RoundTripExactly | rickynet-wire/src/lib.rs:59-66 | one packet survives `encode_frame` if and only if it has at most 65535 bytes |
| Framing.FrameLayout | rickynet-wire/src/lib.rs:9-18 | a frame is the length, high byte first, and then the packet |
| Framing.EncodingInjective | rickynet-wire/src/lib.rs:59-66 | two lists of packets with the same encoding are the same list |
| Framing.PrefixFree | rickynet-wire/src/lib.rs:59-66 | no frame is a proper prefix of another packet's frame |
| Framing.CutStream | rickynet-wire/src/lib.rs:148-157 | a stream cut at any byte decodes to an in-order prefix of what was sent |
| Framing.ParseCutLast | rickynet-wire/src/lib.rs:148-157 | whole frames followed by a cut one: just the whole ones are read |
| Framing.FramesAfter | rickynet-wire/src/lib.rs:109-129 | whole frames in front of anything are read first and do not disturb what follows |
| Framing.FramableOnlyKeeps | rickynet-core/src/device.rs:101-105 | of packets of at most 65535 bytes the writer task leaves none out |
| Framing.OneDue | win/src/worker.rs:136-139 | exactly the packets of 1 to 65535 bytes are due at Wintun |
| Framing.AllDue | win/src/worker.rs:136-139 | packets of 1 to 65535 bytes are all due, in order |
| Framing.DeliverableFramable | rickynet-core/src/device.rs:101-105 | leaving out oversize packets changes nothing about those due |
| FrameDecoding.FrameDecoder.Push | rickynet-wire/src/lib.rs:97-99 | the unread bytes grow by exactly the data pushed |
| FrameDecoding.FrameDecoder.Buffered | rickynet-wire/src/lib.rs:103-105 | the count is the number of unread bytes |
| FrameDecoding.FrameDecoder.NextFrame | rickynet-wire/src/lib.rs:109-129 | a frame is returned if and only if the unread bytes start with a whole one; re-encoded in front of what is left it gives the old unread bytes; otherwise nothing is consumed and at most 69631 bytes are held |
| FrameDecoding.FrameDecoder.Compact | rickynet-wire/src/lib.rs:134-145 | the unread bytes stay, and fewer than 4096 consumed ones are kept |
| FrameDecoding.RunIsSound | rickynet-wire/src/lib.rs:90-146 | after any calls, the bytes pushed are the frames returned, re-encoded, followed by the unread bytes; bytes shifted are at most 16 times the bytes that have left the buffer |
| FrameDecoding.CompactionIsAmortised | rickynet-wire/src/lib.rs:131-145 | over any run, draining moves at most 16 bytes for every byte pushed |
| FrameDecoding.ReturnsInOrder | rickynet-wire/src/lib.rs:76-79 | however the stream was cut up, the frames returned are the first frames of the whole stream |
| FrameDecoding.DrainedReturnsAll | rickynet-wire/src/lib.rs:107-129 | once `next_frame` has returned nothing, the frames returned are the reference parse of everything pushed |
| FrameDecoding.ChunkIndependence | rickynet-wire/src/lib.rs:76-79 | two drained decoders fed the same bytes in any pieces returned the same frames |
| FrameDecoding.DecodesWhatWasEncoded | rickynet-wire/src/lib.rs:76-79 | encoded packets, in any pieces, drain to exactly those packets |
| FrameDecoding.MemoryIsBacklog | rickynet-wire/src/lib.rs:107-145 | after any calls the buffer holds at least the bytes pushed since `next_frame` last found nothing or left nothing unread, and at most 69631 more |
| FrameDecoding.BoundedExactly | rickynet-wire/src/lib.rs:81-82 | whatever a consumer may call, the buffer stays bounded if and only if the bytes pushed before it catches up do |
| FrameDecoding.MemoryBound | rickynet-wire/src/lib.rs:81-82 | a consumer that catches up before each push of at most k bytes never makes the buffer exceed 69631 + k bytes |
| FrameDecoding.OneForOneCatchesUp | rickynet-wire/src/lib.rs:239-249 | whole frames pushed and popped one by one: every packet comes out and nothing is held, though `next_frame` never returns nothing |
| FrameDecoding.OneBehindNeverCompacts | rickynet-wire/src/lib.rs:81-82 | a consumer with one frame unread that pushes one and pops one, for ever, makes the buffer keep every byte |
| Streams.EncodeFrame | rickynet-wire/src/lib.rs:59-66 | appends exactly one encoded frame and returns its length |
| Streams.ReadFrame | rickynet-wire/src/lib.rs:150-157 | succeeds if and only if a whole frame is left, consuming exactly its bytes; otherwise end of file |
| Streams.WriteFrame | rickynet-wire/src/lib.rs:160-171 | refuses an over-long packet before writing; else the whole frame goes out, or the stream breaks inside it |
| Streams.CutFrame | rickynet-wire/src/lib.rs:160-171 | a stream that breaks inside a frame holds exactly the packets before it |
| Device.ReadTakesFront | rickynet-core/src/device.rs:126-155 | a read takes the front of the bytes still to be read, whatever room it has: none lost, repeated or reordered |
| Device.LooksLikeEofExactly | rickynet-core/src/device.rs:131-154 | a read completes with no bytes if and only if there was no room, or the next packet is empty |
| Device.FramedDevice.PollRead | rickynet-core/src/device.rs:126-155 | returns the front of the current packet, or parks when there is none, and leaves the rest as leftover |
| Device.FramedDevice.PollWrite | rickynet-core/src/device.rs:159-173 | queues the packet whole, or fails if the writer task is gone |
| Device.ReaderTask | rickynet-core/src/device.rs:67-93 | queues the frames of the reference parse, in order, until the stream ends or the device is gone; the counter covers them and the one refused |
| Device.WriterTask | rickynet-core/src/device.rs:95-123 | what is on the cable is the encoding of the framable packets, cut where the cable broke; the counter covers exactly the packets written whole |
| Pumps.PumpUpload | win/src/worker.rs:100-114 | what is on the cable is the encoding of the packets before the first over-long one, cut where the cable broke; the counter covers exactly the packets written whole |
| Pumps.BeforeOversizeIsLongest | win/src/worker.rs:107-109 | those packets are the longest prefix in which every packet fits a frame |
| Pumps.PumpDownload | win/src/worker.rs:130-151 | Wintun gets the non-empty frames of the reference parse, in order, up to its first refusal; the counter covers exactly these |
| Cable.TakeConserved | rickynet-wire/src/lib.rs:160-171 | beginning to write a packet puts exactly its frame between the two ends |
| Cable.LastBytesEndAFrame | rickynet-wire/src/lib.rs:148-157 | bytes without which a stream is cut short complete at least one frame of it |
| Cable.LossConserved | win/src/worker.rs:100-158 | whatever part of the flow is lost, at whatever byte, what has arrived and still arrives is an in-order prefix of the packets written whole |
| Cable.ArriveConserved | rickynet-wire/src/lib.rs:148-157 | a completed frame moves one packet from the bytes under way to those arrived, and nothing else |
| UploadPipeline.PollKeepsShape | rickynet-core/src/device.rs:126-155 | a read leaves every packet that entered the channel in place, and each read inside one packet |
| UploadPipeline.PollKeepsCopied | rickynet-core/src/device.rs:126-155 | the reads so far and the rest of the leftover stay the packets received |
| UploadPipeline.StepKeeps | rickynet-core/src/device.rs:67-155 | every step of every thread, and every failure, keeps the conservation and counting invariant |
| UploadPipeline.RunKeeps | rickynet-core/src/device.rs:67-155 | every run, from the start, keeps it |
| UploadPipeline.NothingLost | rickynet-core/src/device.rs:67-155 | in every run without a loss, bytes read, leftover, channel, held packet, and frames on the wire or being written are, in order, the packets taken from Wintun |
| UploadPipeline.InOrderPrefix | win/src/worker.rs:101-114 | in every run, whatever fails, the packets the netstack received are the first of those written whole, which are the first Wintun handed out |
| UploadPipeline.RestDeliversAll | win/src/worker.rs:101-114 | a run at rest without a loss, or whose stream has ended cleanly, has delivered every byte |
| UploadPipeline.ReadsDoNotSpanPackets | rickynet-core/src/device.rs:126-155 | every read returns a piece of one packet |
| UploadPipeline.ReadsArePacketsExactly | rickynet-core/src/device.rs:126-155 | in every run, the reads are the packets, one for one, if and only if every read made had room for what was left of its packet |
| UploadPipeline.FullReadsArePackets | rickynet-core/src/device.rs:35-37 | so they are if every buffer has room for 65535 bytes |
| UploadPipeline.CountersAgree | win/src/worker.rs:107-110 | without a loss, desktop tx and the packet not yet counted equal phone tx and the payload not yet fully read |
| UploadPipeline.PhoneNeverAhead | win/src/worker.rs:107-110 | in every run, whatever is lost, phone tx is at most desktop tx and the packet written whole and not yet counted |
| UploadPipeline.PhoneCounterAhead | rickynet-core/src/device.rs:83-90 | in every run, phone tx exceeds the payload that entered the channel by at most the one packet held or refused |
| UploadPipeline.NeverLooksLikeEof | rickynet-core/src/device.rs:149-152 | if Wintun never hands out an empty packet, no read with room ever looks like the end of the stream |
| UploadPipeline.FlagsChangeExactly | win/src/worker.rs:100-119 | a step loses something if and only if it is a failed write, a packet of more than 65535 bytes, a stream that closes short or ends inside a frame; pump A ends by the first two and by the end of the session only, and likewise for the reader, the stream and the device |
| UploadPipeline.IntactExactly | win/src/worker.rs:100-119 | a run is intact if and only if no event that took effect lost anything, and pump A goes on until one ends it |
| UploadPipeline.OwnStepsLowerWork | rickynet-core/src/device.rs:71-91 | every step the tasks take by themselves leaves less to do |
| UploadPipeline.QuietExactly | rickynet-core/src/device.rs:71-91 | no task can take a step if and only if pump A has no packet to write and the reader waits for bytes on an open stream or for room among 2048 packets, or is done |
| UploadPipeline.QuietDeliversAll | win/src/worker.rs:101-114 | when no task can take a step, nothing was lost and the netstack has read what there is, every byte taken has been delivered |
| UploadPipeline.OutsideIsFree | win/src/worker.rs:101-105 | Wintun can hand a waiting pump a packet, and the netstack can read what is there, at any time |
| UploadPipeline.ChannelIsBounded | rickynet-core/src/device.rs:30-31 | in every run the channel holds at most 2048 packets |
| DownloadPipeline.TakesExactly | rickynet-core/src/device.rs:97-111 | a packet taken off the queue is written, empty ones too, unless it has more than 65535 bytes, when it is dropped and nothing else changes |
| DownloadPipeline.QueuedKeeps | rickynet-core/src/device.rs:101-105 | in every step the packets queued, but for oversize ones, stay those taken and those still queued, in order |
| DownloadPipeline.StepKeeps | rickynet-core/src/device.rs:95-123 | every step of every thread, and every failure, keeps the conservation and counting invariant |
| DownloadPipeline.RunKeeps | rickynet-core/src/device.rs:95-123 | every run, from the start, keeps it |
| DownloadPipeline.HandedInOrder | win/src/worker.rs:131-151 | in every run, broken at whatever byte, Wintun gets an in-order prefix of the packets queued, oversize and empty ones left out |
| DownloadPipeline.NothingLost | rickynet-core/src/device.rs:95-123 | while nothing is lost, every packet due is handed over, held, on the wire or queued, in order |
| DownloadPipeline.RestDeliversAll | win/src/worker.rs:131-151 | a run at rest without a loss, or whose stream has ended cleanly, has handed over everything due |
| DownloadPipeline.CountersAgree | win/src/worker.rs:140-144 | without a loss, phone rx and its uncounted packet equal desktop rx, its uncounted packet and the payload not yet read |
| DownloadPipeline.DesktopNeverAhead | win/src/worker.rs:140-144 | in every run, whatever is lost, desktop rx is at most the payload handed over, and that at most phone rx and the packet written whole and not yet counted |
| DownloadPipeline.FlagsChangeExactly | win/src/worker.rs:131-151 | a step loses something if and only if it is a failed write, a refusal by Wintun, a stream that closes short or ends inside a frame; and the tasks end for the reasons the source gives only |
| DownloadPipeline.IntactExactly | win/src/worker.rs:131-151 | a run is intact if and only if no event that took effect lost anything |
| DownloadPipeline.OwnStepsLowerWork | rickynet-core/src/device.rs:95-123 | every step the tasks take by themselves leaves less to do |
| DownloadPipeline.QuietExactly | win/src/worker.rs:131-151 | no task can take a step if and only if the writer has nothing to write or has ended, and pump B waits for bytes on an open stream or has stopped |
| DownloadPipeline.QuietDeliversAll | win/src/worker.rs:131-151 | when no task can take a step and nothing was lost, Wintun has had everything due |
| SharedState.Shared.Log | win/src/state.rs:65-76 | the log is the last 250 of its lines and the new one |
| SharedState.Shared.SetError | win/src/state.rs:54-59 | the message is kept, the state is Error, and the line is logged |
| Worker.RunPumps | win/src/worker.rs:93-158 | the cable holds the frames of the packets before the first over-long one, Wintun the non-empty packets read, each cut where its end gave up, and the counters have grown by just these |
| Worker.PumpAndTearDown | win/src/worker.rs:89-199 | once the pumps have ended the rows we own are taken out and the adapter is closed, and the totals are those of the pumps |
| Worker.RestoredExactly | win/src/worker.rs:78-91 | the table after a connection is the one before if and only if no row was on the adapter and no carve-out is left behind |
| Worker.CarveOutStays | win/src/worker.rs:85-86 | a phone on a LAN of its own, and a stream that cannot be duplicated: its carve-out is left behind |
| Worker.ConnectInner | win/src/worker.rs:53-199 | succeeds if and only if every fallible step does, having run the pumps; the table is the one before without the rows of a closed adapter, but for a carve-out when duplicating the stream fails |
| Worker.RunConnect | win/src/worker.rs:29-51 | the state ends as Error if and only if connecting failed, else Disconnected; the counters are the totals of this connection; the table is as before if and only if no row was on the adapter and no carve-out is left behind |
| Worker.RunIsOrdered | win/src/worker.rs:163-198 | in every run the main thread is at the step that what is still in place and still running calls for |
| Worker.TeardownOrder | win/src/worker.rs:163-198 | in every run the routes go only after both pumps have ended, and the adapter only after the routes |
| Worker.EndingMakesProgress | win/src/worker.rs:163-198 | a connection that is ending and not finished always has a step of its own, waiting for neither Wintun nor the peer, that leaves less to do |
| Worker.EndingIsStable | win/src/worker.rs:163-198 | once ending, always ending; the main thread never goes back |
| Worker.StepLowersWork | win/src/worker.rs:184-187 | after the stream is shut down every step of our own leaves less to do, and nothing from outside adds to it |
| Worker.JoinsReturn | win/src/worker.rs:184-187 | from then on, in any schedule and whatever arrives, the threads take at most a fixed number of steps in all |
| Worker.QuietMeansFinished | win/src/worker.rs:176-198 | however an ending connection goes on, once no thread has a step left but to wait for Wintun or the peer, the main thread is through both joins and the teardown is finished |
| Worker.UpUntilCause | win/src/worker.rs:100-175 | in every run a connection is up, routes and all, until it is stopped, Wintun fails, the phone goes away, or a packet is too long to frame |
| Worker.ConnectedPumps | win/src/worker.rs:101-151 | while it is up a packet received can be written and a frame read can be sent on |
| CoreLifecycle.StepKeeps | rickynet-core/src/lib.rs:62-141 | every step of every caller and every core thread keeps the ownership and locking invariant |
| CoreLifecycle.RunKeeps | rickynet-core/src/lib.rs:62-141 | every run of any number of callers keeps it |
| CoreLifecycle.StartsAndStopsAlternate | rickynet-core/src/lib.rs:62-141 | for any number of callers, successful starts and stops alternate in lock order |
| CoreLifecycle.InstanceIsRunning | rickynet-core/src/lib.rs:94-102 | a present instance names a thread that has bound its port, was not told to stop, and has not ended |
| CoreLifecycle.StartSucceeds | rickynet-core/src/lib.rs:69-102 | a start that has the lock while nothing runs, and whose thread binds, leaves that thread as the instance, serving, with the counters at zero |
| CoreLifecycle.StartFails | rickynet-core/src/lib.rs:103-107 | a start whose thread cannot bind joins it and leaves everything else as it was |
| CoreLifecycle.RefusedCallsChangeNothing | rickynet-core/src/lib.rs:69-72 | a start while something runs, or a stop while nothing does, returns and changes nothing |
| CoreLifecycle.StopSucceeds | rickynet-core/src/lib.rs:119-135 | a stop takes the instance at once, releases the lock, and returns when its thread has ended |
| CoreLifecycle.InstanceStays | rickynet-core/src/lib.rs:119-124 | what runs goes on running until a stop takes it |
| CoreLifecycle.FewThreadsLive | rickynet-core/src/lib.rs:118-141 | live core threads are at most one more than the stops between taking the instance and joining |
| CoreLifecycle.OwnStepsLowerWork | rickynet-core/src/lib.rs:206-261 | every step of a caller or a core thread, apart from new calls and desktops coming and going, leaves less to do |
| CoreLifecycle.CallsMakeProgress | rickynet-core/src/lib.rs:62-141 | while any call is under way, some such step can be taken: no deadlock |
| CoreLifecycle.CountersOwnExactly | rickynet-core/src/lib.rs:74-91 | from a start until the next reset, whatever happens, the counters show what its thread has moved, if and only if at the reset every stop under way had seen its thread end |
| Logger.CoreLogger.Record | rickynet-core/src/logger.rs:62-69 | the ring becomes the last 1000 of itself and the line; the callback is copied |
| Logger.CoreLogger.SetCallback | rickynet-core/src/logger.rs:123-132 | the callback is replaced and the ring is the backlog, if there is a new one |
| Logger.AsCString | rickynet-core/src/logger.rs:94-100 | the C string has no NUL in it, and is the line itself if and only if the line has none |
| Logger.CStringParts | rickynet-core/src/logger.rs:97-98 | each NUL becomes a backslash and a zero, and everything else stays in its place |
| Logger.AllowedExactly | rickynet-core/src/logger.rs:85-92 | a record passes if and only if its target begins with rickynet, or it is a warning or an error |
| Logger.PendingEmit | rickynet-core/src/logger.rs:70-72 | a call made by one thread leaves exactly that call fewer pending |
| Logger.OwedAfterLog | rickynet-core/src/logger.rs:62-69 | the text of a new line is owed to the sink of the latest registration, if it has one, and nothing else changes |
| Logger.InReplay | rickynet-core/src/logger.rs:123-137 | the calls of a replay are those that pass the new sink the texts of the last 1000 lines, read from the ring |
| Logger.OwedAfterRegister | rickynet-core/src/logger.rs:123-132 | registering owes the new sink the texts in the ring and takes nothing from anyone |
| Logger.RunKeeps | rickynet-core/src/logger.rs:47-139 | in every run the ring, the callback and the calls undertaken are those the history calls for |
| Logger.ExactlyOnce | rickynet-core/src/logger.rs:47-139 | over every interleaving, the times a sink was passed a text and the times it is still to be add up to one for the text of each line owed to its registration, and to none for any other call |
| Logger.AtRestAllDelivered | rickynet-core/src/logger.rs:47-139 | once no thread has a call left to make, every sink got the text of each line it is owed once, and nothing else |
| Logger.RingIsWindow | rickynet-core/src/logger.rs:63-67 | the ring is always the last 1000 lines accepted |
| Logger.LinesArePassed | rickynet-core/src/logger.rs:47-69 | in every run the lines recorded are the texts of the records that pass, in lock order |
| LogStore.LogStore.AppendBlock | ios/Sources/RickyNet/LogStore.swift:59-73 | the line goes to the file and the buffer; a flush is scheduled if and only if none was |
| LogStore.LogStore.FlushBlock | ios/Sources/RickyNet/LogStore.swift:76-82 | the buffer becomes the batch, and the flag is cleared |
| LogStore.LogStore.PublishBlock | ios/Sources/RickyNet/LogStore.swift:83-88 | the screen shows the last 2000 of its lines and the batch |
| LogStore.RunQueueKeeps | ios/Sources/RickyNet/LogStore.swift:59-104 | whatever block the serial queue runs, the order of lines and the one outstanding flush are kept |
| LogStore.RunKeeps | ios/Sources/RickyNet/LogStore.swift:59-104 | every run keeps both |
| LogStore.FlagTellsTheTruth | ios/Sources/RickyNet/LogStore.swift:59-104 | in every run, clears included, the flag is set if and only if exactly one flush is outstanding, and a line in the buffer has one coming |
| LogStore.EveryLineInOrder | ios/Sources/RickyNet/LogStore.swift:59-90 | in every run without a clear, published, batched, buffered and queued lines are all lines appended, in order; so are the file and the queue |
| LogStore.QueuesMakeProgress | ios/Sources/RickyNet/LogStore.swift:59-104 | whenever work is left some queue can run, and whichever runs leaves less |
| LogStore.AtRestAllPublished | ios/Sources/RickyNet/LogStore.swift:59-104 | at rest no line is left in the buffer and the lines in the file are the last ones published; without a clear the screen shows the last 2000 lines appended |
| LogStore.AppendedOnce | ios/Sources/RickyNet/LogStore.swift:59-73 | in every run, clears included, the lines appended are those of the blocks run and of those still queued, in order |
| LogStore.FileSinceClear | ios/Sources/RickyNet/LogStore.swift:92-98 | in every run the file holds exactly the lines run since the last clear of the file |
| LogStore.ScreenSinceClear | ios/Sources/RickyNet/LogStore.swift:99-101 | in every run the screen shows the last 2000 lines published since the last clear of the screen |
| LogStore.NoLineIsStranded | ios/Sources/RickyNet/LogStore.swift:59-104 | in every run, clears included, the lines since the last clear of the file are the last of those published, on their way and buffered, in order |
| Routing.Install | win/src/routing.rs:50-101 | succeeds if and only if both halves are new and permitted; on failure the table is unchanged; on success the rows it owns are the two halves, on-link on the tunnel, and, if new and permitted, a host route to the phone through the gateway and interface reported for it |
| Routing.CapturedRows | win/src/routing.rs:53-98 | after a successful install the table is as before but for the rows added, the host route with metric 1 and the halves with metric 5 |
| Routing.Routes.Remove | win/src/routing.rs:104-122 | exactly the rows created are gone |
| Routing.RemovedAgain | win/src/routing.rs:104-122 | taking the created rows out again gives the table there was |
| Routing.CapturedOffAdapter | win/src/tun.rs:3-6 | of the created rows only a carve-out on another interface outlives the adapter |
| Routing.InstallThenRemove | win/src/routing.rs:50-122 | installing and removing restores any table, for every answer the system gives |
| Routing.BestExists | win/src/routing.rs:134-158 | an address covered by some route has a best one |
| Routing.HalvesCover | win/src/routing.rs:75-98 | each address is covered by exactly one of the two capture routes, which are on the tunnel and on-link |
| Routing.PrefixCovers | win/src/routing.rs:169-173 | a prefix covers a block of addresses from its destination on, one address at 32 bits and twice as many with every bit less |
| Routing.CapturedExactly | win/src/routing.rs:3-7 | an address goes to the tunnel and nowhere else if and only if every route covering it was less specific than half a default, or as specific and dearer |
| Routing.DefaultIsCaptured | win/src/routing.rs:3-7 | without other half-default routes, whatever resolved to the default route or to nothing goes to the tunnel |
| Routing.SpecificRoutesStay | win/src/routing.rs:3-7 | an address with a more specific route keeps precisely its routes |
| Routing.PhoneStaysReachable | win/src/routing.rs:53-72 | a carved-out phone is reached by one host route alone, through the gateway and on the interface it had |
| Usbmux.ReceivesExactly | win/src/usbmux.rs:70-103 | a message is received whole, leaving exactly what follows it, if and only if its length fits 32 bits |
| Usbmux.HeaderFields | win/src/usbmux.rs:70-82 | the header is the whole length, version 1, message 8 and the tag, and the body follows |
| Usbmux.HandsOverRawBytes | win/src/usbmux.rs:84-103 | after any number of messages the bodies have come out and the raw bytes behind them are untouched |
| Usbmux.SendPlist | win/src/usbmux.rs:70-82 | exactly one message goes out, or the stream breaks inside it |
| Usbmux.RecvBody | win/src/usbmux.rs:84-100 | returns the body and leaves what follows it, or the error for a short stream or a short length |
| Usbmux.ListedExactly | win/src/usbmux.rs:142-164 | a device is listed if and only if some entry describes it as attached by USB |
| Usbmux.UsbDeviceExactly | win/src/usbmux.rs:142-162 | an entry describes a device if and only if its properties say it is attached by USB and give an id of 64 unsigned bits |
| Usbmux.FirstListed | win/src/usbmux.rs:209-219 | the first device listed is that of the first entry describing one |
| Usbmux.ParseDeviceList | win/src/usbmux.rs:133-168 | the list is that of the entries describing a USB device, in order |
| Usbmux.PortSwap | win/src/usbmux.rs:51-56 | the swapped port puts the big-endian bytes in little-endian place, and swapping twice does nothing |
| Usbmux.ConnectRequestFields | win/src/usbmux.rs:58-68 | the request names the device, the swapped port (5555 as 45845, 22 as 5632) and this client |
| Usbmux.GrantedExactly | win/src/usbmux.rs:186-191 | a reply grants the connection if and only if its Number is zero |
| Usbmux.ConnectDevice | win/src/usbmux.rs:172-206 | one Connect request is written; the result is that of the one reply read, error by error, and the stream is left at the byte behind it |
| Usbmux.FirstDevice | win/src/usbmux.rs:209-219 | the first USB device of the list, or not found |
| Icmp.Fold | rickynet-core/src/flow.rs:198-199 | folding carries gives 16 bits, keeps the residue modulo 65535, and gives zero only for zero |
| Icmp.OddIsPadded | rickynet-core/src/flow.rs:198-199 | a last odd byte is summed as if a zero byte followed it |
| Icmp.ByteCounts | rickynet-core/src/flow.rs:198-199 | a byte counts 256-fold at an even place and once at an odd one |
| Icmp.ZerosSumToZero | rickynet-core/src/flow.rs:198-199 | a message of zeros sums to zero |
| Icmp.ReplyVerifies | rickynet-core/src/flow.rs:197-205 | every reply has a one's-complement sum of all ones |
| Icmp.ReplyChecksumShift | rickynet-core/src/flow.rs:198-199 | for a request that verified, the reply's checksum is the request's plus 0x0800, modulo 65535 |
| Icmp.RequestRoundTrip | rickynet-core/src/flow.rs:151-166 | every echo request is recognised and read back as it was built |
| Icmp.ReplyMirrorsRequest | rickynet-core/src/flow.rs:151-205 | the reply to a request differs from it in type and checksum alone, and verifies |
| Icmp.HandleUnknown | rickynet-core/src/flow.rs:142-195 | one reply, with the request's identifier, sequence number and data, to an echo request that was answered or for which no socket was available; else none |
| CommandLine.Parse | win/src/args.rs:50-82 | the result is that of scanning the arguments left to right, and a Wi-Fi connection has a phone address |
| CommandLine.ScanMore | win/src/args.rs:53-77 | scanning a longer list continues from the arguments the shorter one gave |
| CommandLine.ParsesMeaning | win/src/args.rs:50-82 | every list of well-formed options, in any accepted spelling, parses to what it means: for each setting, its last occurrence |
| CommandLine.ScansExactly | win/src/args.rs:53-77 | a list is scanned to given arguments if and only if it spells well-formed options that mean them |
| CommandLine.UnderstoodExactly | win/src/args.rs:50-82 | a command line is accepted as given arguments if and only if, in addition, a Wi-Fi connection has a phone address |
| CommandLine.DefaultsAre | win/src/args.rs:19-29 | with no options: USB, no phone address, port 27600, a window, adapter RickyNet |
| CommandLine.PortsExactly | win/src/args.rs:68-71 | a text is a port number if and only if it is the decimal notation of a number up to 65535, leading zeros and a plus sign included |
| CommandLine.TransportsExactly | win/src/args.rs:57-64 | the transports are named usb, wifi and wi-fi, in any letter case |
| CommandLine.StopsExactly | win/src/args.rs:53-77 | scanning ends in help or in an error if and only if, behind well-formed options, the next word asks for help or is at fault, and with just that fault |
| CommandLine.ReadsBack | win/src/elevation.rs:57-62 | inside quotes, the escaped form of an argument without a backslash before a quote or its end reads back as that argument, whatever follows |
| CommandLine.RelaunchPreserves | win/src/elevation.rs:57-62 | a list of such arguments is passed on unchanged |
| CommandLine.NeverCatchesUp | win/src/elevation.rs:57-62 | a reader that has fallen behind an argument never reads it, whatever comes later on the line |
| CommandLine.Misread | win/src/elevation.rs:57-62 | an argument with a backslash before a quote or its end is misread, except as the last one ending in a lone backslash and a quote |
| CommandLine.RelaunchPreservesExactly | win/src/elevation.rs:57-62 | for every list: it is passed on unchanged if and only if no argument has a backslash before a quote or its end, but for that exception |
| CommandLine.ElevatedUnderstands | win/src/elevation.rs:57-62 | for every such list the elevated instance understands, or rejects, its command line as the first one did |
| CommandLine.TrailingBackslashLost | win/src/elevation.rs:57-62 | no argument ending in a backslash survives on its own |

## Left out

- SharedState.Shared.Log: the wall-clock prefix of a line, because clocks are not modelled.
- Pumps.PumpUpload: the packet counters and log lines, which nothing depends on.
- Device.WriterTask: flushing and the moment it happens; a failed flush after a counted packet ends the loop as a failed write would.
- Worker.ConnectInner: the rows the system adds for the adapter's own address, which come and go with it; and the two pumps as threads, which are in the run model.
- Routing.Install: the call that finds the best hop; its answer is a parameter, assumed best where reachability is stated.
- Usbmux.FirstDevice: the request for the list, which differs from the one for a connection in its type and tag alone.
- Usbmux.ConnectDevice: property-list encoding (parameters), socket time-outs and opening the connection to the service.
- CoreLifecycle.StepKeeps: the port, which can make a bind fail as anything else can; a poisoned lock; and a core thread that dies without reporting.
- 64-bit wrap-around of the byte counters, which a connection does not reach.
- The relay of UDP datagrams and the TCP splice: two copying loops and a library call, raced by the scheduler.
- Cellular socket binding and interface discovery (rickynet-core/src/egress.rs), Wintun itself (win/src/tun.rs), the netstack and the scheduler: foreign calls.
- The window, the tray, the iOS screens, background audio and the Windows resources: user interface.
- Heartbeats, rates and human-readable sizes: wall clock and floating point.
- Log file rotation and failed file writes; the global level gate in front of the logger.
- The order of lines across a clear of the log store: a batch on its way can land after it, so only the flag and the absence of stranded lines are claimed there.
- Fairness: progress is stated as an enabled step that leaves less to do, and as a bound on the steps taken.
