# lightr-cri in Dafny

A Dafny model of the stateful and wire-level parts of lightr-cri, a Kubernetes
container runtime shim, with proofs of what they are for:

- **The crash-only container lifecycle.** `Lifecycle.dfy` is a labelled
  transition system whose events are the atomic steps of the fake backend: one
  section under the cache lock, one tmp+rename write or one unlink. At most one
  API call is in flight; reaper threads and kills strike between any two steps.
  `LifecycleInvariant.dfy` proves the invariant of every step,
  `LifecycleSafety.dfy` and `LifecycleDurability.dfy` what follows for whole
  runs. `FakeBackend.dfy` is the
  backend as a class: its fields are the cache, the record files and the
  reapers, its methods run with reapers interleaved between their steps, and
  its ghost history is proved to be a run of the transition system.
- **The log tee and its clock.** `Calendar.dfy` (the hand-written date
  conversion against a calendar counted year by year), `Stamp.dfy` (the printed
  timestamp), `CriLog.dfy` and `CriLogSafety.dfy` (two tee threads, one file).
- **The SPDY/3.1 stack.** `Frame.dfy`, `FrameReader.dfy`, `Headers.dfy`,
  `HeaderCodec.dfy`, `Writer.dfy`, `Messages.dfy`, `ReadLoop.dfy`,
  `PortForward.dfy`, `PortForwardSafety.dfy`, `PortForwardPairs.dfy`, and the
  concurrent exec driver in `ExecSession.dfy`, `ExecSafety.dfy`,
  `ExecStatus.dfy` and `ExecLateBytes.dfy`.
- **Base64 and tokens.** `Base64.dfy`, `Channel.dfy`, `Token.dfy`,
  `TokenSafety.dfy`.

`Options.dfy` and `Bytes.dfy` are shared. Bytes are integers from 0 to 255;
every shift and mask of the source is written as a quotient or a remainder by a
power of two, and every truncating cast as a remainder. Integers the source
wraps (`u8`, `u24` lengths, the `u32` accumulator, `as u32` casts) are wrapped
explicitly.

Check the project with `dafny verify dfyconfig.toml`.

What the statements assume:

- Lifecycle: API calls come one at a time, ids are fresh, and file-system
  operations succeed. Clocks, the process spawner, the liveness probe and the
  order in which the cache lists containers are parameters of the events.
- Header compression is known by its contract only (`HeaderCodec.Inverts`): a
  decoder fed the blocks in the order they were compressed gives back each of
  them, and a compressed block has at most 64 bytes more than twice the block.
  `HeaderCodec.MarkingInverts` shows codecs that meet the contract.
- A write half of a TCP connection that is dropped shuts its direction down, as
  the documentation of tokio's `OwnedWriteHalf` says; tokio is not part of this
  model.
- Time-outs are steps that may happen at any time.

Where the code and its documentation differ, the model follows the code: the
backend contract (`crates/lightr-cri-backend/src/lib.rs:266-272`) refuses to
remove a Running container, the code stops and removes it
(`crates/lightr-cri-fake/src/lib.rs:1214-1240`).

What turned out not to hold in general, each with the exact condition under
which it does:

- `stop_container` can return with the record still Running: exactly when the
  call finds it Running with a pid (`LifecycleDurability.StopMayLeaveRunning`).
- DATA can follow the FIN of its own stream: exactly when the completion path
  comes to its FINs while a pump or a file could still put bytes on that stream
  (`ExecLateBytes.NoLateBytesFromAnyClient`); with a client that opens no role
  and no id twice from there on, exactly when output of that stream is not on
  the wire yet (`ExecLateBytes.NoLateBytesExactly`). That takes a backstop on
  the pumps, an attach that ends by detach, or a stderr file beside a tty
  (`ExecLateBytes.LeftoverNeedsWayOut`, `ExecLateBytes.CleanSessionDriesUp`);
  `ExecLateBytes.AttachCanWriteAfterFin` is such a run.
- Timestamps sort as strings in time order exactly up to the year 10000
  (`Stamp.StampsSortExactlyBeforeYear10000`; `Stamp.StampsSortExactlyByYears`
  decides each pair, `Stamp.OrderBreaksAtYear10000` is the first wrong one);
  from the year 2^32 on the year wraps (`Calendar.ConversionIsCorrect` is an
  equivalence).
- A peer gets exactly the frames sent if and only if no write broke off inside
  a frame (`Writers.FramesArriveExactlyWhenNeverTorn`), since the next task
  still writes (`Writers.BrokenFrameSwallowsNext`).
- Parsed bytes are not always what the frame serializes to: exactly the
  canonical ones are (`Frames.BytesSurviveExactlyWhenCanonical`).
- A header block sent in a HEADERS frame is never decompressed, so streams
  opened later can get other roles than their headers name: openings are heard
  and roles given as said by every codec if and only if no stream is opened
  after a HEADERS frame (`Messages.OpeningsHeardExactly`,
  `ReadLoops.RolesArriveExactly`).
- A forwarding client's request can be taken for a stream without one: exactly
  when it spells "port-" and that stream's port
  (`PortForwardPairs.SamePairExactly`).
- Forwarded connections can get each other's bytes: exactly when some data
  stream is opened unsafely, in the sense of `PortForwardSafety.SafeOpening`
  (`PortForwardSafety.IsolatedExactlyWhenSafe`). A second data stream under the
  request key of an open one is the typical case
  (`PortForwardSafety.SecondStreamTakesOver`).

## Model

| member | source | states |
|---|---|---|
| LifecycleInvariant.StepKeepsInv | crates/lightr-cri-fake/src/lib.rs:676-1240 | every atomic step of every call, of a reaper, of a kill and of recovery keeps the invariant: cache and disk agree up to the writes still owed, each container record names a sandbox record, and a live reaper watches the pid its record holds |
| LifecycleInvariant.ReaperMeetsNoDebt | crates/lightr-cri-fake/src/lib.rs:1130-1141 | a reaper that takes the lock for a Running container never meets a record whose write the call in flight still owes, and finds the same record on disk |
| LifecycleSafety.InvAlongRun | crates/lightr-cri-fake/src/lib.rs:248-335 | the invariant holds at every point of every run, with kills and recoveries anywhere |
| LifecycleSafety.CacheIsDisk | crates/lightr-cri-fake/src/lib.rs:676-780 | between calls the cache equals the disk, except for the one exit a reaper may be writing under the lock |
| LifecycleSafety.VisibleIsDurable | crates/lightr-cri-fake/src/lib.rs:803-836 | at every point, also in the middle of `remove_sandbox`: each record a client can see has a file, which is that record or one legal transition behind it with the write on its way, and each container file names a sandbox that has a file |
| LifecycleSafety.RecoverAll | crates/lightr-cri-fake/src/lib.rs:273-311 | recovery keeps every sandbox record and the set of container records |
| LifecycleSafety.RecoveryIsHonest | crates/lightr-cri-fake/src/lib.rs:282-307 | after recovery no Running record has pid 0 or a dead pid; exactly the lost ones changed, to Exited with -1, now and "lost-start-window" without a pid, "lost-exit-reaped-elsewhere" with one |
| LifecycleSafety.RecoveryIsIdempotent | crates/lightr-cri-fake/src/lib.rs:248-335 | opening again under the same liveness changes nothing, whatever the clock says |
| LifecycleSafety.CrashLosesNothing | crates/lightr-cri-fake/src/lib.rs:248-335 | a kill at any point, inside any call and any reaper's write, leaves files from which `open` rebuilds each record that clients saw, up to recovery, or the one it was legally replacing, and nothing else but the container being created or removed |
| LifecycleSafety.EventIsFileStep | crates/lightr-cri-fake/src/lib.rs:1034-1212 | one event changes a record file only along a legal transition, and creates one only for an id never used before |
| LifecycleSafety.EventMovesForward | crates/lightr-cri-fake/src/lib.rs:1034-1240 | no event moves a container's state on disk backwards |
| LifecycleSafety.RunMovesForward | crates/lightr-cri-fake/src/lib.rs:282-307 | over any run with kills and recoveries a container goes Created, Running, Exited, deleted and never back, and its terminal record is written once |
| LifecycleSafety.RemovedStaysRemoved | crates/lightr-cri-fake/src/lib.rs:1230-1238 | once removed, no reaper, recovery or other call brings back the cache entry or the file |
| LifecycleSafety.OnlyTheseWriteTerminal | crates/lightr-cri-fake/src/lib.rs:1147-1212 | only the container's reaper, a failed spawn, the pid-0 stop path or recovery make a record file terminal |
| LifecycleDurability.FileSurvives | crates/lightr-cri-fake/src/lib.rs:1214-1240 | from any point of any run, through kills and recoveries, a container's file stays and changes by legal transitions only, until the removal of the container or of its sandbox is asked for |
| LifecycleDurability.RecordSurvives | crates/lightr-cri-fake/src/lib.rs:734-780 | the same for every record a client saw at any point, and it is visible again whenever calls are answered |
| LifecycleDurability.SandboxSurvives | crates/lightr-cri-fake/src/lib.rs:734-780 | a sandbox seen at any point keeps its file until its removal is asked for |
| LifecycleDurability.OnlyRemovalDeletes | crates/lightr-cri-fake/src/lib.rs:1230-1238 | a record file is deleted only by the unlink of a removal of that container or of its sandbox |
| LifecycleDurability.StopMayLeaveRunning | crates/lightr-cri-fake/src/lib.rs:1147-1212 | some execution of `stop_container` ends with the container Running if and only if the call finds it Running with a pid |
| LifecycleDurability.LockHasTurn | crates/lightr-cri-fake/src/lib.rs:1130-1141 | the write a reaper owes carries the code, reason and time of the turn in which it took the lock, and nothing came between |
| LifecycleDurability.ExitTellsItsCause | crates/lightr-cri-fake/src/lib.rs:1050-1212 | whoever turns a record file Exited, over any run: a reaper writes the code, reason and time its wait gave; a failed spawn -1 and "spawn-failed"; a stop without a process 143 or 137 and "stopped"; recovery -1 and which of the two losses it was |
| FakeBackendModule.FakeBackend.Open | crates/lightr-cri-fake/src/lib.rs:248-335 | from any crash point, `open` leaves disk and cache equal to the recovered files, whatever the directory order |
| FakeBackendModule.FakeBackend.RunSandbox | crates/lightr-cri-fake/src/lib.rs:676-715 | on return the new sandbox is Ready in cache and on disk and nothing else changed but reaped exits |
| FakeBackendModule.FakeBackend.StopSandbox | crates/lightr-cri-fake/src/lib.rs:717-732 | on return the sandbox is NotReady in cache and on disk; a missing or stopped one is left alone |
| FakeBackendModule.FakeBackend.RemoveSandbox | crates/lightr-cri-fake/src/lib.rs:734-780 | on return the sandbox and all its containers are gone from cache and disk, and every other record is unchanged, a second call changing nothing, but for reaped exits |
| FakeBackendModule.FakeBackend.CreateContainer | crates/lightr-cri-fake/src/lib.rs:803-836 | NotFound exactly when the sandbox is missing, FailedPrecondition exactly when it is not Ready; otherwise one new Created record, cached and on disk |
| FakeBackendModule.FakeBackend.StartContainer | crates/lightr-cri-fake/src/lib.rs:838-1145 | NotFound exactly for a missing container and FailedPrecondition exactly for one that is not Created; otherwise the record ends Running with start time, child's pid and a reaper, Exited with -1 and "spawn-failed", or Running without a pid and "starting" when descriptors fail after the spawn; other records change only by reaped exits |
| FakeBackendModule.FakeBackend.StopContainer | crates/lightr-cri-fake/src/lib.rs:1147-1212 | closes a Running record without a pid itself, with 143 when there is a grace and 137 when there is none; with a pid, leaves the exit to the reaper and says whether it landed in time |
| FakeBackendModule.FakeBackend.RemoveContainer | crates/lightr-cri-fake/src/lib.rs:1214-1240 | on return the container is gone from cache and disk, Running or not, and no other record changed but for reaped exits |
| FakeBackendModule.FakeBackend.ReaperTurn | crates/lightr-cri-fake/src/lib.rs:1130-1141 | while its record is Running a reaper puts the waited code, reason and time on it, changes no other field and owes exactly that record; otherwise it only goes away |
| FakeBackendModule.FakeBackend.ReaperFinish | crates/lightr-cri-fake/src/lib.rs:1137-1140 | the record a reaper owes, and no other, goes to disk, and the reaper is gone |
| FakeBackendModule.FakeBackend.WaitUntilExited | crates/lightr-cri-fake/src/lib.rs:229-245 | the bounded wait changes nothing itself and answers whether the container is gone or no longer Running |
| Calendar.EraFacts | crates/lightr-cri-fake/src/lib.rs:536-541 | no subtraction of the conversion goes below zero, and the year of the era contains the day |
| Calendar.MonthFacts | crates/lightr-cri-fake/src/lib.rs:541-543 | the month the formula finds contains the day of the March year |
| Calendar.MarchYear | crates/lightr-cri-fake/src/lib.rs:536-541 | eras, years of the era and days count up to the day number under the leap rule |
| Calendar.DateOfDay | crates/lightr-cri-fake/src/lib.rs:529-547 | every day number gets the valid Gregorian date that a year-by-year, month-by-month count gives that number |
| Calendar.DateIsUnique | crates/lightr-cri-fake/src/lib.rs:529-547 | one day number, one date |
| Calendar.ConversionIsCorrect | crates/lightr-cri-fake/src/lib.rs:529-547 | `epoch_to_ymd_hms` inverts counting seconds exactly for the instants before the year 2^32 |
| Calendar.CivilOrderIsTimeOrder | crates/lightr-cri-fake/src/lib.rs:529-547 | dates and times order as their epoch seconds do |
| Stamp.PaddedOrder | crates/lightr-cri-fake/src/lib.rs:514-517 | zero-padded numbers of one width compare as strings exactly as they do as numbers |
| Stamp.PaddedLength | crates/lightr-cri-fake/src/lib.rs:514-517 | a padded number has its nominal width exactly when it fits |
| Stamp.StampLength | crates/lightr-cri-fake/src/lib.rs:503-518 | the stamp has 30 characters exactly before the year 10000 |
| Stamp.StampOrderIsTimeOrder | crates/lightr-cri-fake/src/lib.rs:503-518 | before the year 10000, stamps sort as strings exactly as instants with nanoseconds sort in time |
| Stamp.StampsSortExactlyBeforeYear10000 | crates/lightr-cri-fake/src/lib.rs:503-518 | the stamps of a span of time from the epoch sort as its instants if and only if the span ends before the year 10000 |
| Stamp.StampsSortExactlyByYears | crates/lightr-cri-fake/src/lib.rs:514-517 | of two instants the earlier has the smaller stamp if and only if their years have equally many digits or the earlier year happens to be the smaller string |
| Stamp.OrderBreaksAtYear10000 | crates/lightr-cri-fake/src/lib.rs:514-517 | the first stamp of the year 10000 sorts before the last of 9999 |
| Stamp.StampIsOneWord | crates/lightr-cri-fake/src/lib.rs:514-521 | no stamp of any year holds a space or a newline, so the record format stays parseable |
| Stamp.StampReadsBack | crates/lightr-cri-fake/src/lib.rs:503-518 | before the year 10000 a stamp reads, digit by digit and mark by mark, as `YYYY-MM-DDThh:mm:ss.nnnnnnnnnZ` of the instant it was made for |
| CriLog.FirstNewline | crates/lightr-cri-fake/src/lib.rs:616-617 | finds the first newline, or the end |
| CriLog.FramedKeepsBytes | crates/lightr-cri-fake/src/lib.rs:615-624 | cutting the output into lines loses no byte |
| CriLog.FramedIntoLines | crates/lightr-cri-fake/src/lib.rs:615-624 | every piece but the last ends with a newline, and none holds one before its end |
| CriLog.LineInBytes | crates/lightr-cri-fake/src/lib.rs:503-526 | a log line is stamp, space, stream, space, "F" exactly when the data ended with a newline and "P" otherwise, space, text, newline |
| CriLog.DrainLines | crates/lightr-cri-fake/src/lib.rs:616-624 | the inner loop takes every complete line off the pending bytes, in order, and leaves the rest |
| CriLog.Tee | crates/lightr-cri-fake/src/lib.rs:597-633 | however the output is chunked, the tee logs the lines of the whole output, a trailing partial one last |
| CriLog.BodyReadsBack | crates/lightr-cri-fake/src/lib.rs:519-526 | a logged line parses back into its stamp, stream, tag and text |
| CriLog.LoggedPieceReadsBack | crates/lightr-cri-fake/src/lib.rs:503-527 | appending a logged piece to the file adds exactly the record that stands for it |
| CriLogSafety.EmitKeepsAccount | crates/lightr-cri-fake/src/lib.rs:616-624 | logging one line moves it from the pending bytes to the file and nowhere else |
| CriLogSafety.StepWritesLine | crates/lightr-cri-fake/src/lib.rs:612-635 | what each step appends to the file, byte by byte: nothing, the first pending line under its stream's name with "F", or at the end of the stream what is left with "P" |
| CriLogSafety.FinishKeepsAccount | crates/lightr-cri-fake/src/lib.rs:626-633 | the flush at the end of the stream logs exactly what is pending |
| CriLogSafety.OtherAccount | crates/lightr-cri-fake/src/lib.rs:580-634 | a step of one tee thread leaves the other stream's records alone |
| CriLogSafety.LogIsAlwaysAPrefix | crates/lightr-cri-fake/src/lib.rs:580-634 | at any moment the file reads back, and each stream's records are the first lines of its output |
| CriLogSafety.LogIsLossless | crates/lightr-cri-fake/src/lib.rs:580-634 | for every chunking and interleaving, splitting the finished file, projecting on a stream and undoing the framing gives exactly the bytes of that stream |
| CriLogSafety.ChunksDoNotMatter | crates/lightr-cri-fake/src/lib.rs:580-634 | two finished logs of the same bytes hold the same records per stream, timestamps aside |
| Frames.Parse | crates/lightr-cri-stream/src/spdy/frame.rs:107-216 | a parsed frame consumes at least its header and never more than the buffer |
| Frames.ParseExactly | crates/lightr-cri-stream/src/spdy/frame.rs:107-216 | for any bytes of a frame's length: a data frame and a control frame of version 3, known type and payload enough are parsed as what the bytes at their places say, whatever the reserved bits; every other one fails, by its version, its type or its payload |
| Frames.NeedMoreExactly | crates/lightr-cri-stream/src/spdy/frame.rs:107-116 | more is asked for exactly while no beginning of the buffer is as long as its header says |
| Frames.ParseIsStable | crates/lightr-cri-stream/src/spdy/frame.rs:107-216 | a frame or an error, once found, is found again whatever arrives later |
| Frames.SerializeThenParse | crates/lightr-cri-stream/src/spdy/frame.rs:229-309 | every well-formed frame parses back to itself and its own length, whatever follows |
| Frames.ParsedIsWellFormed | crates/lightr-cri-stream/src/spdy/frame.rs:107-216 | every parsed frame has 31-bit ids, 3-bit priority and 24-bit lengths, and its canonical form is no longer than what was consumed |
| Frames.RoundTripExactlyWhenWellFormed | crates/lightr-cri-stream/src/spdy/frame.rs:107-309 | the round trip holds for the well-formed frames and no others |
| Frames.ReserializeIsStable | crates/lightr-cri-stream/src/spdy/frame.rs:107-309 | re-serializing a parsed frame and parsing again is the identity |
| Frames.BytesSurviveExactlyWhenCanonical | crates/lightr-cri-stream/src/spdy/frame.rs:107-309 | a parsed frame serializes to the very bytes it was parsed from if and only if their reserved, slot and low priority bits and the flags of flagless frames are zero and fixed payloads have their exact length |
| Frames.ReservedBitIsDropped | crates/lightr-cri-stream/src/spdy/frame.rs:164-172 | the reserved bit of an RST_STREAM id is one that does not survive |
| Frames.PrefixNeedsMore | crates/lightr-cri-stream/src/spdy/frame.rs:107-116 | every proper prefix of a well-formed frame asks for more |
| Frames.WireLayout | crates/lightr-cri-stream/src/spdy/frame.rs:229-309 | where every field of every well-formed frame stands on the wire: control bit and version 3, the type number, flags, 24-bit length, and the numbers of the payload, high byte first |
| FrameReaderModule.DecodeSerialized | crates/lightr-cri-stream/src/spdy/conn.rs:126-149 | a stream of serialized frames decodes to those frames, then to what the rest decodes to |
| FrameReaderModule.DecodeCutStream | crates/lightr-cri-stream/src/spdy/conn.rs:139-145 | cut anywhere, it gives the complete frames and then the end, without an error |
| FrameReaderModule.FrameReader.ReadFrame | crates/lightr-cri-stream/src/spdy/conn.rs:126-149 | for any split into reads, one `read_frame` answers as parsing the whole stream would and takes that frame's bytes off it |
| FrameReaderModule.FrameReader.ReadAll | crates/lightr-cri-stream/src/spdy/conn.rs:126-149 | repeated `read_frame` yields the frames and the first other outcome of decoding the whole stream, and terminates |
| FrameReaderModule.ReceiveAll | crates/lightr-cri-stream/src/spdy/conn.rs:126-149 | a peer's well-formed frames, in any reads, arrive as exactly those frames and then the end |
| HeaderBlock.SerializeHeaders | crates/lightr-cri-stream/src/spdy/headers.rs:15-25 | the loop writes the count and every pair, lengths truncated to 32 bits |
| HeaderBlock.ReadU32 | crates/lightr-cri-stream/src/spdy/headers.rs:27-32 | fails exactly when four bytes are not there, and advances by four otherwise |
| HeaderBlock.ReadBytes | crates/lightr-cri-stream/src/spdy/headers.rs:34-39 | fails exactly when the bytes are not there, and advances past them otherwise |
| HeaderBlock.DeserializeHeaders | crates/lightr-cri-stream/src/spdy/headers.rs:43-62 | the loop computes the recursive reading of the block, with its errors, and never reads out of bounds |
| HeaderBlock.ReadsBlockBack | crates/lightr-cri-stream/src/spdy/headers.rs:15-62 | up to 1024 pairs with 32-bit lengths read back, whatever follows the block |
| HeaderBlock.ReadBlockIsPrefix | crates/lightr-cri-stream/src/spdy/headers.rs:43-62 | whenever a block reads, the block written for the result is a prefix of the input |
| HeaderBlock.RoundTripExactlyWhenEncodable | crates/lightr-cri-stream/src/spdy/headers.rs:15-62 | the round trip holds for exactly the lists within those limits |
| HeaderBlock.ReadBlockExactly | crates/lightr-cri-stream/src/spdy/headers.rs:43-62 | a block is read as a list exactly when the list is within the limits and its own block stands at the front |
| HeaderBlock.GetFindsFirst | crates/lightr-cri-stream/src/spdy/headers.rs:65-70 | the lookup returns the first header of that name |
| HeaderBlock.GetIgnoresCase | crates/lightr-cri-stream/src/spdy/headers.rs:65-70 | names that differ in ASCII case only find the same header |
| HeaderBlock.SameNameExactly | crates/lightr-cri-stream/src/spdy/headers.rs:65-70 | names are the same exactly when they differ in the case of ASCII letters only |
| HeaderBlock.GetIsFirstValue | crates/lightr-cri-stream/src/spdy/headers.rs:65-70 | the lookup gives the value of the first header spelled with the name's small letters or capitals, and nothing when there is none |
| HeaderBlock.Utf8Exactly | crates/lightr-cri-stream/src/spdy/headers.rs:43-62 | the strings that pass as names and values are exactly the encodings of sequences of Unicode scalar values |
| Writers.WireIsWholeFrames | crates/lightr-cri-stream/src/spdy/conn.rs:71-123 | under every interleaving of tasks and partial writes, until a write fails, a peer decodes exactly the completed frames, each task's in its order |
| Writers.FramesArriveExactlyWhenNeverTorn | crates/lightr-cri-stream/src/spdy/conn.rs:71-123 | whenever the mutex is free, a peer decodes from the wire exactly the frames that were sent if and only if no task broke off inside one |
| Writers.PeerRecoversBlocks | crates/lightr-cri-stream/src/spdy/conn.rs:94-109 | until a write fails, a peer that decodes the wire recovers from each SYN_REPLY block on it, in wire order, the empty header list of one acknowledgement |
| Writers.RequestsAreServed | crates/lightr-cri-stream/src/spdy/conn.rs:71-123 | until a write fails, the k-th frame a peer decodes is that of the k-th request: the frame itself, or a SYN_REPLY of the acknowledged stream without flags |
| Writers.StepKeepsInv | crates/lightr-cri-stream/src/spdy/conn.rs:71-123 | taking the mutex, a partial write, releasing it and breaking off keep the wire, the compressor and the task order in step |
| Writers.BrokenFrameSwallowsNext | crates/lightr-cri-stream/src/spdy/conn.rs:77-81 | a write that breaks off inside a frame makes the peer lose the next task's frame |
| Messages.MessagesAreHeard | crates/lightr-cri-stream/src/spdy/conn.rs:273-291 | through header list, block, compression and frame, a conversation is heard as it was said, as long as no stream is opened after a HEADERS frame |
| Messages.OpeningIsMisheard | crates/lightr-cri-stream/src/spdy/conn.rs:390-392 | a stream opened after a HEADERS frame can be heard with any headers whatever, by a codec within its contract |
| Messages.OpeningsHeardExactly | crates/lightr-cri-stream/src/spdy/conn.rs:273-392 | every codec within its contract lets the server hear every opening as it was said if and only if no stream is opened after a HEADERS frame |
| Messages.HeededIsHeard | crates/lightr-cri-stream/src/spdy/conn.rs:389 | up to the first RST_STREAM or GOAWAY, what is heard is what was said |
| Messages.HeadersExactly | crates/lightr-cri-stream/src/spdy/conn.rs:278-282 | an opening has the headers whose block its decompressed bytes begin with, and none at all when they do not decompress or begin with no block |
| Messages.ConversationDecodes | crates/lightr-cri-stream/src/spdy/conn.rs:126-149 | the bytes of any conversation decode to its frames, and these are heard as said up to the message that ends the loop |
| ReadLoops.ExecReadLoop.HandleFrame | crates/lightr-cri-stream/src/spdy/conn.rs:273-394 | each arm of the read loop updates roles, by_role, stdin and the answers as the message heard in the frame means |
| ReadLoops.ExecReadLoop.Run | crates/lightr-cri-stream/src/spdy/conn.rs:258-399 | over any reads the loop ends as folding its arms over the decoded frames |
| ReadLoops.ServeClient | crates/lightr-cri-stream/src/spdy/conn.rs:273-298 | for any messages, codec within its contract and split into reads, the loop ends where the messages say, as long as no stream is opened after a HEADERS frame |
| ReadLoops.MapsKnowLastOpening | crates/lightr-cri-stream/src/spdy/conn.rs:295-296 | `roles` and `by_role` remember the last opening of a stream and of a role |
| ReadLoops.RolesAreNamed | crates/lightr-cri-stream/src/spdy/conn.rs:283-295 | a stream has the role that the first "streamType" header of its last opening spells, stdin, stdout, stderr, error or resize, and none of them when it says anything else |
| ReadLoops.UnreadableOpening | crates/lightr-cri-stream/src/spdy/conn.rs:278-295 | a stream whose headers cannot be read is acknowledged and routed, but for none of the five roles |
| ReadLoops.ClientIsAnswered | crates/lightr-cri-stream/src/spdy/conn.rs:291-388 | each opened stream is acknowledged and each ping comes back, once, with its own number, in the client's order |
| ReadLoops.MapsAreInverse | crates/lightr-cri-stream/src/spdy/conn.rs:295-296 | with each known role opened under one id and each id for one role, `roles` holds exactly the opened streams with the roles they name and `by_role` inverts it |
| ReadLoops.StdinIsItsStream | crates/lightr-cri-stream/src/spdy/conn.rs:342-363 | at every point the process has read what came on its stdin stream, in order, up to the FIN, and nothing from other streams |
| ReadLoops.HeadersFrameLosesRole | crates/lightr-cri-stream/src/spdy/conn.rs:390-392 | for every stream opened after a HEADERS frame there is a codec, within its contract, with which the loop gives it another role than its headers name |
| ReadLoops.RolesArriveExactly | crates/lightr-cri-stream/src/spdy/conn.rs:273-296 | every codec within its contract gives every stream the role its headers name if and only if no stream is opened after a HEADERS frame |
| ExecSafety.InvStep | crates/lightr-cri-stream/src/spdy/conn.rs:433-665 | every step of read loop, pumps, reaper and completion path keeps the driver's invariant |
| ExecSafety.InvRun | crates/lightr-cri-stream/src/spdy/conn.rs:151-705 | the invariant holds at every point of every interleaving |
| ExecSafety.WakeInvStep | crates/lightr-cri-stream/src/spdy/conn.rs:478-491 | every step keeps: a sleeper whose condition holds still has a notify coming |
| ExecSafety.NoLostWakeup | crates/lightr-cri-stream/src/spdy/conn.rs:296-341 | whenever the completion path sleeps on a condition that holds, the read loop stands before its notify, and that notify wakes it |
| ExecSafety.GateCovers | crates/lightr-cri-stream/src/spdy/conn.rs:526-559 | enough registered pumps means one for each output file |
| ExecSafety.OutputThenFinsThenStatus | crates/lightr-cri-stream/src/spdy/conn.rs:639-665 | in a session that took neither a backstop nor an early detach: the whole stdout and stderr, then the FINs and the status with the waiter's code back to back, then only replies and pings |
| ExecStatus.StatusIsTrue | crates/lightr-cri-stream/src/spdy/conn.rs:590-665 | in every session at every point, a status on the wire carries the waiter's code for an exec, and comes after the process ended, and zero for an attach |
| ExecStatus.ExitStatusReachesClient | crates/lightr-cri-stream/src/spdy/conn.rs:639-665 | every clean session past its ending: one status frame on the error stream with that code, the FINs of stdout and of an open stderr directly before it, no other FIN or status, the whole output before and only replies and pings behind |
| ExecStatus.BarrierIsExact | crates/lightr-cri-stream/src/spdy/conn.rs:431-443 | the barrier waits for the error and stdout streams, stdin when asked for and stderr without a tty, and for nothing else |
| ExecStatus.GateOpens | crates/lightr-cri-stream/src/spdy/conn.rs:526-545 | the gate opens once the pumps of stdout and, without a tty, of stderr are there, as far as the session has those files |
| ExecStatus.OnlyAttachLeavesEarly | crates/lightr-cri-stream/src/spdy/conn.rs:495-512 | only an attach leaves without waiting for its output, and only after its client half-closed a stream or the connection |
| ExecStatus.DetachExactly | crates/lightr-cri-stream/src/spdy/conn.rs:376-398 | a detach is on record exactly when the client closed its connection, or in an attach half-closed a stream, while the completion path listened |
| ExecStatus.ClientIsAnswered | crates/lightr-cri-stream/src/spdy/conn.rs:291-388 | each opened stream is acknowledged and each ping comes back, once, with its own number, in the client's order |
| ExecStatus.FramesAreSmall | crates/lightr-cri-stream/src/spdy/conn.rs:708-730 | no DATA frame carries more than 8192 bytes |
| ExecSafety.EndedOnce | crates/lightr-cri-stream/src/spdy/conn.rs:648-665 | each opened output stream, on a tty session an optional stderr included, and the error stream get exactly one server FIN, after their last byte |
| ExecLateBytes.NoLateBytesFromAnyClient | crates/lightr-cri-stream/src/spdy/conn.rs:597-665 | when the completion path reads the stream ids for its FINs: no continuation, whatever the client opens, puts a byte on an output stream behind its FIN if and only if no pump has output for it and no output file without a pump could still get that stream |
| ExecLateBytes.NoLateBytesExactly | crates/lightr-cri-stream/src/spdy/conn.rs:597-665 | over the continuations in which the client opens no role and no id twice, that is so if and only if all output of the stream's own role is on the wire by then, whether it has a pump or the read loop is still about to spawn one |
| ExecLateBytes.LeftoverNeedsWayOut | crates/lightr-cri-stream/src/spdy/conn.rs:513-601 | output can be left at that point only by a backstop on the pumps, an attach that ends by detach, or a stderr file beside a tty; a backstop on the streams still to be opened is not enough |
| ExecLateBytes.CleanSessionDriesUp | crates/lightr-cri-stream/src/spdy/conn.rs:478-601 | a session that took none of those ways can put no byte behind any FIN, whatever its client does afterwards |
| ExecLateBytes.AttachCanWriteAfterFin | crates/lightr-cri-stream/src/spdy/conn.rs:597-601 | a run of an attach that detaches early puts DATA behind a FIN |
| ExecSafety.DataKeepsWire | crates/lightr-cri-stream/src/spdy/conn.rs:708-730 | a pump's write puts its held bytes on its own stream and on no other |
| PortForwarding.PortForwarder.HandleFrame | crates/lightr-cri-stream/src/spdy/conn.rs:764-846 | each arm of the loop updates pairs, routes, connections and answers as the message heard means, and keeps them consistent |
| PortForwarding.PortForwarder.Run | crates/lightr-cri-stream/src/spdy/conn.rs:758-846 | over any reads the loop ends where the messages heard say |
| PortForwarding.ServeForward | crates/lightr-cri-stream/src/spdy/conn.rs:735-846 | through all layers and any reads, the forwarder ends where the client's messages say, up to the one that ends it |
| PortForwarding.StepKeepsConsistent | crates/lightr-cri-stream/src/spdy/conn.rs:786-821 | after every frame, each route leads to a pair with a data stream, and no two pairs share a connection |
| PortForwarding.StepKeepsRoutedBack | crates/lightr-cri-stream/src/spdy/conn.rs:798-801 | a pair's data stream stays routed to the pair, except exactly when its id is reused under another key |
| PortForwardSafety.StreamsArePlaced | crates/lightr-cri-stream/src/spdy/conn.rs:786-836 | in every conversation the k-th connection is that of the k-th dialed stream, and what comes on an id goes to the last stream dialed under the key that id was last opened under |
| PortForwardSafety.DialedOpeningIsSound | crates/lightr-cri-stream/src/spdy/conn.rs:798-809 | a stream whose dial succeeds keeps ids and connections matched if and only if its id is not that of an open stream and no other id leads to its key |
| PortForwardSafety.FailedOpeningIsSound | crates/lightr-cri-stream/src/spdy/conn.rs:810-819 | one whose dial fails does if and only if its key leads to the open stream with its id, when there is one, and to no open stream otherwise |
| PortForwardSafety.IsolatedExactlyWhenSafe | crates/lightr-cri-stream/src/spdy/conn.rs:764-846 | every conversation with these openings and FINs, whatever its bytes, keeps each connection to its own stream's bytes and FIN at every point if and only if every opening is safe |
| PortForwardSafety.ConnsAreIsolated | crates/lightr-cri-stream/src/spdy/conn.rs:823-846 | with safe openings, each connection gets exactly what came on its stream's id after its opening, in order, up to the FIN that shuts it, or until the client left |
| PortForwardSafety.OneDataStreamPerKeyIsSafe | crates/lightr-cri-stream/src/spdy/conn.rs:798-801 | openings with ids and keys of their own are safe, whichever dials fail |
| PortForwardPairs.ParsePortExactly | crates/lightr-cri-stream/src/spdy/conn.rs:776 | the port header is read as a number for exactly the decimal texts of 16-bit numbers, plus sign and leading zeros allowed |
| PortForwardPairs.DataUnlessError | crates/lightr-cri-stream/src/spdy/conn.rs:775-801 | a stream is a data stream unless its first "streamType" header is "error" |
| PortForwardPairs.HasLabel | crates/lightr-cri-stream/src/spdy/conn.rs:775-780 | every header list names a request, or counts by its port, which is zero when there is none or it cannot be read |
| PortForwardPairs.NoHeadersNoPort | crates/lightr-cri-stream/src/spdy/conn.rs:770-780 | a stream whose headers cannot be read counts as a data stream for port zero |
| PortForwardPairs.SamePairExactly | crates/lightr-cri-stream/src/spdy/conn.rs:777-780 | two streams belong to one pair if and only if they name the same request, or none and the same port; or one names a request that spells "port-" and the port of the other |
| PortForwardPairs.RequestsStayApart | crates/lightr-cri-stream/src/spdy/conn.rs:777-846 | data streams with ids of their own and different requests, whatever their ports, are isolated: each connection gets exactly its own stream's bytes up to its FIN |
| PortForwardPairs.StreamsArePaired | crates/lightr-cri-stream/src/spdy/conn.rs:786-801 | the last data stream and the last error stream of one request, or of one port, share a pair, and those of different ones do not |
| PortForwardPairs.DialsItsPort | crates/lightr-cri-stream/src/spdy/conn.rs:786-805 | a data stream's connection goes to the first port its pair was given |
| PortForwardPairs.ClientIsAnswered | crates/lightr-cri-stream/src/spdy/conn.rs:782-850 | each stream is acknowledged and each ping sent back; a data stream that cannot be dialed is reset with status 3, after "dial failed" to the error stream of its pair, if any, which is reset too |
| PortForwardSafety.SecondStreamTakesOver | crates/lightr-cri-stream/src/spdy/conn.rs:798-809 | a second data stream under the key of an open one shuts that one's connection and gets its bytes |
| Base64.EncodeWith | crates/lightr-cri-stream/src/b64.rs:11-44 | the loop over triples writes the encoding of the input, remainder and padding included |
| Base64.Shift | crates/lightr-cri-stream/src/b64.rs:71-76 | one symbol through the wrapping 32-bit accumulator emits exactly the byte that straddles the last two symbols, and its low six bits are always the last symbol |
| Base64.DecodeWith | crates/lightr-cri-stream/src/b64.rs:62-79 | the loop with its 32-bit accumulator computes the decoding that remembers the last symbol only, on every input, with its failures |
| Base64.BytesOfSextets | crates/lightr-cri-stream/src/b64.rs:14-20 | the three bytes of a triple are what straddles the four symbols cut from it |
| Base64.DecodeEncoded | crates/lightr-cri-stream/src/b64.rs:11-79 | decoding undoes encoding for every input, both alphabets, with or without padding |
| Base64.EncodingIsInjective | crates/lightr-cri-stream/src/b64.rs:47-54 | both encodings are injective |
| Base64.EncodedLength | crates/lightr-cri-stream/src/b64.rs:11-44 | the exact length, padded and unpadded |
| Base64.UrlEncodingIsSafe | crates/lightr-cri-stream/src/b64.rs:47-49 | the URL encoding holds letters, digits, dash and underscore only |
| Base64.DecodesExactlyLetters | crates/lightr-cri-stream/src/b64.rs:56-71 | decoding fails exactly when some byte is neither skipped nor in the alphabet |
| Base64.DecodesExactly | crates/lightr-cri-stream/src/b64.rs:56-79 | an input decodes exactly when it holds letters of its alphabet, "=" and line ends only |
| Base64.PaddingIsEquals | crates/lightr-cri-stream/src/b64.rs:22-44 | padding is the right number of "=" behind the unpadded encoding |
| Base64.AlphabetLetters | crates/lightr-cri-stream/src/b64.rs:8-9 | the two tables hold the letters, digits and two symbols in order |
| Channel.BinaryRoundTrip | crates/lightr-cri-stream/src/channel.rs:43-54 | binary framing and its decoding invert each other |
| Channel.Base64RoundTrip | crates/lightr-cri-stream/src/channel.rs:59-77 | base64 framing gives back channel and payload for channels 0 to 9 and every payload |
| Channel.ChannelComesFirst | crates/lightr-cri-stream/src/channel.rs:43-77 | the first byte of a frame is the channel, as a number or as the ASCII digit |
| Channel.DecodesExactlyDigits | crates/lightr-cri-stream/src/channel.rs:70-79 | a frame decodes exactly when it begins with a digit, which is its channel, and goes on in base64 |
| Tokens.TokenIsEightChars | crates/lightr-cri-stream/src/token.rs:46-51 | six random bytes make eight URL-safe characters |
| Tokens.TokensAreDistinct | crates/lightr-cri-stream/src/token.rs:46-51 | different random bytes make different tokens |
| Tokens.Pick | crates/lightr-cri-stream/src/token.rs:67-83 | the loop takes the first draw that names no live token, and gives up only when the source fails or all eight collide |
| Tokens.TokenRegistry.Mint | crates/lightr-cri-stream/src/token.rs:57-83 | sweeps the expired, refuses exactly at 1000 live tokens or when no draw can be taken, and otherwise adds one fresh entry |
| Tokens.TokenRegistry.Consume | crates/lightr-cri-stream/src/token.rs:86-93 | removes the token in every case, and returns its verb and parameters exactly when it was there and young |
| TokenSafety.NeverOverCap | crates/lightr-cri-stream/src/token.rs:61-65 | over every history there are never more than 1000 entries |
| TokenSafety.MintSweeps | crates/lightr-cri-stream/src/token.rs:61-62 | after any mint, refused or not, every entry is younger than 60 seconds |
| TokenSafety.UseHasMint | crates/lightr-cri-stream/src/token.rs:86-93 | every successful use is of an earlier mint of that token, with its verb and parameters, within its minute |
| TokenSafety.MintIsUsedOnce | crates/lightr-cri-stream/src/token.rs:86-89 | no mint is used twice |
| TokenSafety.UsesAreSeparated | crates/lightr-cri-stream/src/token.rs:67-89 | two uses of one token have a mint of it between them |
| TokenSafety.LiveTokenWorks | crates/lightr-cri-stream/src/token.rs:57-93 | a minted token works until it is used or its minute is over |
| TokenSafety.YoungExactly | crates/lightr-cri-stream/src/token.rs:61-91 | an entry is good for sixty seconds from its mint, at any reading of the clock |

## Left out

- FakeBackendModule.FakeBackend.StopContainer: does not promise that the record is Exited on return, because with a pid the code leaves that to the reaper and gives up after its wait.
- FakeBackendModule.FakeBackend.StartContainer: models one start at a time; two concurrent starts of one container both pass the Created check of the code.
- ExecSafety.OutputThenFinsThenStatus: says nothing about sessions that ran into a 5-second backstop, an early detach, a role opened twice, or a failed write.
- Writers.WireIsWholeFrames: says nothing of which frames get through after a write failed or a task was aborted in the middle of a frame.
- Failing or partial file-system operations, and two API calls in flight at once.
- Namespaces, ptys, descriptors, signals and process statistics: a spawn gives a pid or fails, a process may end with any code, and a probe says whether a pid is alive.
- The two start paths (pipe mode and pty mode) differ in descriptors only and are one path here.
- The header compression itself and its dictionary: only its contract is assumed.
- `Frame::serialize` and `control_header` push onto a local vector; here they are concatenations.
- `Writer` is a transition system on values rather than a class, because its partial writes interleave with other tasks.
- The attach fan-out, terminal resizing, WebSocket sessions, gRPC translation, CNI plugins and status JSON: thin code or foreign processes.
- The TCP-to-SPDY direction of port forwarding, its 3-second drain with the connections dropped after it, and the dial itself.
- Liveness against the clock: every time-out is a step that may happen at any time.
