# HttpDownloader, modelled in Dafny

`HttpDownloader` is a background HTTP download engine. The caller configures it with:

- an output target, which is either a file path or a stream of the caller's;
- a read timeout;
- whether to hash the content with MD5.

`Start` then launches a worker thread. The worker:

1. opens the target;
2. connects and reads the content length;
3. copies the response body in chunks of `BuffSize` (10 KiB), feeding each chunk to the hash, writing it to the target and reporting progress with an estimate of the remaining time;
4. ends in `kComplete`, `kAborted` or `kFailed`. The exception is a worker that finds no target: it reports `kNone` once and leaves the status as it was (`kStarted` after `Start`).

`Abort` asks the loop to stop, and a watchdog reports `kTimeout` when a read stalls.

The model replaces the threads by one sequential run. It has five modules:

- `DownloadTypes` (types.dfy) holds:
  - the `Status` and `OutputMode` enums;
  - the progress event `(message, status, current, total, remain)`;
  - the environment that stands for the framework, the file system and the server. It gives the message the timer constructor throws with, and whether the file opens. The request either cannot be created for the URL, or the server refuses it, or the server answers with a content length and a sequence of read `Step`s. A step is a read of `size` bytes, an I/O error, a stall the watchdog ends, or an `Abort` issued by the controller between two reads.
- `HexFormat` (hex.dfy) holds the `{0:X2}` rendering `HashToString` builds.
- `RemainTime` (remain_time.dfy) holds `CalcRemainTime` over exact reals, with the elapsed ticks as a parameter.
- `Session` (session.dfy) holds:
  - the downloader state as a value, including the progress events delivered so far and the bytes written;
  - one transition function per operation;
  - the worker, `Download`, defined by recursion over the steps;
  - a closed form of the worker;
  - the lemmas that state what a run promises.
- `Downloader` (http_downloader.dfy) is the class `HttpDownloader`:
  - it keeps the source's fields;
  - the progress events and the written bytes are ghost fields;
  - each method is proved to change the fields exactly as a `Session` function says (`Model() == Session.F(old(Model()), …)`). The table below names that function for each method. Some share its name; `Md5Content` answers as `Md5Query`, `TimeoutTimerElapsed` as `TimeoutElapsed`, `Downloading` and `OpenTarget` as `Download`, `Respond` as `AfterLoop` of `Loop` from `Answered`, `Receive` as `AfterLoop` of `Loop`, `ReadLoop` as `Loop`, `ReportFailure` as `Fail`, `ReportEnd` as `Finish` and `WriteChunk` as `Consume`;
  - the methods a caller invokes also keep the invariant `Session.Consistent`, as `Valid()`. The helpers that only the worker calls, and `HashToString`, state their effect alone; `Downloading` re-establishes `Valid()` at the end;
  - the worker is the method `Downloading`, an imperative `while (!threadStopFlag)` loop. Its body is split along the source's own blocks: the timer, the target, the request, the answer, the read loop, one chunk, the catch block, the terminal report.

The digest is an uninterpreted function `md5` of the bytes fed to the hash. It is passed to `Downloading` as a parameter.

Where the code and the design description disagree, the model follows the code. The differences are these:

- In the source, a stalled read leaves the watchdog (`TimeoutTimer_Elapsed`) to report `kTimeout` and to abort the worker thread. The thread abort then lands in the worker's catch block, which reports `kFailed`. A stalled run therefore reports two terminal statuses and ends in `kFailed`, not in `kTimeout`. `DownloadTerminalCount` and `DownloadEnds` state this.
- `Start` does not refuse to run when the status is not `kNone`.
- Each chunk's event reports the size reached *before* the chunk. The first chunk's event carries the status the worker found, which is `kStarted` after `Start`. Later chunk events carry `kDownloading`.
- The terminal events, on success, abort and failure, pass the total size in the `currentsize` slot and the current size in the `totalsize` slot. The unknown content length -1 becomes the sentinel 1.
- In file mode the worker stores the file stream it opens in `outstream_`, so after a file-mode run both targets are set.
- The worker creates the timeout timer before it looks at the target. The timer constructor throws for a timeout of 0 or less, which the `time_out` setter accepts. Such a run ends in `kFailed`, even when no target is set.
- Abort arms a stop timer that reports the stored status again 500 ms later, in the usual slot order. When that timer fires after an aborted run has finished, the run reports `kAborted` twice. `AbortedRunReportsTwice` states this.
- The digest is described as filled in only when a download completes. The hash block also runs after a loop ended by Abort, so an aborted run stores the digest of the part of the body it read. `DownloadDigest` states this.
- The digest is described as null until a download completes. `md5_content_` is never reset, so during a new run, and after a run that fails, the getter returns the previous run's digest. `FailedRunKeepsDigest` and `DownloadFailsBeforeLoop` state this.
- The remaining-time estimate is described as non-negative once data has arrived. For a download of unknown length the total is the sentinel 1, so once more than one byte has arrived, the current size exceeds the total and every later chunk's estimate is negative once any time has elapsed. `RemainNegativePastTotal` states this.

## Model

| member | source | states |
|---|---|---|
| DownloadTypes.Status.Code | SimpleHttpDownloader/lib/HttpDownloader.cs:53-93 | the enum values; a status is terminal exactly when its value is at least 5, and an error class exactly when its value is at least 0x10 |
| DownloadTypes.Status.Name | SimpleHttpDownloader/lib/HttpDownloader.cs:302 | the name `ToString()` gives a status, used as the event message; every name starts with k |
| DownloadTypes.NameInjective | SimpleHttpDownloader/lib/HttpDownloader.cs:302 | distinct statuses have distinct names, so an event's message tells its status |
| HexFormat.HexDigit | SimpleHttpDownloader/lib/HttpDownloader.cs:378 | a nibble's upper-case digit is 0-9 for values below 10 and A-F above |
| HexFormat.DigitValue | SimpleHttpDownloader/lib/HttpDownloader.cs:378 | every hex digit is the upper-case digit of exactly one nibble |
| HexFormat.X2 | SimpleHttpDownloader/lib/HttpDownloader.cs:378 | `{0:X2}` of a byte is two hex digits whose value, high digit first, is the byte |
| HexFormat.Hex | SimpleHttpDownloader/lib/HttpDownloader.cs:373-380 | the string the loop accumulates, one X2 pair per byte in order; n bytes render as 2n characters |
| HexFormat.HexAt | SimpleHttpDownloader/lib/HttpDownloader.cs:373-380 | characters 2i and 2i+1 are the high and low nibble of byte i |
| HexFormat.HexChars | SimpleHttpDownloader/lib/HttpDownloader.cs:373-380 | every character of the rendering is one of 0-9, A-F |
| HexFormat.HexRoundTrip | SimpleHttpDownloader/lib/HttpDownloader.cs:373-380 | reading the rendering back pair by pair gives the digest bytes |
| HexFormat.HexInjective | SimpleHttpDownloader/lib/HttpDownloader.cs:373-380 | two digests with the same rendering are equal |
| RemainTime.Divisor | SimpleHttpDownloader/lib/HttpDownloader.cs:360-363 | the current size, or exactly 1 when it is below 0.001; never below 1 |
| RemainTime.CalcRemainTime | SimpleHttpDownloader/lib/HttpDownloader.cs:358-372 | estimate × current = elapsed × (total − current) once something has arrived, so the elapsed time is scaled by the ratio still outstanding; with nothing received the estimate is elapsed × (total − 1) |
| RemainTime.RemainNonNegative | SimpleHttpDownloader/lib/HttpDownloader.cs:358-372 | for elapsed ≥ 0, a total of at least 1 and current ≤ total (current 0 or below included) the estimate is not negative |
| RemainTime.RemainNegativePastTotal | SimpleHttpDownloader/lib/HttpDownloader.cs:358-372 | for a positive elapsed time and a current size past a total of at least 1 (as in a download of unknown length, whose total is the sentinel 1, once more than one byte has arrived) the estimate is negative |
| RemainTime.RemainZeroAtEnd | SimpleHttpDownloader/lib/HttpDownloader.cs:358-372 | once current equals a total of at least 1 the estimate is zero (for a total of 0 the divisor becomes 1 and the estimate is minus the elapsed time) |
| RemainTime.RemainAtConstantRate | SimpleHttpDownloader/lib/HttpDownloader.cs:358-372 | at a constant rate the estimate is the time the remaining bytes take at that rate |
| RemainTime.RemainDecreasesAtConstantRate | SimpleHttpDownloader/lib/HttpDownloader.cs:358-372 | at a constant rate the estimate does not grow as more bytes arrive |
| Session.InitialConsistent | SimpleHttpDownloader/lib/HttpDownloader.cs:399-499 | the freshly constructed state satisfies the invariant |
| Session.SetTimeOut | SimpleHttpDownloader/lib/HttpDownloader.cs:418-427 | the timeout changes to the new value only while the status is None; no other field changes |
| Session.SetMd5Enable | SimpleHttpDownloader/lib/HttpDownloader.cs:432-441 | the hashing switch changes only while the status is None; no other field changes |
| Session.SetSaveFilePath | SimpleHttpDownloader/lib/HttpDownloader.cs:471-482 | stores the path, clears the stream and selects file mode; nothing else changes |
| Session.SetOutStream | SimpleHttpDownloader/lib/HttpDownloader.cs:488-498 | stores the stream, clears the path and selects stream mode; nothing else changes |
| Session.Md5Query | SimpleHttpDownloader/lib/HttpDownloader.cs:447-455 | reading the digest fails with MD5NoEnabledException, carrying its message, exactly when hashing is off, and otherwise gives the stored rendering |
| Session.TargetsExclusive | SimpleHttpDownloader/lib/HttpDownloader.cs:471-498 | after either setter the other target is clear; the last setter alone decides the target |
| Session.ConfigurationKeepsConsistent | SimpleHttpDownloader/lib/HttpDownloader.cs:418-498 | every setter keeps the invariant (stored status, abort implies stop, mode matches the targets) |
| Session.Start | SimpleHttpDownloader/lib/HttpDownloader.cs:162-172 | both flags are cleared and the status is Started; nothing else changes |
| Session.Abort | SimpleHttpDownloader/lib/HttpDownloader.cs:176-183 | with neither flag set both become set; otherwise nothing changes |
| Session.AbortIdempotent | SimpleHttpDownloader/lib/HttpDownloader.cs:176-183 | calling Abort twice equals calling it once |
| Session.Close | SimpleHttpDownloader/lib/HttpDownloader.cs:121-150 | the stop flag is set; nothing else in the state changes |
| Session.TimeoutElapsed | SimpleHttpDownloader/lib/HttpDownloader.cs:333-357 | the watchdog sets the stop flag, stores Timeout and reports it once with the current sizes |
| Session.StopTimerElapsed | SimpleHttpDownloader/lib/HttpDownloader.cs:313-332 | the stop timer, firing after the worker has ended, reports the stored status once more in the usual slot order; nothing else changes |
| Session.ControlKeepsConsistent | SimpleHttpDownloader/lib/HttpDownloader.cs:121-183 | Start, Abort, Close, the watchdog and the stop timer keep the invariant |
| Session.Consume | SimpleHttpDownloader/lib/HttpDownloader.cs:245-251 | one chunk: its bytes are written, one event reports the status, under its own name, and the size before the chunk with the remaining-time estimate, then the size grows by the chunk and the status is Downloading |
| Session.ConsumeFrame | SimpleHttpDownloader/lib/HttpDownloader.cs:245-251 | a chunk changes nothing but the current size, the written bytes, the events and the status |
| Session.Loop | SimpleHttpDownloader/lib/HttpDownloader.cs:236-252 | the read loop changes only the status, the size, the flags, the events and the written bytes, and only appends to the events and to the bytes |
| Session.Fail | SimpleHttpDownloader/lib/HttpDownloader.cs:264-267 | the catch block: Failed is stored and one event is added with the exception's message and the total and current sizes in swapped slots |
| Session.Digest | SimpleHttpDownloader/lib/HttpDownloader.cs:254-258 | with hashing on, reading the digest afterwards gives the rendering of md5 of the bytes written; with hashing off it still fails |
| Session.Finish | SimpleHttpDownloader/lib/HttpDownloader.cs:287-296 | Aborted when the abort flag is set, else Complete, reported once with the sizes in swapped slots |
| Session.EndingsFrame | SimpleHttpDownloader/lib/HttpDownloader.cs:254-296 | the catch block and the terminal report change nothing but the status and the events; hashing changes nothing but the stored digest |
| Session.Answered | SimpleHttpDownloader/lib/HttpDownloader.cs:214-224 | once the server answers, Connecting, Connected and (Downloading, 0, total) have been reported, the total is the resolved content length and the current size is 0 |
| Session.TotalOf | SimpleHttpDownloader/lib/HttpDownloader.cs:220-222 | an unknown content length (-1) becomes 1; any other length is kept |
| Session.AfterLoop | SimpleHttpDownloader/lib/HttpDownloader.cs:254-296 | after the loop exactly one terminal event is added and its status is stored; the result is Failed exactly when the loop, the flush or the close threw, and that event then carries the exception's message; the settings and the target are untouched |
| Session.Transfer | SimpleHttpDownloader/lib/HttpDownloader.cs:212-296 | once the target is ready the run always ends in a terminal status that its last event reports, with events only appended and settings and target untouched |
| Session.Download | SimpleHttpDownloader/lib/HttpDownloader.cs:189-297 | the worker only appends events and always appends at least one; it leaves the settings alone |
| Session.DownloadEndsReported | SimpleHttpDownloader/lib/HttpDownloader.cs:189-297 | the worker ends with the single None report and the status unchanged exactly when the timeout is positive and there is no target; in every other case it ends in a terminal status that its last event reports |
| Session.DownloadWithoutTarget | SimpleHttpDownloader/lib/HttpDownloader.cs:200-210 | with a positive timeout and no file path and no stream, the worker reports (None, 0, 0) once and changes nothing else |
| Session.DownloadFailsBeforeLoop | SimpleHttpDownloader/lib/HttpDownloader.cs:197-275 | a worker that fails before its loop (timeout ≤ 0, file open, request creation or connection) stores Failed and adds one Failed event with the message and the sizes in swapped slots, preceded by Connecting only for a refused connection; nothing is written, and the sizes and the previous digest are kept |
| Session.WorkerPaths | SimpleHttpDownloader/lib/HttpDownloader.cs:197-252 | the worker takes exactly one of three paths: no target, a failure before the loop, or the read loop |
| Session.ZeroTimeoutFails | SimpleHttpDownloader/lib/HttpDownloader.cs:200-201 | a timeout of 0 set before Start makes the worker fail at once with one Failed event, even with no target |
| Session.RunEnd | SimpleHttpDownloader/lib/HttpDownloader.cs:236-243 | the run of chunk reads from a step ends at the first read of 0 or -1, error, stall or abort request |
| Session.LoopMatchesOutcome | SimpleHttpDownloader/lib/HttpDownloader.cs:236-252 | the loop equals its closed form: the run of chunks is consumed, then the first other step decides how the loop ends |
| Session.ChunkEventAt | SimpleHttpDownloader/lib/HttpDownloader.cs:249-251 | the k-th chunk event reports the sizes of the k chunks before it, the total, and Downloading after the first |
| Session.ChunkEventsIncrease | SimpleHttpDownloader/lib/HttpDownloader.cs:249-250 | for chunks of positive size the reported sizes strictly increase |
| Session.ChunkEventsRemainNonNegative | SimpleHttpDownloader/lib/HttpDownloader.cs:249 | while the chunks do not take the size past the total and no read happens at a negative time, every chunk event's remaining-time estimate is non-negative |
| Session.BytesLength | SimpleHttpDownloader/lib/HttpDownloader.cs:245-250 | the bytes written are as many as the chunk sizes add up to |
| Session.ChunkEventsNotTerminal | SimpleHttpDownloader/lib/HttpDownloader.cs:249-251 | no chunk event carries a terminal status when the worker starts from a non-terminal one |
| Session.DownloadEntersLoop | SimpleHttpDownloader/lib/HttpDownloader.cs:200-236 | a worker with a positive timeout and a target that opens, whose request is created and answered, enters the loop with nothing written, size 0, the resolved total and the three milestone events |
| Session.LoopReachesBase | SimpleHttpDownloader/lib/HttpDownloader.cs:236-252 | from that entry the loop consumes the leading chunks and ends as the first other step (or the stop flag) decides |
| Session.DownloadMatchesExpected | SimpleHttpDownloader/lib/HttpDownloader.cs:189-297 | the whole worker equals its closed form when it reaches the loop |
| Session.DownloadProgress | SimpleHttpDownloader/lib/HttpDownloader.cs:219-252 | for a run that reaches the loop, after the worker the total is the resolved length, the current size is the sum of the chunks consumed, exactly their bytes were written, and chunk k's event reports the size after k chunks |
| Session.DownloadReportsIncrease | SimpleHttpDownloader/lib/HttpDownloader.cs:249-250 | successive chunk events report strictly increasing sizes |
| Session.DownloadEnds | SimpleHttpDownloader/lib/HttpDownloader.cs:254-296 | for a run that reaches the loop, the worker ends Failed after an exception in the loop, the flush or the close, otherwise Aborted if an abort was requested and Complete if not; the last event reports that status with the size slots swapped, and carries the exception's message after a failed flush or close |
| Session.DownloadTerminalCount | SimpleHttpDownloader/lib/HttpDownloader.cs:236-296 | the worker's own events for a run that reaches the loop carry one terminal status, two (Timeout, then Failed) after a stall; the last event carries the final status; the stop timer's later report is counted by AbortedRunReportsTwice |
| Session.AbortedRunReportsTwice | SimpleHttpDownloader/lib/HttpDownloader.cs:313-332 | after an aborted run the stop timer reports the stored status once more, so the run carries two terminal reports, the last two both Aborted (both Failed when the close threw) |
| Session.AbortedRunEnds | SimpleHttpDownloader/lib/HttpDownloader.cs:254-296 | an aborted run, before the stop timer fires, reports exactly one terminal status, Aborted (Failed when the close threw), as its last event |
| Session.StopTimerRepeats | SimpleHttpDownloader/lib/HttpDownloader.cs:313-332 | the stop timer's report after a finished run repeats the final status, so the count of terminal reports grows by one and the last two agree |
| Session.DownloadDigest | SimpleHttpDownloader/lib/HttpDownloader.cs:254-258 | after a normal loop end with hashing on, the digest read gives the rendering of the digest of exactly the bytes written; this includes an aborted run, which hashes the part of the body it read, and a run whose flush or close throws |
| Session.AbortBeforeRead | SimpleHttpDownloader/lib/HttpDownloader.cs:254-291 | an Abort before the first read ends the run Aborted at size 0 with nothing written, right after the milestones (Failed with the close's message when the close throws) |
| Session.FailedRunKeepsDigest | SimpleHttpDownloader/lib/HttpDownloader.cs:236-275 | a run that throws in its read loop leaves the previous run's digest in place, since nothing clears it |
| Session.DownloadKeepsConsistent | SimpleHttpDownloader/lib/HttpDownloader.cs:189-297 | the worker keeps the invariant |
| Downloader.HttpDownloader.constructor | SimpleHttpDownloader/lib/HttpDownloader.cs:399-499 | the fields start at the source's defaults (None, no target, timeout 5000, hashing on) |
| Downloader.HttpDownloader.SetTimeOut | SimpleHttpDownloader/lib/HttpDownloader.cs:418-427 | the fields change as Session.SetTimeOut says |
| Downloader.HttpDownloader.SetMd5Enable | SimpleHttpDownloader/lib/HttpDownloader.cs:432-441 | the fields change as Session.SetMd5Enable says |
| Downloader.HttpDownloader.Md5Content | SimpleHttpDownloader/lib/HttpDownloader.cs:447-455 | the getter answers as Session.Md5Query |
| Downloader.HttpDownloader.SetSaveFilePath | SimpleHttpDownloader/lib/HttpDownloader.cs:471-482 | the fields change as Session.SetSaveFilePath says |
| Downloader.HttpDownloader.SetOutStream | SimpleHttpDownloader/lib/HttpDownloader.cs:488-498 | the fields change as Session.SetOutStream says |
| Downloader.HttpDownloader.Start | SimpleHttpDownloader/lib/HttpDownloader.cs:162-172 | the fields change as Session.Start says |
| Downloader.HttpDownloader.Abort | SimpleHttpDownloader/lib/HttpDownloader.cs:176-183 | the fields change as Session.Abort says |
| Downloader.HttpDownloader.Close | SimpleHttpDownloader/lib/HttpDownloader.cs:121-150 | the fields change as Session.Close says |
| Downloader.HttpDownloader.TimeoutTimerElapsed | SimpleHttpDownloader/lib/HttpDownloader.cs:333-357 | the fields change as Session.TimeoutElapsed says |
| Downloader.HttpDownloader.StopTimerElapsed | SimpleHttpDownloader/lib/HttpDownloader.cs:313-332 | the fields change as Session.StopTimerElapsed says |
| Downloader.HttpDownloader.HashToString | SimpleHttpDownloader/lib/HttpDownloader.cs:373-380 | the byte-by-byte loop leaves `md5Content` the full rendering `Hex(bytes)` |
| Downloader.HttpDownloader.Downloading | SimpleHttpDownloader/lib/HttpDownloader.cs:189-297 | the worker changes the fields as Session.Download says, so every Download lemma describes it |
| Downloader.HttpDownloader.OpenTarget | SimpleHttpDownloader/lib/HttpDownloader.cs:203-296 | past the timer, opening the target (or reporting None without one) and the transfer change the fields as Session.Download says |
| Downloader.HttpDownloader.Respond | SimpleHttpDownloader/lib/HttpDownloader.cs:214-296 | the milestone reports and the sizing leave the state Session.Answered says, from which the loop and its end follow as Session.AfterLoop of Session.Loop |
| Downloader.HttpDownloader.Transfer | SimpleHttpDownloader/lib/HttpDownloader.cs:212-296 | request creation, connecting, sizing, the loop and the end change the fields as Session.Transfer says |
| Downloader.HttpDownloader.Receive | SimpleHttpDownloader/lib/HttpDownloader.cs:236-296 | the loop followed by the catch block, or by the hash, the flush and close (whose exception the catch block reports) and the terminal report, as Session.AfterLoop of Session.Loop |
| Downloader.HttpDownloader.ReadLoop | SimpleHttpDownloader/lib/HttpDownloader.cs:236-252 | the while loop ends as Session.Loop says, and the bytes fed to the hash are the bytes written |
| Downloader.HttpDownloader.WriteChunk | SimpleHttpDownloader/lib/HttpDownloader.cs:248-251 | writing and reporting one chunk changes the fields as Session.Consume says |
| Downloader.HttpDownloader.ReportFailure | SimpleHttpDownloader/lib/HttpDownloader.cs:264-275 | the catch block changes the fields as Session.Fail says |
| Downloader.HttpDownloader.ReportEnd | SimpleHttpDownloader/lib/HttpDownloader.cs:287-296 | the terminal report changes the fields as Session.Finish says |

## Left out

- Threads are not modelled: the worker thread, `Thread.Abort`, `Thread.Sleep` and `Worker`. One run of `Start` followed by `Downloading` stands for the concurrent execution.
- In the source, `Start` stores `kStarted` only after it launches the thread, so the worker can race past it. The model sets it before the worker runs.
- The stop timer is modelled only firing after the worker has ended, as `StopTimerElapsed`, which adds its report. When it fires while the worker still reads, its close of the stream and its thread abort end the run in the catch block with `kFailed`. That timing race is not modelled, nor are the 500 ms delay and the closes themselves.
- Close sets `stop_timer_` to null, and the model does not track the timers' lifetimes:
  - an Abort after Close and Start sets both flags and then throws `NullReferenceException` to its caller;
  - a watchdog firing after Close throws at the stop timer's `Stop`, its handler swallows the exception, and none of its effects happen;
  - the model's Abort and TimeoutElapsed always apply in full.
- The timeout watchdog's scheduling is not modelled. A read that stalls past `time_out_` appears as one abstract `Stalled` step. That step runs `TimeoutTimer_Elapsed`'s effect on the state, then the thread abort it causes arrives as an exception. The timeout value decides only whether the timer can be created; its length is never compared with a time.
- HTTP and file I/O are not modelled: `HttpWebRequest`, `HttpWebResponse`, `FileStream`, and stream `Write`, `Flush` and `Close`. Their place is taken by the environment and by the ghost sequence of written bytes. The environment says:
  - the timer constructor's message;
  - whether the file opens;
  - whether a request can be created and what the server answers;
  - how each read goes;
  - whether the flush or the close after the loop throws.
- Session.Transfer: an exception from `GetResponseStream` (line 232) is expressed as a `Broken` first step, which the loop meets only while the stop flag is clear. When Abort or Close has raised the flag before the loop starts, the source still fails with `kFailed`, but the model skips the loop and ends `kAborted` or `kComplete`.
- Close's releases of the stream, the response and the timer are left out; only its stop flag is modelled.
- `Dispose` is an alias of `Close` and has no member of its own.
- The MD5 provider is replaced by the parameter `md5`. The model does not capture the digest algorithm, `TransformBlock` or `TransformFinalBlock`.
- `DateTime.Now`, the `start_time`/`end_time` properties and `TimeSpan` are replaced by the elapsed ticks each `Read` step carries.
- RemainTime.CalcRemainTime: follows the source's formula over exact reals. It does not model the `double` rounding or the truncating `long` cast, because those are floating-point behaviour.
- The `long` counters `currentsize_` and `totalsize_`, and the `int` timeout, are unbounded integers in the model. A 64-bit overflow is not reachable with reads of at most `BuffSize` bytes in any realistic run.
- `BuffSize` is a mutable static field in the source; the model treats it as the constant 10240.
- The `update_event` subscription is not modelled. Events are recorded as if a handler were attached, because without one `SendUpdateEvent` does nothing.
- DownloadTypes.Report, the event the three-argument `SendUpdateEvent` sends, has no contract of its own: it builds the event record, and the lemmas about the worker state its fields.
- The `download_url` property is not modelled. The outcome of creating a request for it is given as input (`Unrequestable`), as is the server's behaviour.
- The read getters `status`, `output_mode`, `currentsize`, `totalsize`, `time_out`, `md5_enable`, `savefilepath` and `outstream` have no members of their own. In Dafny they are the class's readable fields.
- Downloader.HttpDownloader.Downloading: requires every read to honour the stream contract, which is part of .NET's `Stream.Read` rather than of this source. A read returns -1, 0 or at most `BuffSize` bytes, and delivers that many.
- `SimpleHttpDownloader/TestForm.cs` is a UI that only consumes the callback and is not part of this model.
