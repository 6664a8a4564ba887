/** The downloader's state as a value, and the effect of each of its operations on that
    value. The class in http_downloader.dfy keeps the same state in fields and proves
    each of its methods against one of the functions here (README's table names it). */
module Session {
  import opened DownloadTypes
  import opened HexFormat
  import opened RemainTime

  /** Everything the downloader's operations read or write. `events` is the sequence of
      progress callbacks delivered so far; `written` holds the bytes the current worker
      run has written to the output stream. */
  datatype State = State(
    status: Status,
    outputMode: OutputMode,
    currentSize: int,
    totalSize: int,
    timeOut: int,
    md5Enable: bool,
    md5Content: Nullable<string>,
    savefilepath: Nullable<string>,
    outstream: Nullable<Sink>,
    abortFlag: bool,
    stopFlag: bool,
    events: seq<Event>,
    written: seq<byte>)

  /** The state after construction: a 5000 ms timeout, hashing on, no target. */
  const Initial: State :=
    State(None, Unset, 0, 0, 5000, true, Null, Null, Null, false, false, [], [])

  /** Connecting and Connected are only ever reported, never stored. */
  predicate StoredStatus(status: Status) {
    !status.Connecting? && !status.Connected?
  }

  /** The invariant every operation keeps. */
  predicate Consistent(s: State) {
    && StoredStatus(s.status)
    && (s.abortFlag ==> s.stopFlag)
    && (s.outputMode.Unset? ==> s.savefilepath.Null? && s.outstream.Null?)
    && (s.outputMode.ToFile? ==>
          s.outstream.Null? ||
          (s.savefilepath.NonNull? && s.outstream == NonNull(FileSink(s.savefilepath.value))))
    && (s.outputMode.ToStream? ==> s.savefilepath.Null?)
  }

  lemma InitialConsistent()
    ensures Consistent(Initial)
  {
  }

  // ---------------------------------------------------------------------------
  // Configuration

  /** Setting `time_out` is ignored once the downloader has left None. */
  function SetTimeOut(s: State, value: int): (r: State)
    ensures r.timeOut == (if s.status.None? then value else s.timeOut)
    ensures r.(timeOut := s.timeOut) == s
  {
    if !s.status.None? then s else s.(timeOut := value)
  }

  /** Setting `md5_enable` is ignored once the downloader has left None. */
  function SetMd5Enable(s: State, value: bool): (r: State)
    ensures r.md5Enable == (if s.status.None? then value else s.md5Enable)
    ensures r.(md5Enable := s.md5Enable) == s
  {
    if !s.status.None? then s else s.(md5Enable := value)
  }

  /** Choosing a file target drops any stream target. */
  function SetSaveFilePath(s: State, path: Nullable<string>): (r: State)
    ensures r.savefilepath == path && r.outstream.Null? && r.outputMode.ToFile?
    ensures r.(savefilepath := s.savefilepath, outstream := s.outstream, outputMode := s.outputMode) == s
  {
    s.(savefilepath := path, outstream := Null, outputMode := ToFile)
  }

  /** Choosing a stream target drops any file target. */
  function SetOutStream(s: State, stream: Nullable<Sink>): (r: State)
    ensures r.outstream == stream && r.savefilepath.Null? && r.outputMode.ToStream?
    ensures r.(savefilepath := s.savefilepath, outstream := s.outstream, outputMode := s.outputMode) == s
  {
    s.(outstream := stream, savefilepath := Null, outputMode := ToStream)
  }

  /** The result of reading `md5_content`: its stored value, or the
      MD5NoEnabledException when hashing is off. */
  datatype Md5Result = Md5Value(content: Nullable<string>) | Md5NotEnabled(message: string)

  /** The message MD5NoEnabledException carries. */
  const Md5NotEnabledMessage: string := "Please set md5_enable = true!"

  function Md5Query(s: State): (r: Md5Result)
    ensures r.Md5NotEnabled? <==> !s.md5Enable
    ensures r.Md5NotEnabled? ==> r.message == Md5NotEnabledMessage
    ensures r.Md5Value? ==> r.content == s.md5Content
  {
    if !s.md5Enable then Md5NotEnabled(Md5NotEnabledMessage) else Md5Value(s.md5Content)
  }

  /** After either setter at most one output target is set, and the mode names it. */
  lemma TargetsExclusive(s: State, path: Nullable<string>, stream: Nullable<Sink>)
    ensures SetSaveFilePath(s, path).outstream.Null?
    ensures SetOutStream(s, stream).savefilepath.Null?
    ensures SetOutStream(SetSaveFilePath(s, path), stream) == SetOutStream(s, stream)
    ensures SetSaveFilePath(SetOutStream(s, stream), path) == SetSaveFilePath(s, path)
  {
  }

  lemma ConfigurationKeepsConsistent(s: State, t: int, m: bool, path: Nullable<string>, stream: Nullable<Sink>)
    requires Consistent(s)
    ensures Consistent(SetTimeOut(s, t)) && Consistent(SetMd5Enable(s, m))
    ensures Consistent(SetSaveFilePath(s, path)) && Consistent(SetOutStream(s, stream))
  {
  }

  // ---------------------------------------------------------------------------
  // Start, Abort, Close and the timeout watchdog

  /** Start clears both flags and records Started; the worker runs afterwards. */
  function Start(s: State): (r: State)
    ensures !r.abortFlag && !r.stopFlag && r.status.Started?
    ensures r.(abortFlag := s.abortFlag, stopFlag := s.stopFlag, status := s.status) == s
  {
    s.(stopFlag := false, abortFlag := false, status := Started)
  }

  /** Abort raises both flags, unless either is raised already. */
  function Abort(s: State): (r: State)
    ensures r.abortFlag == (s.abortFlag || !s.stopFlag)
    ensures r.stopFlag == (s.stopFlag || !s.abortFlag)
    ensures r.(abortFlag := s.abortFlag, stopFlag := s.stopFlag) == s
  {
    if s.abortFlag || s.stopFlag then s else s.(abortFlag := true, stopFlag := true)
  }

  /** Calling Abort twice is the same as calling it once. */
  lemma AbortIdempotent(s: State)
    ensures Abort(Abort(s)) == Abort(s)
  {
  }

  /** Close asks the worker to stop (the releases of streams and the thread are not
      part of the state). */
  function Close(s: State): (r: State)
    ensures r.stopFlag && r.(stopFlag := s.stopFlag) == s
  {
    s.(stopFlag := true)
  }

  /** The timeout watchdog: it stops the loop, records Timeout and reports it. */
  function TimeoutElapsed(s: State): (r: State)
    ensures r.stopFlag && r.status.Timeout?
    ensures r.events == s.events + [Report(Timeout, s.currentSize, s.totalSize)]
    ensures r.(stopFlag := s.stopFlag, status := s.status, events := s.events) == s
  {
    s.(stopFlag := true, status := Timeout,
       events := s.events + [Report(Timeout, s.currentSize, s.totalSize)])
  }

  /** The stop timer that Abort arms, firing once the worker has ended: the stream and
      response it closes and the thread it aborts are already finished, so what remains
      is one more report of the stored status, with the size slots in their order. */
  function StopTimerElapsed(s: State): (r: State)
    ensures r.events == s.events + [Report(s.status, s.currentSize, s.totalSize)]
    ensures r.(events := s.events) == s
  {
    s.(events := s.events + [Report(s.status, s.currentSize, s.totalSize)])
  }

  lemma ControlKeepsConsistent(s: State)
    requires Consistent(s)
    ensures Consistent(Start(s)) && Consistent(Abort(s))
    ensures Consistent(Close(s)) && Consistent(TimeoutElapsed(s)) && Consistent(StopTimerElapsed(s))
  {
  }

  // ---------------------------------------------------------------------------
  // The worker

  /** One chunk: it is hashed and written, a progress event reports the size reached
      BEFORE the chunk together with the remaining-time estimate, then the size
      advances and the status becomes Downloading. */
  function Consume(s: State, step: Step): (r: State)
    requires step.Read?
    ensures r.currentSize == s.currentSize + step.size && r.status == Downloading
    ensures r.written == s.written + step.bytes
    ensures |r.events| == |s.events| + 1 && s.events <= r.events
    ensures var e := r.events[|s.events|];
      e.message == s.status.Name() && e.status == s.status && e.current == s.currentSize
      && e.total == s.totalSize && e.remain == CalcRemainTime(s.totalSize, s.currentSize, step.elapsed)
  {
    s.(written := s.written + step.bytes,
       events := s.events + [Event(s.status.Name(), s.status, s.currentSize, s.totalSize,
                                   CalcRemainTime(s.totalSize, s.currentSize, step.elapsed))],
       currentSize := s.currentSize + step.size,
       status := Downloading)
  }

  /** A chunk changes only the current size, the written bytes, the events and the
      status. */
  lemma ConsumeFrame(s: State, step: Step)
    requires step.Read?
    ensures Consume(s, step).(currentSize := s.currentSize, written := s.written,
                              events := s.events, status := s.status) == s
  {
  }

  datatype LoopEnd = Drained(state: State) | Threw(message: string, state: State)

  /** The read loop, run while the stop flag is clear, from step i on. A read of 0 or
      -1, or the end of the steps, leaves the loop normally; an exception leaves it
      abruptly. */
  function Loop(steps: seq<Step>, i: nat, s: State): (e: LoopEnd)
    requires i <= |steps|
    ensures e.state.outputMode == s.outputMode && e.state.totalSize == s.totalSize
            && e.state.timeOut == s.timeOut && e.state.md5Enable == s.md5Enable
            && e.state.md5Content == s.md5Content && e.state.savefilepath == s.savefilepath
            && e.state.outstream == s.outstream
    ensures s.events <= e.state.events && s.written <= e.state.written
    decreases |steps| - i
  {
    if s.stopFlag || i == |steps| then Drained(s)
    else match steps[i]
      case Read(size, _, _) =>
        if size == -1 || size == 0 then Drained(s)
        else
          Loop(steps, i + 1, Consume(s, steps[i]))
      case Broken(m) => Threw(m, s)
      case Stalled(m) => Threw(m, TimeoutElapsed(s))
      case AbortRequested => Loop(steps, i + 1, Abort(s))
  }

  /** The catch block: Failed, reported with the total in the current slot and the
      current size in the total slot, as the source passes them. */
  function Fail(s: State, message: string): (r: State)
    ensures r.status == Failed && |r.events| == |s.events| + 1 && s.events <= r.events
    ensures var e := r.events[|s.events|];
      e.message == message && e.status == r.status && e.current == s.totalSize && e.total == s.currentSize
      && e.remain == 0.0
  {
    s.(status := Failed, events := s.events + [Event(message, Failed, s.totalSize, s.currentSize, 0.0)])
  }

  /** After a normal loop exit with hashing on, the digest's rendering is stored. */
  function Digest(s: State, md5: seq<byte> -> seq<byte>): (r: State)
    ensures Md5Query(r) == (if s.md5Enable then Md5Value(NonNull(Hex(md5(s.written)))) else Md5NotEnabled(Md5NotEnabledMessage))
  {
    if s.md5Enable then s.(md5Content := NonNull(Hex(md5(s.written)))) else s
  }

  /** The terminal report after a normal loop exit, with the same swapped slots. */
  function Finish(s: State): (r: State)
    ensures r.status == (if s.abortFlag then Aborted else Complete)
    ensures |r.events| == |s.events| + 1 && s.events <= r.events
    ensures var e := r.events[|s.events|];
      e.message == r.status.Name() && e.status == r.status && e.current == s.totalSize
      && e.total == s.currentSize && e.remain == 0.0
  {
    var t := if s.abortFlag then Aborted else Complete;
    s.(status := t, events := s.events + [Report(t, s.totalSize, s.currentSize)])
  }

  /** The catch block and the terminal report change only the status and the events;
      hashing changes only the stored digest. */
  lemma EndingsFrame(s: State, message: string, md5: seq<byte> -> seq<byte>)
    ensures Fail(s, message).(status := s.status, events := s.events) == s
    ensures Finish(s).(status := s.status, events := s.events) == s
    ensures Digest(s, md5).(md5Content := s.md5Content) == s
  {
  }

  /** The three milestones reported before the first read. */
  function Prologue(total: int): seq<Event> {
    [Report(Connecting, -1, -1), Report(Connected, -1, -1), Report(Downloading, 0, total)]
  }

  /** The content length, with the unknown length -1 replaced by the sentinel 1. */
  function TotalOf(contentLength: int): (t: int)
    ensures contentLength == -1 ==> t == 1
    ensures contentLength != -1 ==> t == contentLength
  {
    if contentLength == -1 then 1 else contentLength
  }

  /** Create the request, connect, size the download, run the loop and end. Whatever
      happens, the run ends in a terminal status that its last event reports, and the
      settings and the target are left alone. */
  function Transfer(s: State, server: Server, closeFailure: Nullable<string>, md5: seq<byte> -> seq<byte>): (r: State)
    ensures r.status.IsTerminal()
    ensures |s.events| < |r.events| && s.events <= r.events
    ensures r.events[|r.events| - 1].status == r.status
    ensures r.timeOut == s.timeOut && r.md5Enable == s.md5Enable && r.savefilepath == s.savefilepath
            && r.outputMode == s.outputMode && r.outstream == s.outstream
  {
    match server
    case Unrequestable(m) => Fail(s, m)
    case Refuses(m) => Fail(s.(events := s.events + [Report(Connecting, -1, -1)]), m)
    case Responds(len, steps) => AfterLoop(Loop(steps, 0, Answered(s, len)), closeFailure, md5)
  }

  /** The state the read loop starts from once the server has answered: Connecting,
      Connected and Downloading reported, the total taken from the content length. */
  function Answered(s: State, contentLength: int): (r: State)
    ensures r.totalSize == TotalOf(contentLength) && r.currentSize == 0
    ensures r.events == s.events + Prologue(r.totalSize)
  {
    var total := TotalOf(contentLength);
    s.(totalSize := total, currentSize := 0, events := s.events + Prologue(total))
  }

  /** The catch block after an exception; after a normal exit, hashing, then flushing
      and closing the stream, then the terminal report, unless the flush or the close
      throws and the catch block reports that instead. Either way one terminal event
      is added, and Failed is the outcome exactly when the loop, the flush or the
      close threw. */
  function AfterLoop(e: LoopEnd, closeFailure: Nullable<string>, md5: seq<byte> -> seq<byte>): (r: State)
    ensures r.status.IsTerminal() && (r.status == Failed <==> e.Threw? || closeFailure.NonNull?)
    ensures |r.events| == |e.state.events| + 1 && e.state.events <= r.events
    ensures r.events[|e.state.events|].status == r.status
    ensures e.Threw? ==> r.events[|e.state.events|].message == e.message
    ensures e.Drained? && closeFailure.NonNull? ==> r.events[|e.state.events|].message == closeFailure.value
    ensures r.timeOut == e.state.timeOut && r.md5Enable == e.state.md5Enable
            && r.savefilepath == e.state.savefilepath && r.outputMode == e.state.outputMode
            && r.outstream == e.state.outstream
  {
    match e
    case Threw(m, s3) => Fail(s3, m)
    case Drained(s3) =>
      if closeFailure.NonNull? then Fail(Digest(s3, md5), closeFailure.value)
      else Finish(Digest(s3, md5))
  }

  /** Whether a file path is configured: present and not empty. */
  predicate HasFilePath(s: State) {
    s.savefilepath.NonNull? && s.savefilepath.value != ""
  }

  /** The worker, `Downloading`: create the timeout timer, which fails for an interval
      that is not positive; open the file target or use the stream target; with
      neither, report None once and stop. The worker only adds events, leaves the
      settings alone, and ends either with the None report and the status unchanged
      or in a terminal status that its last event reports. */
  function Download(s: State, env: Environment, md5: seq<byte> -> seq<byte>): (r: State)
    ensures |s.events| < |r.events| && s.events <= r.events
    ensures r.timeOut == s.timeOut && r.md5Enable == s.md5Enable
            && r.savefilepath == s.savefilepath && r.outputMode == s.outputMode
  {
    var s0 := s.(written := []);
    if s.timeOut <= 0 then Fail(s0, env.timerMessage)
    else if HasFilePath(s) && env.fileOpen.OpenFails? then Fail(s0, env.fileOpen.message)
    else if !HasFilePath(s) && s.outstream.Null? then s0.(events := s0.events + [Report(None, 0, 0)])
    else Transfer(Target(s0), env.server, env.closeFailure, md5)
  }

  /** The stream the worker writes to: the file it opened at the configured path, or
      else the stream set beforehand. */
  function Target(s: State): State {
    if HasFilePath(s) then s.(outstream := NonNull(FileSink(s.savefilepath.value))) else s
  }

  /** The worker ends with the None report and the status unchanged exactly when the
      timer could be created and there is no target; otherwise it ends in a terminal
      status that its last event reports. */
  lemma DownloadEndsReported(s: State, env: Environment, md5: seq<byte> -> seq<byte>)
    ensures var r := Download(s, env, md5);
      if s.timeOut > 0 && !HasFilePath(s) && s.outstream.Null?
      then r.status == s.status && r.events == s.events + [Report(None, 0, 0)]
      else r.status.IsTerminal() && r.events[|r.events| - 1].status == r.status
  {
    if s.timeOut > 0 && !HasFilePath(s) && s.outstream.Null? {
      DownloadWithoutTarget(s, env, md5);
    } else {
      DownloadEndsTerminal(s, env, md5);
    }
  }

  /** DownloadEndsReported when the timer fails or a target is configured. */
  lemma DownloadEndsTerminal(s: State, env: Environment, md5: seq<byte> -> seq<byte>)
    requires s.timeOut <= 0 || HasFilePath(s) || s.outstream.NonNull?
    ensures var r := Download(s, env, md5);
      r.status.IsTerminal() && r.events[|r.events| - 1].status == r.status
  {
    var s0 := s.(written := []);
    if s.timeOut <= 0 {
      assert Download(s, env, md5) == Fail(s0, env.timerMessage);
    } else if HasFilePath(s) && env.fileOpen.OpenFails? {
      assert Download(s, env, md5) == Fail(s0, env.fileOpen.message);
    } else {
      assert Download(s, env, md5) == Transfer(Target(s0), env.server, env.closeFailure, md5);
    }
  }

  /** With no target configured the worker reports None once; nothing else changes
      except that no byte has been written. */
  lemma DownloadWithoutTarget(s: State, env: Environment, md5: seq<byte> -> seq<byte>)
    requires s.timeOut > 0 && !HasFilePath(s) && s.outstream.Null?
    ensures Download(s, env, md5) == s.(events := s.events + [Report(None, 0, 0)], written := [])
  {
  }

  /** The exception that ends the worker before its read loop, if one does: the timer
      constructor's for a timeout that is not positive, then the file open's, then the
      request creation's or the connection's. */
  function SetupFailure(s: State, env: Environment): Nullable<string> {
    if s.timeOut <= 0 then NonNull(env.timerMessage)
    else if HasFilePath(s) && env.fileOpen.OpenFails? then NonNull(env.fileOpen.message)
    else if !HasFilePath(s) && s.outstream.Null? then Null
    else match env.server
      case Unrequestable(m) => NonNull(m)
      case Refuses(m) => NonNull(m)
      case Responds(_, _) => Null
  }

  /** A worker that fails before its read loop stores Failed and adds one Failed event
      carrying the exception's message, with the total in the current slot and the
      current size in the total slot. Only a refused connection (once the timer is
      created and the target is open) reports Connecting first. Nothing is written,
      and the sizes and the previous run's digest stay as they were. */
  lemma DownloadFailsBeforeLoop(s: State, env: Environment, md5: seq<byte> -> seq<byte>)
    requires SetupFailure(s, env).NonNull?
    ensures var r := Download(s, env, md5);
      var connecting := s.timeOut > 0 && !(HasFilePath(s) && env.fileOpen.OpenFails?) && env.server.Refuses?;
      && r.status == Failed
      && r.events == s.events + (if connecting then [Report(Connecting, -1, -1)] else [])
                     + [Event(SetupFailure(s, env).value, Failed, s.totalSize, s.currentSize, 0.0)]
      && r.written == [] && r.currentSize == s.currentSize && r.totalSize == s.totalSize
      && r.md5Content == s.md5Content
  {
    if s.timeOut > 0 && !(HasFilePath(s) && env.fileOpen.OpenFails?) && env.server.Refuses? {
      assert s.events + [Report(Connecting, -1, -1)] + [Event(SetupFailure(s, env).value, Failed, s.totalSize, s.currentSize, 0.0)]
          == (s.events + [Report(Connecting, -1, -1)]) + [Event(SetupFailure(s, env).value, Failed, s.totalSize, s.currentSize, 0.0)];
    } else {
      assert s.events + [] == s.events;
    }
  }

  /** The worker takes exactly one of three paths: it finds no target, it fails before
      the read loop, or it reaches the read loop. */
  lemma WorkerPaths(s: State, env: Environment)
    ensures Connects(s, env) <==> SetupFailure(s, env).Null? && (HasFilePath(s) || s.outstream.NonNull?)
    ensures (s.timeOut > 0 && !HasFilePath(s) && s.outstream.Null?) <==>
            (SetupFailure(s, env).Null? && !Connects(s, env))
  {
  }

  /** A timeout of 0 set before Start makes the worker fail at once, even with no
      target, since the timer is created before the target is looked at. */
  lemma ZeroTimeoutFails(env: Environment, md5: seq<byte> -> seq<byte>)
    ensures var r := Download(Start(SetTimeOut(Initial, 0)), env, md5);
      r.status == Failed && r.events == [Event(env.timerMessage, Failed, 0, 0, 0.0)]
  {
  }

  // ---------------------------------------------------------------------------
  // A closed form of the loop

  /** A step the loop consumes as a chunk. */
  predicate IsChunk(step: Step) {
    step.Read? && step.size != 0 && step.size != -1
  }

  function StepSize(step: Step): int {
    if step.Read? then step.size else 0
  }

  /** Index of the first step at or after i that is not a chunk (or |steps|). */
  function RunEnd(steps: seq<Step>, i: nat): (j: nat)
    requires i <= |steps|
    ensures i <= j <= |steps|
    ensures forall k :: i <= k < j ==> IsChunk(steps[k])
    ensures j < |steps| ==> !IsChunk(steps[j])
    decreases |steps| - i
  {
    if i == |steps| || !IsChunk(steps[i]) then i else RunEnd(steps, i + 1)
  }

  /** Total size of steps i..j. */
  function SizeSum(steps: seq<Step>, i: nat, j: nat): int
    requires i <= j <= |steps|
    decreases j - i
  {
    if i == j then 0 else StepSize(steps[i]) + SizeSum(steps, i + 1, j)
  }

  /** Bytes of steps i..j, in order. */
  function Bytes(steps: seq<Step>, i: nat, j: nat): seq<byte>
    requires i <= j <= |steps|
    decreases j - i
  {
    if i == j then [] else (if steps[i].Read? then steps[i].bytes else []) + Bytes(steps, i + 1, j)
  }

  /** The progress events of chunks i..j; the first carries `status`, later ones
      Downloading, each the size reached before its chunk. */
  function ChunkEvents(steps: seq<Step>, i: nat, j: nat, status: Status, current: int, total: int): seq<Event>
    requires i <= j <= |steps|
    decreases j - i
  {
    if i == j then []
    else
      var elapsed := if steps[i].Read? then steps[i].elapsed else 0;
      [Event(status.Name(), status, current, total, CalcRemainTime(total, current, elapsed))]
      + ChunkEvents(steps, i + 1, j, Downloading, current + StepSize(steps[i]), total)
  }

  /** The state after consuming chunks i..j. */
  function AfterChunks(s: State, steps: seq<Step>, i: nat, j: nat): State
    requires i <= j <= |steps|
  {
    s.(currentSize := s.currentSize + SizeSum(steps, i, j),
       written := s.written + Bytes(steps, i, j),
       events := s.events + ChunkEvents(steps, i, j, s.status, s.currentSize, s.totalSize),
       status := if i < j then Downloading else s.status)
  }

  /** How the loop ends, stated without recursion over the loop: it consumes the run
      of chunks from i, then the first other step decides. */
  function LoopOutcome(steps: seq<Step>, i: nat, s: State): LoopEnd
    requires i <= |steps|
  {
    var j := RunEnd(steps, i);
    var c := AfterChunks(s, steps, i, j);
    if j == |steps| then Drained(c)
    else match steps[j]
      case Read(_, _, _) => Drained(c)
      case Broken(m) => Threw(m, c)
      case Stalled(m) => Threw(m, TimeoutElapsed(c))
      case AbortRequested => Drained(Abort(c))
  }

  lemma {:induction false} LoopMatchesOutcome(steps: seq<Step>, i: nat, s: State)
    requires i <= |steps|
    requires !s.stopFlag && !s.abortFlag
    ensures Loop(steps, i, s) == LoopOutcome(steps, i, s)
    decreases |steps| - i
  {
    if i < |steps| && IsChunk(steps[i]) {
      var s' := Consume(s, steps[i]);
      LoopMatchesOutcome(steps, i + 1, s');
      var j := RunEnd(steps, i);
      assert RunEnd(steps, i + 1) == j;
      AfterChunksStep(s, steps, i, j);
    } else {
      assert AfterChunks(s, steps, i, i) == s;
    }
  }

  /** Consuming chunk i, then chunks i+1..j, is consuming chunks i..j. */
  lemma AfterChunksStep(s: State, steps: seq<Step>, i: nat, j: nat)
    requires i < j <= |steps| && IsChunk(steps[i])
    ensures AfterChunks(Consume(s, steps[i]), steps, i + 1, j) == AfterChunks(s, steps, i, j)
  {
    var s' := Consume(s, steps[i]);
    assert s'.written + Bytes(steps, i + 1, j) == s.written + Bytes(steps, i, j);
    assert s'.events + ChunkEvents(steps, i + 1, j, s'.status, s'.currentSize, s'.totalSize)
        == s.events + ChunkEvents(steps, i, j, s.status, s.currentSize, s.totalSize);
  }

  // ---------------------------------------------------------------------------
  // Facts about the chunk events

  lemma {:induction false} SizeSumSplit(steps: seq<Step>, i: nat, k: nat, j: nat)
    requires i <= k <= j <= |steps|
    ensures SizeSum(steps, i, j) == SizeSum(steps, i, k) + SizeSum(steps, k, j)
    decreases k - i
  {
    if i < k {
      SizeSumSplit(steps, i + 1, k, j);
    }
  }

  /** The k-th chunk event reports the starting size plus the sizes of the k chunks
      before it. */
  lemma {:induction false} ChunkEventAt(steps: seq<Step>, i: nat, j: nat, status: Status, current: int, total: int, k: nat)
    requires i <= j <= |steps| && k < j - i
    ensures |ChunkEvents(steps, i, j, status, current, total)| == j - i
    ensures ChunkEvents(steps, i, j, status, current, total)[k].current == current + SizeSum(steps, i, i + k)
    ensures ChunkEvents(steps, i, j, status, current, total)[k].total == total
    ensures ChunkEvents(steps, i, j, status, current, total)[k].status == (if k == 0 then status else Downloading)
    decreases j - i
  {
    ChunkEventsLength(steps, i, j, status, current, total);
    if k > 0 {
      ChunkEventAt(steps, i + 1, j, Downloading, current + StepSize(steps[i]), total, k - 1);
    }
  }

  lemma {:induction false} ChunkEventsLength(steps: seq<Step>, i: nat, j: nat, status: Status, current: int, total: int)
    requires i <= j <= |steps|
    ensures |ChunkEvents(steps, i, j, status, current, total)| == j - i
    decreases j - i
  {
    if i < j {
      ChunkEventsLength(steps, i + 1, j, Downloading, current + StepSize(steps[i]), total);
    }
  }

  /** Steps i..j are chunks of positive size. */
  predicate PositiveChunks(steps: seq<Step>, i: nat, j: nat)
    requires i <= j <= |steps|
  {
    forall k :: i <= k < j ==> IsChunk(steps[k]) && steps[k].size > 0
  }

  lemma {:induction false} SizeSumGrows(steps: seq<Step>, i: nat, a: nat, b: nat)
    requires i <= a <= b <= |steps| && PositiveChunks(steps, i, b)
    ensures SizeSum(steps, i, a) <= SizeSum(steps, i, b)
    ensures a < b ==> SizeSum(steps, i, a) < SizeSum(steps, i, b)
  {
    SizeSumSplit(steps, i, a, b);
    SizeSumPositive(steps, a, b);
  }

  lemma {:induction false} SizeSumPositive(steps: seq<Step>, i: nat, j: nat)
    requires i <= j <= |steps| && PositiveChunks(steps, i, j)
    ensures SizeSum(steps, i, j) >= j - i
    decreases j - i
  {
    if i < j {
      SizeSumPositive(steps, i + 1, j);
    }
  }

  /** The sizes the chunk events report strictly increase. */
  lemma ChunkEventsIncrease(steps: seq<Step>, i: nat, j: nat, status: Status, current: int, total: int)
    requires i <= j <= |steps| && PositiveChunks(steps, i, j)
    ensures var evs := ChunkEvents(steps, i, j, status, current, total);
      |evs| == j - i &&
      forall a, b :: 0 <= a < b < |evs| ==> evs[a].current < evs[b].current
  {
    ChunkEventsLength(steps, i, j, status, current, total);
    var evs := ChunkEvents(steps, i, j, status, current, total);
    forall a, b | 0 <= a < b < |evs|
      ensures evs[a].current < evs[b].current
    {
      ChunkEventAt(steps, i, j, status, current, total, a);
      ChunkEventAt(steps, i, j, status, current, total, b);
      SizeSumGrows(steps, i, i + a, i + b);
    }
  }

  /** Every chunk read happens at a non-negative time. */
  predicate ElapsedNonNegative(steps: seq<Step>, i: nat, j: nat)
    requires i <= j <= |steps|
  {
    forall k :: i <= k < j ==> steps[k].Read? ==> steps[k].elapsed >= 0
  }

  /** While the chunks do not take the size past the total, every chunk event's
      remaining-time estimate is non-negative. */
  lemma {:induction false} ChunkEventsRemainNonNegative(steps: seq<Step>, i: nat, j: nat, status: Status, current: int, total: int)
    requires i <= j <= |steps| && PositiveChunks(steps, i, j) && ElapsedNonNegative(steps, i, j)
    requires 0 <= current && 1 <= total && current + SizeSum(steps, i, j) <= total
    ensures var evs := ChunkEvents(steps, i, j, status, current, total);
      forall k :: 0 <= k < |evs| ==> evs[k].remain >= 0.0
    decreases j - i
  {
    var evs := ChunkEvents(steps, i, j, status, current, total);
    if i < j {
      var next := current + StepSize(steps[i]);
      SizeSumPositive(steps, i + 1, j);
      ChunkEventsRemainNonNegative(steps, i + 1, j, Downloading, next, total);
      assert var rr := ChunkEvents(steps, i + 1, j, Downloading, next, total); forall m :: 0 <= m < |rr| ==> rr[m].remain >= 0.0;
      var e := steps[i].elapsed;
      RemainNonNegative(total, current, e);
      var rest := ChunkEvents(steps, i + 1, j, Downloading, next, total);
      assert evs == [Event(status.Name(), status, current, total, CalcRemainTime(total, current, e))] + rest;
      forall k | 0 <= k < |evs|
        ensures evs[k].remain >= 0.0
      {
        if k > 0 {
          assert evs[k] == rest[k - 1];
        } else {
          assert evs[k].remain == CalcRemainTime(total, current, e);
        }
      }
    }
  }

  /** The bytes written are as many as the sizes say. */
  lemma {:induction false} BytesLength(steps: seq<Step>, i: nat, j: nat)
    requires i <= j <= |steps| && PositiveChunks(steps, i, j)
    requires forall k :: i <= k < j ==> WellFormedStep(steps[k])
    ensures |Bytes(steps, i, j)| == SizeSum(steps, i, j)
    decreases j - i
  {
    if i < j {
      BytesLength(steps, i + 1, j);
    }
  }

  /** Number of events carrying a terminal status. */
  function CountTerminal(events: seq<Event>): nat {
    if |events| == 0 then 0
    else (if events[0].status.IsTerminal() then 1 else 0) + CountTerminal(events[1..])
  }

  lemma {:induction false} CountTerminalAppend(a: seq<Event>, b: seq<Event>)
    ensures CountTerminal(a + b) == CountTerminal(a) + CountTerminal(b)
    decreases |a|
  {
    if |a| > 0 {
      assert (a + b)[1..] == a[1..] + b;
      CountTerminalAppend(a[1..], b);
    } else {
      assert a + b == b;
    }
  }

  lemma {:induction false} CountTerminalNone(events: seq<Event>)
    requires forall k :: 0 <= k < |events| ==> !events[k].status.IsTerminal()
    ensures CountTerminal(events) == 0
    decreases |events|
  {
    if |events| > 0 {
      CountTerminalNone(events[1..]);
    }
  }

  lemma {:induction false} ChunkEventsNotTerminal(steps: seq<Step>, i: nat, j: nat, status: Status, current: int, total: int)
    requires i <= j <= |steps| && !status.IsTerminal()
    ensures CountTerminal(ChunkEvents(steps, i, j, status, current, total)) == 0
    decreases j - i
  {
    if i < j {
      var elapsed := if steps[i].Read? then steps[i].elapsed else 0;
      var head := [Event(status.Name(), status, current, total, CalcRemainTime(total, current, elapsed))];
      var rest := ChunkEvents(steps, i + 1, j, Downloading, current + StepSize(steps[i]), total);
      ChunkEventsNotTerminal(steps, i + 1, j, Downloading, current + StepSize(steps[i]), total);
      CountTerminalAppend(head, rest);
    }
  }

  // ---------------------------------------------------------------------------
  // The worker in closed form

  /** The worker gets as far as the read loop: a target exists, the file (if any)
      opens and the server answers. */
  predicate Connects(s: State, env: Environment) {
    && s.timeOut > 0
    && (HasFilePath(s) || s.outstream.NonNull?)
    && (HasFilePath(s) ==> env.fileOpen.Opens?)
    && env.server.Responds?
  }

  /** How many chunks the loop consumes. */
  function ChunkCount(s: State, steps: seq<Step>): (n: nat)
    ensures n <= |steps|
  {
    if s.stopFlag then 0 else RunEnd(steps, 0)
  }

  /** The step that ends the loop, when a step does. */
  function Ender(s: State, steps: seq<Step>): Nullable<Step> {
    var n := ChunkCount(s, steps);
    if s.stopFlag || n == |steps| then Null else NonNull(steps[n])
  }

  /** The state once the loop has consumed its chunks, before it ends. */
  function Base(s: State, env: Environment): State
    requires Connects(s, env)
  {
    var steps := env.server.steps;
    var total := TotalOf(env.server.contentLength);
    var n := ChunkCount(s, steps);
    s.(outstream := if HasFilePath(s) then NonNull(FileSink(s.savefilepath.value)) else s.outstream,
       totalSize := total, currentSize := SizeSum(steps, 0, n), written := Bytes(steps, 0, n),
       status := if n > 0 then Downloading else s.status,
       events := s.events + Prologue(total) + ChunkEvents(steps, 0, n, s.status, 0, total))
  }

  /** Whether the loop was left by an abort request. */
  predicate AbortedRun(s: State, env: Environment)
    requires Connects(s, env)
  {
    s.abortFlag || Ender(s, env.server.steps) == NonNull(AbortRequested)
  }

  /** Whether the loop was left by an exception (an I/O error or a stall). */
  predicate ThrewRun(s: State, env: Environment)
    requires Connects(s, env)
  {
    var e := Ender(s, env.server.steps);
    e.NonNull? && (e.value.Broken? || e.value.Stalled?)
  }

  /** The status the worker leaves behind. */
  function EndStatus(s: State, env: Environment): Status
    requires Connects(s, env)
  {
    if ThrewRun(s, env) || env.closeFailure.NonNull? then Failed
    else if AbortedRun(s, env) then Aborted
    else Complete
  }

  /** The reports after the last chunk. */
  function Epilogue(s: State, env: Environment): seq<Event>
    requires Connects(s, env)
  {
    var b := Base(s, env);
    match Ender(s, env.server.steps)
    case NonNull(Broken(m)) => [Event(m, Failed, b.totalSize, b.currentSize, 0.0)]
    case NonNull(Stalled(m)) =>
      [Report(Timeout, b.currentSize, b.totalSize), Event(m, Failed, b.totalSize, b.currentSize, 0.0)]
    case _ =>
      if env.closeFailure.NonNull? then [Event(env.closeFailure.value, Failed, b.totalSize, b.currentSize, 0.0)]
      else [Report(EndStatus(s, env), b.totalSize, b.currentSize)]
  }

  /** The worker's result when it reaches the read loop, stated directly. */
  function Expected(s: State, env: Environment, md5: seq<byte> -> seq<byte>): State
    requires Connects(s, env)
  {
    var base := Base(s, env);
    var ended := base.(status := EndStatus(s, env), events := base.events + Epilogue(s, env));
    match Ender(s, env.server.steps)
    case NonNull(Broken(_)) => ended
    case NonNull(Stalled(_)) => ended.(stopFlag := true)
    case _ =>
      var aborted := AbortedRun(s, env);
      ended.(abortFlag := aborted, stopFlag := s.stopFlag || aborted,
             md5Content := if s.md5Enable then NonNull(Hex(md5(base.written))) else s.md5Content)
  }

  /** The state the read loop starts from. */
  function LoopEntry(s: State, env: Environment): State
    requires Connects(s, env)
  {
    var total := TotalOf(env.server.contentLength);
    s.(written := [], outstream := if HasFilePath(s) then NonNull(FileSink(s.savefilepath.value)) else s.outstream,
       totalSize := total, currentSize := 0, events := s.events + Prologue(total))
  }

  lemma DownloadEntersLoop(s: State, env: Environment, md5: seq<byte> -> seq<byte>)
    requires Connects(s, env)
    ensures Download(s, env, md5) == AfterLoop(Loop(env.server.steps, 0, LoopEntry(s, env)), env.closeFailure, md5)
  {
    assert Download(s, env, md5) == Transfer(Target(s.(written := [])), env.server, env.closeFailure, md5);
  }

  /** How the loop ends: with the chunks consumed as Base says, then as the flag or the
      first other step decides. */
  function LoopEnding(s: State, env: Environment): LoopEnd
    requires Connects(s, env)
  {
    var steps := env.server.steps;
    var b := Base(s, env);
    var n := ChunkCount(s, steps);
    if s.stopFlag || n == |steps| then Drained(b)
    else match steps[n]
      case Read(_, _, _) => Drained(b)
      case Broken(m) => Threw(m, b)
      case Stalled(m) => Threw(m, TimeoutElapsed(b))
      case AbortRequested => Drained(Abort(b))
  }

  /** The loop, started from LoopEntry, ends as LoopEnding says. */
  lemma LoopReachesBase(s: State, env: Environment)
    requires Consistent(s) && Connects(s, env)
    ensures Loop(env.server.steps, 0, LoopEntry(s, env)) == LoopEnding(s, env)
  {
    var steps := env.server.steps;
    var e := LoopEntry(s, env);
    if !s.stopFlag {
      LoopMatchesOutcome(steps, 0, e);
      var j := RunEnd(steps, 0);
      assert e.written + Bytes(steps, 0, j) == Bytes(steps, 0, j);
      assert AfterChunks(e, steps, 0, j) == Base(s, env);
    } else {
      assert e == Base(s, env);
    }
  }

  /** What follows the loop turns its ending into the closed form. */
  lemma EndingMatchesExpected(s: State, env: Environment, md5: seq<byte> -> seq<byte>)
    requires Consistent(s) && Connects(s, env)
    ensures AfterLoop(LoopEnding(s, env), env.closeFailure, md5) == Expected(s, env, md5)
  {
    if ThrewRun(s, env) {
      ThrownEndingMatches(s, env, md5);
    } else {
      NormalEndingMatches(s, env, md5);
    }
  }

  /** EndingMatchesExpected after an I/O error or a stall. */
  lemma ThrownEndingMatches(s: State, env: Environment, md5: seq<byte> -> seq<byte>)
    requires Consistent(s) && Connects(s, env) && ThrewRun(s, env)
    ensures AfterLoop(LoopEnding(s, env), env.closeFailure, md5) == Expected(s, env, md5)
  {
    var b := Base(s, env);
    match Ender(s, env.server.steps).value
    case Broken(m) =>
      assert LoopEnding(s, env) == Threw(m, b);
    case Stalled(m) =>
      assert LoopEnding(s, env) == Threw(m, TimeoutElapsed(b));
      assert Fail(TimeoutElapsed(b), m).events
          == b.events + [Report(Timeout, b.currentSize, b.totalSize),
                         Event(m, Failed, b.totalSize, b.currentSize, 0.0)];
  }

  /** EndingMatchesExpected after a normal loop exit. */
  lemma NormalEndingMatches(s: State, env: Environment, md5: seq<byte> -> seq<byte>)
    requires Consistent(s) && Connects(s, env) && !ThrewRun(s, env)
    ensures AfterLoop(LoopEnding(s, env), env.closeFailure, md5) == Expected(s, env, md5)
  {
    var b := Base(s, env);
    var d := if AbortedRun(s, env) then Abort(b) else b;
    assert LoopEnding(s, env) == Drained(d);
    assert d.abortFlag == AbortedRun(s, env);
  }

  /** The worker agrees with its closed form. */
  lemma DownloadMatchesExpected(s: State, env: Environment, md5: seq<byte> -> seq<byte>)
    requires Consistent(s) && Connects(s, env)
    ensures Download(s, env, md5) == Expected(s, env, md5)
  {
    DownloadEntersLoop(s, env, md5);
    LoopReachesBase(s, env);
    EndingMatchesExpected(s, env, md5);
  }


  // ---------------------------------------------------------------------------
  // What the worker promises

  /** Where a run of events sits inside a sequence built around it. */
  lemma EventsBetween(events: seq<Event>, pre: seq<Event>, mid: seq<Event>, post: seq<Event>)
    requires events == pre + mid + post
    ensures events[..|pre| + |mid|] == pre + mid
    ensures forall k :: 0 <= k < |mid| ==> events[|pre| + k] == mid[k]
  {
    assert events[..|pre| + |mid|] == (pre + mid + post)[..|pre| + |mid|];
  }

  /** The closed form's events: what the loop starts from, the chunk events, the
      epilogue. */
  lemma ExpectedEvents(s: State, env: Environment, md5: seq<byte> -> seq<byte>)
    requires Consistent(s) && Connects(s, env)
    ensures var total := TotalOf(env.server.contentLength);
      Expected(s, env, md5).events
        == (s.events + Prologue(total))
           + ChunkEvents(env.server.steps, 0, ChunkCount(s, env.server.steps), s.status, 0, total)
           + Epilogue(s, env)
  {
    ExpectedEnds(s, env, md5);
  }

  /** The closed form's sizes and written bytes are those of the chunks consumed. */
  lemma ExpectedSizes(s: State, env: Environment, md5: seq<byte> -> seq<byte>)
    requires Consistent(s) && Connects(s, env)
    ensures var r := Expected(s, env, md5);
      var n := ChunkCount(s, env.server.steps);
      && r.totalSize == TotalOf(env.server.contentLength)
      && r.currentSize == SizeSum(env.server.steps, 0, n)
      && r.written == Bytes(env.server.steps, 0, n)
  {
  }

  /** DownloadProgress, stated of the closed form. */
  lemma ExpectedProgress(s: State, env: Environment, md5: seq<byte> -> seq<byte>)
    requires Consistent(s) && Connects(s, env) && WellFormedEnv(env)
    ensures |Expected(s, env, md5).events| > |s.events| + 3 + ChunkCount(s, env.server.steps)
    ensures var r := Expected(s, env, md5);
      var steps := env.server.steps;
      var n := ChunkCount(s, steps);
      && r.totalSize == TotalOf(env.server.contentLength)
      && r.currentSize == SizeSum(steps, 0, n)
      && r.written == Bytes(steps, 0, n)
      && |r.written| == r.currentSize
      && r.events[..|s.events| + 3 + n]
         == s.events + Prologue(r.totalSize) + ChunkEvents(steps, 0, n, s.status, 0, r.totalSize)
      && forall k :: 0 <= k < n ==>
           r.events[|s.events| + 3 + k].current == SizeSum(steps, 0, k) >= 0
  {
    var steps := env.server.steps;
    var n := ChunkCount(s, steps);
    var r := Expected(s, env, md5);
    assert PositiveChunks(steps, 0, n);
    BytesLength(steps, 0, n);
    ExpectedSizes(s, env, md5);
    ExpectedEvents(s, env, md5);
    ExpectedEnds(s, env, md5);
    ChunkProgress(r.events, s.events + Prologue(r.totalSize), steps, n, s.status, r.totalSize, Epilogue(s, env));
  }

  /** Chunk k's event, wherever the chunk events sit, reports the size after k chunks. */
  lemma ChunkProgress(events: seq<Event>, pre: seq<Event>, steps: seq<Step>, n: nat, status: Status,
                      total: int, post: seq<Event>)
    requires n <= |steps| && PositiveChunks(steps, 0, n) && |post| > 0
    requires events == pre + ChunkEvents(steps, 0, n, status, 0, total) + post
    ensures |events| > |pre| + n
    ensures events[..|pre| + n] == pre + ChunkEvents(steps, 0, n, status, 0, total)
    ensures forall k :: 0 <= k < n ==> events[|pre| + k].current == SizeSum(steps, 0, k) >= 0
  {
    var evs := ChunkEvents(steps, 0, n, status, 0, total);
    ChunkEventsLength(steps, 0, n, status, 0, total);
    EventsBetween(events, pre, evs, post);
    forall k | 0 <= k < n
      ensures events[|pre| + k].current == SizeSum(steps, 0, k) >= 0
    {
      ChunkEventAt(steps, 0, n, status, 0, total, k);
      SizeSumPositive(steps, 0, k);
    }
  }

  /** After the worker: the total is the content length (the unknown -1 becomes 1),
      the current size is the sum of the chunks consumed, exactly those bytes were
      written, and chunk k's event reports the size reached after k chunks. */
  lemma DownloadProgress(s: State, env: Environment, md5: seq<byte> -> seq<byte>)
    requires Consistent(s) && Connects(s, env) && WellFormedEnv(env)
    ensures |Download(s, env, md5).events| > |s.events| + 3 + ChunkCount(s, env.server.steps)
    ensures var r := Download(s, env, md5);
      var steps := env.server.steps;
      var n := ChunkCount(s, steps);
      && r.totalSize == TotalOf(env.server.contentLength)
      && r.currentSize == SizeSum(steps, 0, n)
      && r.written == Bytes(steps, 0, n)
      && |r.written| == r.currentSize
      && r.events[..|s.events| + 3 + n]
         == s.events + Prologue(r.totalSize) + ChunkEvents(steps, 0, n, s.status, 0, r.totalSize)
      && forall k :: 0 <= k < n ==>
           r.events[|s.events| + 3 + k].current == SizeSum(steps, 0, k) >= 0
  {
    DownloadMatchesExpected(s, env, md5);
    ExpectedProgress(s, env, md5);
  }


  /** DownloadReportsIncrease, stated of the closed form. */
  lemma ExpectedReportsIncrease(s: State, env: Environment, md5: seq<byte> -> seq<byte>)
    requires Consistent(s) && Connects(s, env) && WellFormedEnv(env)
    ensures |Expected(s, env, md5).events| > |s.events| + 3 + ChunkCount(s, env.server.steps)
    ensures var r := Expected(s, env, md5);
      var n := ChunkCount(s, env.server.steps);
      forall a, b :: |s.events| + 3 <= a < b < |s.events| + 3 + n ==>
        r.events[a].current < r.events[b].current
  {
    var steps := env.server.steps;
    var n := ChunkCount(s, steps);
    var total := TotalOf(env.server.contentLength);
    var r := Expected(s, env, md5);
    var evs := ChunkEvents(steps, 0, n, s.status, 0, total);
    var pre := s.events + Prologue(total);
    ChunkEventsIncrease(steps, 0, n, s.status, 0, total);
    ExpectedEvents(s, env, md5);
    EventsBetween(r.events, pre, evs, Epilogue(s, env));
    forall a, b | |pre| <= a < b < |pre| + n
      ensures r.events[a].current < r.events[b].current
    {
      assert r.events[a] == evs[a - |pre|] && r.events[b] == evs[b - |pre|];
    }
  }
  /** The sizes reported by successive chunk events strictly increase. */
  lemma DownloadReportsIncrease(s: State, env: Environment, md5: seq<byte> -> seq<byte>)
    requires Consistent(s) && Connects(s, env) && WellFormedEnv(env)
    ensures |Download(s, env, md5).events| > |s.events| + 3 + ChunkCount(s, env.server.steps)
    ensures var r := Download(s, env, md5);
      var n := ChunkCount(s, env.server.steps);
      forall a, b :: |s.events| + 3 <= a < b < |s.events| + 3 + n ==>
        r.events[a].current < r.events[b].current
  {
    DownloadMatchesExpected(s, env, md5);
    ExpectedReportsIncrease(s, env, md5);
  }


  /** DownloadEnds, stated of the closed form. */
  lemma ExpectedEnds(s: State, env: Environment, md5: seq<byte> -> seq<byte>)
    requires Consistent(s) && Connects(s, env)
    ensures var r := Expected(s, env, md5);
      var b := Base(s, env);
      && r.status == EndStatus(s, env)
      && r.status == (if ThrewRun(s, env) || env.closeFailure.NonNull? then Failed
                      else if AbortedRun(s, env) then Aborted else Complete)
      && r.events == b.events + Epilogue(s, env)
      && r.totalSize == b.totalSize && r.currentSize == b.currentSize
      && Epilogue(s, env)[|Epilogue(s, env)| - 1].status == r.status
      && (!ThrewRun(s, env) && env.closeFailure.Null? ==>
            Epilogue(s, env) == [Report(r.status, r.totalSize, r.currentSize)])
      && (!ThrewRun(s, env) && env.closeFailure.NonNull? ==>
            Epilogue(s, env) == [Event(env.closeFailure.value, Failed, r.totalSize, r.currentSize, 0.0)])
  {
  }
  /** How the worker ends once it reaches the loop: a normal exit reports Aborted if
      an abort was requested and Complete otherwise, with the total in the current
      slot and the current size in the total slot; an exception in the loop, or in
      the flush or the close after a normal exit, reports Failed with its message; a
      stall first reports Timeout and then, when the watchdog's thread abort surfaces,
      Failed. */
  lemma DownloadEnds(s: State, env: Environment, md5: seq<byte> -> seq<byte>)
    requires Consistent(s) && Connects(s, env)
    ensures var r := Download(s, env, md5);
      var b := Base(s, env);
      && r.status == EndStatus(s, env)
      && r.status == (if ThrewRun(s, env) || env.closeFailure.NonNull? then Failed
                      else if AbortedRun(s, env) then Aborted else Complete)
      && r.events == b.events + Epilogue(s, env)
      && r.totalSize == b.totalSize && r.currentSize == b.currentSize
      && Epilogue(s, env)[|Epilogue(s, env)| - 1].status == r.status
      && (!ThrewRun(s, env) && env.closeFailure.Null? ==>
            Epilogue(s, env) == [Report(r.status, r.totalSize, r.currentSize)])
      && (!ThrewRun(s, env) && env.closeFailure.NonNull? ==>
            Epilogue(s, env) == [Event(env.closeFailure.value, Failed, r.totalSize, r.currentSize, 0.0)])
  {
    DownloadMatchesExpected(s, env, md5);
    ExpectedEnds(s, env, md5);
  }


  /** Behind a prefix, events without a terminal status leave the count to what follows. */
  lemma CountAfterQuietPrefix(pre: seq<Event>, a: seq<Event>, b: seq<Event>, tail: seq<Event>)
    requires CountTerminal(a) == 0 && CountTerminal(b) == 0
    ensures CountTerminal((pre + a + b + tail)[|pre|..]) == CountTerminal(tail)
  {
    assert (pre + a + b + tail)[|pre|..] == a + b + tail;
    CountTerminalAppend(a, b);
    CountTerminalAppend(a + b, tail);
  }

  /** The reports after the last chunk carry one terminal status, two after a stall. */
  lemma EpilogueCount(s: State, env: Environment)
    requires Connects(s, env)
    ensures var e := Ender(s, env.server.steps);
      CountTerminal(Epilogue(s, env)) == (if e.NonNull? && e.value.Stalled? then 2 else 1)
  {
    var tail := Epilogue(s, env);
    var e := Ender(s, env.server.steps);
    if e.NonNull? && e.value.Stalled? {
      var b := Base(s, env);
      assert tail == [Report(Timeout, b.currentSize, b.totalSize),
                      Event(e.value.message, Failed, b.totalSize, b.currentSize, 0.0)];
      assert tail[1..][1..] == [];
      assert CountTerminal(tail[1..]) == 1;
    } else {
      assert tail[1..] == [];
    }
  }

  /** DownloadTerminalCount, stated of the closed form. */
  lemma ExpectedTerminalCount(s: State, env: Environment, md5: seq<byte> -> seq<byte>)
    requires Consistent(s) && Connects(s, env) && !s.status.IsTerminal()
    ensures |Expected(s, env, md5).events| > |s.events|
    ensures var r := Expected(s, env, md5);
      var e := Ender(s, env.server.steps);
      && CountTerminal(r.events[|s.events|..]) == (if e.NonNull? && e.value.Stalled? then 2 else 1)
      && r.events[|r.events| - 1].status == r.status && r.status.IsTerminal()
  {
    ExpectedEnds(s, env, md5);
    var steps := env.server.steps;
    var n := ChunkCount(s, steps);
    var total := TotalOf(env.server.contentLength);
    ChunkEventsNotTerminal(steps, 0, n, s.status, 0, total);
    CountTerminalNone(Prologue(total));
    CountAfterQuietPrefix(s.events, Prologue(total), ChunkEvents(steps, 0, n, s.status, 0, total),
                          Epilogue(s, env));
    EpilogueCount(s, env);
  }
  /** Every event the worker adds before its epilogue is non-terminal, so a run that
      reaches the loop reports exactly one terminal status, except after a stall,
      where it reports two (Timeout, then Failed). */
  lemma DownloadTerminalCount(s: State, env: Environment, md5: seq<byte> -> seq<byte>)
    requires Consistent(s) && Connects(s, env) && !s.status.IsTerminal()
    ensures |Download(s, env, md5).events| > |s.events|
    ensures var r := Download(s, env, md5);
      var e := Ender(s, env.server.steps);
      && CountTerminal(r.events[|s.events|..]) == (if e.NonNull? && e.value.Stalled? then 2 else 1)
      && r.events[|r.events| - 1].status == r.status && r.status.IsTerminal()
  {
    DownloadMatchesExpected(s, env, md5);
    ExpectedTerminalCount(s, env, md5);
  }


  /** After an aborted run the stop timer reports the stored status a second time, so
      the run's events carry two terminal statuses, the last two both Aborted (both
      Failed when closing the stream threw). */
  lemma AbortedRunReportsTwice(s: State, env: Environment, md5: seq<byte> -> seq<byte>)
    requires Consistent(s) && Connects(s, env) && !s.status.IsTerminal()
    requires AbortedRun(s, env) && !ThrewRun(s, env)
    ensures |StopTimerElapsed(Download(s, env, md5)).events| > |s.events| + 1
    ensures var r := StopTimerElapsed(Download(s, env, md5));
      var t := if env.closeFailure.Null? then Aborted else Failed;
      && CountTerminal(r.events[|s.events|..]) == 2
      && r.events[|r.events| - 2].status == t && r.events[|r.events| - 1].status == t
  {
    AbortedRunEnds(s, env, md5);
    StopTimerRepeats(Download(s, env, md5), |s.events|);
  }

  /** An aborted run, before the stop timer fires, reports one terminal status, Aborted
      (Failed when closing the stream threw), as its last event. */
  lemma AbortedRunEnds(s: State, env: Environment, md5: seq<byte> -> seq<byte>)
    requires Consistent(s) && Connects(s, env) && !s.status.IsTerminal()
    requires AbortedRun(s, env) && !ThrewRun(s, env)
    ensures var d := Download(s, env, md5);
      && |d.events| > |s.events| && CountTerminal(d.events[|s.events|..]) == 1
      && d.status == (if env.closeFailure.Null? then Aborted else Failed)
      && d.status.IsTerminal() && d.events[|d.events| - 1].status == d.status
  {
    DownloadTerminalCount(s, env, md5);
    DownloadEnds(s, env, md5);
  }

  /** The stop timer's report repeats a terminal status that a run's last event
      already reports, adding one to the count of terminal reports. */
  lemma StopTimerRepeats(d: State, n: nat)
    requires n < |d.events| && d.status.IsTerminal() && d.events[|d.events| - 1].status == d.status
    ensures var r := StopTimerElapsed(d);
      && |r.events| == |d.events| + 1
      && CountTerminal(r.events[n..]) == CountTerminal(d.events[n..]) + 1
      && r.events[|r.events| - 2].status == d.status && r.events[|r.events| - 1].status == d.status
  {
    var r := StopTimerElapsed(d);
    var last := Report(d.status, d.currentSize, d.totalSize);
    assert r.events[n..] == d.events[n..] + [last];
    CountTerminalAppend(d.events[n..], [last]);
  }

  /** After a normal loop exit with hashing on, `md5_content` is the rendering of the
      digest of exactly the bytes written: also after an aborted run, which hashes the
      part of the body it read, and after a flush or close that throws, which comes
      after the hash. */
  lemma DownloadDigest(s: State, env: Environment, md5: seq<byte> -> seq<byte>)
    requires Consistent(s) && Connects(s, env) && s.md5Enable
    requires var e := Ender(s, env.server.steps); !(e.NonNull? && (e.value.Broken? || e.value.Stalled?))
    ensures var r := Download(s, env, md5);
      Md5Query(r) == Md5Value(NonNull(Hex(md5(r.written))))
  {
    DownloadMatchesExpected(s, env, md5);
  }

  /** An Abort before the first read ends the run as Aborted, with nothing written
      (as Failed, when closing the stream throws). */
  lemma AbortBeforeRead(s: State, env: Environment, md5: seq<byte> -> seq<byte>)
    requires Consistent(s) && Connects(s, env) && !s.stopFlag
    ensures var r := Download(Abort(s), env, md5);
      var last := if env.closeFailure.Null? then Report(Aborted, r.totalSize, 0)
                  else Event(env.closeFailure.value, Failed, r.totalSize, 0, 0.0);
      r.status == last.status && r.currentSize == 0 && r.written == []
      && r.events == s.events + Prologue(r.totalSize) + [last]
  {
    DownloadMatchesExpected(Abort(s), env, md5);
  }

  /** `md5_content` is never cleared: a run that throws in its read loop leaves the
      previous run's rendering in place. */
  lemma FailedRunKeepsDigest(s: State, env: Environment, md5: seq<byte> -> seq<byte>)
    requires Consistent(s) && Connects(s, env) && ThrewRun(s, env)
    ensures Download(s, env, md5).md5Content == s.md5Content
  {
    DownloadMatchesExpected(s, env, md5);
  }

  /** The closed form keeps the invariant. */
  lemma ExpectedConsistent(s: State, env: Environment, md5: seq<byte> -> seq<byte>)
    requires Consistent(s) && Connects(s, env)
    ensures Consistent(Expected(s, env, md5))
  {
  }

  /** The worker keeps the invariant. */
  lemma DownloadKeepsConsistent(s: State, env: Environment, md5: seq<byte> -> seq<byte>)
    requires Consistent(s)
    ensures Consistent(Download(s, env, md5))
  {
    var s0 := s.(written := []);
    var t := Target(s0);
    if Connects(s, env) {
      DownloadMatchesExpected(s, env, md5);
      ExpectedConsistent(s, env, md5);
    } else if s.timeOut <= 0 {
      assert Download(s, env, md5) == Fail(s0, env.timerMessage);
    } else if HasFilePath(s) && env.fileOpen.OpenFails? {
      assert Download(s, env, md5) == Fail(s0, env.fileOpen.message);
    } else if HasFilePath(s) || s.outstream.NonNull? {
      assert Download(s, env, md5) == Transfer(t, env.server, env.closeFailure, md5);
      match env.server
      case Unrequestable(m) =>
        assert Transfer(t, env.server, env.closeFailure, md5) == Fail(t, m);
      case Refuses(m) =>
        assert Transfer(t, env.server, env.closeFailure, md5) == Fail(t.(events := t.events + [Report(Connecting, -1, -1)]), m);
    }
  }
}
