/** The downloader object. Its fields are the source's; each method is proved to
    change them exactly as a function of module Session says (README's table names
    the function for each method), so that the lemmas there describe the object. */
module Downloader {
  import opened DownloadTypes
  import opened HexFormat
  import opened RemainTime
  import Session

  class HttpDownloader {
    var status: Status
    var outputMode: OutputMode
    var currentSize: int
    var totalSize: int
    var timeOut: int
    var md5Enable: bool
    var md5Content: Nullable<string>
    var savefilepath: Nullable<string>
    var outstream: Nullable<Sink>
    var abortFlag: bool
    var threadStopFlag: bool
    /** The progress callbacks delivered so far. */
    ghost var events: seq<Event>
    /** The bytes the current worker run has written to the output stream. */
    ghost var written: seq<byte>

    ghost function Model(): Session.State
      reads this
    {
      Session.State(status, outputMode, currentSize, totalSize, timeOut, md5Enable, md5Content,
                    savefilepath, outstream, abortFlag, threadStopFlag, events, written)
    }

    ghost predicate Valid()
      reads this
    {
      Session.Consistent(Model())
    }

    constructor ()
      ensures Valid() && Model() == Session.Initial
    {
      status, outputMode := Status.None, Unset;
      currentSize, totalSize := 0, 0;
      timeOut, md5Enable, md5Content := 5000, true, Null;
      savefilepath, outstream := Null, Null;
      abortFlag, threadStopFlag := false, false;
      events, written := [], [];
    }

    /** The `time_out` setter. */
    method SetTimeOut(value: int)
      requires Valid()
      modifies this
      ensures Valid() && Model() == Session.SetTimeOut(old(Model()), value)
    {
      if status != Status.None {
        return;
      }
      timeOut := value;
    }

    /** The `md5_enable` setter. */
    method SetMd5Enable(value: bool)
      requires Valid()
      modifies this
      ensures Valid() && Model() == Session.SetMd5Enable(old(Model()), value)
    {
      if status != Status.None {
        return;
      }
      md5Enable := value;
    }

    /** The `md5_content` getter. */
    function Md5Content(): (r: Session.Md5Result)
      reads this
      ensures r == Session.Md5Query(Model())
    {
      if !md5Enable then Session.Md5NotEnabled(Session.Md5NotEnabledMessage) else Session.Md5Value(md5Content)
    }

    /** The `savefilepath` setter. */
    method SetSaveFilePath(path: Nullable<string>)
      requires Valid()
      modifies this
      ensures Valid() && Model() == Session.SetSaveFilePath(old(Model()), path)
    {
      savefilepath := path;
      outstream := Null;
      outputMode := ToFile;
    }

    /** The `outstream` setter. */
    method SetOutStream(stream: Nullable<Sink>)
      requires Valid()
      modifies this
      ensures Valid() && Model() == Session.SetOutStream(old(Model()), stream)
    {
      outstream := stream;
      savefilepath := Null;
      outputMode := ToStream;
    }

    /** Start, up to launching the worker; the caller then runs Downloading. */
    method Start()
      requires Valid()
      modifies this
      ensures Valid() && Model() == Session.Start(old(Model()))
    {
      threadStopFlag := false;
      abortFlag := false;
      status := Started;
    }

    method Abort()
      requires Valid()
      modifies this
      ensures Valid() && Model() == Session.Abort(old(Model()))
    {
      if abortFlag || threadStopFlag {
        return;
      }
      abortFlag := true;
      threadStopFlag := true;
    }

    method Close()
      requires Valid()
      modifies this
      ensures Valid() && Model() == Session.Close(old(Model()))
    {
      threadStopFlag := true;
    }

    /** The timeout watchdog firing while a read is blocked. */
    method TimeoutTimerElapsed()
      requires Valid()
      modifies this
      ensures Valid() && Model() == Session.TimeoutElapsed(old(Model()))
    {
      threadStopFlag := true;
      status := Timeout;
      events := events + [Report(status, currentSize, totalSize)];
    }

    /** The stop timer Abort arms, firing after the worker has ended. */
    method StopTimerElapsed()
      requires Valid()
      modifies this
      ensures Valid() && Model() == Session.StopTimerElapsed(old(Model()))
    {
      events := events + [Report(status, currentSize, totalSize)];
    }

    /** Renders the digest into `md5Content`, one X2 pair per byte. */
    method HashToString(bytes: seq<byte>)
      modifies this`md5Content
      ensures md5Content == NonNull(Hex(bytes))
    {
      md5Content := NonNull("");
      for k := 0 to |bytes|
        invariant md5Content == NonNull(Hex(bytes[..k]))
      {
        assert bytes[..k + 1][..k] == bytes[..k];
        md5Content := NonNull(md5Content.value + X2(bytes[k]));
      }
      assert bytes[..|bytes|] == bytes;
    }

    /** The worker. `env` stands for the file system and the network, `md5` for the
        digest the hash provider computes over the bytes it is fed. */
    method Downloading(env: Environment, md5: seq<byte> -> seq<byte>)
      requires Valid() && WellFormedEnv(env)
      modifies this
      ensures Valid() && Model() == Session.Download(old(Model()), env, md5)
    {
      ghost var s := Model();
      Session.DownloadKeepsConsistent(s, env, md5);
      written := [];
      if timeOut <= 0 {
        ReportFailure(env.timerMessage);
        return;
      }
      assert Model() == s.(written := []);
      OpenTarget(env, md5);
    }

    /** Past the timer: open the target file (a failure is caught as Failed), or report
        None and stop when there is no target, then transfer. */
    method OpenTarget(env: Environment, md5: seq<byte> -> seq<byte>)
      requires Valid() && WellFormedEnv(env) && written == [] && timeOut > 0
      modifies this
      ensures Model() == Session.Download(old(Model()), env, md5)
    {
      ghost var s := Model();
      if savefilepath.NonNull? && savefilepath.value != "" {
        match env.fileOpen
        case OpenFails(m) =>
          ReportFailure(m);
          return;
        case Opens =>
          outstream := NonNull(FileSink(savefilepath.value));
          assert Model() == Session.Target(s);
      } else if outstream.Null? {
        events := events + [Report(Status.None, 0, 0)];
        return;
      }
      ghost var s1 := Model();
      Transfer(env.server, env.closeFailure, md5);
      assert Model() == Session.Transfer(s1, env.server, env.closeFailure, md5);
    }

    /** Create the request, connect, size the download, run the read loop, then hash
        and report. */
    method Transfer(server: Server, closeFailure: Nullable<string>, md5: seq<byte> -> seq<byte>)
      requires Valid() && written == []
      requires server.Responds? ==> WellFormedSteps(server.steps)
      modifies this
      ensures Model() == Session.Transfer(old(Model()), server, closeFailure, md5)
    {
      match server
      case Unrequestable(m) =>
        ReportFailure(m);
      case Refuses(m) =>
        events := events + [Report(Connecting, -1, -1)];
        ReportFailure(m);
      case Responds(len, steps) =>
        Respond(len, steps, closeFailure, md5);
    }

    /** The server answered: report Connecting and Connected, size the download from the
        content length, report Downloading, then receive the body. */
    method Respond(len: int, steps: seq<Step>, closeFailure: Nullable<string>, md5: seq<byte> -> seq<byte>)
      requires Valid() && written == [] && WellFormedSteps(steps)
      modifies this
      ensures Model() == Session.AfterLoop(Session.Loop(steps, 0, Session.Answered(old(Model()), len)), closeFailure, md5)
    {
      ghost var s := Model();
      events := events + [Report(Connecting, -1, -1)];
      events := events + [Report(Connected, -1, -1)];
      totalSize := if len == -1 then 1 else len;
      currentSize := 0;
      events := events + [Report(Status.Downloading, currentSize, totalSize)];
      assert events == s.events + Session.Prologue(totalSize);
      assert Model() == Session.Answered(s, len);
      Receive(steps, closeFailure, md5);
    }

    /** The read loop, then the catch block, or the hash, the flush and close of the
        stream (whose exception the catch block reports) and the terminal report. */
    method Receive(steps: seq<Step>, closeFailure: Nullable<string>, md5: seq<byte> -> seq<byte>)
      requires Valid() && written == [] && WellFormedSteps(steps)
      modifies this
      ensures Model() == Session.AfterLoop(Session.Loop(steps, 0, old(Model())), closeFailure, md5)
    {
      var failure, md5Input := ReadLoop(steps);
      if failure.NonNull? {
        ReportFailure(failure.value);
      } else {
        ghost var drained := Model();
        if md5Enable {
          assert [] + md5Input == md5Input;
          HashToString(md5(md5Input));
        }
        assert Model() == Session.Digest(drained, md5);
        if closeFailure.NonNull? {
          ReportFailure(closeFailure.value);
        } else {
          ReportEnd();
        }
      }
    }

    /** The read loop, run while the stop flag is clear: read, hash, write and report
        chunk by chunk. `failure` carries the message of an exception that ended the
        loop; `md5Input` the bytes fed to the hash. */
    method ReadLoop(steps: seq<Step>) returns (failure: Nullable<string>, md5Input: seq<byte>)
      requires Valid() && WellFormedSteps(steps)
      modifies this
      ensures Session.Loop(steps, 0, old(Model())) ==
        (if failure.Null? then Session.Drained(Model()) else Session.Threw(failure.value, Model()))
      ensures md5Enable ==> old(written) + md5Input == written
    {
      ghost var entry := Model();
      ghost var goal := Session.Loop(steps, 0, entry);
      failure, md5Input := Null, [];
      var i := 0;
      var reading := true;
      while reading && !threadStopFlag
        invariant Valid()
        invariant 0 <= i <= |steps|
        invariant md5Enable == entry.md5Enable && (md5Enable ==> entry.written + md5Input == written)
        invariant reading ==> failure.Null? && goal == Session.Loop(steps, i, Model())
        invariant !reading ==>
          goal == (if failure.Null? then Session.Drained(Model()) else Session.Threw(failure.value, Model()))
        decreases |steps| - i, reading
      {
        if i == |steps| {
          reading := false;
        } else {
          match steps[i]
          case Read(size, bytes, elapsed) =>
            if size == -1 || size == 0 {
              reading := false;
            } else {
              if md5Enable {
                md5Input := md5Input + bytes;
              }
              WriteChunk(steps[i]);
              i := i + 1;
            }
          case Broken(m) =>
            failure := NonNull(m);
            reading := false;
          case Stalled(m) =>
            TimeoutTimerElapsed();
            failure := NonNull(m);
            reading := false;
          case AbortRequested =>
            Abort();
            i := i + 1;
        }
      }
    }

    /** One chunk: write it, report the size reached before it, then advance. */
    method WriteChunk(step: Step)
      requires Valid() && step.Read?
      modifies this
      ensures Valid() && Model() == Session.Consume(old(Model()), step)
    {
      written := written + step.bytes;
      events := events + [Event(status.Name(), status, currentSize, totalSize,
                                CalcRemainTime(totalSize, currentSize, step.elapsed))];
      currentSize := currentSize + step.size;
      status := Status.Downloading;
    }

    /** The catch block. */
    method ReportFailure(message: string)
      modifies this
      ensures Model() == Session.Fail(old(Model()), message)
    {
      status := Failed;
      events := events + [Event(message, status, totalSize, currentSize, 0.0)];
    }

    /** The terminal report after a normal loop exit. */
    method ReportEnd()
      modifies this
      ensures Model() == Session.Finish(old(Model()))
    {
      if abortFlag {
        status := Aborted;
      } else {
        status := Complete;
      }
      events := events + [Report(status, totalSize, currentSize)];
    }
  }
}
