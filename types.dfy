/** Values shared by the downloader model: the status and output-mode enums, progress
    events, the output sink, and the environment that stands for the network. */
module DownloadTypes {

  newtype byte = x: int | 0 <= x < 256

  /** A C# reference that may be null. */
  datatype Nullable<T> = Null | NonNull(value: T)

  /** Size of the read buffer (`BuffSize`, 10 KiB). */
  const BuffSize: int := 10 * 1024

  /** The downloader's lifecycle status. Terminal values are Complete and the three
      error classes Aborted, Timeout and Failed. */
  datatype Status =
    | None
    | Started
    | Connecting
    | Connected
    | Downloading
    | Complete
    | Aborted
    | Timeout
    | Failed
  {
    predicate IsTerminal() {
      Complete? || Aborted? || Timeout? || Failed?
    }

    /** The enum's numeric value. */
    function Code(): (c: int)
      ensures IsTerminal() <==> c >= 5
      ensures c >= 0x10 <==> (Aborted? || Timeout? || Failed?)
    {
      match this
      case None => 0
      case Started => 1
      case Connecting => 2
      case Connected => 3
      case Downloading => 4
      case Complete => 5
      case Aborted => 0x10
      case Timeout => 0x11
      case Failed => 0x12
    }

    /** The enum member's name, as `ToString()` gives it; used as the event message. */
    function Name(): (n: string)
      ensures |n| > 1 && n[0] == 'k'
    {
      match this
      case None => "kNone"
      case Started => "kStarted"
      case Connecting => "kConnecting"
      case Connected => "kConnected"
      case Downloading => "kDownloading"
      case Complete => "kComplete"
      case Aborted => "kAborted"
      case Timeout => "kTimeout"
      case Failed => "kFailed"
    }
  }

  /** Which of the two mutually exclusive output targets was configured last. */
  datatype OutputMode = Unset | ToFile | ToStream

  /** The stream the downloader writes to: a file stream it opened itself for a path,
      or a stream handed in by the caller. */
  datatype Sink = FileSink(path: string) | CallerStream(handle: nat)

  /** One invocation of the progress callback:
      (message, status, currsize, totalsize, remain). */
  datatype Event = Event(message: string, status: Status, current: int, total: int, remain: real)

  /** An event whose message is the status name and whose remaining time is zero. */
  function Report(status: Status, current: int, total: int): Event {
    Event(status.Name(), status, current, total, 0.0)
  }

  /** Distinct statuses have distinct names, so an event's message tells its status. */
  lemma NameInjective(a: Status, b: Status)
    requires a.Name() == b.Name()
    ensures a == b
  {
  }

  /** What happens during one pass of the read loop.
      - Read: the stream read returns `size` and fills the buffer with `bytes`;
        `elapsed` is the time since the start, in ticks, when the progress event is sent.
      - Broken: the read or the write throws (an I/O or transport error).
      - Stalled: the read blocks until the timeout watchdog fires; the watchdog's
        thread abort then surfaces in the worker as an exception with `message`.
      - AbortRequested: the controller calls Abort before the next flag check. */
  datatype Step =
    | Read(size: int, bytes: seq<byte>, elapsed: int)
    | Broken(message: string)
    | Stalled(message: string)
    | AbortRequested

  /** A read honours the stream contract: it returns -1, 0 or a count of at most
      `BuffSize` bytes, and that many bytes are delivered. */
  predicate WellFormedStep(step: Step) {
    step.Read? ==> -1 <= step.size <= BuffSize && (step.size > 0 ==> |step.bytes| == step.size)
  }

  predicate WellFormedSteps(steps: seq<Step>) {
    forall k :: 0 <= k < |steps| ==> WellFormedStep(steps[k])
  }

  /** Whether opening the target file succeeds. */
  datatype FileOpen = Opens | OpenFails(message: string)

  /** The HTTP exchange:
      - Unrequestable: no request can be created for the URL (`WebRequest.Create`
        throws for a null or malformed URL, the cast for a scheme other than HTTP);
      - Refuses: the request is refused (`GetResponse` throws);
      - Responds: the server answers with a content length (-1 when unknown) and a
        body read step by step. Once the steps run out, every further read returns 0. */
  datatype Server =
    | Unrequestable(message: string)
    | Refuses(message: string)
    | Responds(contentLength: int, steps: seq<Step>)

  /** What the worker meets outside the object. `timerMessage` is the message of the
      exception the timeout timer's constructor throws for an interval that is not
      positive; `closeFailure` the message of the exception that flushing or closing
      the output stream throws after a normal loop exit, if one does (for instance a
      caller stream that an earlier run has already closed). */
  datatype Environment = Environment(timerMessage: string, fileOpen: FileOpen, server: Server,
                                     closeFailure: Nullable<string>)

  predicate WellFormedEnv(env: Environment) {
    env.server.Responds? ==> WellFormedSteps(env.server.steps)
  }
}
