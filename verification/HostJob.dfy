/** The coordinator's end of the job channel: what one line does, how reads are cut into lines, and which
    transcripts let the coordinator report success. */
module HostJob {
  import opened Framing
  import opened Wrappers
  import Base64

  const ARCHIVE_LIMIT: nat := 64 * 1024 * 1024
  const CHUNK_LIMIT: nat := 32768
  const READ_LIMIT: nat := 262144
  const BUFFER_LIMIT: nat := 524288

  datatype Binding = Binding(runId: string, nonce: string, imageDigest: string, sourceCommit: string,
                             sourceTree: string)

  datatype Source = Source(commit: string, tree: string, status: string, privateRefs: string)

  /** The parts of the guest's `host-ready` observation that admission reads. */
  datatype Observation = Observation(
    platform: string, networkInterfaces: seq<string>, nodeVersion: string, pnpmVersion: string,
    dockerServerVersion: string, imageIds: seq<string>, source: Source, forbiddenPathPresent: seq<bool>,
    cgroupControllers: seq<string>)

  datatype Body =
    | HostReady(observation: Observation)
    | ArchiveStart(bytes: int, sha256: string)
    | ArchiveChunk(sequence: int, data: string)
    | ArchiveEnd(sha256: string)
    | Failure(error: string, traceback: string)
    | ExportFailure(error: string)
    | Complete
    | Note(kind: string, detail: string)  // boot, progress, heartbeat and every other kind: recorded only
  {
    predicate Archive?() { ArchiveStart? || ArchiveChunk? || ArchiveEnd? }
    predicate Bad?() { Failure? || ExportFailure? }
  }

  datatype Message = Message(runId: string, nonce: string, body: Body)

  datatype Reply = Admit | Shutdown

  /** What the coordinator is given: its binding, JSON reading (None where reading a line or a key raises),
      the text of each message and reply, SHA-256, and whether the n-th reply can be sent. */
  datatype World = World(binding: Binding, read: seq<Byte> -> Option<Message>, text: Body -> seq<Byte>,
                         reply: Reply -> seq<Byte>, digest: seq<Byte> -> string, sendOk: nat -> bool)

  datatype Status = Error | Observed

  datatype Announced = Announced(bytes: int, sha256: string)

  datatype Report = Report(status: Status, guestReady: Option<Observation>, archive: Option<Announced>,
                           guestFailure: Option<string>, guestExportFailure: Option<string>)

  /** The coordinator's state between two lines. `file` is guest-evidence.tar.gz, None before it is created;
      `open` says that it is still being written. `raised` is an exception on its way to the handler. */
  datatype Job = Job(complete: bool, failed: bool, sequence: nat, open: bool, file: Option<seq<Byte>>,
                     expected: Option<Announced>, report: Report, sent: seq<Reply>, raised: bool)

  /** The receiving end: bytes not yet cut into lines, the state, and every line handled so far. */
  datatype Endpoint = Endpoint(buffer: seq<Byte>, job: Job, lines: seq<seq<Byte>>) {
    predicate Stopped() { job.complete || job.raised }
  }

  const FRESH := Job(false, false, 0, false, None, None, Report(Error, None, None, None, None), [], false)
  const IDLE := Endpoint([], FRESH, [])

  predicate Admissible(binding: Binding, o: Observation) {
    && o.platform == "linux" && o.networkInterfaces == ["lo"]
    && o.nodeVersion == "v24.18.0" && o.pnpmVersion == "11.15.1"
    && o.dockerServerVersion == "29.1.3"
    && o.imageIds == [binding.imageDigest]
    && o.source == Source(binding.sourceCommit, binding.sourceTree, "", "")
    && true !in o.forbiddenPathPresent
    && "cpu" in o.cgroupControllers && "memory" in o.cgroupControllers && "pids" in o.cgroupControllers
  }

  function Raise(j: Job): Job { j.(raised := true) }

  function Reported(w: World, j: Job, r: Reply): Job {
    if w.sendOk(|j.sent|) then j.(sent := j.sent + [r]) else Raise(j)
  }

  function OnChunk(j: Job, sequence: int, data: string): Job {
    if !j.open || sequence != j.sequence || j.file.None? || j.expected.None? then Raise(j) else
      match Base64.Decode(data)
      case None => Raise(j)
      case Some(bytes) =>
        if |bytes| > CHUNK_LIMIT then Raise(j) else
          var next := j.(file := Some(j.file.value + bytes), sequence := j.sequence + 1);
          if |next.file.value| > j.expected.value.bytes then Raise(next) else next
  }

  function OnStart(j: Job, bytes: int, sha256: string): Job {
    if j.open || !(0 < bytes < ARCHIVE_LIMIT) then Raise(j) else
      var next := j.(expected := Some(Announced(bytes, sha256)));
      if j.file.Some? then Raise(next) else next.(open := true, file := Some([]))
  }

  function OnEnd(w: World, j: Job, sha256: string): Job {
    if !j.open || j.file.None? || j.expected.None? || |j.file.value| != j.expected.value.bytes then Raise(j) else
      var next := j.(open := false);
      if !(sha256 == j.expected.value.sha256 == w.digest(j.file.value)) then Raise(next) else
        next.(report := j.report.(archive := Some(Announced(j.expected.value.bytes, sha256))),
              complete := j.complete || j.failed)
  }

  function OnComplete(w: World, j: Job): Job {
    if j.failed || j.report.archive.None? then Raise(j) else
      var next := Reported(w, j.(complete := true), Shutdown);
      if next.raised then next else next.(report := j.report.(status := Observed))
  }

  function Handle(w: World, j: Job, body: Body): Job {
    if j.raised then j else
      match body
      case ArchiveChunk(sequence, data) => OnChunk(j, sequence, data)
      case HostReady(o) =>
        if !Admissible(w.binding, o) then Raise(j)
        else Reported(w, j.(report := j.report.(guestReady := Some(o))), Admit)
      case ArchiveStart(bytes, sha256) => OnStart(j, bytes, sha256)
      case ArchiveEnd(sha256) => OnEnd(w, j, sha256)
      case Failure(error, _) => j.(failed := true, report := j.report.(guestFailure := Some(error)))
      case ExportFailure(error) =>
        j.(failed := true, complete := true, report := j.report.(guestExportFailure := Some(error)))
      case Complete => OnComplete(w, j)
      case Note(_, _) => j
  }

  predicate Authentic(w: World, line: seq<Byte>) {
    match w.read(line)
    case None => false
    case Some(m) => m.runId == w.binding.runId && m.nonce == w.binding.nonce
  }

  function Dispatch(w: World, j: Job, line: seq<Byte>): Job {
    if j.raised then j
    else if Authentic(w, line) then Handle(w, j, w.read(line).value.body)
    else Raise(j)
  }

  /** Cuts the buffer into lines and handles them until the buffer holds none or a line raises. */
  function Drain(w: World, e: Endpoint): Endpoint
    decreases |e.buffer|
  {
    if LF !in e.buffer || e.job.raised then e else
      var i := IndexOf(e.buffer, LF);
      var line := e.buffer[..i];
      Drain(w, Endpoint(e.buffer[i + 1..], Dispatch(w, e.job, line), e.lines + [line]))
  }

  /** One successful `recv`. */
  function Pump(w: World, e: Endpoint, chunk: seq<Byte>): Endpoint {
    var next := e.(buffer := e.buffer + chunk);
    if |next.buffer| >= BUFFER_LIMIT then next.(job := Raise(e.job)) else Drain(w, next)
  }

  /** The read loop. It stops at completion or at an exception, so later reads are never made. */
  function Run(w: World, e: Endpoint, chunks: seq<seq<Byte>>): Endpoint
    decreases |chunks|
  {
    if chunks == [] || e.Stopped() then e else Run(w, Pump(w, e, chunks[0]), chunks[1..])
  }

  /** The state after handling exactly these lines, however they arrived. */
  function After(w: World, lines: seq<seq<Byte>>): Job {
    if lines == [] then FRESH
    else Dispatch(w, After(w, lines[..|lines| - 1]), lines[|lines| - 1])
  }

  function AfterBodies(w: World, bodies: seq<Body>): Job {
    if bodies == [] then FRESH
    else Handle(w, AfterBodies(w, bodies[..|bodies| - 1]), bodies[|bodies| - 1])
  }

  /** The same coordinator as it runs: fields updated in place, one method per step. */
  class Coordinator {
    const w: World
    var buffer: seq<Byte>
    var complete: bool
    var failed: bool
    var sequence: nat
    var open: bool
    var file: Option<seq<Byte>>
    var expected: Option<Announced>
    var report: Report
    var sent: seq<Reply>
    var raised: bool
    ghost var lines: seq<seq<Byte>>

    ghost function State(): Job
      reads this
    {
      Job(complete, failed, sequence, open, file, expected, report, sent, raised)
    }

    ghost function View(): Endpoint
      reads this
    {
      Endpoint(buffer, State(), lines)
    }

    constructor (w: World)
      ensures this.w == w && View() == IDLE
    {
      this.w := w;
      buffer, complete, failed, sequence, open, file := [], false, false, 0, false, None;
      expected, report, sent, raised := None, Report(Error, None, None, None, None), [], false;
      lines := [];
    }

    method Send(r: Reply)
      requires !raised
      modifies this`sent, this`raised
      ensures State() == Reported(w, old(State()), r)
    {
      if w.sendOk(|sent|) {
        sent := sent + [r];
      } else {
        raised := true;
      }
    }

    method WriteChunk(sequence': int, data: string)
      requires !raised
      modifies this`file, this`sequence, this`raised
      ensures State() == OnChunk(old(State()), sequence', data)
    {
      if !open || sequence' != sequence || file.None? || expected.None? {
        raised := true;
        return;
      }
      var decoded := Base64.Decode(data);
      if decoded.None? || |decoded.value| > CHUNK_LIMIT {
        raised := true;
        return;
      }
      file := Some(file.value + decoded.value);
      sequence := sequence + 1;
      raised := |file.value| > expected.value.bytes;
    }

    method OpenArchive(bytes: int, sha256: string)
      requires !raised
      modifies this`expected, this`open, this`file, this`raised
      ensures State() == OnStart(old(State()), bytes, sha256)
    {
      if open || !(0 < bytes < ARCHIVE_LIMIT) {
        raised := true;
        return;
      }
      expected := Some(Announced(bytes, sha256));
      if file.Some? {
        raised := true;
      } else {
        open, file := true, Some([]);
      }
    }

    method CloseArchive(sha256: string)
      requires !raised
      modifies this`open, this`report, this`complete, this`raised
      ensures State() == OnEnd(w, old(State()), sha256)
    {
      if !open || file.None? || expected.None? || |file.value| != expected.value.bytes {
        raised := true;
        return;
      }
      open := false;
      if !(sha256 == expected.value.sha256 == w.digest(file.value)) {
        raised := true;
        return;
      }
      report := report.(archive := Some(Announced(expected.value.bytes, sha256)));
      if failed {
        complete := true;
      }
    }

    method HandleLine(line: seq<Byte>)
      requires !raised
      modifies this
      ensures View() == Endpoint(old(buffer), Dispatch(w, old(State()), line), old(lines) + [line])
    {
      lines := lines + [line];
      var value := w.read(line);
      if value.None? || value.value.runId != w.binding.runId || value.value.nonce != w.binding.nonce {
        raised := true;
        return;
      }
      match value.value.body {
        case ArchiveChunk(n, data) => WriteChunk(n, data);
        case HostReady(o) =>
          if !Admissible(w.binding, o) {
            raised := true;
          } else {
            report := report.(guestReady := Some(o));
            Send(Admit);
          }
        case ArchiveStart(bytes, sha256) => OpenArchive(bytes, sha256);
        case ArchiveEnd(sha256) => CloseArchive(sha256);
        case Failure(error, _) =>
          failed := true;
          report := report.(guestFailure := Some(error));
        case ExportFailure(error) =>
          failed, complete := true, true;
          report := report.(guestExportFailure := Some(error));
        case Complete =>
          if failed || report.archive.None? {
            raised := true;
          } else {
            complete := true;
            Send(Shutdown);
            if !raised {
              report := report.(status := Observed);
            }
          }
        case Note(_, _) =>
      }
    }

    method Receive(chunk: seq<Byte>)
      requires !raised
      modifies this
      ensures View() == Pump(w, old(View()), chunk)
    {
      buffer := buffer + chunk;
      if |buffer| >= BUFFER_LIMIT {
        raised := true;
        return;
      }
      while LF in buffer && !raised
        invariant Drain(w, View()) == Pump(w, old(View()), chunk)
        decreases |buffer|
      {
        var i := IndexOf(buffer, LF);
        var line := buffer[..i];
        buffer := buffer[i + 1..];
        HandleLine(line);
      }
    }

    /** Reads until completion, an exception or the end of the supply; `used` reads were made. */
    method Serve(chunks: seq<seq<Byte>>) returns (used: nat)
      modifies this
      ensures View() == Run(w, old(View()), chunks)
      ensures used <= |chunks| && (used < |chunks| ==> complete || raised)
    {
      used := 0;
      while used < |chunks| && !complete && !raised
        invariant used <= |chunks|
        invariant Run(w, View(), chunks[used..]) == Run(w, old(View()), chunks)
      {
        Receive(chunks[used]);
        used := used + 1;
      }
    }
  }
}
