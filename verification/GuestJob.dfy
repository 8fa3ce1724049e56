/** The guest's end of the job channel: the script it follows, its framed writes and its archive export. */
module GuestJob {
  import opened Framing
  import opened Wrappers
  import opened HostJob
  import Base64

  const FRAME_LIMIT: nat := 262144

  function Line(text: seq<Byte>): seq<Byte> { text + [LF] }

  function Texts(w: World, bodies: seq<Body>): (lines: seq<seq<Byte>>)
    ensures |lines| == |bodies| && forall i :: 0 <= i < |bodies| ==> lines[i] == w.text(bodies[i])
  {
    seq(|bodies|, i requires 0 <= i < |bodies| => w.text(bodies[i]))
  }

  /** The guest's own limit on one frame, newline included. */
  predicate Fits(w: World, body: Body) {
    |w.text(body)| + 1 < FRAME_LIMIT
  }

  // ----- The archive as messages -----

  /** Ceiling division by the chunk size. */
  function ChunkCount(size: nat): nat {
    (size + CHUNK_LIMIT - 1) / CHUNK_LIMIT
  }

  /** How much of the archive the first `i` reads have taken. */
  function Position(archive: seq<Byte>, i: nat): (p: nat)
    ensures p <= |archive|
  {
    if i * CHUNK_LIMIT <= |archive| then i * CHUNK_LIMIT else |archive|
  }

  function NextPosition(archive: seq<Byte>, p: nat): nat {
    if p + CHUNK_LIMIT <= |archive| then p + CHUNK_LIMIT else |archive|
  }

  function Slice(archive: seq<Byte>, i: nat): seq<Byte> {
    archive[Position(archive, i)..Position(archive, i + 1)]
  }

  function ChunkBody(archive: seq<Byte>, i: nat): Body {
    ArchiveChunk(i, Base64.Encode(Slice(archive, i)))
  }

  function ChunkBodies(archive: seq<Byte>, n: nat): (chunks: seq<Body>)
    ensures |chunks| == n && forall i :: 0 <= i < n ==> chunks[i] == ChunkBody(archive, i)
  {
    seq(n, i requires 0 <= i < n => ChunkBody(archive, i))
  }

  function ExportBodies(w: World, archive: seq<Byte>): seq<Body> {
    [ArchiveStart(|archive|, w.digest(archive))]
    + ChunkBodies(archive, ChunkCount(|archive|))
    + [ArchiveEnd(w.digest(archive))]
  }

  // ----- The script -----

  datatype Instr = Send(body: Body) | Receive(reply: Reply) | Check(ok: bool)

  /** What one job will do: the notes it sends before and after admission, its observation, its archive. */
  datatype Plan = Plan(setup: seq<Body>, observation: Observation, matrix: seq<Body>, archive: seq<Byte>)

  function SendAll(bodies: seq<Body>): (script: seq<Instr>)
    ensures |script| == |bodies| && forall i :: 0 <= i < |bodies| ==> script[i] == Send(bodies[i])
  {
    seq(|bodies|, i requires 0 <= i < |bodies| => Send(bodies[i]))
  }

  function ExportScript(w: World, archive: seq<Byte>): seq<Instr> {
    [Check(|archive| < ARCHIVE_LIMIT)] + SendAll(ExportBodies(w, archive))
  }

  function MainScript(w: World, p: Plan): seq<Instr> {
    SendAll(p.setup) + [Send(HostReady(p.observation)), Receive(Admit)] + SendAll(p.matrix)
    + ExportScript(w, p.archive) + [Send(Complete), Receive(Shutdown)]
  }

  function MainBodies(w: World, p: Plan): seq<Body> {
    p.setup + [HostReady(p.observation)] + p.matrix + ExportBodies(w, p.archive) + [Complete]
  }

  /** What an exception brings to the handler: its text, a note if the failure could not be written down,
      and the archive as it is by then. */
  datatype Trouble = Trouble(error: string, traceback: string, note: Option<string>, archive: seq<Byte>)

  const ERROR_LIMIT: nat := 8000
  const TRACEBACK_LIMIT: nat := 16000

  /** The last `n` characters, as Python's `s[-n:]` takes them. */
  function Last(s: string, n: nat): (t: string)
    requires n > 0
    ensures |t| == if |s| <= n then |s| else n
    ensures s[|s| - |t|..] == t
  {
    if |s| <= n then s else s[|s| - n..]
  }

  function ReportBodies(t: Trouble): seq<Body> {
    [Failure(Last(t.error, ERROR_LIMIT), Last(t.traceback, TRACEBACK_LIMIT))]
    + if t.note.Some? then [Note("diagnostic-write-failure", t.note.value)] else []
  }

  /** The messages a script sends, and how many replies it reads. */
  function BodiesOf(script: seq<Instr>): seq<Body> {
    if script == [] then []
    else
      var last := script[|script| - 1];
      BodiesOf(script[..|script| - 1]) + if last.Send? then [last.body] else []
  }

  function ReadsOf(script: seq<Instr>): nat {
    if script == [] then 0
    else ReadsOf(script[..|script| - 1]) + if script[|script| - 1].Receive? then 1 else 0
  }

  /** Main is the try block, Handler the except block, LastWords the report that the export failed too. */
  datatype Mode = Main | Handler | LastWords

  /** `pc` counts the instructions done and `mainDone` those of the try block among them; `outgoing` is the
      unwritten part of the line being sent, `before` what abandoned scripts sent, `taken` the replies read.
      From `rescueFrom` on, the handler's own try block is active. */
  datatype Guest = Guest(mode: Mode, before: seq<Body>, script: seq<Instr>, pc: nat, mainDone: nat,
                         rescueFrom: nat, outgoing: seq<Byte>, taken: nat)
  {
    predicate Idle() { outgoing == [] && pc < |script| }

    function Next(): Guest {
      this.(pc := pc + 1, mainDone := if mode.Main? then pc + 1 else mainDone)
    }
  }

  /** Everything the guest has begun to send. */
  function History(g: Guest): seq<Body> {
    if g.pc <= |g.script| then g.before + BodiesOf(g.script[..g.pc]) else g.before
  }

  function Boot(w: World, p: Plan): Guest {
    Guest(Main, [], MainScript(w, p), 0, 0, 0, [], 0)
  }

  /** An exception between two writes. */
  function Crash(w: World, g: Guest, t: Trouble): Guest
    requires g.pc <= |g.script|
  {
    match g.mode
    case Main =>
      var report := SendAll(ReportBodies(t));
      Guest(Handler, History(g), report + ExportScript(w, t.archive), 0, g.mainDone, |report|, [], g.taken)
    case Handler =>
      if g.pc < g.rescueFrom then g.(script := g.script[..g.pc])
      else Guest(LastWords, History(g), [Send(ExportFailure(t.error))], 0, g.mainDone, 0, [], g.taken)
    case LastWords => g.(script := g.script[..g.pc])
  }

  /** The guest's port as it runs. Each write takes some positive part of what it is given. */
  class Port {
    const w: World
    var wire: seq<Byte>

    constructor (w: World)
      ensures this.w == w && wire == []
    {
      this.w := w;
      wire := [];
    }

    method Write(line: seq<Byte>) returns (written: nat)
      requires line != []
      modifies this
      ensures 0 < written <= |line| && wire == old(wire) + line[..written]
    {
      written :| 0 < written <= |line|;
      wire := wire + line[..written];
    }

    method Send(body: Body) returns (sent: bool)
      modifies this
      ensures sent == Fits(w, body) == (|w.text(body)| + 1 < 262144)
      ensures wire == old(wire) + if sent then w.text(body) + [10] else []
    {
      var line := Line(w.text(body));
      if |line| >= FRAME_LIMIT {
        assert old(wire) + [] == wire;
        return false;
      }
      ghost var all := line;
      ghost var done := 0;
      while line != []
        invariant done <= |all| && line == all[done..] && wire == old(wire) + all[..done]
      {
        var written := Write(line);
        assert all[..done + written] == all[..done] + line[..written];
        done := done + written;
        line := line[written..];
      }
      assert all[..done] == all;
      return true;
    }

    /** Sends the chunk messages as the archive file is read from front to back. */
    method SendChunks(archive: seq<Byte>) returns (sent: bool)
      modifies this
      ensures sent <==> AllFit(w, ChunkBodies(archive, ChunkCount(|archive|)))
      ensures sent ==> wire == old(wire) + Join(Texts(w, ChunkBodies(archive, ChunkCount(|archive|))))
    {
      var position, sequence := 0, 0;
      var count := ChunkCount(|archive|);
      while sequence < count
        invariant sequence <= count && position == Position(archive, sequence)
        invariant wire == old(wire) + Join(Texts(w, ChunkBodies(archive, sequence)))
        invariant AllFit(w, ChunkBodies(archive, sequence))
      {
        var next := NextPosition(archive, position);
        assert next == Position(archive, sequence + 1);
        var chunk := ArchiveChunk(sequence, Base64.Encode(archive[position..next]));
        position := next;
        sent := Send(chunk);
        ChunkStep(w, archive, sequence, chunk);
        if !sent {
          ChunkUnfit(w, archive, sequence, count);
          return;
        }
        sequence := sequence + 1;
      }
      sent := true;
    }

    /** Exports an archive; fails at the size check or at the first frame over the limit. */
    method Export(archive: seq<Byte>) returns (sent: bool)
      modifies this
      ensures sent <==> |archive| < 67108864 && AllFit(w, ExportBodies(w, archive))
      ensures sent ==> wire == old(wire) + Join(Texts(w, ExportBodies(w, archive)))
    {
      ExportParts(w, archive);
      if |archive| >= ARCHIVE_LIMIT {
        return false;
      }
      sent := Send(ArchiveStart(|archive|, w.digest(archive)));
      if sent {
        sent := SendChunks(archive);
        if sent {
          sent := Send(ArchiveEnd(w.digest(archive)));
        }
      }
    }
  }

  ghost predicate AllFit(w: World, bodies: seq<Body>) {
    forall i :: 0 <= i < |bodies| ==> Fits(w, bodies[i])
  }

  lemma ChunkStep(w: World, archive: seq<Byte>, i: nat, chunk: Body)
    requires chunk == ChunkBody(archive, i)
    ensures Join(Texts(w, ChunkBodies(archive, i + 1)))
         == Join(Texts(w, ChunkBodies(archive, i))) + Line(w.text(chunk))
    ensures AllFit(w, ChunkBodies(archive, i + 1)) <==> AllFit(w, ChunkBodies(archive, i)) && Fits(w, chunk)
  {
    var now, next := ChunkBodies(archive, i), ChunkBodies(archive, i + 1);
    assert next[i] == chunk;
    assert next == now + [chunk];
    JoinNext(w, now, chunk);
  }

  lemma ChunkUnfit(w: World, archive: seq<Byte>, i: nat, count: nat)
    requires i < count && !Fits(w, ChunkBody(archive, i))
    ensures !AllFit(w, ChunkBodies(archive, count))
  {
    assert ChunkBodies(archive, count)[i] == ChunkBody(archive, i);
  }

  lemma ExportParts(w: World, archive: seq<Byte>)
    ensures var chunks := ChunkBodies(archive, ChunkCount(|archive|));
      var start, end := ArchiveStart(|archive|, w.digest(archive)), ArchiveEnd(w.digest(archive));
      && (AllFit(w, ExportBodies(w, archive)) <==> Fits(w, start) && AllFit(w, chunks) && Fits(w, end))
      && Join(Texts(w, ExportBodies(w, archive)))
         == Line(w.text(start)) + Join(Texts(w, chunks)) + Line(w.text(end))
  {
    var chunks := ChunkBodies(archive, ChunkCount(|archive|));
    Bracketed(w, ArchiveStart(|archive|, w.digest(archive)), chunks, ArchiveEnd(w.digest(archive)));
  }

  lemma Bracketed(w: World, start: Body, middle: seq<Body>, end: Body)
    ensures AllFit(w, [start] + middle + [end]) <==> Fits(w, start) && AllFit(w, middle) && Fits(w, end)
    ensures Join(Texts(w, [start] + middle + [end]))
         == Line(w.text(start)) + Join(Texts(w, middle)) + Line(w.text(end))
  {
    var bodies := [start] + middle;
    assert Texts(w, bodies) == [w.text(start)] + Texts(w, middle);
    assert bodies[0] == start && forall i :: 0 <= i < |middle| ==> middle[i] == bodies[i + 1];
    JoinAppend([w.text(start)], Texts(w, middle));
    JoinOne(w.text(start));
    var all := bodies + [end];
    assert all[|bodies|] == end && forall i :: 0 <= i < |bodies| ==> bodies[i] == all[i];
    JoinNext(w, bodies, end);
  }

  lemma JoinOne(line: seq<Byte>)
    ensures Join([line]) == Line(line)
  {
    assert Join([line][1..]) == [];
  }

  lemma JoinNext(w: World, bodies: seq<Body>, b: Body)
    ensures Join(Texts(w, bodies + [b])) == Join(Texts(w, bodies)) + Line(w.text(b))
  {
    assert Texts(w, bodies + [b]) == Texts(w, bodies) + [w.text(b)];
    JoinAppend(Texts(w, bodies), [w.text(b)]);
    JoinOne(w.text(b));
  }
}
