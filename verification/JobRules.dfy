/** The channel's rules spelled out: what each step may do, what the guest sends and in which order, and what it sends
    after an exception. */
module JobRules {
  import opened Framing
  import opened Wrappers
  import opened HostJob
  import opened GuestJob
  import opened JobChannel
  import opened JobScript
  import JobWire
  import Base64

  // ----- Steps -----

  /** Bytes move in pieces of any size: a write any part of the line being sent, a read any part of what is in flight up
      to 256 KiB, and nothing else changes on a write. */
  lemma BytesMoveFreely(w: World, s: Sys, n: nat)
    requires n > 0
    ensures var next := Apply(w, s, GuestWrite(n));
      if n <= |s.guest.outgoing|
      then next == s.(guest := s.guest.(outgoing := s.guest.outgoing[n..]), up := s.up + s.guest.outgoing[..n])
      else next == s
    ensures var next := Apply(w, s, HostRecv(n));
      if n <= |s.up| && n <= 262144 && !s.host.job.complete && !s.host.job.raised
      then
        && next.up == s.up[n..] && next.host == Pump(w, s.host, s.up[..n]) && next.guest == s.guest
        && s.down <= next.down
      else next == s
  {}

  /** Exceptions come at any time: to the coordinator while it reads, to the guest in a read and between any two other
      instructions. */
  lemma ExceptionsComeFreely(w: World, s: Sys, t: Trouble)
    ensures Apply(w, s, HostAbort)
         == if s.host.job.complete || s.host.job.raised then s
            else s.(host := s.host.(job := s.host.job.(raised := true)))
    ensures s.guest.outgoing == [] && s.guest.pc < |s.guest.script| ==>
      Apply(w, s, if s.guest.script[s.guest.pc].Receive? then GuestReadFails(t) else GuestCrash(t))
      == s.(guest := Crash(w, s.guest, t))
  {}

  /** What the guest's next instruction does: a message is sent whole if its frame is under 256 KiB, a check passes if
      it holds, and a read takes one line off the queue, which has to be the reply waited for. Anything else raises. */
  lemma NextInstruction(w: World, s: Sys, t: Trouble, rest: seq<Byte>, line: seq<Byte>)
    requires s.guest.outgoing == [] && s.guest.pc < |s.guest.script|
    ensures var g, next := s.guest, Apply(w, s, GuestAdvance(t));
      match g.script[g.pc]
      case Send(b) =>
        next == if |w.text(b)| + 1 < 262144 then s.(guest := g.Next().(outgoing := w.text(b) + [10]))
                else s.(guest := Crash(w, g, t))
      case Check(ok) => next == s.(guest := if ok then g.Next() else Crash(w, g, t))
      case Receive(k) =>
        10 !in line && s.down == line + [10] + rest ==>
          next == s.(guest := if line == w.reply(k) then g.Next().(taken := g.taken + 1) else Crash(w, g, t),
                     down := rest)
  {
    if 10 !in line && s.down == line + [10] + rest {
      LineInFront(line, rest);
    }
  }

  lemma LineInFront(line: seq<Byte>, rest: seq<Byte>)
    requires 10 !in line
    ensures var all := line + [10] + rest;
      10 in all && IndexOf(all, 10) == |line| && all[..|line|] == line && all[|line| + 1..] == rest
  {
    var all := line + [10] + rest;
    assert all[|line|] == 10 && forall j :: 0 <= j < |line| ==> all[j] == line[j];
    IndexOfUnique(all, 10, |line|);
  }

  // ----- The guest's script -----

  /** Everything the try block sends, in order. */
  lemma MainSays(w: World, p: Plan)
    ensures BodiesOf(MainScript(w, p))
         == p.setup + [HostReady(p.observation)] + p.matrix + [ArchiveStart(|p.archive|, w.digest(p.archive))]
            + ChunkBodies(p.archive, (|p.archive| + 32767) / 32768) + [ArchiveEnd(w.digest(p.archive)), Complete]
  {
    MainShape(w, p);
    var front := p.setup + [HostReady(p.observation)] + p.matrix;
    var chunks := ChunkBodies(p.archive, ChunkCount(|p.archive|));
    ExportInPlace(front, ArchiveStart(|p.archive|, w.digest(p.archive)), chunks, ArchiveEnd(w.digest(p.archive)),
                  Complete);
  }

  lemma ExportInPlace(front: seq<Body>, start: Body, chunks: seq<Body>, end: Body, claim: Body)
    ensures front + ([start] + chunks + [end]) + [claim] == front + [start] + chunks + [end, claim]
  {}

  /** The script waits for the admission right behind the observation, for the shutdown at its end, and nowhere else;
      before it exports it checks the archive's size. */
  lemma MainWaits(w: World, p: Plan, i: nat)
    requires i < |MainScript(w, p)|
    ensures var script, n := MainScript(w, p), |p.setup|;
      && |script| > n + |p.matrix| + 4
      && (script[i].Receive? <==> i == n + 1 || i == |script| - 1)
      && script[n + 1] == Receive(Admit) && script[|script| - 1] == Receive(Shutdown)
      && script[n + |p.matrix| + 2] == Check(|p.archive| < 67108864)
  {
    MainReads(w, p, i);
    MainParts(w, p);
  }

  /** The archive in slices of 32 KiB. */
  lemma SlicesAre(archive: seq<Byte>, i: nat)
    requires i < (|archive| + 32767) / 32768
    ensures 32768 * i < |archive|
    ensures var end := if 32768 * (i + 1) <= |archive| then 32768 * (i + 1) else |archive|;
      ChunkBodies(archive, (|archive| + 32767) / 32768)[i] == ArchiveChunk(i, Base64.Encode(archive[32768 * i..end]))
  {}

  // ----- After an exception -----

  /** The end of a text: all of it, or its last `n` characters. */
  ghost predicate EndOf(s: string, n: nat, t: string) {
    |t| == (if |s| <= n then |s| else n) && s[|s| - |t|..] == t
  }

  /** An exception in the try block: the handler reports the end of its text and of its traceback, says so if that could
      not be written down, and then exports what there is under the same check. */
  lemma HandlerSays(w: World, g: Guest, t: Trouble)
    requires g.mode.Main? && g.pc <= |g.script|
    ensures var c := Crash(w, g, t);
      && c.mode.Handler? && c.pc == 0 && c.outgoing == [] && History(c) == History(g)
      && exists error, traceback ::
           && EndOf(t.error, 8000, error) && EndOf(t.traceback, 16000, traceback)
           && c.script
              == [Send(Failure(error, traceback))]
                 + (if t.note.Some? then [Send(Note("diagnostic-write-failure", t.note.value))] else [])
                 + [Check(|t.archive| < 67108864), Send(ArchiveStart(|t.archive|, w.digest(t.archive)))]
                 + SendAll(ChunkBodies(t.archive, (|t.archive| + 32767) / 32768))
                 + [Send(ArchiveEnd(w.digest(t.archive)))]
  {
    var error, traceback := Last(t.error, ERROR_LIMIT), Last(t.traceback, TRACEBACK_LIMIT);
    assert EndOf(t.error, 8000, error) && EndOf(t.traceback, 16000, traceback);
    JobWire.CrashKeepsHistory(w, g, t);
    ReportSays(t, error, traceback);
    ExportSays(w, t.archive);
    InPlace(SendAll(ReportBodies(t)), Check(|t.archive| < 67108864),
            Send(ArchiveStart(|t.archive|, w.digest(t.archive))),
            SendAll(ChunkBodies(t.archive, (|t.archive| + 32767) / 32768)), Send(ArchiveEnd(w.digest(t.archive))));
  }

  lemma ReportSays(t: Trouble, error: string, traceback: string)
    requires error == Last(t.error, ERROR_LIMIT) && traceback == Last(t.traceback, TRACEBACK_LIMIT)
    ensures SendAll(ReportBodies(t))
         == [Send(Failure(error, traceback))]
            + if t.note.Some? then [Send(Note("diagnostic-write-failure", t.note.value))] else []
  {}

  lemma InPlace(report: seq<Instr>, check: Instr, start: Instr, chunks: seq<Instr>, end: Instr)
    ensures report + ([check, start] + chunks + [end]) == report + [check, start] + chunks + [end]
  {}

  lemma ExportSays(w: World, archive: seq<Byte>)
    ensures ExportScript(w, archive)
         == [Check(|archive| < 67108864), Send(ArchiveStart(|archive|, w.digest(archive)))]
            + SendAll(ChunkBodies(archive, (|archive| + 32767) / 32768)) + [Send(ArchiveEnd(w.digest(archive)))]
  {}

  /** An exception in the handler: before the export it ends the guest, in the export it is reported once, in that
      report it ends the guest. */
  lemma SecondException(w: World, g: Guest, t: Trouble)
    requires !g.mode.Main? && g.pc <= |g.script|
    ensures var c := Crash(w, g, t);
      if g.mode.Handler? && g.pc >= g.rescueFrom
      then c.mode.LastWords? && c.script == [Send(ExportFailure(t.error))] && c.pc == 0
      else c.pc == |c.script|
    ensures History(Crash(w, g, t)) == History(g)
  {
    JobWire.CrashKeepsHistory(w, g, t);
  }
}
