/** The coordinator's rules spelled out: which lines it handles, which observations it admits, and which archive
    messages it accepts as one sealed archive. */
module HostRules {
  import opened Framing
  import opened Wrappers
  import opened HostJob
  import opened HostTranscript
  import Base64

  // ----- Lines -----

  /** A line counts exactly if it is read as a message that carries the run's id and nonce. */
  lemma LineIff(w: World, j: Job, line: seq<Byte>)
    requires !j.raised
    ensures w.read(line).None? ==> Dispatch(w, j, line) == j.(raised := true)
    ensures w.read(line).Some? ==>
      var m := w.read(line).value;
      Dispatch(w, j, line)
      == if m.runId == w.binding.runId && m.nonce == w.binding.nonce then Handle(w, j, m.body)
         else j.(raised := true)
  {}

  /** A transcript that raised nothing holds only lines of this run; one that holds any other has raised. */
  lemma {:induction false} OnlyOurLines(w: World, lines: seq<seq<Byte>>)
    ensures !After(w, lines).raised ==>
      forall i :: 0 <= i < |lines| ==>
        exists b :: w.read(lines[i]) == Some(Message(w.binding.runId, w.binding.nonce, b))
    decreases |lines|
  {
    if lines != [] {
      var front, line := lines[..|lines| - 1], lines[|lines| - 1];
      OnlyOurLines(w, front);
      if !After(w, lines).raised {
        LineIff(w, After(w, front), line);
        var m := w.read(line).value;
        assert w.read(line) == Some(Message(w.binding.runId, w.binding.nonce, m.body));
        forall i | 0 <= i < |lines|
          ensures exists b :: w.read(lines[i]) == Some(Message(w.binding.runId, w.binding.nonce, b))
        {
          if i < |front| {
            assert lines[i] == front[i];
          }
        }
      }
    }
  }

  /** A read raises exactly if it fills the buffer to 512 KiB or if one of the lines it completes raises. In the first
      case nothing of it is handled, in the second the line that raised is the last one handled. */
  lemma ReadIff(w: World, e: Endpoint, stream: seq<Byte>, chunk: seq<Byte>)
    requires Received(w, e, stream) && !e.job.raised
    ensures var n := Pump(w, e, chunk);
      if |e.buffer| + |chunk| >= 524288
      then n == Endpoint(e.buffer + chunk, e.job.(raised := true), e.lines)
      else
        && n.job == After(w, n.lines)
        && (n.job.raised ==> |n.lines| > |e.lines| && !After(w, n.lines[..|n.lines| - 1]).raised)
        && (!n.job.raised ==> n.lines == Lines(stream + chunk) && n.buffer == Tail(stream + chunk))
  {
    if |e.buffer| + |chunk| < 524288 {
      DrainStopsAtOnce(w, e.(buffer := e.buffer + chunk));
      PumpReceives(w, e, stream, chunk);
      ReceivedLines(w, Pump(w, e, chunk), stream + chunk);
    }
  }

  ghost predicate RaisedByLast(w: World, lines: seq<seq<Byte>>) {
    lines != [] && !After(w, lines[..|lines| - 1]).raised
  }

  lemma {:induction false} DrainStopsAtOnce(w: World, e: Endpoint)
    requires e.job == After(w, e.lines) && !e.job.raised && NewlineFree(e.lines)
    ensures var n := Drain(w, e);
      && e.lines <= n.lines && n.job == After(w, n.lines)
      && (n.job.raised ==> |n.lines| > |e.lines| && RaisedByLast(w, n.lines))
    decreases |e.buffer|
  {
    if LF in e.buffer {
      var next := Cut(w, e);
      CutReceives(w, e);
      DrainCut(w, e);
      LastRaises(w, e.lines, e.buffer[..IndexOf(e.buffer, LF)]);
      if next.job.raised {
        DrainRaised(w, next);
      } else {
        DrainStopsAtOnce(w, next);
      }
    }
  }

  /** One turn of the inner loop. */
  function Cut(w: World, e: Endpoint): Endpoint
    requires LF in e.buffer
  {
    var i := IndexOf(e.buffer, LF);
    Endpoint(e.buffer[i + 1..], Dispatch(w, e.job, e.buffer[..i]), e.lines + [e.buffer[..i]])
  }

  lemma DrainCut(w: World, e: Endpoint)
    requires LF in e.buffer && !e.job.raised
    ensures |Cut(w, e).buffer| < |e.buffer| && Drain(w, e) == Drain(w, Cut(w, e))
  {}

  lemma DrainRaised(w: World, e: Endpoint)
    requires e.job.raised
    ensures Drain(w, e) == e
  {}

  lemma LastRaises(w: World, lines: seq<seq<Byte>>, line: seq<Byte>)
    requires !After(w, lines).raised
    ensures RaisedByLast(w, lines + [line])
  {
    assert (lines + [line])[..|lines|] == lines;
  }

  // ----- Admission -----

  /** An observation is admitted exactly if every one of its fields is what the coordinator is bound to, and then
      the admission is sent if it can be. Any other makes it raise. */
  lemma AdmissionIff(w: World, j: Job, o: Observation)
    requires !j.raised
    ensures var h := Handle(w, j, HostReady(o));
      if o.platform == "linux" && o.networkInterfaces == ["lo"]
         && o.nodeVersion == "v24.18.0" && o.pnpmVersion == "11.15.1" && o.dockerServerVersion == "29.1.3"
         && o.imageIds == [w.binding.imageDigest]
         && o.source.commit == w.binding.sourceCommit && o.source.tree == w.binding.sourceTree
         && o.source.status == "" && o.source.privateRefs == ""
         && (forall i :: 0 <= i < |o.forbiddenPathPresent| ==> !o.forbiddenPathPresent[i])
         && "cpu" in o.cgroupControllers && "memory" in o.cgroupControllers && "pids" in o.cgroupControllers
      then
        && h.report == j.report.(guestReady := Some(o))
        && h == (if w.sendOk(|j.sent|) then j.(report := h.report, sent := j.sent + [Admit])
                 else j.(report := h.report, raised := true))
      else h == j.(raised := true)
  {}

  // ----- Everything else but the archive -----

  /** A failure is kept with its text, the report of a failed export also ends the job, notes leave no trace. */
  lemma FailuresAreKept(w: World, j: Job, error: string, traceback: string, kind: string, detail: string)
    requires !j.raised
    ensures Handle(w, j, Failure(error, traceback))
         == j.(failed := true, report := j.report.(guestFailure := Some(error)))
    ensures Handle(w, j, ExportFailure(error))
         == j.(failed := true, complete := true, report := j.report.(guestExportFailure := Some(error)))
    ensures Handle(w, j, Note(kind, detail)) == j
  {}

  // ----- The archive -----

  /** All the pieces, one after the other. */
  function Whole(pieces: seq<seq<Byte>>): seq<Byte> {
    if pieces == [] then [] else Whole(pieces[..|pieces| - 1]) + pieces[|pieces| - 1]
  }

  ghost predicate Carries(b: Body, sequence: nat, piece: seq<Byte>) {
    b.ArchiveChunk? && b.sequence == sequence && Base64.Decode(b.data) == Some(piece)
  }

  function PieceOf(b: Body): seq<Byte> {
    if b.ArchiveChunk? && Base64.Decode(b.data).Some? then Base64.Decode(b.data).value else []
  }

  lemma {:induction false} PayloadIsWhole(chunks: seq<Body>, pieces: seq<seq<Byte>>)
    requires |chunks| == |pieces| && forall i :: 0 <= i < |chunks| ==> Carries(chunks[i], i, pieces[i])
    ensures Payload(chunks) == Whole(pieces)
    decreases |chunks|
  {
    if chunks != [] {
      var last := |chunks| - 1;
      PayloadIsWhole(chunks[..last], pieces[..last]);
      assert Carries(chunks[last], last, pieces[last]);
    }
  }

  /** One sealed archive: an announcement of more than nothing and less than 64 MiB, chunks of at most 32 KiB numbered
      from zero that together have the announced size and digest, and an end that repeats the digest. */
  ghost predicate Spells(w: World, part: seq<Body>, pieces: seq<seq<Byte>>) {
    && |part| == |pieces| + 2
    && 0 < |Whole(pieces)| < 67108864
    && part[0] == ArchiveStart(|Whole(pieces)|, w.digest(Whole(pieces)))
    && (forall i :: 0 <= i < |pieces| ==> |pieces[i]| <= 32768 && Carries(part[1..|part| - 1][i], i, pieces[i]))
    && part[|part| - 1] == ArchiveEnd(w.digest(Whole(pieces)))
  }

  lemma SealedSpells(w: World, part: seq<Body>) returns (pieces: seq<seq<Byte>>)
    requires Sealed(w, part)
    ensures Spells(w, part, pieces)
  {
    var chunks := part[1..|part| - 1];
    pieces := seq(|chunks|, i requires 0 <= i < |chunks| => PieceOf(chunks[i]));
    var front := part[..|part| - 1];
    forall i | 0 <= i < |pieces|
      ensures |pieces[i]| <= 32768 && Carries(chunks[i], i, pieces[i])
    {
      assert IsChunk(front[i + 1], i);
    }
    assert front[1..] == chunks;
    PayloadIsWhole(chunks, pieces);
  }

  lemma SpellsSealed(w: World, part: seq<Body>, pieces: seq<seq<Byte>>)
    requires Spells(w, part, pieces)
    ensures Sealed(w, part)
  {
    var chunks, front := part[1..|part| - 1], part[..|part| - 1];
    PayloadIsWhole(chunks, pieces);
    assert front[1..] == chunks;
    forall i | 1 <= i < |front|
      ensures IsChunk(front[i], i - 1)
    {
      assert front[i] == chunks[i - 1] && Carries(chunks[i - 1], i - 1, pieces[i - 1]);
    }
  }

  lemma SealedIff(w: World, part: seq<Body>)
    ensures Sealed(w, part) <==> exists pieces :: Spells(w, part, pieces)
  {
    if Sealed(w, part) {
      var pieces := SealedSpells(w, part);
    }
    if pieces :| Spells(w, part, pieces) {
      SpellsSealed(w, part, pieces);
    }
  }
}
