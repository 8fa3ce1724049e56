/** The coordinator's verdict for an arbitrary guest: what exit code 0 means, and what it does not mean. */
module HostVerdict {
  import opened Framing
  import opened Wrappers
  import opened HostJob
  import opened HostTranscript
  import opened HostCleanup
  import opened GuestJob
  import opened JobChannel
  import opened JobWire
  import Base64

  /** The exit code for a supply of reads and a state of the machine afterwards. */
  ghost predicate ExitZero(w: World, chunks: seq<seq<Byte>>, entries: seq<Entry>, s: Surroundings) {
    Run(w, IDLE, chunks).job.report.status == Observed && Verified(entries, s)
  }

  /** Exit code 0, exactly: a completing line among those handled, and every check of the finalizer. */
  lemma ExitZeroIff(w: World, chunks: seq<seq<Byte>>, entries: seq<Entry>, s: Surroundings)
    ensures ExitZero(w, chunks, entries, s)
       <==> Verified(entries, s) && exists at: nat :: LinesComplete(w, Run(w, IDLE, chunks).lines, at)
  {
    var used := RunIsFraming(w, IDLE, [], chunks);
    StatusIff(w, Run(w, IDLE, chunks).lines);
  }

  // ----- The archive is settled before the claim -----

  ghost predicate ArchiveClosed(j: Job) {
    !j.open && j.file.Some?
  }

  lemma ClosedStays(w: World, j: Job, b: Body)
    requires ArchiveClosed(j)
    ensures ArchiveClosed(Handle(w, j, b)) && Handle(w, j, b).file == j.file
    ensures Handle(w, j, b).report.archive == j.report.archive
    ensures b.Archive?() ==> Handle(w, j, b).raised
  {}

  lemma {:induction false} FileIsSettled(w: World, lines: seq<seq<Byte>>, n: nat)
    requires n <= |lines| && ArchiveClosed(After(w, lines[..n]))
    ensures After(w, lines).file == After(w, lines[..n]).file && ArchiveClosed(After(w, lines))
    ensures After(w, lines).report.archive == After(w, lines[..n]).report.archive
    decreases |lines|
  {
    if n == |lines| {
      assert lines[..n] == lines;
    } else {
      var front, last := lines[..|lines| - 1], lines[|lines| - 1];
      assert front[..n] == lines[..n];
      FileIsSettled(w, front, n);
      if Authentic(w, last) {
        ClosedStays(w, After(w, front), w.read(last).value.body);
      }
    }
  }

  /** Whatever the guest, a reported success means that the file on disk is the in-order concatenation of the
      decoded chunks that preceded the completion claim, and nothing after the claim changed it. */
  lemma SuccessMeansSealedFile(w: World, lines: seq<seq<Byte>>, at: nat)
    requires LinesComplete(w, lines, at)
    ensures var part := ArchivePart(Bodies(w, lines[..at + 1])[..at]);
      && Sealed(w, part)
      && After(w, lines).file == Some(Payload(part[1..|part| - 1]))
      && |Payload(part[1..|part| - 1])| == part[0].bytes
      && w.digest(Payload(part[1..|part| - 1])) == part[0].sha256
  {
    var bodies := Bodies(w, lines[..at + 1]);
    var front := lines[..at];
    assert lines[..at + 1][..at] == front;
    assert AllAuthentic(w, front);
    assert Bodies(w, front) == bodies[..at];
    AuthenticLines(w, front);
    QuietTranscript(w, bodies[..at]);
    FileIsSettled(w, lines, at);
  }

  // ----- What it does not mean -----

  /** A stray failure message in the read that carries the completion claim. */
  function LateFailure(w: World): seq<Body> {
    [ArchiveStart(1, w.digest([7])), ArchiveChunk(0, Base64.Encode([7])), ArchiveEnd(w.digest([7])), Complete,
     Failure("late", "late")]
  }

  /** "Exit code 0 means that no failure was reported" is false of the coordinator, and so is "exit code 0
      means that the guest was admitted": here it handles a failure message, never sends an admission, and
      the status stands. */
  lemma SuccessDespiteFailure(w: World)
    requires Faithful(w) && (forall n: nat :: w.sendOk(n)) && |Join(Texts(w, LateFailure(w)))| <= READ_LIMIT
    ensures var e := Run(w, IDLE, [Join(Texts(w, LateFailure(w)))]);
      e.job.report.status == Observed && e.job.failed && e.job.report.guestReady.None? && Admit !in e.job.sent
  {
    LateFailureHandled(w);
    OneRead(w, LateFailure(w));
  }

  /** A stream that arrives in one read and raises nothing is handled whole. */
  lemma OneRead(w: World, bodies: seq<Body>)
    requires Faithful(w) && AllSendable(bodies) && !AfterBodies(w, bodies).raised
    requires |Join(Texts(w, bodies))| < BUFFER_LIMIT
    ensures Run(w, IDLE, [Join(Texts(w, bodies))]).job == AfterBodies(w, bodies)
  {
    var stream := Join(Texts(w, bodies));
    RunOfOne(w, stream);
    TextsAreAuthentic(w, bodies);
    DrainOfOne(w, stream);
    WholeDrain(w, Drain(w, IDLE.(buffer := stream)), Texts(w, bodies));
  }

  lemma DrainOfOne(w: World, stream: seq<Byte>)
    ensures var e := Drain(w, IDLE.(buffer := stream)); Received(w, e, stream) && e.job == After(w, e.lines)
  {
    DrainReceives(w, IDLE.(buffer := stream));
    EmptyFront(stream);
  }

  lemma RunOfOne(w: World, chunk: seq<Byte>)
    requires |chunk| < BUFFER_LIMIT
    ensures Run(w, IDLE, [chunk]) == Drain(w, IDLE.(buffer := chunk))
  {
    var none: seq<seq<Byte>> := [];
    assert [chunk][1..] == none && [] + chunk == chunk;
  }

  lemma WholeDrain(w: World, e: Endpoint, lines: seq<seq<Byte>>)
    requires Received(w, e, Join(lines)) && e.job == After(w, e.lines)
    requires NewlineFree(lines) && !After(w, lines).raised
    ensures e.lines == lines
  {
    PrefixOfJoin(lines, e.lines, e.buffer);
    if e.job.raised {
      RaisedStays(w, lines, |e.lines|);
      assert false;
    }
    var rest := lines[|e.lines|..];
    if rest != [] {
      JoinHasNewline(rest);
      assert false;
    }
  }

  lemma {:induction false} RaisedStays(w: World, lines: seq<seq<Byte>>, n: nat)
    requires n <= |lines| && After(w, lines[..n]).raised
    ensures After(w, lines).raised
    decreases |lines|
  {
    if n == |lines| {
      assert lines[..n] == lines;
    } else {
      assert lines[..|lines| - 1][..n] == lines[..n];
      RaisedStays(w, lines[..|lines| - 1], n);
    }
  }

  lemma LateFailureHandled(w: World)
    requires forall n: nat :: w.sendOk(n)
    ensures var j := AfterBodies(w, LateFailure(w));
      !j.raised && j.report.status == Observed && j.failed && j.report.guestReady.None? && j.sent == [Shutdown]
  {
    var bodies := LateFailure(w);
    var j3 := AfterBodies(w, bodies[..3]);
    SealedHandled(w);
    var j4 := Handle(w, j3, Complete);
    AfterOneMore(w, bodies, 3);
    AfterOneMore(w, bodies, 4);
    assert bodies[..5] == bodies;
    ClaimHandled(w, j3);
  }

  lemma AfterOneMore(w: World, bodies: seq<Body>, i: nat)
    requires i < |bodies|
    ensures AfterBodies(w, bodies[..i + 1]) == Handle(w, AfterBodies(w, bodies[..i]), bodies[i])
  {
    assert bodies[..i + 1][..i] == bodies[..i];
  }

  /** The first three messages of the stray transcript seal a one-byte archive. */
  lemma SealedHandled(w: World)
    ensures var j := AfterBodies(w, LateFailure(w)[..3]);
      !j.raised && !j.failed && j.report.archive.Some? && j.sent == [] && j.report.status == Error
      && j.report.guestReady.None?
  {
    var bodies := LateFailure(w);
    assert bodies[..0] == [] && AfterBodies(w, bodies[..0]) == FRESH;
    AfterOneMore(w, bodies, 0);
    AfterOneMore(w, bodies, 1);
    AfterOneMore(w, bodies, 2);
    Base64.RoundTrip([7]);
    ChunkHandled(w, AfterBodies(w, bodies[..1]), Base64.Encode([7]));
    EndHandled(w, AfterBodies(w, bodies[..2]));
  }

  lemma ChunkHandled(w: World, j: Job, data: string)
    requires j == Handle(w, FRESH, ArchiveStart(1, w.digest([7]))) && Base64.Decode(data) == Some([7])
    ensures Handle(w, j, ArchiveChunk(0, data)) == j.(file := Some([7]), sequence := 1)
  {
    EmptyFront([7]);
  }

  lemma EndHandled(w: World, j: Job)
    requires j.open && j.file == Some([7]) && j.expected == Some(Announced(1, w.digest([7])))
    requires !j.raised && !j.failed
    ensures var h := Handle(w, j, ArchiveEnd(w.digest([7])));
      !h.raised && !h.failed && h.report == j.report.(archive := j.expected) && h.sent == j.sent
  {}

  /** A failure message that the coordinator handles. */
  ghost predicate FailureAt(w: World, lines: seq<seq<Byte>>, i: nat) {
    i < |lines| && !After(w, lines[..i]).raised && Authentic(w, lines[i]) && BodyOf(w, lines[i]).Bad?()
  }

  /** The failure flag records the failure messages handled, those before `n` and those from `n` on. */
  lemma {:induction false} FailedFrom(w: World, lines: seq<seq<Byte>>, n: nat)
    requires n <= |lines|
    ensures After(w, lines).failed
       <==> After(w, lines[..n]).failed || exists i: nat :: n <= i && FailureAt(w, lines, i)
    decreases |lines|
  {
    if n == |lines| {
      assert lines[..n] == lines;
    } else {
      var last := |lines| - 1;
      var front := lines[..last];
      assert front[..n] == lines[..n];
      FailedFrom(w, front, n);
      forall i: nat | i < last
        ensures FailureAt(w, front, i) <==> FailureAt(w, lines, i)
      {
        FailureInFront(w, lines, last, i);
      }
      FailureStep(w, lines);
    }
  }

  /** When success does mean that no failure was reported: exactly when no line handled after the completion
      claim reports one. */
  lemma SuccessWithoutFailureIff(w: World, lines: seq<seq<Byte>>, at: nat)
    requires LinesComplete(w, lines, at)
    ensures After(w, lines).failed <==> exists i: nat :: at < i && FailureAt(w, lines, i)
  {
    CompleteInFront(w, lines, at + 1, at);
    ClaimIsClean(w, lines[..at + 1]);
    FailedFrom(w, lines, at + 1);
  }

  lemma FailureInFront(w: World, lines: seq<seq<Byte>>, n: nat, i: nat)
    requires i < n <= |lines|
    ensures FailureAt(w, lines[..n], i) <==> FailureAt(w, lines, i)
  {
    assert lines[..n][..i] == lines[..i];
  }

  lemma FailureStep(w: World, lines: seq<seq<Byte>>)
    requires lines != []
    ensures After(w, lines).failed
       <==> After(w, lines[..|lines| - 1]).failed || FailureAt(w, lines, |lines| - 1)
  {
    FailedStep(w, After(w, lines[..|lines| - 1]), lines[|lines| - 1]);
  }

  lemma CompleteInFront(w: World, lines: seq<seq<Byte>>, n: nat, at: nat)
    requires at < n <= |lines| && LinesComplete(w, lines, at)
    ensures LinesComplete(w, lines[..n], at)
  {
    assert lines[..n][..at + 1] == lines[..at + 1];
  }

  lemma FailedStep(w: World, j: Job, line: seq<Byte>)
    ensures Dispatch(w, j, line).failed
       <==> j.failed || (!j.raised && Authentic(w, line) && BodyOf(w, line).Bad?())
  {
    if !j.raised && Authentic(w, line) {
      FailedHandle(w, j, BodyOf(w, line));
    }
  }

  lemma FailedHandle(w: World, j: Job, b: Body)
    ensures !j.raised ==> (Handle(w, j, b).failed <==> j.failed || b.Bad?())
  {}

  lemma ClaimIsClean(w: World, lines: seq<seq<Byte>>)
    requires lines != [] && LinesComplete(w, lines, |lines| - 1)
    ensures !After(w, lines).failed
  {
    var last := |lines| - 1;
    FrontOfClaim(w, lines, last);
    FailedStep(w, After(w, lines[..last]), lines[last]);
  }

  // ----- When a read ends with the claim -----

  lemma {:induction false} RunSplit(w: World, e: Endpoint, chunks: seq<seq<Byte>>, u: nat)
    requires u <= |chunks|
    ensures Run(w, e, chunks) == Run(w, Run(w, e, chunks[..u]), chunks[u..])
    decreases u
  {
    if u > 0 && !e.Stopped() {
      RunSplit(w, Pump(w, e, chunks[0]), chunks[1..], u - 1);
      assert chunks[1..][..u - 1] == chunks[..u][1..] && chunks[1..][u - 1..] == chunks[u..];
    }
  }

  /** A completing line stops the coordinator. */
  lemma ClaimStops(w: World, lines: seq<seq<Byte>>)
    requires lines != [] && LinesComplete(w, lines, |lines| - 1)
    ensures After(w, lines).complete
  {
    var last := |lines| - 1;
    assert lines[..last + 1] == lines;
    FrontOfClaim(w, lines, last);
    ClaimHandled(w, After(w, lines[..last]));
  }

  /** What has been handled by the time the claim comes. */
  lemma FrontOfClaim(w: World, lines: seq<seq<Byte>>, at: nat)
    requires LinesComplete(w, lines, at)
    ensures var j := After(w, lines[..at]);
      !j.raised && !j.failed && j.report.archive.Some? && w.sendOk(|j.sent|)
    ensures Authentic(w, lines[at]) && BodyOf(w, lines[at]) == Complete
    ensures forall i :: 0 <= i < at ==> Authentic(w, lines[i])
  {
    var bodies, front := Bodies(w, lines[..at + 1]), lines[..at];
    assert lines[..at + 1][..at] == front;
    assert AllAuthentic(w, front);
    assert Bodies(w, front) == bodies[..at];
    AuthenticLines(w, front);
    SealedFront(w, bodies[..at]);
    forall i | 0 <= i <= at
      ensures Authentic(w, lines[i])
    {
      assert lines[i] in lines[..at + 1];
    }
  }

  /** If some read ends with the claim's own newline, nothing is handled after the claim: success then means
      that no failure was reported. */
  lemma ClaimEndsItsRead(w: World, chunks: seq<seq<Byte>>, u: nat, at: nat)
    requires u <= |chunks| && LinesComplete(w, Run(w, IDLE, chunks).lines, at)
    requires Concat(chunks[..u]) == Join(Run(w, IDLE, chunks).lines[..at + 1])
    ensures var r := Run(w, IDLE, chunks);
      |r.lines| == at + 1 && r.job.report.status == Observed && !r.job.failed
  {
    var r, e := Run(w, IDLE, chunks), Run(w, IDLE, chunks[..u]);
    RunSplit(w, IDLE, chunks, u);
    RunLines(w, chunks);
    ReadLines(w, r.lines[..at + 1], chunks[..u]);
    CompleteInFront(w, r.lines, at + 1, at);
    ClaimLast(w, r.lines, e, r, at);
    ClaimOutcome(w, r.lines);
  }

  lemma ClaimLast(w: World, lines: seq<seq<Byte>>, e: Endpoint, r: Endpoint, at: nat)
    requires at < |lines| && LinesComplete(w, lines[..at + 1], at) && lines == r.lines
    requires e.lines <= lines[..at + 1] && (e.Stopped() ==> r == e)
    requires !e.Stopped() ==> e.lines == lines[..at + 1] && e.job == After(w, e.lines)
    ensures |lines| == at + 1 && lines[..at + 1] == lines
  {
    ClaimStops(w, lines[..at + 1]);
  }

  lemma ClaimOutcome(w: World, lines: seq<seq<Byte>>)
    requires lines != [] && LinesComplete(w, lines, |lines| - 1)
    ensures After(w, lines).report.status == Observed && !After(w, lines).failed
  {
    ClaimIsClean(w, lines);
    StatusIff(w, lines);
  }

  lemma RunLines(w: World, chunks: seq<seq<Byte>>)
    ensures var r := Run(w, IDLE, chunks); Synced(w, r) && NewlineFree(r.lines)
  {
    var used := RunIsFraming(w, IDLE, [], chunks);
  }

  /** Reads that make up whole lines hand over exactly these lines, or the coordinator stops before. */
  lemma ReadLines(w: World, lines: seq<seq<Byte>>, chunks: seq<seq<Byte>>)
    requires NewlineFree(lines) && Concat(chunks) == Join(lines)
    ensures var e := Run(w, IDLE, chunks);
      e.lines <= lines && (!e.Stopped() ==> e.lines == lines && e.job == After(w, e.lines))
  {
    var e := Run(w, IDLE, chunks);
    var used := RunIsFraming(w, IDLE, [], chunks);
    PrefixOfStream(chunks, used, e.lines);
    assert Join(lines) + [] == Join(lines);
    LinesOfJoin(lines, []);
    if !e.Stopped() {
      assert chunks[..used] == chunks;
      EmptyFront(Concat(chunks));
    }
  }

  // ----- When success means that the guest was admitted -----

  /** A line that makes the coordinator send an admission. */
  ghost predicate AdmissionAt(w: World, lines: seq<seq<Byte>>, i: nat) {
    && i < |lines| && !After(w, lines[..i]).raised && IsObservation(w, lines[i])
    && Admissible(w.binding, BodyOf(w, lines[i]).observation) && w.sendOk(|After(w, lines[..i]).sent|)
  }

  ghost predicate IsObservation(w: World, line: seq<Byte>) {
    Authentic(w, line) && BodyOf(w, line).HostReady?
  }

  lemma AdmissionStep(w: World, j: Job, line: seq<Byte>)
    ensures Admit in Dispatch(w, j, line).sent <==>
      || Admit in j.sent
      || (!j.raised && IsObservation(w, line) && Admissible(w.binding, BodyOf(w, line).observation)
          && w.sendOk(|j.sent|))
  {
    if !j.raised && Authentic(w, line) {
      AdmissionHandled(w, j, BodyOf(w, line));
    }
  }

  lemma AdmissionHandled(w: World, j: Job, b: Body)
    requires !j.raised
    ensures Admit in Handle(w, j, b).sent <==>
      Admit in j.sent || (b.HostReady? && Admissible(w.binding, b.observation) && w.sendOk(|j.sent|))
  {}

  lemma AdmissionInFront(w: World, lines: seq<seq<Byte>>, n: nat, i: nat)
    requires i < n <= |lines|
    ensures AdmissionAt(w, lines[..n], i) <==> AdmissionAt(w, lines, i)
  {
    assert lines[..n][..i] == lines[..i];
  }

  /** An admission was sent exactly if some line asked for one and got it. */
  lemma {:induction false} AdmissionSent(w: World, lines: seq<seq<Byte>>)
    ensures Admit in After(w, lines).sent <==> exists i: nat :: AdmissionAt(w, lines, i)
    decreases |lines|
  {
    if lines != [] {
      var last := |lines| - 1;
      AdmissionSent(w, lines[..last]);
      forall i: nat | i < last
        ensures AdmissionAt(w, lines[..last], i) <==> AdmissionAt(w, lines, i)
      {
        AdmissionInFront(w, lines, last, i);
      }
      AdmissionLast(w, lines);
    }
  }

  lemma AdmissionLast(w: World, lines: seq<seq<Byte>>)
    requires lines != []
    ensures Admit in After(w, lines).sent
       <==> Admit in After(w, lines[..|lines| - 1]).sent || AdmissionAt(w, lines, |lines| - 1)
  {
    AdmissionStep(w, After(w, lines[..|lines| - 1]), lines[|lines| - 1]);
  }

  /** An observation that is followed by a line handled without an exception was admitted. */
  lemma QuietObservation(w: World, lines: seq<seq<Byte>>, i: nat, n: nat)
    requires i < n <= |lines| && !After(w, lines[..n]).raised && IsObservation(w, lines[i])
    ensures AdmissionAt(w, lines, i)
  {
    UnraisedFront(w, lines, i, n);
    UnraisedFront(w, lines, i + 1, n);
    assert lines[..i + 1][..i] == lines[..i];
  }

  lemma UnraisedFront(w: World, lines: seq<seq<Byte>>, i: nat, n: nat)
    requires i <= n <= |lines| && !After(w, lines[..n]).raised
    ensures !After(w, lines[..i]).raised
  {
    assert lines[..n][..i] == lines[..i];
    if After(w, lines[..i]).raised {
      RaisedStays(w, lines[..n], i);
    }
  }

  /** When success does mean that the guest was admitted. At the claim: exactly when an observation came before
      it. In the end: exactly when one came before it, or one after it was still admitted. */
  lemma SuccessWithAdmissionIff(w: World, lines: seq<seq<Byte>>, at: nat)
    requires LinesComplete(w, lines, at)
    ensures Admit in After(w, lines[..at + 1]).sent <==> exists i: nat :: i < at && IsObservation(w, lines[i])
    ensures Admit in After(w, lines).sent <==>
      exists i: nat :: (i < at && IsObservation(w, lines[i])) || (at < i && AdmissionAt(w, lines, i))
  {
    FrontOfClaim(w, lines, at);
    forall i: nat | i < at
      ensures IsObservation(w, lines[i]) <==> AdmissionAt(w, lines, i)
    {
      if IsObservation(w, lines[i]) {
        QuietObservation(w, lines, i, at);
      }
    }
    assert !AdmissionAt(w, lines, at);
    AdmissionSent(w, lines);
    AdmissionSent(w, lines[..at + 1]);
    forall i: nat | i <= at
      ensures AdmissionAt(w, lines[..at + 1], i) <==> AdmissionAt(w, lines, i)
    {
      AdmissionInFront(w, lines, at + 1, i);
    }
  }

  lemma SealedFront(w: World, front: seq<Body>)
    requires Quiet(front) && Admitted(w, front) && Sealed(w, ArchivePart(front))
    ensures var j := AfterBodies(w, front);
      !j.raised && !j.failed && j.report.archive.Some? && |j.sent| == Readies(front)
  {
    QuietTranscript(w, front);
    SealedIsNotStreaming(w, ArchivePart(front));
  }
}
