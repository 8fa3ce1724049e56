/** What becomes of a failed guest's messages: which part of its failure report, its rescued archive or the report of
    a failed export the coordinator takes, and when it raises instead. */
module JobRescue {
  import opened Framing
  import opened Wrappers
  import opened HostJob
  import opened HostTranscript
  import opened GuestJob
  import opened JobChannel
  import opened JobInvariant
  import opened JobGuarantees
  import opened JobHandler
  import opened JobProgress

  /** How many messages come before the guest's own export. */
  function ExportBegins(p: Plan): nat {
    |p.setup| + 1 + |p.matrix|
  }

  // ----- A failure leaves the archive handling alone -----

  ghost predicate Plain(b: Body) {
    b.Archive?() || b.Note?
  }

  /** The same state but for a failure already reported. */
  ghost predicate Twin(j: Job, h: Job, error: string) {
    || (j.raised && h.raised)
    || (!j.raised && !h.raised
        && h == j.(failed := true, complete := h.complete, report := j.report.(guestFailure := Some(error))))
  }

  lemma TwinStep(w: World, j: Job, h: Job, error: string, b: Body)
    requires Plain(b) && Twin(j, h, error)
    ensures Twin(Handle(w, j, b), Handle(w, h, b), error)
  {}

  lemma BodiesNext(w: World, front: seq<Body>, b: Body)
    ensures AfterBodies(w, front + [b]) == Handle(w, AfterBodies(w, front), b)
  {
    assert (front + [b])[..|front|] == front;
  }

  lemma LastOfTwo(front: seq<Body>, rest: seq<Body>)
    requires rest != []
    ensures front + rest == front + rest[..|rest| - 1] + [rest[|rest| - 1]]
  {}

  lemma {:induction false} Twins(w: World, front: seq<Body>, f: Body, rest: seq<Body>)
    requires f.Failure? && forall i :: 0 <= i < |rest| ==> Plain(rest[i])
    ensures Twin(AfterBodies(w, front + rest), AfterBodies(w, front + [f] + rest), f.error)
    decreases |rest|
  {
    if rest == [] {
      assert front + rest == front && front + [f] + rest == front + [f];
      BodiesNext(w, front, f);
    } else {
      var less, b := rest[..|rest| - 1], rest[|rest| - 1];
      Twins(w, front, f, less);
      LastOfTwo(front, rest);
      LastOfTwo(front + [f], rest);
      BodiesNext(w, front + less, b);
      BodiesNext(w, front + [f] + less, b);
      TwinStep(w, AfterBodies(w, front + less), AfterBodies(w, front + [f] + less), f.error, b);
    }
  }

  lemma {:induction false} RaisedRemains(w: World, front: seq<Body>, rest: seq<Body>)
    requires AfterBodies(w, front).raised
    ensures AfterBodies(w, front + rest).raised
    decreases |rest|
  {
    if rest == [] {
      assert front + rest == front;
    } else {
      RaisedRemains(w, front, rest[..|rest| - 1]);
      LastOfTwo(front, rest);
      BodiesNext(w, front + rest[..|rest| - 1], rest[|rest| - 1]);
    }
  }

  // ----- The rescued archive -----

  /** The messages before a failure, and what follows it, without the failure itself. */
  lemma QuietAppend(w: World, front: seq<Body>, rest: seq<Body>)
    requires Quiet(front) && Admitted(w, front) && forall i :: 0 <= i < |rest| ==> Plain(rest[i])
    ensures Quiet(front + rest) && Admitted(w, front + rest)
  {
    var all := front + rest;
    assert forall i :: |front| <= i < |all| ==> Plain(all[i]);
    forall i | 0 <= i < |front|
      ensures all[i] == front[i] && all[..i] == front[..i]
    {}
    QuietOpening(front, rest);
  }

  function NoteOf(t: Trouble): (notes: seq<Body>)
    ensures forall i :: 0 <= i < |notes| ==> notes[i].Note?
  {
    if t.note.Some? then [Note("diagnostic-write-failure", t.note.value)] else []
  }

  function FailureOf(t: Trouble): Body {
    Failure(Last(t.error, ERROR_LIMIT), Last(t.traceback, TRACEBACK_LIMIT))
  }

  lemma RescueParts(w: World, t: Trouble)
    ensures RescueBodies(w, t) == [FailureOf(t)] + (NoteOf(t) + ExportBodies(w, t.archive))
  {}

  lemma AfterTheFailure(w: World, t: Trouble)
    ensures var rest := NoteOf(t) + ExportBodies(w, t.archive);
      (forall i :: 0 <= i < |rest| ==> Plain(rest[i])) && ArchivePart(rest) == ExportBodies(w, t.archive)
  {
    ExportIsArchive(w, t.archive);
    ArchivePartOf(NoteOf(t), false);
    ArchivePartOf(ExportBodies(w, t.archive), true);
    ArchivePartAppend(NoteOf(t), ExportBodies(w, t.archive));
  }

  /** Without the failure, the handler's messages after `front` would seal the rescued archive. */
  lemma RescueWouldSeal(w: World, front: seq<Body>, t: Trouble)
    requires Quiet(front) && Admitted(w, front) && ArchivePart(front) == [] && 0 < |t.archive| < ARCHIVE_LIMIT
    ensures var j := AfterBodies(w, front + (NoteOf(t) + ExportBodies(w, t.archive)));
      && !j.raised && j.report.status == Error && j.file == Some(t.archive)
      && j.report.archive == Some(Announced(|t.archive|, w.digest(t.archive)))
  {
    var rest, part := NoteOf(t) + ExportBodies(w, t.archive), ExportBodies(w, t.archive);
    AfterTheFailure(w, t);
    QuietAppend(w, front, rest);
    ArchivePartAppend(front, rest);
    assert [] + part == part;
    ExportIsSealed(w, t.archive);
    QuietTranscript(w, front + rest);
    WholePayload(t.archive);
    assert part[1..|part| - 1] == ChunkBodies(t.archive, ChunkCount(|t.archive|));
  }

  /** The end of an archive after a failure completes the job. */
  lemma EndCompletes(w: World, front: seq<Body>, f: Body, rest: seq<Body>)
    requires f.Failure? && rest != [] && rest[|rest| - 1].ArchiveEnd?
    requires forall i :: 0 <= i < |rest| ==> Plain(rest[i])
    requires !AfterBodies(w, front + [f] + rest).raised
    ensures AfterBodies(w, front + [f] + rest).complete
  {
    var less, b := rest[..|rest| - 1], rest[|rest| - 1];
    Twins(w, front, f, less);
    LastOfTwo(front + [f], rest);
    BodiesNext(w, front + [f] + less, b);
  }

  /** The coordinator has the failure and the rescued archive, and is done. */
  ghost predicate Rescued(w: World, t: Trouble, j: Job) {
    && !j.raised && j.failed && j.complete && j.report.status == Error
    && j.report.guestFailure == Some(Last(t.error, ERROR_LIMIT))
    && j.file == Some(t.archive)
    && j.report.archive == Some(Announced(|t.archive|, w.digest(t.archive)))
  }

  lemma RescueArrives(w: World, front: seq<Body>, t: Trouble)
    requires Quiet(front) && Admitted(w, front) && ArchivePart(front) == [] && 0 < |t.archive| < ARCHIVE_LIMIT
    ensures Rescued(w, t, AfterBodies(w, front + RescueBodies(w, t)))
  {
    var f, rest := FailureOf(t), NoteOf(t) + ExportBodies(w, t.archive);
    RescueWouldSeal(w, front, t);
    AfterTheFailure(w, t);
    RescueParts(w, t);
    assert front + ([f] + rest) == front + [f] + rest;
    Twins(w, front, f, rest);
    EndCompletes(w, front, f, rest);
  }

  /** An announcement that cannot extend the archive messages so far is refused at once: a second one, or one of
      an archive that is empty or too large. */
  lemma StartRefused(w: World, front: seq<Body>, t: Trouble)
    requires Quiet(front) && (ArchivePart(front) != [] || !(0 < |t.archive| < ARCHIVE_LIMIT))
    ensures AfterBodies(w, front + RescueBodies(w, t)).raised
  {
    var f, start := FailureOf(t), ExportBodies(w, t.archive)[0];
    var opening := NoteOf(t) + [start];
    OpeningRefused(w, front, NoteOf(t), start);
    Twins(w, front, f, opening);
    RaisedRemains(w, front + [f] + opening, ExportBodies(w, t.archive)[1..]);
    SplitRescue(w, front, t);
  }

  lemma OpeningRefused(w: World, front: seq<Body>, notes: seq<Body>, start: Body)
    requires Quiet(front) && start.ArchiveStart? && forall i :: 0 <= i < |notes| ==> notes[i].Note?
    requires ArchivePart(front) != [] || !(0 < start.bytes < ARCHIVE_LIMIT)
    ensures AfterBodies(w, front + (notes + [start])).raised
  {
    StartPart(front, notes, start);
    BadStart(w, ArchivePart(front), start);
    QuietOpening(front, notes + [start]);
    QuietTranscript(w, front + (notes + [start]));
  }

  lemma BadStart(w: World, part: seq<Body>, start: Body)
    requires start.ArchiveStart? && (part != [] || !(0 < start.bytes < ARCHIVE_LIMIT))
    ensures !WellFormed(w, part + [start])
  {
    if part != [] {
      StartIsNeverLast(w, part, start);
    } else {
      StartAlone(w, start);
      assert part + [start] == [start];
    }
  }

  /** Nothing is taken after an observation that was refused or could not be answered. */
  lemma UnadmittedRaises(w: World, front: seq<Body>, rest: seq<Body>)
    requires Quiet(front) && !Admitted(w, front)
    ensures AfterBodies(w, front + rest).raised
  {
    QuietTranscript(w, front);
    RaisedRemains(w, front, rest);
  }

  lemma QuietOpening(front: seq<Body>, rest: seq<Body>)
    requires Quiet(front) && forall i :: 0 <= i < |rest| ==> Plain(rest[i])
    ensures Quiet(front + rest)
  {
    forall b | b in front + rest
      ensures !b.Bad?() && !b.Complete?
    {
      assert b in front || b in rest;
    }
  }

  lemma StartPart(front: seq<Body>, notes: seq<Body>, start: Body)
    requires start.ArchiveStart? && forall i :: 0 <= i < |notes| ==> notes[i].Note?
    ensures ArchivePart(front + (notes + [start])) == ArchivePart(front) + [start]
  {
    ArchivePartOf(notes, false);
    ArchivePartOf([start], true);
    ArchivePartAppend(notes, [start]);
    ArchivePartAppend(front, notes + [start]);
    assert [] + [start] == [start];
  }

  lemma SplitRescue(w: World, front: seq<Body>, t: Trouble)
    ensures var exported := ExportBodies(w, t.archive);
      front + RescueBodies(w, t) == front + [FailureOf(t)] + (NoteOf(t) + [exported[0]]) + exported[1..]
  {
    RescueParts(w, t);
    Regroup(front, FailureOf(t), NoteOf(t), ExportBodies(w, t.archive));
  }

  lemma Regroup(front: seq<Body>, f: Body, notes: seq<Body>, rest: seq<Body>)
    requires rest != []
    ensures front + ([f] + (notes + rest)) == front + [f] + (notes + [rest[0]]) + rest[1..]
  {}

  lemma PartOfFront(w: World, p: Plan, k: nat)
    requires PlanOk(p) && k < |MainBodies(w, p)|
    ensures k > ExportBegins(p) ==> k - ExportBegins(p) <= |ExportBodies(w, p.archive)|
    ensures ArchivePart(MainBodies(w, p)[..k])
         == if k <= ExportBegins(p) then [] else ExportBodies(w, p.archive)[..k - ExportBegins(p)]
  {
    var early := p.setup + [HostReady(p.observation)] + p.matrix;
    EarlyIsNoArchive(p, early);
    CutMain(early, ExportBodies(w, p.archive), MainBodies(w, p), k);
    if k <= ExportBegins(p) {
      ArchivePartOf(early[..k], false);
    } else {
      var more := ExportBodies(w, p.archive)[..k - |early|];
      ExportIsArchive(w, p.archive);
      ArchivePartOf(early, false);
      ArchivePartOf(more, true);
      ArchivePartAppend(early, more);
      assert [] + more == more;
    }
  }

  lemma CutMain(early: seq<Body>, exported: seq<Body>, all: seq<Body>, k: nat)
    requires all == early + exported + [Complete] && k < |all|
    ensures k <= |early| ==> all[..k] == early[..k]
    ensures k > |early| ==> k - |early| <= |exported| && all[..k] == early + exported[..k - |early|]
  {}

  lemma EarlyIsNoArchive(p: Plan, early: seq<Body>)
    requires PlanOk(p) && early == p.setup + [HostReady(p.observation)] + p.matrix
    ensures forall i :: 0 <= i < |early| ==> !early[i].Archive?()
  {
    forall i | 0 <= i < |early|
      ensures !early[i].Archive?()
    {
      if i < |p.setup| {
        assert early[i] == p.setup[i] && p.setup[i] in p.setup;
      } else if i > |p.setup| {
        assert early[i] == p.matrix[i - |p.setup| - 1] && early[i] in p.matrix;
      }
    }
  }

  /** The observation, if it is among the first `k` messages, is admissible and can be answered. */
  predicate ObservationPasses(w: World, p: Plan, k: nat) {
    k > |p.setup| ==> Admissible(w.binding, p.observation) && w.sendOk(0)
  }

  lemma AdmittedFront(w: World, p: Plan, k: nat)
    requires PlanOk(p) && k < |MainBodies(w, p)|
    ensures Admitted(w, MainBodies(w, p)[..k]) <==> ObservationPasses(w, p, k)
  {
    var a, front := |p.setup|, MainBodies(w, p)[..k];
    MainBodiesShape(w, p);
    if k > a {
      assert front[a] == HostReady(p.observation);
      MainReadies(w, p, a);
      assert front[..a] == MainBodies(w, p)[..a];
    }
  }

  /** When the evidence of a guest that failed after `k` main messages is taken: its observation, if sent, was
      admitted, its own export had not begun, and the rescued archive has an allowed size. */
  predicate CanRescue(w: World, p: Plan, k: nat, t: Trouble) {
    ObservationPasses(w, p, k) && k <= ExportBegins(p) && 0 < |t.archive| < ARCHIVE_LIMIT
  }

  /** If all these messages are sent after `k` of the main ones, the coordinator takes the failure report and the
      whole archive exactly under this condition; otherwise it raises. */
  lemma WholeExportIff(w: World, p: Plan, k: nat, t: Trouble)
    requires PlanOk(p) && k < |MainBodies(w, p)|
    ensures var j := AfterBodies(w, MainBodies(w, p)[..k] + RescueBodies(w, t));
      && (Rescued(w, t, j) <==> CanRescue(w, p, k, t))
      && (j.raised <==> !CanRescue(w, p, k, t))
  {
    QuietFront(w, p, k);
    AdmittedFront(w, p, k);
    PartOfFront(w, p, k);
    if !ObservationPasses(w, p, k) {
      UnadmittedRaises(w, MainBodies(w, p)[..k], RescueBodies(w, t));
    } else if CanRescue(w, p, k, t) {
      RescueArrives(w, MainBodies(w, p)[..k], t);
    } else {
      StartRefused(w, MainBodies(w, p)[..k], t);
    }
  }

  // ----- An export that raises -----

  lemma {:induction false} WellFormedPrefix(w: World, part: seq<Body>, n: nat)
    requires n <= |part| && WellFormed(w, part)
    ensures WellFormed(w, part[..n])
    decreases |part|
  {
    if n < |part| {
      var front, b := part[..|part| - 1], part[|part| - 1];
      assert part == front + [b];
      WellFormedFront(w, front, b);
      WellFormedPrefix(w, front, n);
      assert front[..n] == part[..n];
    } else {
      assert part[..n] == part;
    }
  }

  lemma WellFormedStart(w: World, part: seq<Body>)
    requires WellFormed(w, part) && part != []
    ensures part[0].ArchiveStart? && 0 < part[0].bytes < ARCHIVE_LIMIT
  {
    if Sealed(w, part) {
      assert part[..|part| - 1][0] == part[0];
    }
  }

  /** A part of an export is well-formed exactly if the archive has an allowed size. */
  lemma ExportPartIff(w: World, archive: seq<Byte>, n: nat)
    requires 0 < n <= |ExportBodies(w, archive)|
    ensures WellFormed(w, ExportBodies(w, archive)[..n]) <==> 0 < |archive| < ARCHIVE_LIMIT
  {
    var part := ExportBodies(w, archive)[..n];
    assert part[0] == ArchiveStart(|archive|, w.digest(archive));
    if 0 < |archive| < ARCHIVE_LIMIT {
      ExportIsSealed(w, archive);
      WellFormedPrefix(w, ExportBodies(w, archive), n);
    } else if WellFormed(w, part) {
      WellFormedStart(w, part);
    }
  }

  lemma TwoStarts(w: World, part: seq<Body>, more: seq<Body>)
    requires part != [] && more != [] && more[0].ArchiveStart?
    ensures !WellFormed(w, part + more)
  {
    if WellFormed(w, part + more) {
      WellFormedPrefix(w, part + more, |part| + 1);
      assert (part + more)[..|part| + 1] == part + [more[0]];
      StartIsNeverLast(w, part, more[0]);
    }
  }

  /** The archive messages of a failed guest: of its own export, then of the handler's. */
  lemma PartsIff(w: World, own: seq<Byte>, m: nat, rescued: seq<Byte>, e: nat)
    requires m <= |ExportBodies(w, own)| && e <= |ExportBodies(w, rescued)|
    ensures WellFormed(w, ExportBodies(w, own)[..m] + ExportBodies(w, rescued)[..e])
       <==> (m > 0 ==> 0 < |own| < ARCHIVE_LIMIT) && (e > 0 ==> m == 0 && 0 < |rescued| < ARCHIVE_LIMIT)
  {
    var a, b := ExportBodies(w, own)[..m], ExportBodies(w, rescued)[..e];
    if e == 0 {
      assert a + b == a;
      if m > 0 {
        ExportPartIff(w, own, m);
      }
    } else if m == 0 {
      assert a + b == b;
      ExportPartIff(w, rescued, e);
    } else {
      assert b[0].ArchiveStart?;
      TwoStarts(w, a, b);
    }
  }

  lemma AdmittedIff(w: World, front: seq<Body>, rest: seq<Body>)
    requires forall i :: 0 <= i < |rest| ==> Plain(rest[i])
    ensures Admitted(w, front + rest) <==> Admitted(w, front)
  {
    var all := front + rest;
    assert forall i :: |front| <= i < |all| ==> Plain(all[i]);
    forall i | 0 <= i < |front|
      ensures all[i] == front[i] && all[..i] == front[..i]
    {}
  }

  /** The condition for a guest that failed after `k` main messages and whose handler's export got `e` messages
      out: the observation, if sent, passed, and there is at most one archive, of an allowed size. */
  predicate PartAccepted(w: World, p: Plan, k: nat, t: Trouble, e: nat) {
    && ObservationPasses(w, p, k) && (k > ExportBegins(p) ==> 0 < |p.archive| < ARCHIVE_LIMIT)
    && (e > 0 ==> k <= ExportBegins(p) && 0 < |t.archive| < ARCHIVE_LIMIT)
  }

  function PartialBodies(w: World, t: Trouble, e: nat): seq<Body>
    requires e <= |ExportBodies(w, t.archive)|
  {
    ReportBodies(t) + ExportBodies(w, t.archive)[..e]
  }

  lemma PartialParts(w: World, t: Trouble, e: nat)
    requires e <= |ExportBodies(w, t.archive)|
    ensures var rest := NoteOf(t) + ExportBodies(w, t.archive)[..e];
      && PartialBodies(w, t, e) == [FailureOf(t)] + rest
      && (forall i :: 0 <= i < |rest| ==> Plain(rest[i])) && ArchivePart(rest) == ExportBodies(w, t.archive)[..e]
  {
    var part := ExportBodies(w, t.archive)[..e];
    ExportIsArchive(w, t.archive);
    NotesThenArchive(NoteOf(t), part);
    Assoc([FailureOf(t)], NoteOf(t), part);
    assert ReportBodies(t) == [FailureOf(t)] + NoteOf(t);
  }

  lemma NotesThenArchive(notes: seq<Body>, part: seq<Body>)
    requires forall i :: 0 <= i < |notes| ==> notes[i].Note?
    requires forall i :: 0 <= i < |part| ==> part[i].Archive?()
    ensures (forall i :: 0 <= i < |notes + part| ==> Plain((notes + part)[i])) && ArchivePart(notes + part) == part
  {
    ArchivePartOf(notes, false);
    ArchivePartOf(part, true);
    ArchivePartAppend(notes, part);
    assert [] + part == part;
  }

  lemma QuietPartIff(w: World, p: Plan, k: nat, t: Trouble, e: nat)
    requires PlanOk(p) && k < |MainBodies(w, p)| && e <= |ExportBodies(w, t.archive)|
    ensures var j := AfterBodies(w, MainBodies(w, p)[..k] + (NoteOf(t) + ExportBodies(w, t.archive)[..e]));
      (j.raised <==> !PartAccepted(w, p, k, t, e)) && (!j.raised ==> j.report.status == Error)
  {
    var front, rest := MainBodies(w, p)[..k], NoteOf(t) + ExportBodies(w, t.archive)[..e];
    PartialParts(w, t, e);
    QuietFront(w, p, k);
    QuietOpening(front, rest);
    QuietTranscript(w, front + rest);
    AdmittedIff(w, front, rest);
    AdmittedFront(w, p, k);
    ArchivePartAppend(front, rest);
    PartOfFront(w, p, k);
    var m := if k <= ExportBegins(p) then 0 else k - ExportBegins(p);
    PartsIff(w, p.archive, m, t.archive, e);
  }

  /** After the failure report and a part of the export. */
  lemma PartialIff(w: World, p: Plan, k: nat, t: Trouble, e: nat)
    requires PlanOk(p) && k < |MainBodies(w, p)| && e <= |ExportBodies(w, t.archive)|
    ensures var j := AfterBodies(w, MainBodies(w, p)[..k] + PartialBodies(w, t, e));
      && (j.raised <==> !PartAccepted(w, p, k, t, e))
      && (!j.raised ==> j.failed && j.report.status == Error
                        && j.report.guestFailure == Some(Last(t.error, ERROR_LIMIT)))
  {
    var front, rest := MainBodies(w, p)[..k], NoteOf(t) + ExportBodies(w, t.archive)[..e];
    PartialParts(w, t, e);
    QuietPartIff(w, p, k, t, e);
    Assoc(front, [FailureOf(t)], rest);
    TwinsTold(w, front, FailureOf(t), rest);
  }

  /** With a failure reported in between, the same messages raise, and the report is kept. */
  lemma TwinsTold(w: World, front: seq<Body>, f: Body, rest: seq<Body>)
    requires f.Failure? && forall i :: 0 <= i < |rest| ==> Plain(rest[i])
    ensures var j, h := AfterBodies(w, front + rest), AfterBodies(w, front + [f] + rest);
      && h.raised == j.raised
      && (!h.raised ==> h.failed && h.report.status == j.report.status && h.report.guestFailure == Some(f.error))
  {
    Twins(w, front, f, rest);
  }

  /** The coordinator has been told of the failure and of the failed export, and is done. */
  ghost predicate Confessed(t: Trouble, x: string, j: Job) {
    && !j.raised && j.failed && j.complete && j.report.status == Error
    && j.report.guestFailure == Some(Last(t.error, ERROR_LIMIT)) && j.report.guestExportFailure == Some(x)
  }

  lemma ConfessionHandled(w: World, j: Job, t: Trouble, x: string)
    requires !j.raised ==> j.failed && j.report.status == Error
                           && j.report.guestFailure == Some(Last(t.error, ERROR_LIMIT))
    ensures var h := Handle(w, j, ExportFailure(x));
      h.raised == j.raised && (!j.raised ==> Confessed(t, x, h))
  {}

  /** The handler's third part, message by message: an export that raises after `e` of its messages, and the report
      of that. The coordinator ends with both errors recorded exactly under the condition; otherwise it raises. */
  lemma ExportFailureIff(w: World, p: Plan, k: nat, t: Trouble, e: nat, x: string)
    requires PlanOk(p) && k < |MainBodies(w, p)| && e < |ExportBodies(w, t.archive)|
    ensures var j := AfterBodies(w, MainBodies(w, p)[..k] + PartialBodies(w, t, e) + [ExportFailure(x)]);
      && (Confessed(t, x, j) <==> PartAccepted(w, p, k, t, e))
      && (j.raised <==> !PartAccepted(w, p, k, t, e))
  {
    var hist := MainBodies(w, p)[..k] + PartialBodies(w, t, e);
    PartialIff(w, p, k, t, e);
    BodiesNext(w, hist, ExportFailure(x));
    ConfessionHandled(w, AfterBodies(w, hist), t, x);
  }

  // ----- What the handler really sends -----

  /** An archive that does not pass the guest's own size check is not announced; the handler says so instead. */
  function HandlerBodies(w: World, t: Trouble, x: string): seq<Body> {
    if |t.archive| < ARCHIVE_LIMIT then RescueBodies(w, t) else PartialBodies(w, t, 0) + [ExportFailure(x)]
  }

  /** The handler, message by message, after `k` of the main messages. If its archive passes its size check, the
      coordinator takes the failure report and the whole archive exactly if the observation, once sent, passed, the
      guest's own export had not begun and the archive is not empty. If not, it takes both errors exactly if the
      observation passed and an own export was not of an empty archive. Otherwise it raises. */
  lemma RescueIff(w: World, p: Plan, k: nat, t: Trouble, x: string)
    requires PlanOk(p) && k < |MainBodies(w, p)|
    ensures var j := AfterBodies(w, MainBodies(w, p)[..k] + HandlerBodies(w, t, x));
      && (|t.archive| < ARCHIVE_LIMIT ==>
            var taken := ObservationPasses(w, p, k) && k <= ExportBegins(p) && t.archive != [];
            (Rescued(w, t, j) <==> taken) && (j.raised <==> !taken))
      && (|t.archive| >= ARCHIVE_LIMIT ==>
            var taken := ObservationPasses(w, p, k) && (k > ExportBegins(p) ==> 0 < |p.archive| < ARCHIVE_LIMIT);
            (Confessed(t, x, j) <==> taken) && (j.raised <==> !taken))
  {
    if |t.archive| < ARCHIVE_LIMIT {
      WholeExportIff(w, p, k, t);
    } else {
      ExportFailureIff(w, p, k, t, 0, x);
      Assoc(MainBodies(w, p)[..k], PartialBodies(w, t, 0), [ExportFailure(x)]);
    }
  }
}
