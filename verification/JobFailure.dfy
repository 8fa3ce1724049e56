/** How a job whose guest failed ends, in every run. */
module JobFailure {
  import opened Framing
  import opened HostJob
  import opened HostTranscript
  import opened GuestJob
  import opened JobChannel
  import opened JobScript
  import opened JobWire
  import opened JobInvariant
  import opened JobGuarantees
  import opened JobHandler
  import opened JobProgress
  import opened JobRescue

  // ----- The same for every run -----

  /** The coordinator is not stopped from outside: no deadline, no lost QEMU, no oversized log. */
  ghost predicate NoAbort(steps: seq<Step>) {
    forall i :: 0 <= i < |steps| ==> !steps[i].HostAbort?
  }

  /** Then only the lines handled can have raised. */
  lemma JobOnStep(w: World, p: Plan, s: Sys, step: Step)
    requires Faithful(w) && PlanOk(p) && Inv(w, p, s) && !step.HostAbort?
    requires s.host.job == After(w, s.host.lines)
    ensures Apply(w, s, step).host.job == After(w, Apply(w, s, step).host.lines)
  {
    if Enabled(s, step) {
      match step {
        case HostRecv(n) => JobOnRecv(w, p, s, n);
        case GuestAdvance(t) => assert Advance(w, s, t).host == s.host;
        case _ =>
      }
    }
  }

  lemma JobOnRecv(w: World, p: Plan, s: Sys, n: nat)
    requires Faithful(w) && PlanOk(p) && Inv(w, p, s) && Enabled(s, HostRecv(n))
    requires s.host.job == After(w, s.host.lines)
    ensures Deliver(w, s, n).host.job == After(w, Deliver(w, s, n).host.lines)
  {
    BufferIsOneLine(w, p, s);
    DrainReceives(w, s.host.(buffer := s.host.buffer + s.up[..n]));
  }

  lemma {:induction false} JobFollowsLines(w: World, p: Plan, steps: seq<Step>)
    requires Faithful(w) && PlanOk(p) && NoAbort(steps)
    ensures var s := Exec(w, p, steps); s.host.job == After(w, s.host.lines)
    decreases |steps|
  {
    if steps != [] {
      var front := steps[..|steps| - 1];
      JobFollowsLines(w, p, front);
      InvAlways(w, p, front);
      JobOnStep(w, p, Exec(w, p, front), steps[|steps| - 1]);
    }
  }

  /** The main script up to the size check, and from the announcement of the archive on. */
  function EarlyScript(w: World, p: Plan): seq<Instr> {
    MainFrontScript(p) + [Receive(Admit)] + SendAll(p.matrix) + [Check(|p.archive| < ARCHIVE_LIMIT)]
  }

  function LateScript(w: World, p: Plan): seq<Instr> {
    SendAll(ExportBodies(w, p.archive)) + [Send(Complete), Receive(Shutdown)]
  }

  lemma EarlyAndLate(w: World, p: Plan)
    ensures MainScript(w, p) == EarlyScript(w, p) + LateScript(w, p)
    ensures |EarlyScript(w, p)| == ExportBegins(p) + 2 && LateScript(w, p) != [] && LateScript(w, p)[0].Send?
  {
    Rearranged(SendAll(p.setup), Send(HostReady(p.observation)), SendAll(p.matrix), Check(|p.archive| < ARCHIVE_LIMIT),
               SendAll(ExportBodies(w, p.archive)), [Send(Complete), Receive(Shutdown)]);
  }

  lemma Rearranged(setup: seq<Instr>, ready: Instr, matrix: seq<Instr>, check: Instr, exported: seq<Instr>,
                   end: seq<Instr>)
    ensures setup + [ready, Receive(Admit)] + matrix + ([check] + exported) + end
         == setup + [ready] + [Receive(Admit)] + matrix + [check] + (exported + end)
  {}

  lemma EarlyBodies(w: World, p: Plan)
    ensures |BodiesOf(EarlyScript(w, p))| == ExportBegins(p)
  {
    FrontBodies(p);
    EarlyCount(MainFrontScript(p), p.matrix, Check(|p.archive| < ARCHIVE_LIMIT));
  }

  lemma EarlyCount(front: seq<Instr>, bodies: seq<Body>, check: Instr)
    requires check.Check?
    ensures |BodiesOf(front + [Receive(Admit)] + SendAll(bodies) + [check])| == |BodiesOf(front)| + |bodies|
  {
    BodiesOfSends(bodies);
    BodiesAppend(front, [Receive(Admit)]);
    BodiesAppend(front + [Receive(Admit)], SendAll(bodies));
    BodiesAppend(front + [Receive(Admit)] + SendAll(bodies), [check]);
    NoBody(Receive(Admit));
    NoBody(check);
  }

  lemma FrontCount(early: seq<Instr>, late: seq<Instr>, script: seq<Instr>, done: nat)
    requires script == early + late && late != [] && late[0].Send? && done <= |script|
    ensures |BodiesOf(script[..done])| <= |BodiesOf(early)| <==> done <= |early|
  {
    if done <= |early| {
      FrontOfFront(script, done, |early|);
      assert script[..|early|] == early;
    } else {
      FrontOfFront(script, |early| + 1, done);
      BodiesStep(script, |early|);
      assert script[..|early|] == early;
    }
  }

  /** How many main messages a front of the main script has sent, against where its export begins. */
  lemma SentBefore(w: World, p: Plan, done: nat)
    requires done < |MainScript(w, p)| - 1
    ensures var k := |BodiesOf(MainScript(w, p)[..done])|;
      && k < |MainBodies(w, p)| && (k <= ExportBegins(p) <==> done <= ExportBegins(p) + 2)
      && (k <= |p.setup| <==> done <= |p.setup|)
  {
    EarlyFront(w, p, done);
    EarlyAndLate(w, p);
    EarlyBodies(w, p);
    FrontCount(EarlyScript(w, p), LateScript(w, p), MainScript(w, p), done);
    ObservationSent(w, p, done);
  }

  lemma ObservationSent(w: World, p: Plan, done: nat)
    requires done <= |MainScript(w, p)|
    ensures |BodiesOf(MainScript(w, p)[..done])| <= |p.setup| <==> done <= |p.setup|
  {
    var late := MainScript(w, p)[|p.setup|..];
    assert MainScript(w, p) == SendAll(p.setup) + late && late[0] == Send(HostReady(p.observation));
    BodiesOfSends(p.setup);
    FrontCount(SendAll(p.setup), late, MainScript(w, p), done);
  }

  lemma SentIsFront(w: World, p: Plan, done: nat)
    requires done <= |MainScript(w, p)|
    ensures var sent := BodiesOf(MainScript(w, p)[..done]); sent <= MainBodies(w, p)
  {
    FrontOfBodies(MainScript(w, p), done);
    MainShape(w, p);
  }

  /** The history of a guest that has run its handler to the end, which it does only with an archive that passed
      the size check. */
  lemma RescueHistory(w: World, p: Plan, g: Guest, t: Trouble)
    requires g.mode.Handler? && FailedShape(w, p, g) && ChecksPassed(w, p, g)
    requires g.script == RescueScript(w, t) && g.pc == |g.script|
    ensures History(g) == MainSent(w, p, g.mainDone) + RescueBodies(w, t) && |t.archive| < ARCHIVE_LIMIT
  {
    RescueFront(w, t, g.pc);
    CheckAt(w, t);
    assert g.script[..g.pc] == g.script;
    assert ExportBodies(w, t.archive)[..|ExportBodies(w, t.archive)|] == ExportBodies(w, t.archive);
    assert g.script[|ReportBodies(t)|].ok;
  }

  /** The history of a guest that has said that its export failed. */
  lemma LastHistory(w: World, p: Plan, g: Guest, x: string) returns (t: Trouble, e: nat)
    requires g.mode.LastWords? && FailedShape(w, p, g)
    requires g.script == [Send(ExportFailure(x))] && g.pc == |g.script|
    ensures e < |ExportBodies(w, t.archive)| && (e > 0 ==> |t.archive| < ARCHIVE_LIMIT)
    ensures History(g) == MainSent(w, p, g.mainDone) + PartialBodies(w, t, e) + [ExportFailure(x)]
  {
    t, e :| InLastWords(w, g, MainSent(w, p, g.mainDone), t, e);
    assert g.script[..1] == g.script && g.script[..1][..0] == [];
    assert BodiesOf(g.script[..0]) == [];
    Assoc(MainSent(w, p, g.mainDone), ReportBodies(t), ExportBodies(w, t.archive)[..e]);
  }

  /** The history of a guest whose handler raised without being able to say so. */
  lemma CutHistory(w: World, p: Plan, g: Guest) returns (t: Trouble, n: nat)
    requires FailedShape(w, p, g) && g.pc <= |g.script|
    requires (g.mode.Handler? && g.pc < g.rescueFrom) || (g.mode.LastWords? && g.script == [])
    ensures n < |RescueBodies(w, t)| && History(g) == MainSent(w, p, g.mainDone) + RescueBodies(w, t)[..n]
  {
    if g.mode.Handler? {
      t, n := CutReport(w, g);
    } else {
      t, n := CutExport(w, g, MainSent(w, p, g.mainDone));
    }
  }

  lemma CutReport(w: World, g: Guest) returns (t: Trouble, n: nat)
    requires g.mode.Handler? && g.pc < g.rescueFrom && exists t :: InHandler(w, g, t)
    ensures n < |RescueBodies(w, t)| && History(g) == g.before + RescueBodies(w, t)[..n]
  {
    t :| InHandler(w, g, t);
    n := g.pc;
    FrontSends(ReportBodies(t), ExportScript(w, t.archive), n);
    assert g.script[..g.pc] == RescueScript(w, t)[..n];
    BodiesOfSends(ReportBodies(t)[..n]);
    FrontOfTwo(ReportBodies(t), ExportBodies(w, t.archive), n);
  }

  lemma FrontSends(report: seq<Body>, rest: seq<Instr>, n: nat)
    requires n <= |report|
    ensures (SendAll(report) + rest)[..n] == SendAll(report[..n])
  {}

  lemma FrontOfTwo(a: seq<Body>, b: seq<Body>, n: nat)
    requires n <= |a|
    ensures (a + b)[..n] == a[..n]
  {}

  lemma CutExport(w: World, g: Guest, main: seq<Body>) returns (t: Trouble, n: nat)
    requires g.script == [] && g.pc == 0 && exists t, e :: InLastWords(w, g, main, t, e)
    ensures n < |RescueBodies(w, t)| && History(g) == main + RescueBodies(w, t)[..n]
  {
    var e: nat;
    t, e :| InLastWords(w, g, main, t, e);
    n := |ReportBodies(t)| + e;
    assert g.script[..0] == [];
    FrontWithPart(main, ReportBodies(t), ExportBodies(w, t.archive), e);
  }

  lemma FrontWithPart(main: seq<Body>, a: seq<Body>, b: seq<Body>, e: nat)
    requires e <= |b|
    ensures main + (a + b)[..|a| + e] == main + a + b[..e]
  {}

  // ----- No message but the last completes the job -----

  lemma NotYet(w: World, j: Job, b: Body)
    requires !j.complete && (b.Failure? || b.Note? || b.ArchiveStart? || b.ArchiveChunk?)
    ensures !Handle(w, j, b).complete
  {}

  lemma {:induction false} NeverYet(w: World, front: seq<Body>, rest: seq<Body>)
    requires !AfterBodies(w, front).complete
    requires forall i :: 0 <= i < |rest| ==>
      rest[i].Failure? || rest[i].Note? || rest[i].ArchiveStart? || rest[i].ArchiveChunk?
    ensures !AfterBodies(w, front + rest).complete
    decreases |rest|
  {
    if rest == [] {
      assert front + rest == front;
    } else {
      NeverYet(w, front, rest[..|rest| - 1]);
      LastOfTwo(front, rest);
      BodiesNext(w, front + rest[..|rest| - 1], rest[|rest| - 1]);
      NotYet(w, AfterBodies(w, front + rest[..|rest| - 1]), rest[|rest| - 1]);
    }
  }

  lemma RescueKinds(w: World, t: Trouble)
    ensures var all := RescueBodies(w, t);
      forall i :: 0 <= i < |all| - 1 ==> all[i].Failure? || all[i].Note? || all[i].ArchiveStart? || all[i].ArchiveChunk?
  {
    var report, chunks := ReportBodies(t), ChunkBodies(t.archive, ChunkCount(|t.archive|));
    var all := RescueBodies(w, t);
    forall i | 0 <= i < |all| - 1
      ensures all[i].Failure? || all[i].Note? || all[i].ArchiveStart? || all[i].ArchiveChunk?
    {
      if i > |report| {
        assert all[i] == chunks[i - |report| - 1];
      }
    }
  }

  /** A coordinator that has not seen all of a failed guest's messages is not done, unless it raised. */
  lemma NotDoneEarly(w: World, p: Plan, k: nat, t: Trouble, n: nat)
    requires PlanOk(p) && k < |MainBodies(w, p)| && n < k + |RescueBodies(w, t)|
    ensures var hist := MainBodies(w, p)[..k] + RescueBodies(w, t);
      AfterBodies(w, hist[..n]).raised || !AfterBodies(w, hist[..n]).complete
  {
    var front, rescue := MainBodies(w, p)[..k], RescueBodies(w, t);
    QuietFront(w, p, k);
    if n <= k {
      assert (front + rescue)[..n] == MainBodies(w, p)[..n];
      QuietFront(w, p, n);
      QuietTranscript(w, MainBodies(w, p)[..n]);
    } else {
      assert (front + rescue)[..n] == front + rescue[..n - k];
      QuietTranscript(w, front);
      RescueKinds(w, t);
      if AfterBodies(w, front).raised {
        RaisedRemains(w, front, rescue[..n - k]);
      } else {
        NeverYet(w, front, rescue[..n - k]);
      }
    }
  }

  lemma NoClaimNoSuccess(w: World, bodies: seq<Body>)
    requires forall i :: 0 <= i < |bodies| ==> !bodies[i].Complete?
    ensures AfterBodies(w, bodies).report.status == Error
  {
    ObservedIff(w, bodies);
  }

  lemma NoClaim(w: World, p: Plan, k: nat, t: Trouble)
    requires PlanOk(p) && k < |MainBodies(w, p)|
    ensures var hist := MainBodies(w, p)[..k] + RescueBodies(w, t);
      forall i :: 0 <= i < |hist| ==> !hist[i].Complete?
  {
    var hist := MainBodies(w, p)[..k] + RescueBodies(w, t);
    MainBodiesShape(w, p);
    ExportIsArchive(w, t.archive);
    forall i | 0 <= i < |hist|
      ensures !hist[i].Complete?
    {
      if i < k {
        assert hist[i] == MainBodies(w, p)[i];
      } else if i >= k + |ReportBodies(t)| {
        assert hist[i] == ExportBodies(w, t.archive)[i - k - |ReportBodies(t)|];
      }
    }
  }

  lemma WholeOrRaised(w: World, hist: seq<Body>, n: nat)
    requires n <= |hist| && (n == |hist| || AfterBodies(w, hist[..n]).raised)
    ensures AfterBodies(w, hist[..n]).raised == AfterBodies(w, hist).raised
    ensures n == |hist| || AfterBodies(w, hist).raised
    ensures n == |hist| ==> hist[..n] == hist
  {
    assert hist[..n] + hist[n..] == hist;
    if n < |hist| {
      RaisedRemains(w, hist[..n], hist[n..]);
    } else {
      assert hist[..n] == hist;
    }
  }

  /** Nothing more to read: everything sent was handled, or the coordinator has stopped. */
  lemma ReadOut(w: World, p: Plan, s: Sys)
    requires Faithful(w) && PlanOk(p) && Inv(w, p, s) && s.guest.outgoing == [] && !Enabled(s, HostRecv(1))
    ensures s.host.Stopped() || Seen(s) == |History(s.guest)|
  {
    if !s.host.Stopped() {
      var hist, n := History(s.guest), Seen(s);
      HistoryShape(w, p, s.guest);
      HostFollows(w, s);
      assert s.up == [] && s.host.buffer + (s.up + s.guest.outgoing) == s.host.buffer;
      if n < |hist| {
        JoinHasNewline(Texts(w, hist[n..]));
        assert false;
      }
    }
  }

  // ----- How a failed guest ends, in every run -----

  /** The state of a coordinator that can read no more, by the messages it was sent. */
  ghost predicate ReadAll(w: World, s: Sys) {
    && Seen(s) <= |History(s.guest)|
    && s.host.job == AfterBodies(w, History(s.guest)[..Seen(s)])
    && (s.host.Stopped() || Seen(s) == |History(s.guest)|)
  }

  lemma ReadAllAt(w: World, p: Plan, steps: seq<Step>)
    requires Faithful(w) && PlanOk(p) && NoAbort(steps)
    requires var s := Exec(w, p, steps); s.guest.outgoing == [] && !Enabled(s, HostRecv(1))
    ensures ReadAll(w, Exec(w, p, steps))
  {
    var s := Exec(w, p, steps);
    InvAlways(w, p, steps);
    JobFollowsLines(w, p, steps);
    ReadOut(w, p, s);
    HistoryShape(w, p, s.guest);
    HostFollows(w, s);
  }

  lemma MainSentIs(w: World, p: Plan, done: nat)
    requires done < |MainScript(w, p)| - 1
    ensures var k := |MainSent(w, p, done)|;
      && k < |MainBodies(w, p)| && MainSent(w, p, done) == MainBodies(w, p)[..k]
      && (k <= ExportBegins(p) <==> done <= ExportBegins(p) + 2) && (k <= |p.setup| <==> done <= |p.setup|)
  {
    SentBefore(w, p, done);
    SentIsFront(w, p, done);
  }

  /** The observation, if the try block sent it, was admissible and could be answered. */
  predicate ObservationPassed(w: World, p: Plan, done: nat) {
    done > |p.setup| ==> Admissible(w.binding, p.observation) && w.sendOk(0)
  }

  /** When the evidence arrives, by the instructions the try block had done: the observation passed, the guest's own
      export had not begun, and the rescued archive is not empty. */
  predicate EvidenceArrives(w: World, p: Plan, done: nat, t: Trouble) {
    ObservationPassed(w, p, done) && done <= ExportBegins(p) + 2 && t.archive != []
  }

  lemma RescueOutcome(w: World, p: Plan, k: nat, t: Trouble, n: nat)
    requires PlanOk(p) && k < |MainBodies(w, p)| && n <= k + |RescueBodies(w, t)|
    requires var j := AfterBodies(w, (MainBodies(w, p)[..k] + RescueBodies(w, t))[..n]);
      n == k + |RescueBodies(w, t)| || j.raised || j.complete
    ensures var j := AfterBodies(w, (MainBodies(w, p)[..k] + RescueBodies(w, t))[..n]);
      && j.report.status == Error
      && (Rescued(w, t, j) <==> CanRescue(w, p, k, t)) && (j.raised <==> !CanRescue(w, p, k, t))
  {
    var hist := MainBodies(w, p)[..k] + RescueBodies(w, t);
    WholeExportIff(w, p, k, t);
    NoClaim(w, p, k, t);
    NoClaimNoSuccess(w, hist[..n]);
    if n < |hist| {
      NotDoneEarly(w, p, k, t, n);
    }
    WholeOrRaised(w, hist, n);
  }

  /** Failure reporting, in every run without an outside stop: when a guest that failed before its completion
      claim has run its handler to the end and the coordinator has no more to read, the coordinator has the failure
      report and the whole rescued archive exactly under the condition; otherwise it has raised. */
  lemma FailureIsReportedIff(w: World, p: Plan, steps: seq<Step>, t: Trouble)
    requires Faithful(w) && PlanOk(p) && NoAbort(steps)
    requires var s := Exec(w, p, steps);
      && s.guest.mode.Handler? && s.guest.mainDone < |MainScript(w, p)| - 1
      && s.guest.script == RescueScript(w, t) && Finished(s) && !Enabled(s, HostRecv(1))
    ensures var s := Exec(w, p, steps);
      && s.host.job.report.status == Error
      && (Rescued(w, t, s.host.job) <==> EvidenceArrives(w, p, s.guest.mainDone, t))
      && (s.host.job.raised <==> !EvidenceArrives(w, p, s.guest.mainDone, t))
  {
    ReadAllAt(w, p, steps);
    ShapeAlways(w, p, steps);
    RescueState(w, p, Exec(w, p, steps), t);
  }

  lemma RescueState(w: World, p: Plan, s: Sys, t: Trouble)
    requires PlanOk(p) && ReadAll(w, s) && FailedShape(w, p, s.guest) && ChecksPassed(w, p, s.guest)
    requires s.guest.mode.Handler? && s.guest.mainDone < |MainScript(w, p)| - 1
    requires s.guest.script == RescueScript(w, t) && s.guest.pc == |s.guest.script|
    ensures s.host.job.report.status == Error
    ensures Rescued(w, t, s.host.job) <==> EvidenceArrives(w, p, s.guest.mainDone, t)
    ensures s.host.job.raised <==> !EvidenceArrives(w, p, s.guest.mainDone, t)
  {
    RescueHistory(w, p, s.guest, t);
    MainSentIs(w, p, s.guest.mainDone);
    RescueOutcome(w, p, |MainSent(w, p, s.guest.mainDone)|, t, Seen(s));
  }

  /** The same for a handler whose export raised: the observation passed, an own export was not of an empty archive,
      and if the handler's got as far as announcing its archive, the own one had not begun and this one is not
      empty. */
  predicate ConfessionArrives(w: World, p: Plan, done: nat, t: Trouble, e: nat) {
    && ObservationPassed(w, p, done) && (done > ExportBegins(p) + 2 ==> p.archive != [])
    && (e > 0 ==> done <= ExportBegins(p) + 2 && t.archive != [])
  }

  lemma ConfessionKinds(w: World, p: Plan, k: nat, t: Trouble, e: nat, x: string, n: nat)
    requires PlanOk(p) && k < |MainBodies(w, p)| && e < |ExportBodies(w, t.archive)|
    requires n < k + |PartialBodies(w, t, e)| + 1
    ensures var hist := MainBodies(w, p)[..k] + PartialBodies(w, t, e) + [ExportFailure(x)];
      && (AfterBodies(w, hist[..n]).raised || !AfterBodies(w, hist[..n]).complete)
      && (forall i :: 0 <= i < |hist| ==> !hist[i].Complete?)
  {
    var hist := MainBodies(w, p)[..k] + PartialBodies(w, t, e) + [ExportFailure(x)];
    var whole := MainBodies(w, p)[..k] + RescueBodies(w, t);
    PartOfRescue(MainBodies(w, p)[..k], ReportBodies(t), ExportBodies(w, t.archive), e, [ExportFailure(x)]);
    NotDoneEarly(w, p, k, t, n);
    NoClaim(w, p, k, t);
    assert hist[..n] == hist[..|hist| - 1][..n] == whole[..|hist| - 1][..n] == whole[..n];
    forall i | 0 <= i < |hist|
      ensures !hist[i].Complete?
    {
      assert i < |hist| - 1 ==> hist[i] == hist[..|hist| - 1][i] == whole[i];
    }
  }

  lemma PartOfRescue(main: seq<Body>, report: seq<Body>, exported: seq<Body>, e: nat, last: seq<Body>)
    requires e < |exported| && |last| == 1
    ensures var hist, whole := main + (report + exported[..e]) + last, main + (report + exported);
      |hist| <= |whole| && hist[..|hist| - 1] == whole[..|hist| - 1]
  {}

  lemma ConfessionOutcome(w: World, p: Plan, k: nat, t: Trouble, e: nat, x: string, n: nat)
    requires PlanOk(p) && k < |MainBodies(w, p)| && e < |ExportBodies(w, t.archive)|
    requires n <= k + |PartialBodies(w, t, e)| + 1
    requires var j := AfterBodies(w, (MainBodies(w, p)[..k] + PartialBodies(w, t, e) + [ExportFailure(x)])[..n]);
      n == k + |PartialBodies(w, t, e)| + 1 || j.raised || j.complete
    ensures var j := AfterBodies(w, (MainBodies(w, p)[..k] + PartialBodies(w, t, e) + [ExportFailure(x)])[..n]);
      && j.report.status == Error
      && (Confessed(t, x, j) <==> PartAccepted(w, p, k, t, e)) && (j.raised <==> !PartAccepted(w, p, k, t, e))
  {
    var hist := MainBodies(w, p)[..k] + PartialBodies(w, t, e) + [ExportFailure(x)];
    ExportFailureIff(w, p, k, t, e, x);
    ConfessionKinds(w, p, k, t, e, x, if n < |hist| then n else 0);
    NoClaimNoSuccess(w, hist[..n]);
    WholeOrRaised(w, hist, n);
  }

  /** The other end of a failed guest: its export raised, and it said so. In every run without an outside stop, once
      the coordinator has no more to read it is done with both errors recorded exactly under the condition;
      otherwise it has raised. `t` is what the handler reported, `e` how much of its export got out. */
  lemma ExportFailureIsReportedIff(w: World, p: Plan, steps: seq<Step>, x: string) returns (t: Trouble, e: nat)
    requires Faithful(w) && PlanOk(p) && NoAbort(steps)
    requires var s := Exec(w, p, steps);
      && s.guest.mode.LastWords? && s.guest.mainDone < |MainScript(w, p)| - 1
      && s.guest.script == [Send(ExportFailure(x))] && Finished(s) && !Enabled(s, HostRecv(1))
    ensures e < |ExportBodies(w, t.archive)|
    ensures var s := Exec(w, p, steps);
      && s.guest.mainDone <= |MainScript(w, p)|
      && History(s.guest) == MainSent(w, p, s.guest.mainDone) + PartialBodies(w, t, e) + [ExportFailure(x)]
      && s.host.job.report.status == Error
      && (Confessed(t, x, s.host.job) <==> ConfessionArrives(w, p, s.guest.mainDone, t, e))
      && (s.host.job.raised <==> !ConfessionArrives(w, p, s.guest.mainDone, t, e))
  {
    ReadAllAt(w, p, steps);
    ShapeAlways(w, p, steps);
    t, e := ConfessionState(w, p, Exec(w, p, steps), x);
  }

  lemma ConfessionState(w: World, p: Plan, s: Sys, x: string) returns (t: Trouble, e: nat)
    requires PlanOk(p) && ReadAll(w, s) && FailedShape(w, p, s.guest) && ChecksPassed(w, p, s.guest)
    requires s.guest.mode.LastWords? && s.guest.mainDone < |MainScript(w, p)| - 1
    requires s.guest.script == [Send(ExportFailure(x))] && s.guest.pc == |s.guest.script|
    ensures e < |ExportBodies(w, t.archive)|
    ensures History(s.guest) == MainSent(w, p, s.guest.mainDone) + PartialBodies(w, t, e) + [ExportFailure(x)]
    ensures s.host.job.report.status == Error
    ensures Confessed(t, x, s.host.job) <==> ConfessionArrives(w, p, s.guest.mainDone, t, e)
    ensures s.host.job.raised <==> !ConfessionArrives(w, p, s.guest.mainDone, t, e)
  {
    t, e := LastHistory(w, p, s.guest, x);
    MainSentIs(w, p, s.guest.mainDone);
    OwnCheckPassed(w, p, s.guest);
    ConfessionOutcome(w, p, |MainSent(w, p, s.guest.mainDone)|, t, e, x, Seen(s));
  }

  /** An own export begins only after the size check. */
  lemma OwnCheckPassed(w: World, p: Plan, g: Guest)
    requires ChecksPassed(w, p, g)
    ensures g.mainDone > ExportBegins(p) + 2 ==> |p.archive| < ARCHIVE_LIMIT
  {
    EarlyAndLate(w, p);
    var at := ExportBegins(p) + 1;
    assert EarlyScript(w, p)[at] == Check(|p.archive| < ARCHIVE_LIMIT);
    assert MainScript(w, p)[at] == EarlyScript(w, p)[at];
  }

  /** A handler that raises without being able to say so leaves a coordinator that is not done: it has raised, or
      it waits for more. */
  lemma CutOffIsNotDone(w: World, p: Plan, steps: seq<Step>)
    requires Faithful(w) && PlanOk(p) && NoAbort(steps)
    requires var s := Exec(w, p, steps);
      && s.guest.mainDone < |MainScript(w, p)| - 1 && Finished(s) && !Enabled(s, HostRecv(1))
      && ((s.guest.mode.Handler? && s.guest.pc < s.guest.rescueFrom)
          || (s.guest.mode.LastWords? && s.guest.script == []))
    ensures var s := Exec(w, p, steps);
      s.host.job.report.status == Error && (s.host.job.raised || !s.host.job.complete)
  {
    ReadAllAt(w, p, steps);
    ShapeAlways(w, p, steps);
    CutState(w, p, Exec(w, p, steps));
  }

  lemma CutState(w: World, p: Plan, s: Sys)
    requires PlanOk(p) && ReadAll(w, s) && FailedShape(w, p, s.guest)
    requires s.guest.mainDone < |MainScript(w, p)| - 1 && s.guest.pc == |s.guest.script|
    requires (s.guest.mode.Handler? && s.guest.pc < s.guest.rescueFrom)
      || (s.guest.mode.LastWords? && s.guest.script == [])
    ensures s.host.job.report.status == Error && (s.host.job.raised || !s.host.job.complete)
  {
    var t, n := CutHistory(w, p, s.guest);
    MainSentIs(w, p, s.guest.mainDone);
    var k := |MainSent(w, p, s.guest.mainDone)|;
    var whole := MainBodies(w, p)[..k] + RescueBodies(w, t);
    FrontOfPart(MainBodies(w, p)[..k], RescueBodies(w, t), n, Seen(s));
    NotDoneEarly(w, p, k, t, Seen(s));
    NoClaim(w, p, k, t);
    NoClaimNoSuccess(w, whole[..Seen(s)]);
  }

  lemma FrontOfPart(main: seq<Body>, rescue: seq<Body>, n: nat, m: nat)
    requires n <= |rescue| && m <= |main| + n
    ensures (main + rescue[..n])[..m] == (main + rescue)[..m]
  {}

  /** These are all the ends there are. */
  lemma HandlerEnds(w: World, p: Plan, steps: seq<Step>)
    requires Faithful(w) && PlanOk(p)
    requires !Exec(w, p, steps).guest.mode.Main? && Finished(Exec(w, p, steps))
    ensures var g := Exec(w, p, steps).guest;
      || (g.mode.Handler? && exists t :: g.script == RescueScript(w, t))
      || (g.mode.LastWords? && exists x :: g.script == [Send(ExportFailure(x))])
      || (g.mode.Handler? && g.pc < g.rescueFrom) || (g.mode.LastWords? && g.script == [])
  {
    ShapeAlways(w, p, steps);
    EndsOf(w, p, Exec(w, p, steps).guest);
  }

  lemma EndsOf(w: World, p: Plan, g: Guest)
    requires FailedShape(w, p, g) && !g.mode.Main? && g.pc <= |g.script|
    ensures
      || (g.mode.Handler? && exists t :: g.script == RescueScript(w, t))
      || (g.mode.LastWords? && exists x :: g.script == [Send(ExportFailure(x))])
      || (g.mode.Handler? && g.pc < g.rescueFrom) || (g.mode.LastWords? && g.script == [])
  {
    if g.mode.Handler? {
      var t :| InHandler(w, g, t);
    } else {
      var t, e :| InLastWords(w, g, MainSent(w, p, g.mainDone), t, e);
    }
  }
}
