/** Runs that exist: how any healthy job can lose its evidence, and how it can succeed with a failure reported. */
module JobWitness {
  import opened Framing
  import opened Wrappers
  import opened HostJob
  import opened HostTranscript
  import opened GuestJob
  import opened JobChannel
  import opened JobScript
  import opened JobWire
  import opened JobInvariant
  import opened JobGuarantees
  import opened JobHandler
  import opened JobProgress
  import opened JobRescue
  import opened JobFailure

  // ----- Reaching a point of the try block -----

  lemma FairNext(steps: seq<Step>, step: Step)
    requires AllFair(steps) && Fair(step)
    ensures AllFair(steps + [step])
  {
    assert forall i :: 0 <= i < |steps| ==> (steps + [step])[i] == steps[i];
  }

  lemma FairIsNoAbort(steps: seq<Step>)
    requires AllFair(steps)
    ensures NoAbort(steps)
  {
    assert forall i :: 0 <= i < |steps| ==> Fair(steps[i]);
  }

  lemma NoAbortNext(steps: seq<Step>, step: Step)
    requires NoAbort(steps) && !step.HostAbort?
    ensures NoAbort(steps + [step])
  {
    assert forall i :: 0 <= i < |steps| ==> (steps + [step])[i] == steps[i];
  }

  /** The guest of a fault-free job in its try block. */
  ghost predicate Trying(w: World, p: Plan, g: Guest) {
    g.mode.Main? && g.script == MainScript(w, p) && g.pc == g.mainDone <= |g.script|
  }

  lemma TryingAlways(w: World, p: Plan, steps: seq<Step>)
    requires Healthy(w, p) && AllFair(steps)
    ensures Trying(w, p, Exec(w, p, steps).guest)
  {
    NormalAlways(w, p, steps);
  }

  /** A fair step takes the try block at most one instruction on, and none while a line is being written. */
  lemma StepOn(w: World, p: Plan, s: Sys, step: Step)
    requires Healthy(w, p) && Normal(w, p, s) && Fair(step) && Enabled(s, step)
    ensures var g, n := s.guest, Apply(w, s, step).guest;
      n.mainDone == g.mainDone || (g.outgoing == [] && n.mainDone == g.mainDone + 1)
  {
    match step {
      case GuestAdvance(t) =>
        NormalOnAdvance(w, p, s, t);
        InvOnAdvance(w, p, s, t);
      case GuestWrite(n) =>
      case HostRecv(n) => assert Apply(w, s, step).guest == s.guest;
    }
  }

  /** A healthy job can be brought to any point of its try block, with everything written. */
  lemma {:induction false} RunTo(w: World, p: Plan, steps: seq<Step>, done: nat) returns (all: seq<Step>)
    requires Healthy(w, p) && AllFair(steps) && done < |MainScript(w, p)|
    requires Exec(w, p, steps).guest.mainDone <= done
    ensures AllFair(all)
    ensures var g := Exec(w, p, all).guest; Trying(w, p, g) && g.mainDone == done && g.outgoing == []
    decreases WorkOf(w, p, steps)
  {
    var s := Exec(w, p, steps);
    TryingAlways(w, p, steps);
    if s.guest.mainDone == done && s.guest.outgoing == [] {
      all := steps;
    } else {
      var step := Progress(w, p, steps);
      NormalAlways(w, p, steps);
      StepOn(w, p, s, step);
      WorkDecreases(w, p, s, step);
      FairNext(steps, step);
      ExecNext(w, p, steps, step);
      TryingAlways(w, p, steps + [step]);
      all := RunTo(w, p, steps + [step], done);
    }
  }

  ghost function WorkOf(w: World, p: Plan, steps: seq<Step>): nat {
    var s := Exec(w, p, steps);
    if s.guest.pc <= |s.guest.script| then WorkLeft(w, s) else 0
  }

  // ----- Letting the coordinator read -----

  /** The coordinator reads byte by byte until it stops or nothing is left. */
  lemma {:induction false} ReadDown(w: World, p: Plan, steps: seq<Step>) returns (all: seq<Step>)
    ensures Exec(w, p, all).guest == Exec(w, p, steps).guest && !Enabled(Exec(w, p, all), HostRecv(1))
    ensures AllFair(steps) ==> AllFair(all)
    ensures NoAbort(steps) ==> NoAbort(all)
    decreases |Exec(w, p, steps).up|
  {
    var s := Exec(w, p, steps);
    if Enabled(s, HostRecv(1)) {
      ExecNext(w, p, steps, HostRecv(1));
      if AllFair(steps) {
        FairNext(steps, HostRecv(1));
      }
      if NoAbort(steps) {
        NoAbortNext(steps, HostRecv(1));
      }
      all := ReadDown(w, p, steps + [HostRecv(1)]);
    } else {
      all := steps;
    }
  }

  // ----- Letting the handler run -----

  /** Nothing in the first `m` instructions raises or waits. */
  ghost predicate Runs(w: World, script: seq<Instr>, m: nat) {
    m <= |script| && forall i :: 0 <= i < m ==>
      !script[i].Receive? && (script[i].Send? ==> Fits(w, script[i].body)) && (script[i].Check? ==> script[i].ok)
  }

  /** The guest runs so far, with everything written. */
  lemma {:induction false} RunOut(w: World, p: Plan, steps: seq<Step>, m: nat) returns (all: seq<Step>)
    requires var g := Exec(w, p, steps).guest; g.pc <= m && Runs(w, g.script, m) && !g.mode.Main?
    ensures var g, n := Exec(w, p, steps).guest, Exec(w, p, all).guest;
      n == g.(pc := m, outgoing := [])
    ensures NoAbort(steps) ==> NoAbort(all)
    decreases m - Exec(w, p, steps).guest.pc, |Exec(w, p, steps).guest.outgoing|
  {
    var s := Exec(w, p, steps);
    if s.guest.pc == m && s.guest.outgoing == [] {
      all := steps;
    } else {
      var step := if s.guest.outgoing != [] then GuestWrite(1) else GuestAdvance(Trouble("", "", None, []));
      ExecNext(w, p, steps, step);
      RunsOn(w, s, step, m);
      if NoAbort(steps) {
        NoAbortNext(steps, step);
      }
      all := RunOut(w, p, steps + [step], m);
    }
  }

  lemma RunsOn(w: World, s: Sys, step: Step, m: nat)
    requires s.guest.pc <= m && Runs(w, s.guest.script, m) && !s.guest.mode.Main?
    requires s.guest.outgoing != [] || s.guest.pc < m
    requires if s.guest.outgoing != [] then step == GuestWrite(1) else step.GuestAdvance?
    ensures var g, n := s.guest, Apply(w, s, step).guest;
      && n == g.(pc := n.pc, outgoing := n.outgoing)
      && (n.pc == g.pc + 1 <= m || (n.pc == g.pc && |n.outgoing| < |g.outgoing|))
  {}

  lemma ReportRuns(w: World, t: Trouble)
    requires AllFit(w, ReportBodies(t))
    ensures Runs(w, RescueScript(w, t), |ReportBodies(t)|)
  {
    forall i | 0 <= i < |ReportBodies(t)|
      ensures RescueScript(w, t)[i] == Send(ReportBodies(t)[i])
    {}
  }

  lemma RescueRuns(w: World, t: Trouble)
    requires AllFit(w, RescueBodies(w, t)) && |t.archive| < ARCHIVE_LIMIT
    ensures Runs(w, RescueScript(w, t), |RescueScript(w, t)|)
  {
    var report, exported, script := ReportBodies(t), ExportBodies(w, t.archive), RescueScript(w, t);
    CheckAt(w, t);
    forall i | 0 <= i < |script|
      ensures !script[i].Receive? && (script[i].Check? ==> script[i].ok)
      ensures script[i].Send? ==> Fits(w, script[i].body)
    {
      if i < |report| {
        assert script[i] == Send(report[i]) && RescueBodies(w, t)[i] == report[i];
      } else if i > |report| {
        assert script[i] == Send(exported[i - |report| - 1]);
        assert RescueBodies(w, t)[i - 1] == exported[i - |report| - 1];
      }
    }
  }

  // ----- Evidence that does not arrive -----

  /** A guest that fails wherever its try block can, runs its handler and is read out. */
  lemma FailedRun(w: World, p: Plan, steps: seq<Step>, t: Trouble) returns (all: seq<Step>)
    requires NoAbort(steps) && AllFit(w, RescueBodies(w, t)) && |t.archive| < ARCHIVE_LIMIT
    requires var s := Exec(w, p, steps); s.guest.mode.Main? && Enabled(s, GuestCrash(t))
    ensures NoAbort(all)
    ensures var s, n := Exec(w, p, steps), Exec(w, p, all);
      && n.guest.mode.Handler? && n.guest.script == RescueScript(w, t) && n.guest.mainDone == s.guest.mainDone
      && Finished(n) && !Enabled(n, HostRecv(1))
  {
    var failed := steps + [GuestCrash(t)];
    ExecNext(w, p, steps, GuestCrash(t));
    NoAbortNext(steps, GuestCrash(t));
    RescueRuns(w, t);
    var ended := RunOut(w, p, failed, |RescueScript(w, t)|);
    all := ReadDown(w, p, ended);
  }

  lemma ExportSends(w: World, p: Plan)
    requires p.archive != []
    ensures ExportBegins(p) + 3 < |MainScript(w, p)| - 1 && MainScript(w, p)[ExportBegins(p) + 3].Send?
  {
    EarlyAndLate(w, p);
    assert |ExportBodies(w, p.archive)| >= 3;
    assert LateScript(w, p)[1] == SendAll(ExportBodies(w, p.archive))[1];
    assert MainScript(w, p)[ExportBegins(p) + 3] == LateScript(w, p)[1];
  }

  /** "The handler can always export its evidence" is false of every healthy job: let it fail right after it
      announced its own archive. The handler runs to its end, every frame of it fits, the coordinator reads all it
      will read, and the evidence is lost. */
  lemma EvidenceCanBeLost(w: World, p: Plan, t: Trouble) returns (all: seq<Step>)
    requires Healthy(w, p) && AllFit(w, RescueBodies(w, t)) && 0 < |t.archive| < ARCHIVE_LIMIT
    ensures NoAbort(all)
    ensures var s := Exec(w, p, all);
      && s.guest.mode.Handler? && s.guest.script == RescueScript(w, t) && Finished(s) && !Enabled(s, HostRecv(1))
      && s.host.job.raised && !Rescued(w, t, s.host.job)
  {
    ExportSends(w, p);
    var none: seq<Step> := [];
    var steps := RunTo(w, p, none, ExportBegins(p) + 3);
    FairIsNoAbort(steps);
    all := FailedRun(w, p, steps, t);
    FailureIsReportedIff(w, p, all, t);
  }

  // ----- An archive that is too large -----

  /** A guest that fails with too large an archive says so; nothing of the archive is sent. */
  lemma OversizeRun(w: World, p: Plan, steps: seq<Step>, t: Trouble, x: Trouble) returns (all: seq<Step>)
    requires NoAbort(steps) && AllFit(w, ReportBodies(t)) && Fits(w, ExportFailure(x.error))
    requires |t.archive| >= ARCHIVE_LIMIT
    requires var s := Exec(w, p, steps); s.guest.mode.Main? && Enabled(s, GuestCrash(t))
    ensures NoAbort(all)
    ensures var s, n := Exec(w, p, steps), Exec(w, p, all);
      && n.guest.mode.LastWords? && n.guest.script == [Send(ExportFailure(x.error))]
      && n.guest.mainDone == s.guest.mainDone && Finished(n) && !Enabled(n, HostRecv(1))
      && History(n.guest) == History(s.guest) + ReportBodies(t) + [ExportFailure(x.error)]
  {
    ExecNext(w, p, steps, GuestCrash(t));
    NoAbortNext(steps, GuestCrash(t));
    ReportRuns(w, t);
    var told := RunOut(w, p, steps + [GuestCrash(t)], |ReportBodies(t)|);
    ExecNext(w, p, told, GuestAdvance(x));
    NoAbortNext(told, GuestAdvance(x));
    CheckRaises(w, Exec(w, p, told), t, x);
    var ended := RunOut(w, p, told + [GuestAdvance(x)], 1);
    LastWord(Exec(w, p, ended).guest, x);
    all := ReadDown(w, p, ended);
  }

  lemma CheckRaises(w: World, s: Sys, t: Trouble, x: Trouble)
    requires s.guest.mode.Handler? && s.guest.script == RescueScript(w, t) && s.guest.outgoing == []
    requires s.guest.pc == s.guest.rescueFrom == |ReportBodies(t)| && |t.archive| >= ARCHIVE_LIMIT
    ensures var g, n := s.guest, Apply(w, s, GuestAdvance(x)).guest;
      && n.mode.LastWords? && n.script == [Send(ExportFailure(x.error))] && n.pc == 0 && n.outgoing == []
      && n.mainDone == g.mainDone && n.before == g.before + ReportBodies(t)
  {
    CheckAt(w, t);
    RescueFront(w, t, s.guest.pc);
    assert ReportBodies(t) + ExportBodies(w, t.archive)[..0] == ReportBodies(t);
  }

  lemma LastWord(g: Guest, x: Trouble)
    requires g.script == [Send(ExportFailure(x.error))] && g.pc == 1
    ensures History(g) == g.before + [ExportFailure(x.error)]
  {
    BodiesStep(g.script, 0);
    assert g.script[..0] == [] && BodiesOf(g.script[..0]) == [];
    assert g.before + ([] + [ExportFailure(x.error)]) == g.before + [ExportFailure(x.error)];
  }

  /** So a coordinator can end without the evidence and without an exception: it is told of both failures, and of
      the archive nothing was sent. Any job can go so, at its first message. */
  lemma EvidenceTooLarge(w: World, p: Plan, t: Trouble, x: Trouble) returns (all: seq<Step>)
    requires Faithful(w) && PlanOk(p) && AllFit(w, ReportBodies(t)) && Fits(w, ExportFailure(x.error))
    requires |t.archive| >= ARCHIVE_LIMIT
    ensures NoAbort(all)
    ensures var s := Exec(w, p, all);
      && s.guest.mode.LastWords? && Finished(s) && !Enabled(s, HostRecv(1))
      && History(s.guest) == ReportBodies(t) + [ExportFailure(x.error)]
      && Confessed(t, x.error, s.host.job)
  {
    var none: seq<Step> := [];
    FirstIsSend(w, p);
    all := OversizeRun(w, p, none, t, x);
    assert Start(w, p).guest.script[..0] == [];
    var u, e := ExportFailureIsReportedIff(w, p, all, x.error);
    assert Exec(w, p, none) == Start(w, p) && MainSent(w, p, 0) == [];
    assert [] + ReportBodies(t) == ReportBodies(t);
    NoneOfTheArchive(w, t, u, e, x.error);
    assert ConfessionArrives(w, p, 0, u, 0);
    SameTrouble(t, u);
  }

  lemma SameTrouble(t: Trouble, u: Trouble)
    requires ReportBodies(t)[0] == ReportBodies(u)[0]
    ensures Last(t.error, ERROR_LIMIT) == Last(u.error, ERROR_LIMIT)
  {
    assert ReportBodies(t)[0] == FailureOf(t) && ReportBodies(u)[0] == FailureOf(u);
  }

  lemma NoneOfTheArchive(w: World, t: Trouble, u: Trouble, e: nat, x: string)
    requires e < |ExportBodies(w, u.archive)|
    requires ReportBodies(t) + [ExportFailure(x)] == [] + PartialBodies(w, u, e) + [ExportFailure(x)]
    ensures e == 0 && ReportBodies(t)[0] == ReportBodies(u)[0]
  {
    var told, part := ReportBodies(t) + [ExportFailure(x)], PartialBodies(w, u, e);
    assert told[..|told| - 1] == ReportBodies(t) && ([] + part + [ExportFailure(x)])[..|part|] == part;
    assert ReportBodies(t) == part;
    PartEndsInArchive(w, u, e);
  }

  lemma PartEndsInArchive(w: World, u: Trouble, e: nat)
    requires e < |ExportBodies(w, u.archive)|
    ensures e > 0 ==> PartialBodies(w, u, e)[|PartialBodies(w, u, e)| - 1].Archive?()
  {
    ExportIsArchive(w, u.archive);
    if e > 0 {
      assert PartialBodies(w, u, e)[|PartialBodies(w, u, e)| - 1] == ExportBodies(w, u.archive)[e - 1];
    }
  }

  lemma FirstIsSend(w: World, p: Plan)
    ensures |MainScript(w, p)| >= 2 && MainScript(w, p)[0].Send?
  {}

  // ----- Success with a failure reported -----

  /** All but the claim has been sent, handled and answered as far as it can be. */
  ghost predicate BeforeTheClaim(w: World, p: Plan, s: Sys) {
    && Trying(w, p, s.guest) && s.guest.mainDone == |MainScript(w, p)| - 2 && s.guest.outgoing == [] && s.up == []
    && s.host.buffer == [] && !s.host.Stopped()
  }

  lemma QuietFrontStands(w: World, p: Plan, n: nat)
    requires Healthy(w, p) && n < |MainBodies(w, p)|
    ensures var j := AfterBodies(w, MainBodies(w, p)[..n]); !j.raised && !j.complete
  {
    NothingRaises(w, p, n);
    QuietFront(w, p, n);
    QuietTranscript(w, MainBodies(w, p)[..n]);
  }

  lemma SentBeforeClaim(w: World, p: Plan)
    ensures var main := MainScript(w, p);
      && |main| >= 2 && main[|main| - 2] == Send(Complete) && main[|main| - 1] == Receive(Shutdown)
      && BodiesOf(main[..|main| - 2]) + [Complete] == BodiesOf(main[..|main| - 1]) == MainBodies(w, p)
  {
    MainEnd(w, p);
    MainEndsReading(w, p);
    ClaimAtEnd(w, p);
    BodiesStep(MainScript(w, p), |MainScript(w, p)| - 2);
  }

  lemma ClaimAtEnd(w: World, p: Plan)
    ensures |MainScript(w, p)| >= 2
    ensures BodiesOf(MainScript(w, p)[..|MainScript(w, p)| - 1]) == MainBodies(w, p)
  {
    MainShape(w, p);
  }

  lemma NotStopped(w: World, p: Plan, s: Sys)
    requires Healthy(w, p) && Normal(w, p, s) && s.guest.mainDone == |MainScript(w, p)| - 2
    ensures !s.host.Stopped()
    ensures |History(s.guest)| + 1 == |MainBodies(w, p)| && History(s.guest) + [Complete] == MainBodies(w, p)
  {
    SentBeforeClaim(w, p);
    MainHistory(w, p, s.guest);
    HistoryShape(w, p, s.guest);
    HostFollows(w, s);
    FrontFact(History(s.guest), MainBodies(w, p), Seen(s));
    QuietFrontStands(w, p, Seen(s));
  }

  lemma FrontFact(hist: seq<Body>, bodies: seq<Body>, n: nat)
    requires hist + [Complete] == bodies && n <= |hist|
    ensures hist[..n] == bodies[..n]
  {}

  lemma ReachClaim(w: World, p: Plan) returns (steps: seq<Step>)
    requires Healthy(w, p)
    ensures AllFair(steps) && BeforeTheClaim(w, p, Exec(w, p, steps))
    ensures History(Exec(w, p, steps).guest) + [Complete] == MainBodies(w, p)
  {
    SentBeforeClaim(w, p);
    var none: seq<Step> := [];
    var sent := RunTo(w, p, none, |MainScript(w, p)| - 2);
    steps := ReadDown(w, p, sent);
    NormalAlways(w, p, steps);
    ReadBeforeClaim(w, p, Exec(w, p, steps));
  }

  lemma ReadBeforeClaim(w: World, p: Plan, s: Sys)
    requires Healthy(w, p) && Normal(w, p, s) && Trying(w, p, s.guest) && s.guest.outgoing == []
    requires s.guest.mainDone == |MainScript(w, p)| - 2 && !Enabled(s, HostRecv(1))
    ensures BeforeTheClaim(w, p, s) && History(s.guest) + [Complete] == MainBodies(w, p)
  {
    NotStopped(w, p, s);
    NothingInFlight(s);
    EmptyBuffer(w, p, s);
  }

  lemma NothingInFlight(s: Sys)
    requires !s.host.Stopped() && !Enabled(s, HostRecv(1))
    ensures s.up == []
  {}

  lemma EmptyBuffer(w: World, p: Plan, s: Sys)
    requires Healthy(w, p) && Normal(w, p, s) && s.up == [] && s.guest.outgoing == []
    ensures s.host.buffer == []
  {
    AllDelivered(w, p, s);
  }

  /** The claim is written, and read up to its newline. */
  lemma ClaimHalfRead(w: World, p: Plan, s: Sys, t: Trouble)
    requires Faithful(w) && BeforeTheClaim(w, p, s) && Fits(w, Complete) && w.text(Complete) != []
    ensures var line := Line(w.text(Complete));
      var n := Apply(w, Apply(w, Apply(w, s, GuestAdvance(t)), GuestWrite(|line|)), HostRecv(|line| - 1));
      && n.host == s.host.(buffer := w.text(Complete)) && n.up == [LF] && n.guest == s.guest.Next()
  {
    SentBeforeClaim(w, p);
    var text := w.text(Complete);
    assert Sendable(Complete) && LF !in text;
    var one := Apply(w, s, GuestAdvance(t));
    assert one.guest == s.guest.Next().(outgoing := Line(text));
    var two := Apply(w, one, GuestWrite(|Line(text)|));
    assert two.up == Line(text) && two.guest.outgoing == [] && two.host == s.host;
    ReadsWithoutNewline(w, two, text);
  }

  lemma ReadsWithoutNewline(w: World, s: Sys, text: seq<Byte>)
    requires s.up == Line(text) && LF !in text && 0 < |text| < READ_LIMIT && s.host.buffer == [] && !s.host.Stopped()
    ensures var n := Apply(w, s, HostRecv(|text|));
      n.host == s.host.(buffer := text) && n.up == [LF] && n.guest == s.guest
  {
    assert s.up[..|text|] == text && s.up[|text|..] == [LF] && [] + text == text;
  }

  /** The read of the shutdown raises, and the failure is written. */
  lemma FailureWritten(w: World, s: Sys, t: Trouble)
    requires s.guest.mode.Main? && s.guest.Idle() && s.guest.script[s.guest.pc].Receive?
    requires Fits(w, FailureOf(t))
    ensures var line := Line(w.text(FailureOf(t)));
      var n := Apply(w, Apply(w, Apply(w, s, GuestReadFails(t)), GuestAdvance(t)), GuestWrite(|line|));
      && n.host == s.host && n.up == s.up + line && n.guest.outgoing == []
      && History(n.guest) == History(s.guest) + [FailureOf(t)]
  {
    var failed := Apply(w, s, GuestReadFails(t));
    CheckAt(w, t);
    assert ReportBodies(t)[0] == FailureOf(t);
    CrashKeepsHistory(w, s.guest, t);
    NextHistory(failed.guest);
    var sending := Apply(w, failed, GuestAdvance(t));
    SameHistory(failed.guest.Next(), sending.guest);
    var line := Line(w.text(FailureOf(t)));
    assert line[..|line|] == line;
    SameHistory(sending.guest, Apply(w, sending, GuestWrite(|line|)).guest);
  }

  /** The whole transcript of the main messages and a failure. */
  lemma ClaimThenFailure(w: World, p: Plan, f: Body, n: nat)
    requires Healthy(w, p) && f.Failure? && n <= |MainBodies(w, p)| + 1
    ensures !AfterBodies(w, (MainBodies(w, p) + [f])[..n]).raised
    ensures n == |MainBodies(w, p)| + 1 ==>
      var j := AfterBodies(w, (MainBodies(w, p) + [f])[..n]); j.report.status == Observed && j.failed
  {
    var bodies := MainBodies(w, p);
    if n <= |bodies| {
      assert (bodies + [f])[..n] == bodies[..n];
      NothingRaises(w, p, n);
    } else {
      assert (bodies + [f])[..n] == bodies + [f] && bodies[..|bodies|] == bodies;
      NothingRaises(w, p, |bodies|);
      CompletedMain(w, p);
      BodiesNext(w, bodies, f);
    }
  }

  /** A coordinator that has everything before it has handled it. */
  lemma AllHandled(w: World, p: Plan, s: Sys, f: Body)
    requires Healthy(w, p) && f.Failure? && Inv(w, p, s) && s.host.job == After(w, s.host.lines)
    requires History(s.guest) == MainBodies(w, p) + [f] && s.up == [] && s.guest.outgoing == []
    ensures s.host.job.report.status == Observed && s.host.job.failed
  {
    var hist, n := History(s.guest), Seen(s);
    HistoryShape(w, p, s.guest);
    HostFollows(w, s);
    ClaimThenFailure(w, p, f, n);
    AllDelivered(w, p, s);
    assert hist[..|hist|] == hist;
    ClaimThenFailure(w, p, f, |hist|);
  }

  /** "Success means that no failure was reported" is false of every healthy job: let the read of the shutdown raise
      while the newline of the claim is still unread, and let one read bring that newline and the report of the
      failure. The status is success, the failure flag is set. */
  lemma SuccessWithFailure(w: World, p: Plan, t: Trouble) returns (all: seq<Step>)
    requires Healthy(w, p) && w.text(Complete) != [] && Fits(w, FailureOf(t))
    ensures NoAbort(all)
    ensures Exec(w, p, all).host.job.report.status == Observed && Exec(w, p, all).host.job.failed
  {
    var steps := ReachClaim(w, p);
    FairIsNoAbort(steps);
    var s := Exec(w, p, steps);
    ClaimFits(w, p);
    all := FailAfterClaim(w, p, steps, t);
    InvAlways(w, p, all);
    JobFollowsLines(w, p, all);
    AllHandled(w, p, Exec(w, p, all), FailureOf(t));
  }

  lemma ClaimFits(w: World, p: Plan)
    requires Healthy(w, p)
    ensures Fits(w, Complete)
  {
    assert MainBodies(w, p)[|MainBodies(w, p)| - 1] == Complete;
  }

  lemma Three(w: World, p: Plan, steps: seq<Step>, a: Step, b: Step, c: Step) returns (all: seq<Step>)
    requires NoAbort(steps) && !a.HostAbort? && !b.HostAbort? && !c.HostAbort?
    ensures NoAbort(all) && Exec(w, p, all) == Apply(w, Apply(w, Apply(w, Exec(w, p, steps), a), b), c)
  {
    ExecNext(w, p, steps, a);
    ExecNext(w, p, steps + [a], b);
    ExecNext(w, p, steps + [a] + [b], c);
    NoAbortNext(steps, a);
    NoAbortNext(steps + [a], b);
    NoAbortNext(steps + [a] + [b], c);
    all := steps + [a] + [b] + [c];
  }

  lemma FailAfterClaim(w: World, p: Plan, steps: seq<Step>, t: Trouble) returns (all: seq<Step>)
    requires Faithful(w) && NoAbort(steps) && BeforeTheClaim(w, p, Exec(w, p, steps))
    requires History(Exec(w, p, steps).guest) + [Complete] == MainBodies(w, p)
    requires Fits(w, Complete) && w.text(Complete) != [] && Fits(w, FailureOf(t))
    ensures NoAbort(all)
    ensures var n := Exec(w, p, all);
      n.up == [] && n.guest.outgoing == [] && History(n.guest) == MainBodies(w, p) + [FailureOf(t)]
  {
    var claim, report := Line(w.text(Complete)), Line(w.text(FailureOf(t)));
    var s := Exec(w, p, steps);
    ClaimHalfRead(w, p, s, t);
    var half := Three(w, p, steps, GuestAdvance(t), GuestWrite(|claim|), HostRecv(|claim| - 1));
    SentBeforeClaim(w, p);
    NextHistory(s.guest);
    FailureWritten(w, Exec(w, p, half), t);
    var told := Three(w, p, half, GuestReadFails(t), GuestAdvance(t), GuestWrite(|report|));
    ExecNext(w, p, told, HostRecv(1 + |report|));
    NoAbortNext(told, HostRecv(1 + |report|));
    all := told + [HostRecv(1 + |report|)];
    TakesAll(w, Exec(w, p, told));
  }

  lemma TakesAll(w: World, s: Sys)
    requires Enabled(s, HostRecv(|s.up|))
    ensures var n := Apply(w, s, HostRecv(|s.up|)); n.up == [] && n.guest == s.guest
  {}
}
