/** Total correctness of a job without faults: every schedule ends, and it ends with the archive delivered
    and success reported. */
module JobProgress {
  import opened Framing
  import opened Wrappers
  import opened HostJob
  import opened HostTranscript
  import opened GuestJob
  import opened JobChannel
  import opened JobScript
  import opened JobWire
  import opened JobInvariant
  import opened JobGuarantees
  import opened JobTransfer

  /** No exception from outside the protocol. */
  predicate Fair(step: Step) {
    step.GuestAdvance? || step.GuestWrite? || step.HostRecv?
  }

  ghost predicate AllFair(steps: seq<Step>) {
    forall i :: 0 <= i < |steps| ==> Fair(steps[i])
  }

  /** The job can succeed: replies go out, the observation is admissible, the archive has an allowed size and
      every frame fits the guest's limit. */
  ghost predicate Healthy(w: World, p: Plan) {
    && Faithful(w) && PlanOk(p) && (forall n: nat :: w.sendOk(n))
    && Admissible(w.binding, p.observation)
    && 0 < |p.archive| < ARCHIVE_LIMIT
    && AllFit(w, MainBodies(w, p))
  }

  lemma ExportIsSealed(w: World, archive: seq<Byte>)
    requires 0 < |archive| < ARCHIVE_LIMIT
    ensures Sealed(w, ExportBodies(w, archive))
  {
    var part, count := ExportBodies(w, archive), ChunkCount(|archive|);
    var front := part[..|part| - 1];
    var chunks := ChunkBodies(archive, count);
    PayloadOfChunks(archive, count);
    WholePayload(archive);
    assert front[1..] == chunks && part[1..|part| - 1] == chunks;
    assert front[0] == part[0] == ArchiveStart(|archive|, w.digest(archive));
    forall i | 1 <= i < |front|
      ensures IsChunk(front[i], i - 1)
    {
      assert front[i] == chunks[i - 1];
    }
  }

  lemma {:induction false} FrontIsWellFormed(w: World, bodies: seq<Body>, n: nat)
    requires n <= |bodies| && WellFormed(w, ArchivePart(bodies))
    ensures WellFormed(w, ArchivePart(bodies[..n]))
    decreases |bodies| - n
  {
    if n == |bodies| {
      assert bodies[..n] == bodies;
    } else {
      FrontIsWellFormed(w, bodies, n + 1);
      assert bodies[..n + 1] == bodies[..n] + [bodies[n]];
      PartStep(bodies[..n], bodies[n]);
      if bodies[n].Archive?() {
        WellFormedFront(w, ArchivePart(bodies[..n]), bodies[n]);
      }
    }
  }

  lemma MainIsAdmitted(w: World, p: Plan, n: nat)
    requires Healthy(w, p) && n <= |MainBodies(w, p)|
    ensures Admitted(w, MainBodies(w, p)[..n])
  {
    MainBodiesShape(w, p);
  }

  /** A healthy job gives the coordinator no reason to raise, at any point. */
  lemma NothingRaises(w: World, p: Plan, n: nat)
    requires Healthy(w, p) && n <= |MainBodies(w, p)|
    ensures !AfterBodies(w, MainBodies(w, p)[..n]).raised
  {
    var bodies := MainBodies(w, p);
    var last := |bodies| - 1;
    MainArchivePart(w, p);
    ExportIsSealed(w, p.archive);
    if n <= last {
      FrontNeverRaisesQuiet(w, p, n);
    } else {
      assert bodies[..n] == bodies;
      MainLast(w, p);
      QuietFront(w, p, last);
      MainIsAdmitted(w, p, last);
      AcceptedMain(w, p);
    }
  }

  lemma FrontNeverRaisesQuiet(w: World, p: Plan, n: nat)
    requires Healthy(w, p) && n < |MainBodies(w, p)|
    requires Sealed(w, ArchivePart(MainBodies(w, p)[..|MainBodies(w, p)| - 1]))
    ensures !AfterBodies(w, MainBodies(w, p)[..n]).raised
  {
    var bodies := MainBodies(w, p);
    FrontIsWellFormed(w, bodies[..|bodies| - 1], n);
    assert bodies[..|bodies| - 1][..n] == bodies[..n];
    MainIsAdmitted(w, p, n);
    QuietFront(w, p, n);
    QuietTranscript(w, bodies[..n]);
  }

  /** The states a fault-free job goes through. */
  ghost predicate Normal(w: World, p: Plan, s: Sys) {
    Inv(w, p, s) && s.guest.mode.Main? && !s.host.job.raised
  }

  lemma MainChecks(w: World, p: Plan, i: nat)
    requires i < |MainScript(w, p)|
    ensures MainScript(w, p)[i].Check? ==> MainScript(w, p)[i].ok == (|p.archive| < ARCHIVE_LIMIT)
  {
    var front := SendAll(p.setup) + [Send(HostReady(p.observation)), Receive(Admit)] + SendAll(p.matrix);
    var exported := SendAll(ExportBodies(w, p.archive));
    assert MainScript(w, p)
        == front + [Check(|p.archive| < ARCHIVE_LIMIT)] + exported + [Send(Complete), Receive(Shutdown)];
    if |front| < i <= |front| + |exported| {
      assert MainScript(w, p)[i] == exported[i - |front| - 1];
    } else if i < |front| {
      assert MainScript(w, p)[i] == front[i];
    }
  }

  lemma MainSends(w: World, p: Plan, i: nat)
    requires Healthy(w, p) && i < |MainScript(w, p)| && MainScript(w, p)[i].Send?
    ensures Fits(w, MainScript(w, p)[i].body)
  {
    var main := MainScript(w, p);
    MainShape(w, p);
    BodiesStep(main, i);
    FrontOfBodies(main, i + 1);
    var bodies := BodiesOf(main[..i + 1]);
    assert bodies[|bodies| - 1] == main[i].body == MainBodies(w, p)[|bodies| - 1];
  }

  lemma NormalOnAdvance(w: World, p: Plan, s: Sys, t: Trouble)
    requires Healthy(w, p) && Normal(w, p, s) && Enabled(s, GuestAdvance(t))
    ensures Normal(w, p, Advance(w, s, t))
    ensures Advance(w, s, t).guest.pc == s.guest.pc + 1 && Advance(w, s, t).guest.script == s.guest.script
    ensures Advance(w, s, t).up == s.up
    ensures Advance(w, s, t).guest.outgoing
         == if s.guest.script[s.guest.pc].Send? then Line(w.text(s.guest.script[s.guest.pc].body)) else []
  {
    InvOnAdvance(w, p, s, t);
    AdvanceMoves(w, p, s, t);
  }

  /** In a healthy job every instruction is done when it is its turn. */
  lemma AdvanceMoves(w: World, p: Plan, s: Sys, t: Trouble)
    requires Healthy(w, p) && Normal(w, p, s) && Enabled(s, GuestAdvance(t))
    ensures var g, n := s.guest, Advance(w, s, t);
      && n.guest.mode.Main? && n.guest.pc == g.pc + 1 && n.guest.script == g.script
      && n.up == s.up && n.host == s.host
      && n.guest.outgoing == if g.script[g.pc].Send? then Line(w.text(g.script[g.pc].body)) else []
  {
    InstrReady(w, p, s.guest.pc);
    if s.guest.script[s.guest.pc].Receive? {
      ReadMoves(w, p, s, t);
    } else {
      DoneAtOnce(w, s, t);
    }
  }

  lemma InstrReady(w: World, p: Plan, i: nat)
    requires Healthy(w, p)
    ensures i < |MainScript(w, p)| && MainScript(w, p)[i].Send? ==> Fits(w, MainScript(w, p)[i].body)
    ensures i < |MainScript(w, p)| && MainScript(w, p)[i].Check? ==> MainScript(w, p)[i].ok
  {
    if i < |MainScript(w, p)| {
      MainChecks(w, p, i);
      if MainScript(w, p)[i].Send? {
        MainSends(w, p, i);
      }
    }
  }

  lemma ReadMoves(w: World, p: Plan, s: Sys, t: Trouble)
    requires Healthy(w, p) && Normal(w, p, s) && Enabled(s, GuestAdvance(t)) && s.guest.script[s.guest.pc].Receive?
    ensures var g, n := s.guest, Advance(w, s, t);
      && n.guest.mode.Main? && n.guest.pc == g.pc + 1 && n.guest.script == g.script
      && n.up == s.up && n.host == s.host && n.guest.outgoing == []
  {
    RepliesOnRead(w, p, s, t);
  }

  lemma DoneAtOnce(w: World, s: Sys, t: Trouble)
    requires s.guest.Idle() && s.guest.mode.Main? && !s.guest.script[s.guest.pc].Receive?
    requires s.guest.script[s.guest.pc].Send? ==> Fits(w, s.guest.script[s.guest.pc].body)
    requires s.guest.script[s.guest.pc].Check? ==> s.guest.script[s.guest.pc].ok
    ensures var g, n := s.guest, Advance(w, s, t);
      && n.guest.mode.Main? && n.guest.pc == g.pc + 1 && n.guest.script == g.script
      && n.up == s.up && n.host == s.host
      && n.guest.outgoing == if g.script[g.pc].Send? then Line(w.text(g.script[g.pc].body)) else []
  {}

  lemma SeenNeverRaises(w: World, p: Plan, s: Sys)
    requires Healthy(w, p) && Inv(w, p, s) && s.guest.mode.Main?
    ensures !After(w, s.host.lines).raised
  {
    HistoryShape(w, p, s.guest);
    HostFollows(w, s);
    MainFront(w, p, s.guest);
    FrontNeverRaises(w, p, History(s.guest), Seen(s));
  }

  lemma FrontNeverRaises(w: World, p: Plan, hist: seq<Body>, n: nat)
    requires Healthy(w, p) && hist <= MainBodies(w, p) && n <= |hist|
    ensures !AfterBodies(w, hist[..n]).raised
  {
    assert hist[..n] == MainBodies(w, p)[..n];
    NothingRaises(w, p, n);
  }

  lemma NormalOnRecv(w: World, p: Plan, s: Sys, n: nat)
    requires n <= |s.up| && Healthy(w, p) && Normal(w, p, s) && Enabled(s, HostRecv(n))
    ensures Normal(w, p, Deliver(w, s, n))
  {
    InvOnRecv(w, p, s, n);
    BufferIsOneLine(w, p, s);
    DrainReceives(w, s.host.(buffer := s.host.buffer + s.up[..n]));
    SeenNeverRaises(w, p, Deliver(w, s, n));
  }

  lemma MainFront(w: World, p: Plan, g: Guest)
    requires ScriptKept(w, p, g) && g.mode.Main?
    ensures History(g) <= MainBodies(w, p)
  {
    MainShape(w, p);
    FrontOfBodies(MainScript(w, p), g.pc);
    assert History(g) == BodiesOf(MainScript(w, p)[..g.pc]);
  }

  lemma NormalOnStep(w: World, p: Plan, s: Sys, step: Step)
    requires Healthy(w, p) && Normal(w, p, s) && Fair(step)
    ensures Normal(w, p, Apply(w, s, step))
  {
    if Enabled(s, step) {
      match step {
        case GuestAdvance(t) => NormalOnAdvance(w, p, s, t);
        case GuestWrite(n) => InvOnStep(w, p, s, step);
        case HostRecv(n) => NormalOnRecv(w, p, s, n);
      }
    }
  }

  lemma {:induction false} NormalAlways(w: World, p: Plan, steps: seq<Step>)
    requires Healthy(w, p) && AllFair(steps)
    ensures Normal(w, p, Exec(w, p, steps))
    decreases |steps|
  {
    if steps == [] {
      InvAtStart(w, p);
    } else {
      var front := steps[..|steps| - 1];
      NormalAlways(w, p, front);
      NormalOnStep(w, p, Exec(w, p, front), steps[|steps| - 1]);
    }
  }

  // ----- Every schedule ends -----

  /** Bytes still to be written count twice, bytes in flight once, instructions once more. */
  function Cost(w: World, instr: Instr): nat {
    if instr.Send? then 2 * (|w.text(instr.body)| + 1) + 1 else 1
  }

  function CostOf(w: World, script: seq<Instr>): nat {
    if script == [] then 0 else Cost(w, script[0]) + CostOf(w, script[1..])
  }

  function WorkLeft(w: World, s: Sys): nat
    requires s.guest.pc <= |s.guest.script|
  {
    CostOf(w, s.guest.script[s.guest.pc..]) + 2 * |s.guest.outgoing| + |s.up|
  }

  lemma WorkDecreases(w: World, p: Plan, s: Sys, step: Step)
    requires Healthy(w, p) && Normal(w, p, s) && Fair(step) && Enabled(s, step)
    ensures var next := Apply(w, s, step);
      next.guest.pc <= |next.guest.script| && WorkLeft(w, next) < WorkLeft(w, s)
  {
    match step {
      case GuestAdvance(t) =>
        NormalOnAdvance(w, p, s, t);
        var rest := s.guest.script[s.guest.pc..];
        assert rest[1..] == s.guest.script[s.guest.pc + 1..];
      case GuestWrite(n) =>
      case HostRecv(n) =>
    }
  }

  /** The main script has run to its end and everything is written. */
  predicate Finished(s: Sys) {
    s.guest.pc == |s.guest.script| && s.guest.outgoing == []
  }

  /** A job that is not finished can always go on without a fault. */
  lemma Progress(w: World, p: Plan, steps: seq<Step>) returns (step: Step)
    requires Healthy(w, p) && AllFair(steps) && !Finished(Exec(w, p, steps))
    ensures Fair(step) && Enabled(Exec(w, p, steps), step)
  {
    var s := Exec(w, p, steps);
    NormalAlways(w, p, steps);
    var t := Trouble("", "", None, []);
    if s.guest.outgoing != [] {
      step := GuestWrite(1);
    } else if s.guest.script[s.guest.pc].Receive? && LF !in s.down {
      NoStuckReceive(w, p, steps);
      step := HostRecv(1);
    } else {
      step := GuestAdvance(t);
    }
  }

  lemma {:induction false} ShutdownMeansObserved(w: World, bodies: seq<Body>)
    ensures Shutdown in AfterBodies(w, bodies).sent ==>
      AfterBodies(w, bodies).report.status == Observed && AfterBodies(w, bodies).complete
    decreases |bodies|
  {
    if bodies != [] {
      ShutdownMeansObserved(w, bodies[..|bodies| - 1]);
      ShutdownStep(w, AfterBodies(w, bodies[..|bodies| - 1]), bodies[|bodies| - 1]);
    }
  }

  lemma ShutdownStep(w: World, j: Job, b: Body)
    requires Shutdown in j.sent ==> j.report.status == Observed && j.complete
    ensures var h := Handle(w, j, b); Shutdown in h.sent ==> h.report.status == Observed && h.complete
  {
    AnswerStep(w, j, b);
  }

  lemma LastRead(script: seq<Instr>)
    requires script != [] && script[|script| - 1].Receive?
    ensures ReadsOf(script) == ReadsOf(script[..|script| - 1]) + 1
  {}

  lemma MainReadsTwo(w: World, p: Plan)
    ensures ReadsOf(MainScript(w, p)) == 2
  {
    MainShape(w, p);
    MainEndsReading(w, p);
    LastRead(MainScript(w, p));
  }

  /** A script run to its end has read both replies. */
  lemma BothRead(w: World, p: Plan, g: Guest)
    requires ScriptKept(w, p, g) && g.mode.Main? && g.pc == |g.script|
    ensures g.taken == 2
  {
    MainReadsTwo(w, p);
    assert g.script[..g.pc] == g.script;
  }

  lemma BothSent(w: World, s: Sys)
    requires RepliesKept(w, s) && s.guest.taken == 2
    ensures Shutdown in s.host.job.sent
  {
    assert s.host.job.sent[1] == Expected(1);
  }

  lemma FinishedState(w: World, p: Plan, s: Sys)
    requires Healthy(w, p) && Normal(w, p, s) && Finished(s)
    ensures s.host.job.report.status == Observed && s.host.job.complete
  {
    BothRead(w, p, s.guest);
    BothSent(w, s);
    HistoryShape(w, p, s.guest);
    JobIsSeen(w, s);
    ShutdownMeansObserved(w, History(s.guest)[..Seen(s)]);
  }

  /** A finished job ended well on both sides. */
  lemma FinishedMeansObserved(w: World, p: Plan, steps: seq<Step>)
    requires Healthy(w, p) && AllFair(steps) && Finished(Exec(w, p, steps))
    ensures var s := Exec(w, p, steps); s.host.job.report.status == Observed && s.host.job.complete
  {
    NormalAlways(w, p, steps);
    FinishedState(w, p, Exec(w, p, steps));
  }

  lemma MainEndsReading(w: World, p: Plan)
    ensures |MainScript(w, p)| >= 2 && MainScript(w, p)[|MainScript(w, p)| - 1] == Receive(Shutdown)
  {}

  /** What a healthy job delivers. */
  ghost predicate Delivered(w: World, p: Plan, s: Sys) {
    && s.host.job.report.status == Observed && s.host.job.complete && !s.host.job.raised && !s.host.job.failed
    && s.host.job.file == Some(p.archive)
    && s.host.job.report.archive == Some(Announced(|p.archive|, w.digest(p.archive)))
    && s.host.job.report.guestReady == Some(p.observation)
  }

  /** End-to-end transfer, in total form: for every archive of one byte to 64 MiB less one, every pattern of
      partial writes and every way of cutting the stream into reads, a run that cannot go on has delivered
      the archive and reported success. */
  lemma MaximalRunsDeliver(w: World, p: Plan, steps: seq<Step>)
    requires Healthy(w, p) && AllFair(steps)
    requires forall step :: Fair(step) ==> !Enabled(Exec(w, p, steps), step)
    ensures Finished(Exec(w, p, steps)) && Delivered(w, p, Exec(w, p, steps))
  {
    if !Finished(Exec(w, p, steps)) {
      var step := Progress(w, p, steps);
      assert false;
    }
    FinishedDelivers(w, p, steps);
  }

  lemma FinishedDelivers(w: World, p: Plan, steps: seq<Step>)
    requires Healthy(w, p) && AllFair(steps) && Finished(Exec(w, p, steps))
    ensures Delivered(w, p, Exec(w, p, steps))
  {
    FinishedMeansObserved(w, p, steps);
    FairReads(w, p, steps);
    SuccessIsClean(w, p, steps);
    FinishedIsPast(w, p, steps);
    AdmissionPrecedesDispatch(w, p, steps);
  }

  lemma FairReads(w: World, p: Plan, steps: seq<Step>)
    requires AllFair(steps)
    ensures LateReads(w, p, steps)
  {
    assert forall i :: 0 <= i < |steps| ==> Fair(steps[i]);
  }

  lemma FinishedIsPast(w: World, p: Plan, steps: seq<Step>)
    requires Healthy(w, p) && AllFair(steps) && Finished(Exec(w, p, steps))
    ensures var s := Exec(w, p, steps); s.guest.mainDone > |p.setup| + 1 && !s.host.job.raised
  {
    NormalAlways(w, p, steps);
    MainShape(w, p);
  }

  /** Every step counts: no step of `steps` is disabled when it is its turn. */
  ghost predicate Effective(w: World, p: Plan, steps: seq<Step>) {
    forall i :: 0 <= i < |steps| ==> Enabled(Exec(w, p, steps[..i]), steps[i])
  }

  lemma EffectiveFront(w: World, p: Plan, steps: seq<Step>, step: Step)
    ensures Effective(w, p, steps + [step]) <==> Effective(w, p, steps) && Enabled(Exec(w, p, steps), step)
  {
    var all := steps + [step];
    assert all[..|steps|] == steps && all[|steps|] == step;
    assert forall i :: 0 <= i < |steps| ==> all[..i] == steps[..i] && all[i] == steps[i];
  }

  /** And no run goes on for ever: its effective steps are bounded by the work there was at the start. */
  lemma {:induction false} RunsAreShort(w: World, p: Plan, steps: seq<Step>)
    requires Healthy(w, p) && AllFair(steps) && Effective(w, p, steps)
    ensures var s := Exec(w, p, steps);
      s.guest.pc <= |s.guest.script| && |steps| + WorkLeft(w, s) <= WorkLeft(w, Start(w, p))
    decreases |steps|
  {
    if steps != [] {
      var front, step := steps[..|steps| - 1], steps[|steps| - 1];
      FrontAndLast(steps);
      EffectiveFront(w, p, front, step);
      RunsAreShort(w, p, front);
      NormalAlways(w, p, front);
      WorkDecreases(w, p, Exec(w, p, front), step);
      ExecNext(w, p, front, step);
    }
  }

  lemma FrontAndLast(steps: seq<Step>)
    requires steps != []
    ensures steps[..|steps| - 1] + [steps[|steps| - 1]] == steps
  {}

  lemma ExecNext(w: World, p: Plan, steps: seq<Step>, step: Step)
    ensures Exec(w, p, steps + [step]) == Apply(w, Exec(w, p, steps), step)
  {
    assert (steps + [step])[..|steps|] == steps;
  }

  /** Every fault-free run can be carried on to delivery. */
  lemma {:induction false} EveryRunCanDeliver(w: World, p: Plan, steps: seq<Step>) returns (all: seq<Step>)
    requires Healthy(w, p) && AllFair(steps) && Effective(w, p, steps)
    ensures steps <= all && AllFair(all) && Effective(w, p, all)
    ensures Delivered(w, p, Exec(w, p, all))
    decreases WorkLeft(w, Start(w, p)) - |steps|
  {
    if Finished(Exec(w, p, steps)) {
      FinishedDelivers(w, p, steps);
      all := steps;
    } else {
      var step := Progress(w, p, steps);
      var next := steps + [step];
      EffectiveFront(w, p, steps, step);
      RunsAreShort(w, p, next);
      all := EveryRunCanDeliver(w, p, next);
    }
  }
}
