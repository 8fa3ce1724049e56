/** What success means in every run of the two programs together: the archive arrived as it was, and the failure
    flag tells whether anything came after the completion claim. */
module JobTransfer {
  import opened Framing
  import opened Wrappers
  import opened HostJob
  import opened HostTranscript
  import opened GuestJob
  import opened JobChannel
  import opened JobScript
  import opened JobWire
  import opened JobInvariant
  import opened JobGuarantees
  import opened JobHandler
  import HostVerdict

  // ----- What the coordinator has seen when it reports success -----

  lemma ObservedAt(w: World, bodies: seq<Body>) returns (at: nat)
    requires AfterBodies(w, bodies).report.status == Observed
    ensures Completes(w, bodies, at) && at < |bodies| && bodies[at].Complete?
  {
    ObservedIff(w, bodies);
    at :| Completes(w, bodies, at);
  }

  lemma ClaimSeen(w: World, p: Plan, s: Sys) returns (at: nat)
    requires Faithful(w) && PlanOk(p) && Inv(w, p, s) && s.host.job.report.status == Observed
    ensures Seen(s) <= |History(s.guest)| && at < Seen(s)
    ensures Completes(w, History(s.guest)[..Seen(s)], at) && History(s.guest)[at].Complete?
  {
    HistoryShape(w, p, s.guest);
    JobIsSeen(w, s);
    at := ObservedAt(w, History(s.guest)[..Seen(s)]);
  }

  lemma ClaimPlace(w: World, p: Plan, g: Guest, at: nat)
    requires PlanOk(p) && ScriptKept(w, p, g) && at < |History(g)| && History(g)[at].Complete?
    ensures at == |MainBodies(w, p)| - 1 && MainBodies(w, p) <= History(g)
    ensures g.mainDone >= |MainScript(w, p)| - 1
  {
    HistoryShape(w, p, g);
  }

  /** A coordinator that reports success has seen the guest's main messages, all of them and first. */
  lemma ObservedSawMain(w: World, p: Plan, s: Sys)
    requires Faithful(w) && PlanOk(p) && Inv(w, p, s) && s.host.job.report.status == Observed
    ensures |MainBodies(w, p)| <= Seen(s) <= |History(s.guest)| && MainBodies(w, p) <= History(s.guest)
    ensures Completes(w, MainBodies(w, p), |MainBodies(w, p)| - 1)
    ensures s.guest.mainDone >= |MainScript(w, p)| - 1
  {
    var at := ClaimSeen(w, p, s);
    ClaimPlace(w, p, s.guest, at);
    FrontCompletes(w, History(s.guest), MainBodies(w, p), Seen(s), at);
  }

  lemma FrontCompletes(w: World, hist: seq<Body>, bodies: seq<Body>, n: nat, at: nat)
    requires n <= |hist| && bodies <= hist && at < n && at + 1 == |bodies| && Completes(w, hist[..n], at)
    ensures Completes(w, bodies, at)
  {
    assert hist[..n][..at + 1] == bodies;
    CompletesInFront(w, hist[..n], at + 1, at);
  }

  lemma LinesAreTexts(w: World, s: Sys)
    requires Faithful(w) && WireKept(w, s) && HistorySendable(s)
    ensures Seen(s) <= |History(s.guest)| && s.host.lines == Texts(w, History(s.guest)[..Seen(s)])
  {
    var hist, n := History(s.guest), Seen(s);
    TextsAreAuthentic(w, hist);
    PrefixOfJoin(Texts(w, hist), s.host.lines, s.host.buffer + (s.up + s.guest.outgoing));
  }

  /** The lines of the main messages, and the coordinator's state after them. */
  lemma MainLines(w: World, p: Plan, lines: seq<seq<Byte>>)
    requires Faithful(w) && PlanOk(p) && Texts(w, MainBodies(w, p)) <= lines
    requires Completes(w, MainBodies(w, p), |MainBodies(w, p)| - 1)
    ensures |MainBodies(w, p)| <= |lines|
    ensures var j := After(w, lines[..|MainBodies(w, p)|]);
      && j == AfterBodies(w, MainBodies(w, p)) && !j.raised && !j.failed && !j.open
      && j.file == Some(p.archive) && j.report.archive == Some(Announced(|p.archive|, w.digest(p.archive)))
  {
    var bodies := MainBodies(w, p);
    MainBodiesShape(w, p);
    TextsAreAuthentic(w, bodies);
    assert lines[..|bodies|] == Texts(w, bodies);
    AcceptedMain(w, p);
  }

  /** Whatever lines come after the main messages, the archive stays. */
  lemma ArchiveStays(w: World, p: Plan, lines: seq<seq<Byte>>)
    requires Faithful(w) && PlanOk(p) && Texts(w, MainBodies(w, p)) <= lines
    requires Completes(w, MainBodies(w, p), |MainBodies(w, p)| - 1)
    ensures After(w, lines).file == Some(p.archive)
    ensures After(w, lines).report.archive == Some(Announced(|p.archive|, w.digest(p.archive)))
  {
    MainLines(w, p, lines);
    HostVerdict.FileIsSettled(w, lines, |MainBodies(w, p)|);
  }

  lemma TextsFront(w: World, hist: seq<Body>, bodies: seq<Body>, n: nat)
    requires bodies <= hist && |bodies| <= n <= |hist|
    ensures Texts(w, bodies) <= Texts(w, hist[..n])
  {
    assert Texts(w, hist[..n])[..|bodies|] == Texts(w, bodies);
  }

  // ----- The failure flag -----

  /** What follows the main messages of a guest that sent more is the report of its failure. */
  ghost predicate FailureNext(w: World, p: Plan, g: Guest) {
    g.mainDone >= |MainScript(w, p)| - 1 && |History(g)| > |MainBodies(w, p)| ==>
      History(g)[|MainBodies(w, p)|].Failure?
  }

  lemma MoreIsFailure(w: World, p: Plan, g: Guest)
    requires PlanOk(p) && ScriptKept(w, p, g) && FailedShape(w, p, g)
    ensures FailureNext(w, p, g)
  {
    if g.mode.Main? {
      MainIsAll(w, p, g);
    } else if g.mainDone >= |MainScript(w, p)| - 1 {
      AllSent(w, p, g.mainDone);
      FailureLeads(w, p, g);
    }
  }

  lemma MainIsAll(w: World, p: Plan, g: Guest)
    requires ScriptKept(w, p, g) && g.mode.Main?
    ensures |History(g)| <= |MainBodies(w, p)|
  {
    MainShape(w, p);
    MainHistory(w, p, g);
    FrontOfBodies(MainScript(w, p), g.mainDone);
  }

  lemma AllSent(w: World, p: Plan, done: nat)
    requires |MainScript(w, p)| - 1 <= done < |MainScript(w, p)|
    ensures MainSent(w, p, done) == MainBodies(w, p)
  {
    MainShape(w, p);
  }

  lemma FailureNextAlways(w: World, p: Plan, steps: seq<Step>)
    requires Faithful(w) && PlanOk(p)
    ensures FailureNext(w, p, Exec(w, p, steps).guest)
  {
    InvAlways(w, p, steps);
    ShapeAlways(w, p, steps);
    MoreIsFailure(w, p, Exec(w, p, steps).guest);
  }

  lemma FailureHandled(w: World, j: Job, line: seq<Byte>)
    requires !j.raised && Authentic(w, line) && BodyOf(w, line).Failure?
    ensures Dispatch(w, j, line).failed
  {}

  lemma FlagRises(w: World, lines: seq<seq<Byte>>, m: nat)
    requires m < |lines| && !After(w, lines[..m]).raised
    requires Authentic(w, lines[m]) && BodyOf(w, lines[m]).Failure?
    ensures After(w, lines).failed
  {
    FailureHandled(w, After(w, lines[..m]), lines[m]);
    assert lines[..m + 1][..m] == lines[..m];
    HostVerdict.FailedFrom(w, lines, m + 1);
  }

  /** After success the flag is set exactly if a line came after the main messages. */
  lemma FlagAfterMain(w: World, p: Plan, lines: seq<seq<Byte>>)
    requires Faithful(w) && PlanOk(p) && Texts(w, MainBodies(w, p)) <= lines
    requires Completes(w, MainBodies(w, p), |MainBodies(w, p)| - 1)
    requires |lines| > |MainBodies(w, p)| ==>
      Authentic(w, lines[|MainBodies(w, p)|]) && BodyOf(w, lines[|MainBodies(w, p)|]).Failure?
    ensures After(w, lines).failed <==> |lines| > |MainBodies(w, p)|
  {
    MainLines(w, p, lines);
    if |lines| > |MainBodies(w, p)| {
      FlagRises(w, lines, |MainBodies(w, p)|);
    } else {
      assert lines[..|MainBodies(w, p)|] == lines;
    }
  }

  lemma NextLine(w: World, hist: seq<Body>, lines: seq<seq<Byte>>, m: nat)
    requires Faithful(w) && AllSendable(hist) && |lines| <= |hist| && lines == Texts(w, hist[..|lines|])
    ensures m < |lines| ==> Authentic(w, lines[m]) && BodyOf(w, lines[m]) == hist[m]
  {
    if m < |lines| {
      assert lines[m] == w.text(hist[m]) && Sendable(hist[m]);
    }
  }

  // ----- The transfer -----

  /** What success means for the archive and for the lines handled. */
  ghost predicate Transferred(w: World, p: Plan, s: Sys) {
    && s.host.job.file == Some(p.archive)
    && s.host.job.report.archive == Some(Announced(|p.archive|, w.digest(p.archive)))
    && Texts(w, MainBodies(w, p)) <= s.host.lines <= Texts(w, History(s.guest))
  }

  /** The flag tells whether the coordinator handled more than the main messages. */
  ghost predicate FlagTells(w: World, p: Plan, s: Sys) {
    s.host.job.failed <==> |s.host.lines| > |MainBodies(w, p)|
  }

  /** The same about lines that begin a history which begins with the main messages. */
  lemma LinesTell(w: World, p: Plan, hist: seq<Body>, lines: seq<seq<Byte>>)
    requires Faithful(w) && PlanOk(p) && AllSendable(hist) && MainBodies(w, p) <= hist
    requires |MainBodies(w, p)| <= |lines| <= |hist| && lines == Texts(w, hist[..|lines|])
    requires Completes(w, MainBodies(w, p), |MainBodies(w, p)| - 1)
    requires |hist| > |MainBodies(w, p)| ==> hist[|MainBodies(w, p)|].Failure?
    ensures Texts(w, MainBodies(w, p)) <= lines && lines <= Texts(w, hist)
    ensures After(w, lines).file == Some(p.archive)
    ensures After(w, lines).report.archive == Some(Announced(|p.archive|, w.digest(p.archive)))
    ensures After(w, lines).failed <==> |lines| > |MainBodies(w, p)|
  {
    TextsFront(w, hist, MainBodies(w, p), |lines|);
    LinesFront(w, hist, lines);
    ArchiveStays(w, p, lines);
    NextLine(w, hist, lines, |MainBodies(w, p)|);
    FlagAfterMain(w, p, lines);
  }

  lemma LinesFront(w: World, hist: seq<Body>, lines: seq<seq<Byte>>)
    requires |lines| <= |hist| && lines == Texts(w, hist[..|lines|])
    ensures lines <= Texts(w, hist)
  {}

  lemma SuccessState(w: World, p: Plan, s: Sys)
    requires Faithful(w) && PlanOk(p) && Inv(w, p, s) && FailureNext(w, p, s.guest)
    requires s.host.job.report.status == Observed
    ensures Transferred(w, p, s) && FlagTells(w, p, s)
  {
    ObservedSawMain(w, p, s);
    HistoryShape(w, p, s.guest);
    LinesAreTexts(w, s);
    LinesTell(w, p, History(s.guest), s.host.lines);
    JobOfLines(w, s);
  }

  lemma JobOfLines(w: World, s: Sys)
    requires WireKept(w, s)
    ensures var j := After(w, s.host.lines);
      s.host.job.file == j.file && s.host.job.report == j.report && s.host.job.failed == j.failed
  {}

  /** End-to-end transfer, in safety form. Whenever the coordinator reports success, in any schedule of writes,
      reads and faults on either side: the file it wrote is the guest's archive byte for byte, the reported size
      and digest are the archive's, the lines it handled begin with the main messages in order, and a failure was
      reported to it exactly if it handled more than these. */
  lemma SuccessMeansExactTransfer(w: World, p: Plan, steps: seq<Step>)
    requires Faithful(w) && PlanOk(p)
    ensures var s := Exec(w, p, steps);
      s.host.job.report.status == Observed ==>
        Transferred(w, p, s) && FlagTells(w, p, s)
  {
    InvAlways(w, p, steps);
    FailureNextAlways(w, p, steps);
    if Exec(w, p, steps).host.job.report.status == Observed {
      SuccessState(w, p, Exec(w, p, steps));
    }
  }

  // ----- When nothing comes after the claim -----

  /** No read after the completion claim fails while the coordinator is still reading. */
  ghost predicate LateReads(w: World, p: Plan, steps: seq<Step>) {
    forall i :: 0 <= i < |steps| && steps[i].GuestReadFails? ==>
      var s := Exec(w, p, steps[..i]); s.guest.mainDone == |MainScript(w, p)| - 1 ==> s.host.Stopped()
  }

  /** A guest that got past its completion claim has left the try block only once the coordinator was done, and
      the coordinator has seen main messages only. */
  ghost predicate LateKept(w: World, p: Plan, s: Sys) {
    !s.guest.mode.Main? && s.guest.mainDone == |MainScript(w, p)| - 1 ==>
      s.host.Stopped() && Seen(s) <= |MainBodies(w, p)|
  }

  lemma LateOnCrash(w: World, p: Plan, s: Sys, t: Trouble)
    requires Faithful(w) && PlanOk(p) && Inv(w, p, s) && LateKept(w, p, s) && s.guest.Idle()
    requires s.guest.script[s.guest.pc].Receive? ==>
      s.guest.mainDone == |MainScript(w, p)| - 1 ==> s.host.Stopped()
    ensures LateKept(w, p, s.(guest := Crash(w, s.guest, t)))
  {
    CrashShape(w, s.guest, t);
    if s.guest.mode.Main? && s.guest.pc == |MainScript(w, p)| - 1 {
      LastRead(w, p, s);
    }
  }

  lemma CrashShape(w: World, g: Guest, t: Trouble)
    requires g.pc <= |g.script|
    ensures !Crash(w, g, t).mode.Main? && Crash(w, g, t).mainDone == g.mainDone
  {}

  /** The last instruction of the main script is a read, and the main messages are all the coordinator can have
      seen by then. */
  lemma LastRead(w: World, p: Plan, s: Sys)
    requires Faithful(w) && PlanOk(p) && WireKept(w, s) && ScriptKept(w, p, s.guest)
    requires s.guest.mode.Main? && s.guest.pc == |MainScript(w, p)| - 1
    ensures s.guest.script[s.guest.pc].Receive? && Seen(s) <= |MainBodies(w, p)|
  {
    HistoryShape(w, p, s.guest);
    HostFollows(w, s);
    MainHistory(w, p, s.guest);
    MainShape(w, p);
    EndsInRead(w, p);
  }

  lemma EndsInRead(w: World, p: Plan)
    ensures MainScript(w, p)[|MainScript(w, p)| - 1] == Receive(Shutdown)
  {}

  lemma LateOnAdvance(w: World, p: Plan, s: Sys, t: Trouble)
    requires Faithful(w) && PlanOk(p) && Inv(w, p, s) && LateKept(w, p, s) && Enabled(s, GuestAdvance(t))
    ensures LateKept(w, p, Advance(w, s, t))
  {
    var g, n := s.guest, Advance(w, s, t).guest;
    if g.script[g.pc].Receive? {
      ScriptOnNext(w, p, g);
      RepliesOnRead(w, p, s, t);
    } else {
      LateOnCrash(w, p, s, t);
      AdvanceForms(w, s, t);
      assert Advance(w, s, t).host == s.host;
    }
  }

  lemma LateOnStep(w: World, p: Plan, s: Sys, step: Step)
    requires Faithful(w) && PlanOk(p) && Inv(w, p, s) && LateKept(w, p, s)
    requires step.GuestReadFails? && s.guest.mainDone == |MainScript(w, p)| - 1 ==> s.host.Stopped()
    ensures LateKept(w, p, Apply(w, s, step))
  {
    if Enabled(s, step) {
      match step {
        case GuestAdvance(t) => LateOnAdvance(w, p, s, t);
        case GuestCrash(t) => LateOnCrash(w, p, s, t);
        case GuestReadFails(t) => LateOnCrash(w, p, s, t);
        case GuestWrite(n) =>
        case HostRecv(n) =>
        case HostAbort =>
      }
    }
  }

  lemma {:induction false} LateAlways(w: World, p: Plan, steps: seq<Step>)
    requires Faithful(w) && PlanOk(p) && LateReads(w, p, steps)
    ensures LateKept(w, p, Exec(w, p, steps))
    decreases |steps|
  {
    if steps != [] {
      var last := |steps| - 1;
      forall i | 0 <= i < last
        ensures steps[..last][i] == steps[i] && steps[..last][..i] == steps[..i]
      {}
      LateAlways(w, p, steps[..last]);
      InvAlways(w, p, steps[..last]);
      assert steps[last].GuestReadFails? ==>
        var s := Exec(w, p, steps[..last]); s.guest.mainDone == |MainScript(w, p)| - 1 ==> s.host.Stopped();
      LateOnStep(w, p, Exec(w, p, steps[..last]), steps[last]);
    }
  }

  lemma SeenAtMostMain(w: World, p: Plan, s: Sys)
    requires Faithful(w) && PlanOk(p) && Inv(w, p, s) && LateKept(w, p, s)
    requires s.guest.mainDone >= |MainScript(w, p)| - 1
    ensures Seen(s) <= |MainBodies(w, p)|
  {
    if s.guest.mode.Main? {
      HistoryShape(w, p, s.guest);
      HostFollows(w, s);
      MainShape(w, p);
      FrontOfBodies(MainScript(w, p), s.guest.mainDone);
      MainHistory(w, p, s.guest);
    }
  }

  /** Success is clean in every run in which the last read does not fail early: no failure was reported, and the
      lines handled are exactly the main messages. */
  lemma SuccessIsClean(w: World, p: Plan, steps: seq<Step>)
    requires Faithful(w) && PlanOk(p) && LateReads(w, p, steps)
    ensures var s := Exec(w, p, steps);
      s.host.job.report.status == Observed ==>
        Transferred(w, p, s) && !s.host.job.failed && s.host.lines == Texts(w, MainBodies(w, p))
  {
    SuccessMeansExactTransfer(w, p, steps);
    if Exec(w, p, steps).host.job.report.status == Observed {
      InvAlways(w, p, steps);
      LateAlways(w, p, steps);
      CleanState(w, p, Exec(w, p, steps));
    }
  }

  lemma CleanState(w: World, p: Plan, s: Sys)
    requires Faithful(w) && PlanOk(p) && Inv(w, p, s) && LateKept(w, p, s)
    requires s.host.job.report.status == Observed && Transferred(w, p, s) && FlagTells(w, p, s)
    ensures !s.host.job.failed && s.host.lines == Texts(w, MainBodies(w, p))
  {
    ObservedSawMain(w, p, s);
    SeenAtMostMain(w, p, s);
  }
}
