/** The guest's exception handler: what a guest that left its try block has sent, in every run. */
module JobHandler {
  import opened HostJob
  import opened GuestJob
  import opened JobChannel
  import opened JobScript
  import opened JobInvariant

  /** What the handler sends if nothing raises in it: the failure, perhaps a note, and the archive as it is by
      then. */
  function RescueBodies(w: World, t: Trouble): seq<Body> {
    ReportBodies(t) + ExportBodies(w, t.archive)
  }

  function RescueScript(w: World, t: Trouble): seq<Instr> {
    SendAll(ReportBodies(t)) + ExportScript(w, t.archive)
  }

  /** The main messages sent by instructions done in the try block. */
  function MainSent(w: World, p: Plan, done: nat): seq<Body>
    requires done <= |MainScript(w, p)|
  {
    BodiesOf(MainScript(w, p)[..done])
  }

  // ----- The shape of a guest that failed -----

  /** The handler follows its script for `t`, or was cut off while it reported the failure. */
  ghost predicate InHandler(w: World, g: Guest, t: Trouble) {
    && g.rescueFrom == |ReportBodies(t)| && g.pc <= |g.script|
    && (|| g.script == RescueScript(w, t)
        || (g.pc < g.rescueFrom && g.script == RescueScript(w, t)[..g.pc]))
  }

  /** The handler's own export raised after `e` of its messages, which it can only have sent if the archive passed
      the size check; what is left is to say so, or not even that. */
  ghost predicate InLastWords(w: World, g: Guest, main: seq<Body>, t: Trouble, e: nat) {
    && e < |ExportBodies(w, t.archive)| && (e > 0 ==> |t.archive| < ARCHIVE_LIMIT)
    && g.before == main + ReportBodies(t) + ExportBodies(w, t.archive)[..e]
    && g.pc <= |g.script|
    && (g.script == [] || exists x :: g.script == [Send(ExportFailure(x))])
  }

  ghost predicate FailedShape(w: World, p: Plan, g: Guest) {
    && g.mainDone <= |MainScript(w, p)|
    && (g.mode.Handler? ==> g.before == MainSent(w, p, g.mainDone) && exists t :: InHandler(w, g, t))
    && (g.mode.LastWords? ==> exists t, e :: InLastWords(w, g, MainSent(w, p, g.mainDone), t, e))
  }

  /** Only passed checks have been left behind, in the current script and in the try block. */
  ghost predicate ChecksPassed(w: World, p: Plan, g: Guest) {
    && g.pc <= |g.script| && g.mainDone <= |MainScript(w, p)|
    && (forall i :: 0 <= i < g.pc && g.script[i].Check? ==> g.script[i].ok)
    && (forall i :: 0 <= i < g.mainDone && MainScript(w, p)[i].Check? ==> MainScript(w, p)[i].ok)
  }

  /** The messages of a front of the handler's script. */
  lemma RescueFront(w: World, t: Trouble, pc: nat)
    requires |ReportBodies(t)| <= pc <= |RescueScript(w, t)|
    ensures var r := |ReportBodies(t)|;
      var e := if pc == r then 0 else pc - r - 1;
      && e <= |ExportBodies(w, t.archive)|
      && BodiesOf(RescueScript(w, t)[..pc]) == ReportBodies(t) + ExportBodies(w, t.archive)[..e]
  {
    FrontBodiesOf(ReportBodies(t), Check(|t.archive| < ARCHIVE_LIMIT), ExportBodies(w, t.archive),
                  RescueScript(w, t), pc);
  }

  lemma FrontBodiesOf(report: seq<Body>, check: Instr, exported: seq<Body>, script: seq<Instr>, pc: nat)
    requires check.Check? && script == SendAll(report) + ([check] + SendAll(exported)) && |report| <= pc <= |script|
    ensures var e := if pc == |report| then 0 else pc - |report| - 1;
      e <= |exported| && BodiesOf(script[..pc]) == report + exported[..e]
  {
    BodiesOfSends(report);
    if pc == |report| {
      assert script[..pc] == SendAll(report);
      assert report + exported[..0] == report;
    } else {
      var e := pc - |report| - 1;
      CutScript(report, check, exported, script, e);
      SendsAfterCheck(check, exported[..e]);
      BodiesAppend(SendAll(report), [check] + SendAll(exported[..e]));
    }
  }

  lemma CutScript(report: seq<Body>, check: Instr, exported: seq<Body>, script: seq<Instr>, e: nat)
    requires script == SendAll(report) + ([check] + SendAll(exported)) && e <= |exported|
    ensures script[..|report| + 1 + e] == SendAll(report) + ([check] + SendAll(exported[..e]))
  {}

  lemma SendsAfterCheck(check: Instr, bodies: seq<Body>)
    requires check.Check?
    ensures BodiesOf([check] + SendAll(bodies)) == bodies
  {
    BodiesOfSends(bodies);
    BodiesAppend([check], SendAll(bodies));
    NoBody(check);
    assert [] + bodies == bodies;
  }

  lemma NoBody(i: Instr)
    requires !i.Send?
    ensures BodiesOf([i]) == []
  {
    assert [i][..0] == [];
  }

  lemma CheckAt(w: World, t: Trouble)
    ensures var r := |ReportBodies(t)|;
      r < |RescueScript(w, t)| && RescueScript(w, t)[r] == Check(|t.archive| < ARCHIVE_LIMIT)
      && |RescueScript(w, t)| == r + 1 + |ExportBodies(w, t.archive)|
      && RescueScript(w, t)[0] == Send(ReportBodies(t)[0])
  {}

  // ----- Each step keeps it -----

  lemma ShapeOnMainCrash(w: World, p: Plan, g: Guest, t: Trouble)
    requires ScriptKept(w, p, g) && g.mode.Main?
    ensures FailedShape(w, p, Crash(w, g, t))
  {
    MainHistory(w, p, g);
    assert InHandler(w, Crash(w, g, t), t);
  }

  lemma ShapeOnHandlerCut(w: World, p: Plan, g: Guest, t: Trouble)
    requires FailedShape(w, p, g) && g.mode.Handler? && g.pc < |g.script| && g.pc < g.rescueFrom
    ensures FailedShape(w, p, Crash(w, g, t))
  {
    var u :| InHandler(w, g, u);
    assert InHandler(w, Crash(w, g, t), u);
  }

  lemma ShapeOnExportCrash(w: World, p: Plan, g: Guest, t: Trouble)
    requires FailedShape(w, p, g) && ChecksPassed(w, p, g)
    requires g.mode.Handler? && g.rescueFrom <= g.pc < |g.script|
    ensures FailedShape(w, p, Crash(w, g, t))
  {
    var u :| InHandler(w, g, u);
    var r := |ReportBodies(u)|;
    var e := if g.pc == r then 0 else g.pc - r - 1;
    var main := MainSent(w, p, g.mainDone);
    RescueFront(w, u, g.pc);
    CheckAt(w, u);
    assert e > 0 ==> g.script[r].ok;
    Assoc(main, ReportBodies(u), ExportBodies(w, u.archive)[..e]);
    assert InLastWords(w, Crash(w, g, t), main, u, e);
  }

  lemma Assoc(a: seq<Body>, b: seq<Body>, c: seq<Body>)
    ensures a + (b + c) == a + b + c
  {}

  lemma ShapeOnCrash(w: World, p: Plan, g: Guest, t: Trouble)
    requires ScriptKept(w, p, g) && FailedShape(w, p, g) && ChecksPassed(w, p, g) && g.pc < |g.script|
    ensures FailedShape(w, p, Crash(w, g, t)) && ChecksPassed(w, p, Crash(w, g, t))
  {
    match g.mode {
      case Main => ShapeOnMainCrash(w, p, g, t);
      case Handler =>
        if g.pc < g.rescueFrom {
          ShapeOnHandlerCut(w, p, g, t);
        } else {
          ShapeOnExportCrash(w, p, g, t);
        }
      case LastWords => ShapeOnLastCrash(w, p, g, t);
    }
  }

  lemma ShapeOnLastCrash(w: World, p: Plan, g: Guest, t: Trouble)
    requires FailedShape(w, p, g) && g.mode.LastWords? && g.pc < |g.script|
    ensures FailedShape(w, p, Crash(w, g, t))
  {
    var main := MainSent(w, p, g.mainDone);
    var u, e :| InLastWords(w, g, main, u, e);
    assert InLastWords(w, Crash(w, g, t), main, u, e);
  }

  /** Moving on, or writing, changes none of what the shape speaks of but the counter. */
  lemma ShapeOnNext(w: World, p: Plan, g: Guest, n: Guest)
    requires FailedShape(w, p, g) && g.pc <= n.pc <= |g.script|
    requires n == g.(pc := n.pc, mainDone := n.mainDone, outgoing := n.outgoing, taken := n.taken)
    requires (if g.mode.Main? then n.mainDone == n.pc && g.script == MainScript(w, p) else n.mainDone == g.mainDone)
    requires g.pc < |g.script| || n.pc == g.pc
    ensures FailedShape(w, p, n)
  {
    if g.mode.Handler? {
      var t :| InHandler(w, g, t);
      assert InHandler(w, n, t);
    }
    if g.mode.LastWords? {
      var t, e :| InLastWords(w, g, MainSent(w, p, g.mainDone), t, e);
      assert InLastWords(w, n, MainSent(w, p, g.mainDone), t, e);
    }
  }

  lemma ShapeOnAdvance(w: World, p: Plan, s: Sys, t: Trouble)
    requires ScriptKept(w, p, s.guest) && FailedShape(w, p, s.guest) && ChecksPassed(w, p, s.guest) && s.guest.Idle()
    ensures FailedShape(w, p, Advance(w, s, t).guest) && ChecksPassed(w, p, Advance(w, s, t).guest)
  {
    var g, n := s.guest, Advance(w, s, t).guest;
    AdvanceForms(w, s, t);
    if n == Crash(w, g, t) {
      ShapeOnCrash(w, p, g, t);
    } else if n != g {
      ShapeOnNext(w, p, g, n);
      ChecksOnNext(w, p, g, n);
    }
  }

  /** An instruction raises, waits or is done. */
  lemma AdvanceForms(w: World, s: Sys, t: Trouble)
    requires s.guest.Idle()
    ensures var g, n := s.guest, Advance(w, s, t).guest;
      || n == Crash(w, g, t) || n == g
      || (n == g.Next().(outgoing := n.outgoing, taken := n.taken) && (g.script[g.pc].Check? ==> g.script[g.pc].ok))
  {}

  lemma ChecksOnNext(w: World, p: Plan, g: Guest, n: Guest)
    requires ScriptKept(w, p, g) && ChecksPassed(w, p, g) && g.pc < |g.script|
    requires n == g.Next().(outgoing := n.outgoing, taken := n.taken)
    requires g.script[g.pc].Check? ==> g.script[g.pc].ok
    ensures ChecksPassed(w, p, n)
  {}

  lemma ShapeOnStep(w: World, p: Plan, s: Sys, step: Step)
    requires ScriptKept(w, p, s.guest) && FailedShape(w, p, s.guest) && ChecksPassed(w, p, s.guest)
    ensures FailedShape(w, p, Apply(w, s, step).guest) && ChecksPassed(w, p, Apply(w, s, step).guest)
  {
    if Enabled(s, step) {
      match step {
        case GuestAdvance(t) => ShapeOnAdvance(w, p, s, t);
        case GuestCrash(t) => ShapeOnCrash(w, p, s.guest, t);
        case GuestReadFails(t) => ShapeOnCrash(w, p, s.guest, t);
        case GuestWrite(n) => ShapeOnNext(w, p, s.guest, Apply(w, s, step).guest);
        case HostRecv(_) =>
        case HostAbort =>
      }
    }
  }

  lemma {:induction false} ShapeAlways(w: World, p: Plan, steps: seq<Step>)
    requires Faithful(w) && PlanOk(p)
    ensures FailedShape(w, p, Exec(w, p, steps).guest) && ChecksPassed(w, p, Exec(w, p, steps).guest)
    decreases |steps|
  {
    if steps != [] {
      var front := steps[..|steps| - 1];
      ShapeAlways(w, p, front);
      InvAlways(w, p, front);
      ShapeOnStep(w, p, Exec(w, p, front), steps[|steps| - 1]);
    }
  }

  // ----- What it has sent -----

  /** The first message after the main ones is the report of the failure. */
  lemma FailureLeads(w: World, p: Plan, g: Guest)
    requires FailedShape(w, p, g) && !g.mode.Main? && g.pc <= |g.script|
    ensures var main := MainSent(w, p, g.mainDone);
      main <= History(g) && (|History(g)| > |main| ==> History(g)[|main|].Failure?)
  {
    var main := MainSent(w, p, g.mainDone);
    if g.mode.Handler? {
      var t :| InHandler(w, g, t);
      HandlerLeads(w, g, t);
    } else {
      var t, e :| InLastWords(w, g, main, t, e);
      assert g.before[|main|] == ReportBodies(t)[0];
    }
  }

  lemma HandlerLeads(w: World, g: Guest, t: Trouble)
    requires g.mode.Handler? && InHandler(w, g, t)
    ensures g.before <= History(g) && (|History(g)| > |g.before| ==> History(g)[|g.before|].Failure?)
  {
    var sent := BodiesOf(g.script[..g.pc]);
    CheckAt(w, t);
    if g.pc > 0 {
      FirstBody(g.script[..g.pc]);
    } else {
      assert g.script[..0] == [];
    }
  }

  lemma {:induction false} FirstBody(script: seq<Instr>)
    requires script != [] && script[0].Send?
    ensures BodiesOf(script) != [] && BodiesOf(script)[0] == script[0].body
    decreases |script|
  {
    if |script| > 1 {
      FirstBody(script[..|script| - 1]);
    } else {
      assert script[..0] == [];
    }
  }
}
