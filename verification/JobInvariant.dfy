/** What each step keeps of the guest's script, and the invariant of the whole system. */
module JobInvariant {
  import opened Framing
  import opened Wrappers
  import opened HostJob
  import opened GuestJob
  import opened JobChannel
  import opened JobScript
  import opened JobWire

  // ----- What the guest has sent -----

  lemma FrontOfBodies(script: seq<Instr>, k: nat)
    requires k <= |script|
    ensures BodiesOf(script[..k]) <= BodiesOf(script)
  {
    FrontAndRest(script, k);
    BodiesAppend(script[..k], script[k..]);
  }

  lemma FrontAndRest(script: seq<Instr>, k: nat)
    requires k <= |script|
    ensures script[..k] + script[k..] == script
  {}

  lemma ExportIsArchive(w: World, archive: seq<Byte>)
    ensures forall i :: 0 <= i < |ExportBodies(w, archive)| ==> ExportBodies(w, archive)[i].Archive?()
  {
    var chunks := ChunkBodies(archive, ChunkCount(|archive|));
    forall i | 0 <= i < |ExportBodies(w, archive)|
      ensures ExportBodies(w, archive)[i].Archive?()
    {
      if 0 < i <= |chunks| {
        assert ExportBodies(w, archive)[i] == chunks[i - 1];
      }
    }
  }

  /** Each message of a run of five parts belongs to one of them. */
  lemma FiveParts(a: seq<Body>, b: Body, c: seq<Body>, d: seq<Body>, e: Body, i: nat)
    requires i < |a + [b] + c + d + [e]|
    ensures var all := a + [b] + c + d + [e];
      if i < |a| then all[i] in a
      else if i == |a| then all[i] == b
      else if i <= |a| + |c| then all[i] in c
      else if i < |all| - 1 then all[i] in d
      else all[i] == e
  {
    var all := a + [b] + c + d + [e];
    if |a| < i <= |a| + |c| {
      assert all[i] == c[i - |a| - 1];
    } else if |a| + |c| < i < |all| - 1 {
      assert all[i] == d[i - |a| - |c| - 1];
    }
  }

  lemma MainBodiesShape(w: World, p: Plan)
    requires PlanOk(p)
    ensures var bodies := MainBodies(w, p);
      forall i :: 0 <= i < |bodies| ==>
        && (bodies[i].HostReady? ==> i == |p.setup| && bodies[i] == HostReady(p.observation))
        && (bodies[i].Complete? ==> i == |bodies| - 1)
        && !bodies[i].Bad?() && Sendable(bodies[i])
  {
    var bodies, a := MainBodies(w, p), |p.setup|;
    ExportIsArchive(w, p.archive);
    forall i | 0 <= i < |bodies|
      ensures bodies[i].HostReady? ==> i == a && bodies[i] == HostReady(p.observation)
      ensures bodies[i].Complete? ==> i == |bodies| - 1
      ensures !bodies[i].Bad?() && Sendable(bodies[i])
    {
      FiveParts(p.setup, HostReady(p.observation), p.matrix, ExportBodies(w, p.archive), Complete, i);
    }
  }

  lemma HistoryShape(w: World, p: Plan, g: Guest)
    requires PlanOk(p) && ScriptKept(w, p, g)
    ensures AllSendable(History(g))
    ensures var hist := History(g);
      forall i :: 0 <= i < |hist| ==>
        && (hist[i].HostReady? ==> i == |p.setup| && hist[i] == HostReady(p.observation))
        && (hist[i].Complete? ==> i == |MainBodies(w, p)| - 1 && MainBodies(w, p) <= hist
                                  && g.mainDone >= |MainScript(w, p)| - 1)
  {
    var main, hist, bodies := MainScript(w, p), History(g), MainBodies(w, p);
    var done := BodiesOf(main[..g.mainDone]);
    MainShape(w, p);
    MainBodiesShape(w, p);
    FrontOfBodies(main, g.mainDone);
    if g.mainDone < |main| - 1 {
      EarlyFront(w, p, g.mainDone);
    } else {
      assert main[..|main|] == main;
    }
    forall i | 0 <= i < |hist|
      ensures Sendable(hist[i])
      ensures hist[i].HostReady? ==> i == |p.setup| && hist[i] == HostReady(p.observation)
      ensures hist[i].Complete? ==> i == |bodies| - 1 && bodies <= hist && g.mainDone >= |main| - 1
    {
      if i < |done| {
        assert hist[i] == done[i] == bodies[i];
      } else {
        assert Aftermath(hist[i]);
      }
    }
  }

  lemma FrontOfFront(script: seq<Instr>, k: nat, m: nat)
    requires k <= m <= |script|
    ensures BodiesOf(script[..k]) <= BodiesOf(script[..m])
  {
    assert script[..m][..k] == script[..k];
    FrontOfBodies(script[..m], k);
  }

  lemma MainEnd(w: World, p: Plan)
    ensures |MainScript(w, p)| >= 2 && MainScript(w, p)[|MainScript(w, p)| - 2] == Send(Complete)
  {}

  lemma BodiesToTheClaim(w: World, p: Plan)
    ensures |MainScript(w, p)| >= 2
    ensures |BodiesOf(MainScript(w, p)[..|MainScript(w, p)| - 1])| == |MainBodies(w, p)|
  {
    MainShape(w, p);
  }

  lemma BeforeLastSend(script: seq<Instr>, b: Body, k: nat)
    requires |script| >= 2 && script[|script| - 2] == Send(b) && k < |script| - 1
    ensures |BodiesOf(script[..k])| < |BodiesOf(script[..|script| - 1])|
  {
    assert script[..|script| - 1][..|script| - 2] == script[..|script| - 2];
    LastSend(script[..|script| - 1], b);
    FrontOfFront(script, k, |script| - 2);
  }

  lemma LastSend(script: seq<Instr>, b: Body)
    requires script != [] && script[|script| - 1] == Send(b)
    ensures |BodiesOf(script)| == |BodiesOf(script[..|script| - 1])| + 1
  {}

  /** Before the completion claim is sent, the main messages sent are a proper front. */
  lemma EarlyFront(w: World, p: Plan, k: nat)
    requires k < |MainScript(w, p)| - 1
    ensures |BodiesOf(MainScript(w, p)[..k])| < |MainBodies(w, p)|
  {
    MainEnd(w, p);
    BodiesToTheClaim(w, p);
    BeforeLastSend(MainScript(w, p), Complete, k);
  }

  /** The replies sent so far answer what the coordinator has seen of the guest's history. */
  lemma RepliesSoFar(w: World, p: Plan, s: Sys)
    requires Faithful(w) && PlanOk(p) && WireKept(w, s) && ScriptKept(w, p, s.guest)
    ensures multiset(s.host.job.sent)[Admit] <= 1
    ensures Shutdown in s.host.job.sent ==> exists b :: b in History(s.guest) && b.Complete?
    ensures Admit in s.host.job.sent ==>
      s.host.job.report.guestReady == Some(p.observation) && Admissible(w.binding, p.observation)
  {
    var hist, n := History(s.guest), Seen(s);
    HistoryShape(w, p, s.guest);
    HostFollows(w, s);
    var bodies := hist[..n];
    RepliesAnswer(w, bodies);
    ReadiesAt(bodies, |p.setup|);
    assert s.host.job.sent == AfterBodies(w, bodies).sent;
    assert forall b :: b in bodies ==> b in hist;
  }

  /** The two places where the main script reads. */
  lemma MainReadAt(w: World, p: Plan, pc: nat)
    requires pc < |MainScript(w, p)| && MainScript(w, p)[pc].Receive?
    ensures var main := MainScript(w, p);
      || (pc == |p.setup| + 1 && main[pc] == Receive(Admit) && ReadsOf(main[..pc]) == 0
          && BodiesOf(main[..pc]) == p.setup + [HostReady(p.observation)])
      || (pc == |main| - 1 && main[pc] == Receive(Shutdown) && ReadsOf(main[..pc]) == 1
          && BodiesOf(main[..pc]) == MainBodies(w, p))
  {
    MainReads(w, p, pc);
    MainShape(w, p);
  }

  /** Where the main script waits, and what it has sent and read by then. */
  lemma WaitingPoint(w: World, p: Plan, g: Guest)
    requires PlanOk(p) && ScriptKept(w, p, g)
    requires g.mode.Main? && g.Idle() && g.script[g.pc].Receive?
    ensures g.script[g.pc].reply == Expected(g.taken)
    ensures if g.taken == 0
      then g.pc == |p.setup| + 1 && History(g) == p.setup + [HostReady(p.observation)]
      else g.taken == 1 && g.pc == |g.script| - 1 && History(g) == MainBodies(w, p)
  {
    MainReadAt(w, p, g.pc);
    MainHistory(w, p, g);
  }

  /** No mistyped receive: the next reply is the one a waiting main script expects. */
  lemma ReadFindsItsReply(w: World, p: Plan, s: Sys)
    requires Faithful(w) && PlanOk(p) && WireKept(w, s) && RepliesKept(w, s) && ScriptKept(w, p, s.guest)
    requires s.guest.mode.Main? && s.guest.Idle() && s.guest.script[s.guest.pc].Receive?
    requires s.guest.taken < |s.host.job.sent|
    ensures s.host.job.sent[s.guest.taken] == s.guest.script[s.guest.pc].reply
  {
    var sent := s.host.job.sent;
    WaitingPoint(w, p, s.guest);
    RepliesSoFar(w, p, s);
    if s.guest.taken == 0 {
      assert forall b :: b in History(s.guest) ==> !b.Complete?;
    } else {
      TwoAdmits(sent);
    }
  }

  lemma TwoAdmits(sent: seq<Reply>)
    requires |sent| >= 2 && sent[0] == Admit && multiset(sent)[Admit] <= 1
    ensures sent[1] == Shutdown
  {
    assert sent == [Admit, sent[1]] + sent[2..];
  }

  // ----- Each step keeps the script -----

  lemma ReportIsAftermath(w: World, t: Trouble)
    ensures var script := SendAll(ReportBodies(t)) + ExportScript(w, t.archive);
      forall i :: 0 <= i < |script| ==> !script[i].Receive? && (script[i].Send? ==> Aftermath(script[i].body))
  {
    var report := SendAll(ReportBodies(t));
    var script := report + ExportScript(w, t.archive);
    ExportIsArchive(w, t.archive);
    forall i | 0 <= i < |script|
      ensures !script[i].Receive? && (script[i].Send? ==> Aftermath(script[i].body))
    {
      if |report| < i {
        assert script[i] == Send(ExportBodies(w, t.archive)[i - |report| - 1]);
      }
    }
  }

  lemma ScriptOnCrash(w: World, p: Plan, g: Guest, t: Trouble)
    requires ScriptKept(w, p, g) && g.pc < |g.script|
    ensures ScriptKept(w, p, Crash(w, g, t)) && !Crash(w, g, t).mode.Main?
    ensures Crash(w, g, t).mainDone == g.mainDone && Crash(w, g, t).taken == g.taken
  {
    CrashKeepsHistory(w, g, t);
    ReportIsAftermath(w, t);
  }

  /** In the try block the history is what the script has sent. */
  lemma MainHistory(w: World, p: Plan, g: Guest)
    requires ScriptKept(w, p, g) && g.mode.Main?
    ensures History(g) == BodiesOf(MainScript(w, p)[..g.mainDone])
  {
    assert [] + BodiesOf(g.script[..g.pc]) == BodiesOf(g.script[..g.pc]);
  }

  lemma AllFitStep(w: World, bodies: seq<Body>, extra: seq<Body>)
    requires forall i :: 0 <= i < |bodies| ==> Fits(w, bodies[i])
    requires forall i :: 0 <= i < |extra| ==> Fits(w, extra[i])
    ensures forall i :: 0 <= i < |bodies + extra| ==> Fits(w, (bodies + extra)[i])
  {
    forall i | 0 <= i < |bodies + extra|
      ensures Fits(w, (bodies + extra)[i])
    {
      assert (bodies + extra)[i] == if i < |bodies| then bodies[i] else extra[i - |bodies|];
    }
  }

  /** In the try block the history is what the script has sent, so nothing but its fit is left to keep. */
  lemma MainIsKept(w: World, p: Plan, g: Guest)
    requires g.mode.Main? && g.script == MainScript(w, p) && g.pc == g.mainDone <= |g.script| && g.before == []
    requires g.taken == ReadsOf(g.script[..g.pc])
    requires AllFit(w, BodiesOf(g.script[..g.pc]))
    ensures ScriptKept(w, p, g)
  {
    assert [] + BodiesOf(g.script[..g.pc]) == BodiesOf(g.script[..g.pc]);
  }

  lemma FitOnNext(w: World, script: seq<Instr>, pc: nat)
    requires pc < |script| && AllFit(w, BodiesOf(script[..pc]))
    requires script[pc].Send? ==> Fits(w, script[pc].body)
    ensures AllFit(w, BodiesOf(script[..pc + 1]))
  {
    BodiesStep(script, pc);
    AllFitStep(w, BodiesOf(script[..pc]), if script[pc].Send? then [script[pc].body] else []);
  }

  lemma ScriptOnNextMain(w: World, p: Plan, g: Guest)
    requires ScriptKept(w, p, g) && g.mode.Main? && g.pc < |g.script|
    requires g.script[g.pc].Send? ==> Fits(w, g.script[g.pc].body)
    ensures ScriptKept(w, p, g.Next().(taken := g.taken + if g.script[g.pc].Receive? then 1 else 0))
  {
    MainHistory(w, p, g);
    FitOnNext(w, g.script, g.pc);
    BodiesStep(g.script, g.pc);
    MainIsKept(w, p, g.Next().(taken := g.taken + if g.script[g.pc].Receive? then 1 else 0));
  }

  lemma ScriptOnNextOther(w: World, p: Plan, g: Guest)
    requires ScriptKept(w, p, g) && !g.mode.Main? && g.pc < |g.script|
    requires g.script[g.pc].Send? ==> Fits(w, g.script[g.pc].body)
    ensures !g.script[g.pc].Receive? && ScriptKept(w, p, g.Next())
  {
    var extra := if g.script[g.pc].Send? then [g.script[g.pc].body] else [];
    NextHistory(g);
    var hist, next := History(g), History(g.Next());
    assert next == hist + extra;
    forall i | 0 <= i < |next|
      ensures Fits(w, next[i])
      ensures i >= |BodiesOf(MainScript(w, p)[..g.mainDone])| ==> Aftermath(next[i])
    {
      assert next[i] == if i < |hist| then hist[i] else extra[i - |hist|];
    }
  }

  lemma ScriptOnNext(w: World, p: Plan, g: Guest)
    requires ScriptKept(w, p, g) && g.pc < |g.script|
    requires g.script[g.pc].Send? ==> Fits(w, g.script[g.pc].body)
    ensures g.script[g.pc].Receive? ==> g.mode.Main?
    ensures ScriptKept(w, p, g.Next().(taken := g.taken + if g.script[g.pc].Receive? then 1 else 0))
  {
    if g.mode.Main? {
      ScriptOnNextMain(w, p, g);
    } else {
      ScriptOnNextOther(w, p, g);
    }
  }

  lemma ScriptOnWrite(w: World, p: Plan, g: Guest, out: seq<Byte>)
    requires ScriptKept(w, p, g)
    ensures ScriptKept(w, p, g.(outgoing := out))
  {
    assert History(g.(outgoing := out)) == History(g);
  }

  lemma ScriptOnAdvance(w: World, p: Plan, s: Sys, t: Trouble)
    requires ScriptKept(w, p, s.guest) && s.guest.Idle()
    ensures ScriptKept(w, p, Advance(w, s, t).guest)
  {
    var g := s.guest;
    ScriptOnCrash(w, p, g, t);
    match g.script[g.pc] {
      case Send(b) =>
        if Fits(w, b) {
          ScriptOnNext(w, p, g);
          ScriptOnWrite(w, p, g.Next().(taken := g.taken + 0), Line(w.text(b)));
        }
      case Check(ok) =>
        if ok {
          ScriptOnNext(w, p, g);
        }
      case Receive(k) =>
        ScriptOnNext(w, p, g);
    }
  }

  // ----- The invariant of the whole system -----

  ghost predicate Inv(w: World, p: Plan, s: Sys) {
    WireKept(w, s) && RepliesKept(w, s) && ScriptKept(w, p, s.guest)
  }

  lemma InvAtStart(w: World, p: Plan)
    ensures Inv(w, p, Start(w, p))
  {
    var s := Start(w, p);
    assert s.guest.script[..0] == [] && History(s.guest) == [];
    assert Texts(w, []) == [] && Replies(w, []) == [];
    assert FRESH.sent[0..] == [];
  }

  lemma ReadKeepsReplies(w: World, s: Sys, n: Sys)
    requires RepliesKept(w, s) && n.host == s.host && n.guest.taken == s.guest.taken + 1 <= 2
    requires s.guest.taken < |s.host.job.sent| && s.host.job.sent[s.guest.taken] == Expected(s.guest.taken)
    requires n.down == Join(Replies(w, s.host.job.sent[s.guest.taken + 1..]))
    ensures RepliesKept(w, n)
  {}

  lemma RepliesOnRead(w: World, p: Plan, s: Sys, t: Trouble)
    requires Faithful(w) && PlanOk(p) && Inv(w, p, s) && s.guest.Idle() && s.guest.mode.Main?
    requires s.guest.script[s.guest.pc].Receive? && LF in s.down
    ensures Advance(w, s, t).guest == s.guest.Next().(taken := s.guest.taken + 1)
    ensures RepliesKept(w, Advance(w, s, t))
  {
    FirstReply(w, s);
    WaitingPoint(w, p, s.guest);
    ReadFindsItsReply(w, p, s);
    ReadKeepsReplies(w, s, Advance(w, s, t));
  }

  lemma InvOnAdvance(w: World, p: Plan, s: Sys, t: Trouble)
    requires Faithful(w) && PlanOk(p) && Inv(w, p, s) && Enabled(s, GuestAdvance(t))
    ensures Inv(w, p, Advance(w, s, t))
  {
    WireOnAdvance(w, s, t);
    ScriptOnAdvance(w, p, s, t);
    if s.guest.script[s.guest.pc].Receive? {
      RepliesOnRead(w, p, s, t);
    } else {
      RepliesOnQuietAdvance(w, s, t);
    }
  }

  lemma RepliesOnQuietAdvance(w: World, s: Sys, t: Trouble)
    requires RepliesKept(w, s) && s.guest.Idle() && !s.guest.script[s.guest.pc].Receive?
    ensures RepliesKept(w, Advance(w, s, t))
  {}

  lemma InvOnRecv(w: World, p: Plan, s: Sys, n: nat)
    requires Inv(w, p, s) && Enabled(s, HostRecv(n))
    ensures Inv(w, p, Deliver(w, s, n))
  {
    WireOnRecv(w, s, n);
    RepliesOnRecv(w, s, n);
    assert Deliver(w, s, n).guest == s.guest;
  }

  lemma WireOnCrash(w: World, s: Sys, t: Trouble)
    requires WireKept(w, s) && s.guest.Idle()
    ensures WireKept(w, s.(guest := Crash(w, s.guest, t)))
  {
    CrashKeepsHistory(w, s.guest, t);
    assert Crash(w, s.guest, t).outgoing == [];
  }

  lemma RepliesOnCrash(w: World, s: Sys, t: Trouble)
    requires RepliesKept(w, s) && s.guest.Idle()
    ensures RepliesKept(w, s.(guest := Crash(w, s.guest, t)))
  {
    assert Crash(w, s.guest, t).taken == s.guest.taken;
  }

  lemma InvOnCrash(w: World, p: Plan, s: Sys, t: Trouble)
    requires Faithful(w) && PlanOk(p) && Inv(w, p, s) && s.guest.Idle()
    ensures Inv(w, p, s.(guest := Crash(w, s.guest, t)))
  {
    WireOnCrash(w, s, t);
    RepliesOnCrash(w, s, t);
    ScriptOnCrash(w, p, s.guest, t);
  }

  lemma InvOnStep(w: World, p: Plan, s: Sys, step: Step)
    requires Faithful(w) && PlanOk(p) && Inv(w, p, s)
    ensures Inv(w, p, Apply(w, s, step))
  {
    if Enabled(s, step) {
      match step {
        case GuestAdvance(t) => InvOnAdvance(w, p, s, t);
        case GuestCrash(t) => InvOnCrash(w, p, s, t);
        case GuestReadFails(t) => InvOnCrash(w, p, s, t);
        case GuestWrite(n) =>
          WireOnWrite(w, s, n);
          ScriptOnWrite(w, p, s.guest, s.guest.outgoing[n..]);
        case HostRecv(n) => InvOnRecv(w, p, s, n);
        case HostAbort => WireOnAbort(w, s);
      }
    }
  }

  /** The invariant holds in every reachable state. */
  lemma {:induction false} InvAlways(w: World, p: Plan, steps: seq<Step>)
    requires Faithful(w) && PlanOk(p)
    ensures Inv(w, p, Exec(w, p, steps))
    decreases |steps|
  {
    if steps == [] {
      InvAtStart(w, p);
    } else {
      InvAlways(w, p, steps[..|steps| - 1]);
      InvOnStep(w, p, Exec(w, p, steps[..|steps| - 1]), steps[|steps| - 1]);
    }
  }
}
