/** The main script: which messages it sends and where it reads. */
module JobScript {
  import opened Framing
  import opened HostJob
  import opened GuestJob

  lemma {:induction false} BodiesAppend(a: seq<Instr>, b: seq<Instr>)
    ensures BodiesOf(a + b) == BodiesOf(a) + BodiesOf(b) && ReadsOf(a + b) == ReadsOf(a) + ReadsOf(b)
    decreases |b|
  {
    if b == [] {
      assert a + b == a;
    } else {
      var front := b[..|b| - 1];
      assert (a + b)[..|a + b| - 1] == a + front;
      BodiesAppend(a, front);
    }
  }

  lemma {:induction false} BodiesOfSends(bodies: seq<Body>)
    ensures BodiesOf(SendAll(bodies)) == bodies && ReadsOf(SendAll(bodies)) == 0
    decreases |bodies|
  {
    if bodies != [] {
      var script, front := SendAll(bodies), bodies[..|bodies| - 1];
      assert script[..|script| - 1] == SendAll(front);
      BodiesOfSends(front);
    }
  }

  /** A step forward adds at most the message of the instruction done. */
  lemma BodiesStep(script: seq<Instr>, pc: nat)
    requires pc < |script|
    ensures BodiesOf(script[..pc + 1]) == BodiesOf(script[..pc]) + if script[pc].Send? then [script[pc].body] else []
    ensures ReadsOf(script[..pc + 1]) == ReadsOf(script[..pc]) + if script[pc].Receive? then 1 else 0
  {
    assert script[..pc + 1][..pc] == script[..pc];
  }

  /** A script that reads twice: after `front` and at its end. */
  lemma TwoReads(front: seq<Instr>, r: Reply, work: seq<Instr>, s: Reply)
    requires ReadsOf(front) == 0 && ReadsOf(work) == 0
    ensures var script := front + [Receive(r)] + work + [Receive(s)];
      && script[..|front|] == front && BodiesOf(script[..|script| - 1]) == BodiesOf(front) + BodiesOf(work)
      && BodiesOf(script) == BodiesOf(front) + BodiesOf(work)
      && ReadsOf(script[..|front| + 1]) == 1 && ReadsOf(script[..|script| - 1]) == 1
  {
    var first, second := front + [Receive(r)], front + [Receive(r)] + work;
    var script := second + [Receive(s)];
    assert script[..|front|] == front && script[..|front| + 1] == first && script[..|script| - 1] == second;
    assert first[..|front|] == front;
    BodiesAppend(first, work);
    assert BodiesOf(first) == BodiesOf(front) + [] == BodiesOf(front);
    assert BodiesOf(script) == BodiesOf(second) + [] == BodiesOf(second);
  }

  function MainFrontScript(p: Plan): seq<Instr> {
    SendAll(p.setup) + [Send(HostReady(p.observation))]
  }

  function MainWorkScript(w: World, p: Plan): seq<Instr> {
    SendAll(p.matrix) + ExportScript(w, p.archive) + [Send(Complete)]
  }

  lemma MainParts(w: World, p: Plan)
    ensures MainScript(w, p) == MainFrontScript(p) + [Receive(Admit)] + MainWorkScript(w, p) + [Receive(Shutdown)]
    ensures MainBodies(w, p)
         == p.setup + [HostReady(p.observation)] + (p.matrix + ExportBodies(w, p.archive) + [Complete])
  {}

  /** Where the observation, the completion claim and the two reads stand in the main script. */
  lemma MainShape(w: World, p: Plan)
    ensures var main, bodies, a := MainScript(w, p), MainBodies(w, p), |p.setup|;
      && |main| >= a + 4 && BodiesOf(main[..|main| - 1]) == bodies == BodiesOf(main)
      && BodiesOf(main[..a + 1]) == p.setup + [HostReady(p.observation)]
      && ReadsOf(main[..a + 1]) == 0 && ReadsOf(main[..a + 2]) == 1 && ReadsOf(main[..|main| - 1]) == 1
  {
    FrontBodies(p);
    WorkBodies(w, p);
    TwoReads(MainFrontScript(p), Admit, MainWorkScript(w, p), Shutdown);
    MainParts(w, p);
  }

  lemma MainReads(w: World, p: Plan, i: nat)
    requires i < |MainScript(w, p)|
    ensures MainScript(w, p)[i].Receive? ==>
      || (i == |p.setup| + 1 && MainScript(w, p)[i] == Receive(Admit))
      || (i == |MainScript(w, p)| - 1 && MainScript(w, p)[i] == Receive(Shutdown))
  {
    WorkBodies(w, p);
    FrontReads(p);
    MainParts(w, p);
    ReadsAt(MainFrontScript(p), Admit, MainWorkScript(w, p), Shutdown, MainScript(w, p), i);
  }

  lemma ReadsAt(front: seq<Instr>, r: Reply, work: seq<Instr>, s: Reply, script: seq<Instr>, i: nat)
    requires forall j :: 0 <= j < |front| ==> !front[j].Receive?
    requires forall j :: 0 <= j < |work| ==> !work[j].Receive?
    requires script == front + [Receive(r)] + work + [Receive(s)] && i < |script|
    ensures script[i].Receive? ==>
      (i == |front| && script[i] == Receive(r)) || (i == |script| - 1 && script[i] == Receive(s))
  {
    if i < |front| {
      assert script[i] == front[i];
    } else if |front| < i < |script| - 1 {
      assert script[i] == work[i - |front| - 1];
    }
  }

  lemma FrontReads(p: Plan)
    ensures var front := MainFrontScript(p);
      |front| == |p.setup| + 1 && forall j :: 0 <= j < |front| ==> !front[j].Receive?
  {}

  lemma FrontBodies(p: Plan)
    ensures var front := SendAll(p.setup) + [Send(HostReady(p.observation))];
      BodiesOf(front) == p.setup + [HostReady(p.observation)] && ReadsOf(front) == 0
  {
    BodiesOfSends(p.setup);
    BodiesAppend(SendAll(p.setup), [Send(HostReady(p.observation))]);
  }

  lemma WorkBodies(w: World, p: Plan)
    ensures var work := SendAll(p.matrix) + ExportScript(w, p.archive) + [Send(Complete)];
      && BodiesOf(work) == p.matrix + ExportBodies(w, p.archive) + [Complete] && ReadsOf(work) == 0
      && forall i :: 0 <= i < |work| ==> !work[i].Receive?
  {
    BodiesOfSends(p.matrix);
    ExportScriptBodies(w, p.archive);
    BodiesAppend(SendAll(p.matrix), ExportScript(w, p.archive));
    BodiesAppend(SendAll(p.matrix) + ExportScript(w, p.archive), [Send(Complete)]);
  }

  lemma ExportScriptBodies(w: World, archive: seq<Byte>)
    ensures BodiesOf(ExportScript(w, archive)) == ExportBodies(w, archive) && ReadsOf(ExportScript(w, archive)) == 0
  {
    var check := [Check(|archive| < ARCHIVE_LIMIT)];
    BodiesOfSends(ExportBodies(w, archive));
    BodiesAppend(check, SendAll(ExportBodies(w, archive)));
    assert check[..0] == [] && BodiesOf(check) == [] && ReadsOf(check) == 0;
    assert [] + ExportBodies(w, archive) == ExportBodies(w, archive);
  }
}
