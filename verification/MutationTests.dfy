/** The mutation tests the script makes of its own review: for which inventories they pass. */
module MutationTests {
  import opened ProposalReview
  import opened ApprovalSeal

  // ----- When the mutation tests pass -----

  ghost predicate CollisionFree(d: Digests) {
    && (forall p, q :: d.content(p) == d.content(q) ==> p == q)
    && (forall p, q :: d.package(p) == d.package(q) ==> p == q)
  }

  lemma MutateIsAcceptable(entries: seq<Entry>, scope: Scope, path: string, c: char)
    requires Acceptable(entries, scope) && '0' <= c <= '9'
    ensures Acceptable(Mutate(entries, path, Sixty4(c)), scope)
  {
    var mutated := Mutate(entries, path, Sixty4(c));
    forall p | p in NORMATIVE_PATHS
      ensures HasPath(mutated, p)
    {
      assert HasPath(entries, p);
      var i :| 0 <= i < |entries| && entries[i].path == p;
      assert mutated[i].path == p;
    }
    forall i | 0 <= i < |mutated|
      ensures EntryOk(mutated[i])
    {
      assert EntryOk(entries[i]);
    }
  }

  /** An entry for the path with another hash: what a mutation really changes. */
  ghost predicate Changes(entries: seq<Entry>, path: string, sha256: string) {
    exists i :: 0 <= i < |entries| && entries[i].path == path && entries[i].sha256 != sha256
  }

  lemma MutateChanges(entries: seq<Entry>, path: string, sha256: string)
    ensures Mutate(entries, path, sha256) != entries <==> Changes(entries, path, sha256)
  {
    var mutated := Mutate(entries, path, sha256);
    if !Changes(entries, path, sha256) {
      assert forall i :: 0 <= i < |entries| ==> mutated[i] == entries[i];
    } else {
      var i :| 0 <= i < |entries| && entries[i].path == path && entries[i].sha256 != sha256;
      assert mutated[i] != entries[i];
    }
  }

  lemma {:induction false} AdvisoryMutation(entries: seq<Entry>, path: string, sha256: string)
    requires forall i :: 0 <= i < |entries| && entries[i].path == path ==> entries[i].role != Normative
    ensures OfRole(Mutate(entries, path, sha256), Normative) == OfRole(entries, Normative)
    decreases |entries|
  {
    if entries != [] {
      AdvisoryMutation(entries[1..], path, sha256);
      MutateFirst(entries, path, sha256);
    }
  }

  lemma MutateFirst(entries: seq<Entry>, path: string, sha256: string)
    requires entries != []
    ensures Mutate(entries, path, sha256) == [Mutate(entries, path, sha256)[0]] + Mutate(entries[1..], path, sha256)
    ensures Mutate(entries, path, sha256)[1..] == Mutate(entries[1..], path, sha256)
  {}

  lemma {:induction false} NormativeMutation(entries: seq<Entry>, path: string, sha256: string)
    requires forall i :: 0 <= i < |entries| && entries[i].path == path ==> entries[i].role == Normative
    ensures OfRole(Mutate(entries, path, sha256), Normative) == Mutate(OfRole(entries, Normative), path, sha256)
    decreases |entries|
  {
    if entries != [] {
      NormativeMutation(entries[1..], path, sha256);
      MutateFirst(entries, path, sha256);
      if entries[0].role == Normative {
        var files := OfRole(entries, Normative);
        MutateFirst(files, path, sha256);
        assert files[0] == entries[0] && files[1..] == OfRole(entries[1..], Normative);
      }
    }
  }

  lemma RoleOf(entries: seq<Entry>, scope: Scope, path: string)
    requires Acceptable(entries, scope)
    ensures forall i :: 0 <= i < |entries| && entries[i].path == path ==> entries[i].role == Classify(path)
  {
    assert forall i :: 0 <= i < |entries| ==> EntryOk(entries[i]);
  }

  lemma ChangesInside(entries: seq<Entry>, part: seq<Entry>, path: string, sha256: string)
    requires (forall e :: e in part ==> e in entries) && Changes(part, path, sha256)
    ensures Changes(entries, path, sha256)
  {
    var j :| 0 <= j < |part| && part[j].path == path && part[j].sha256 != sha256;
    assert part[j] in entries;
    var i :| 0 <= i < |entries| && entries[i] == part[j];
  }

  lemma ChangesNormative(entries: seq<Entry>, scope: Scope, sha256: string)
    requires Acceptable(entries, scope)
    ensures Changes(OfRole(entries, Normative), GOAL, sha256) <==> Changes(entries, GOAL, sha256)
  {
    RoleOf(entries, scope, GOAL);
    ClassifiedNames();
    if Changes(OfRole(entries, Normative), GOAL, sha256) {
      ChangesInside(entries, OfRole(entries, Normative), GOAL, sha256);
    } else if Changes(entries, GOAL, sha256) {
      ChangesKept(entries, GOAL, sha256);
    }
  }

  lemma ChangesKept(entries: seq<Entry>, path: string, sha256: string)
    requires forall i :: 0 <= i < |entries| && entries[i].path == path ==> entries[i].role == Normative
    requires Changes(entries, path, sha256)
    ensures Changes(OfRole(entries, Normative), path, sha256)
  {
    var i :| 0 <= i < |entries| && entries[i].path == path && entries[i].sha256 != sha256;
    var files := OfRole(entries, Normative);
    assert entries[i] in files;
    var j :| 0 <= j < |files| && files[j] == entries[i];
  }

  lemma NoPath(entries: seq<Entry>, path: string)
    requires forall e :: e in entries ==> e.path != path
    ensures !HasPath(entries, path)
  {
    assert forall i :: 0 <= i < |entries| ==> entries[i] in entries;
  }

  lemma GoalIsNeeded()
    ensures GOAL in NORMATIVE_PATHS
  {
    assert GOAL == NORMATIVE_PATHS[7];
  }

  lemma DropTest(d: Digests, entries: seq<Entry>, baseline: Baseline, scope: Scope)
    ensures CreateReview(d, Without(entries, GOAL), baseline, scope).None?
  {
    NoPath(Without(entries, GOAL), GOAL);
    GoalIsNeeded();
  }

  lemma ReclassifyTest(d: Digests, entries: seq<Entry>, baseline: Baseline, scope: Scope)
    requires HasPath(entries, GOAL)
    ensures CreateReview(d, Reclassify(entries, GOAL), baseline, scope).None?
  {
    var i :| 0 <= i < |entries| && entries[i].path == GOAL;
    GoalIsNeeded();
    assert !EntryOk(Reclassify(entries, GOAL)[i]);
  }

  /** Dropping the goal, reclassifying it or shrinking the scope is always refused. */
  lemma NegativeTests(d: Digests, inv: Invocation)
    requires Acceptable(inv.entries, inv.scope)
    ensures CreateReview(d, Without(inv.entries, GOAL), inv.baseline, inv.scope).None?
    ensures CreateReview(d, Reclassify(inv.entries, GOAL), inv.baseline, inv.scope).None?
    ensures CreateReview(d, inv.entries, inv.baseline,
                         inv.scope.(normativePaths := WithoutPath(inv.scope.normativePaths, GOAL))).None?
  {
    GoalIsNeeded();
    assert HasPath(inv.entries, GOAL);
    DropTest(d, inv.entries, inv.baseline, inv.scope);
    ReclassifyTest(d, inv.entries, inv.baseline, inv.scope);
  }

  lemma ClassifiedNames()
    ensures Classify(DESIGN) == Advisory && Classify(GOAL) == Normative
  {
    assert GOAL == NORMATIVE_PATHS[7];
    assert DESIGN !in NORMATIVE_PATHS;
    assert DESIGN[0] == 'C' && DESIGN[|DESIGN| - 3..][0] == '.' && DESIGN[|DESIGN| - 3..][1] == 'm';
    assert DESIGN[|DESIGN| - 4..][0] == 'N';
  }

  lemma AdvisoryTest(d: Digests, inv: Invocation)
    requires CollisionFree(d) && Reviewed(d, inv).Some?
    ensures var advisory := CreateReview(d, Mutate(inv.entries, DESIGN, Sixty4('1')), inv.baseline, inv.scope);
      && advisory.Some? && advisory.value.payload == Reviewed(d, inv).value.payload
      && (advisory.value.packageIntegrityDigest != Reviewed(d, inv).value.packageIntegrityDigest <==>
            Changes(inv.entries, DESIGN, Sixty4('1')))
  {
    ClassifiedNames();
    MutateIsAcceptable(inv.entries, inv.scope, DESIGN, '1');
    RoleOf(inv.entries, inv.scope, DESIGN);
    AdvisoryMutation(inv.entries, DESIGN, Sixty4('1'));
    MutateChanges(inv.entries, DESIGN, Sixty4('1'));
  }

  lemma NormativeTest(d: Digests, inv: Invocation)
    requires CollisionFree(d) && Reviewed(d, inv).Some?
    ensures var normative := CreateReview(d, Mutate(inv.entries, GOAL, Sixty4('2')), inv.baseline, inv.scope);
      && normative.Some?
      && (normative.value.contentDigest != Reviewed(d, inv).value.contentDigest <==>
            Changes(inv.entries, GOAL, Sixty4('2')))
  {
    ClassifiedNames();
    MutateIsAcceptable(inv.entries, inv.scope, GOAL, '2');
    RoleOf(inv.entries, inv.scope, GOAL);
    NormativeMutation(inv.entries, GOAL, Sixty4('2'));
    MutateChanges(OfRole(inv.entries, Normative), GOAL, Sixty4('2'));
    ChangesNormative(inv.entries, inv.scope, Sixty4('2'));
  }

  /** With a collision-free digest the script's mutation tests pass for exactly those accepted inventories in
      which the two mutated files are there and do not already have the mutant's hash. */
  lemma SelfTestsIff(d: Digests, inv: Invocation)
    requires CollisionFree(d) && Reviewed(d, inv).Some?
    ensures SelfTests(d, inv, Reviewed(d, inv).value) <==>
      && Changes(inv.entries, "CHECK-DESIGN.md", seq(64, i => '1'))
      && Changes(inv.entries, "proposed/PROJECT_GOAL.md", seq(64, i => '2'))
  {
    assert Sixty4('1') == seq(64, i => '1') && Sixty4('2') == seq(64, i => '2');
    AdvisoryTest(d, inv);
    NormativeTest(d, inv);
    NegativeTests(d, inv);
  }
}
