/** The review manifest over the runs of its script: sealed once, refreshed or checked afterwards. */
module ApprovalSeal {
  import opened Wrappers
  import opened ProposalReview

  // ----- The manifest over a run of the script -----

  datatype Command = Seal | Refresh | Check

  /** One run of the script: its argument, and the files, baseline and scope as they are at that time. */
  datatype Invocation = Invocation(command: Command, entries: seq<Entry>, baseline: Baseline, scope: Scope)

  function Reviewed(d: Digests, inv: Invocation): Option<Review> {
    CreateReview(d, inv.entries, inv.baseline, inv.scope)
  }

  predicate Accepts(d: Digests, stored: Option<Review>, inv: Invocation) {
    match Reviewed(d, inv)
    case None => false
    case Some(review) =>
      SelfTests(d, inv, review)
      && match inv.command
         case Seal => stored.None?
         case Refresh => stored.Some? && AdvisoryRefresh(d, stored.value, review)
         case Check => stored == Some(review)
  }

  function Step(d: Digests, stored: Option<Review>, inv: Invocation): Option<Review> {
    if Accepts(d, stored, inv) then Reviewed(d, inv) else stored
  }

  function Runs(d: Digests, stored: Option<Review>, invocations: seq<Invocation>): Option<Review> {
    if invocations == [] then stored
    else Step(d, Runs(d, stored, invocations[..|invocations| - 1]), invocations[|invocations| - 1])
  }

  /** review-manifest.json. */
  class ReviewManifest {
    var stored: Option<Review>

    constructor ()
      ensures stored.None?
    {
      stored := None;
    }

    method Audit(d: Digests, inv: Invocation) returns (accepted: bool)
      modifies this
      ensures accepted == Accepts(d, old(stored), inv)
      ensures stored == Step(d, old(stored), inv)
      ensures inv.command == Check || !accepted ==> stored == old(stored)
    {
      var review := CreateReview(d, inv.entries, inv.baseline, inv.scope);
      if review.None? || !SelfTests(d, inv, review.value) {
        return false;
      }
      match inv.command {
        case Seal =>
          if stored.Some? {
            return false;
          }
          stored := review;
        case Refresh =>
          if stored.None? || !AdvisoryRefresh(d, stored.value, review.value) {
            return false;
          }
          stored := review;
        case Check =>
          if stored != review {
            return false;
          }
      }
      accepted := true;
    }
  }

  // ----- The script's own mutation tests -----

  function Mutate(entries: seq<Entry>, path: string, sha256: string): (mutated: seq<Entry>)
    ensures |mutated| == |entries|
    ensures forall i :: 0 <= i < |entries| ==>
      mutated[i] == if entries[i].path == path then entries[i].(sha256 := sha256) else entries[i]
  {
    seq(|entries|, i requires 0 <= i < |entries| =>
      if entries[i].path == path then entries[i].(sha256 := sha256) else entries[i])
  }

  function Reclassify(entries: seq<Entry>, path: string): (mutated: seq<Entry>)
    ensures |mutated| == |entries|
    ensures forall i :: 0 <= i < |entries| ==>
      mutated[i] == if entries[i].path == path then entries[i].(role := Advisory) else entries[i]
  {
    seq(|entries|, i requires 0 <= i < |entries| =>
      if entries[i].path == path then entries[i].(role := Advisory) else entries[i])
  }

  function Without(entries: seq<Entry>, path: string): (kept: seq<Entry>)
    ensures forall e :: e in kept <==> e in entries && e.path != path
  {
    if entries == [] then []
    else
      var rest := Without(entries[1..], path);
      assert forall e :: e in entries <==> e == entries[0] || e in entries[1..];
      if entries[0].path != path then [entries[0]] + rest else rest
  }

  function WithoutPath(paths: seq<string>, path: string): (kept: seq<string>)
    ensures path !in kept
  {
    if paths == [] then []
    else if paths[0] != path then [paths[0]] + WithoutPath(paths[1..], path)
    else WithoutPath(paths[1..], path)
  }

  function Sixty4(c: char): (s: string)
    ensures |s| == 64 && forall i :: 0 <= i < 64 ==> s[i] == c
  {
    seq(64, i => c)
  }

  predicate SelfTests(d: Digests, inv: Invocation, review: Review) {
    var advisory := CreateReview(d, Mutate(inv.entries, DESIGN, Sixty4('1')), inv.baseline, inv.scope);
    var normative := CreateReview(d, Mutate(inv.entries, GOAL, Sixty4('2')), inv.baseline, inv.scope);
    && advisory.Some? && normative.Some?
    && advisory.value.contentDigest == review.contentDigest
    && advisory.value.packageIntegrityDigest != review.packageIntegrityDigest
    && AdvisoryRefresh(d, review, advisory.value)
    && normative.value.contentDigest != review.contentDigest
    && !AdvisoryRefresh(d, review, normative.value)
    && CreateReview(d, Without(inv.entries, GOAL), inv.baseline, inv.scope).None?
    && CreateReview(d, Reclassify(inv.entries, GOAL), inv.baseline, inv.scope).None?
    && CreateReview(d, inv.entries, inv.baseline,
                    inv.scope.(normativePaths := WithoutPath(inv.scope.normativePaths, GOAL))).None?
  }

  // ----- The approval never moves -----

  /** Every stored review is one the script created. */
  ghost predicate Genuine(d: Digests, stored: Option<Review>) {
    stored.Some? ==>
      stored.value.contentDigest == d.content(stored.value.payload)
      && stored.value.packageIntegrityDigest == d.package(stored.value.packagePayload)
  }

  lemma StepKeeps(d: Digests, stored: Option<Review>, inv: Invocation)
    requires Genuine(d, stored)
    ensures Genuine(d, Step(d, stored, inv))
    ensures stored.Some? ==>
      var next := Step(d, stored, inv);
      next.Some? && next.value.payload == stored.value.payload && next.value.contentDigest == stored.value.contentDigest
  {}

  /** Over every run, with any edits between the invocations: once something is stored, its payload and its
      content digest stay. */
  lemma {:induction false} ApprovalNeverMoves(d: Digests, stored: Option<Review>, invocations: seq<Invocation>)
    requires Genuine(d, stored) && stored.Some?
    ensures var after := Runs(d, stored, invocations);
      && Genuine(d, after) && after.Some?
      && after.value.payload == stored.value.payload && after.value.contentDigest == stored.value.contentDigest
    decreases |invocations|
  {
    if invocations != [] {
      var front := invocations[..|invocations| - 1];
      ApprovalNeverMoves(d, stored, front);
      StepKeeps(d, Runs(d, stored, front), invocations[|invocations| - 1]);
    }
  }

  lemma {:induction false} RunsCompose(d: Digests, stored: Option<Review>, a: seq<Invocation>, b: seq<Invocation>)
    ensures Runs(d, stored, a + b) == Runs(d, Runs(d, stored, a), b)
    decreases |b|
  {
    if b == [] {
      assert a + b == a;
    } else {
      assert (a + b)[..|a + b| - 1] == a + b[..|b| - 1];
      RunsCompose(d, stored, a, b[..|b| - 1]);
    }
  }

  /** From an empty directory, whatever is stored after `first` and after everything that follows is the
      approval of one and the same payload: the one the first accepted seal stored. */
  lemma OneApproval(d: Digests, first: seq<Invocation>, more: seq<Invocation>)
    requires Runs(d, None, first).Some?
    ensures var sealed, after := Runs(d, None, first), Runs(d, None, first + more);
      after.Some? && after.value.payload == sealed.value.payload
      && after.value.contentDigest == sealed.value.contentDigest
  {
    RunsAreGenuine(d, first);
    RunsCompose(d, None, first, more);
    ApprovalNeverMoves(d, Runs(d, None, first), more);
  }

  lemma {:induction false} RunsAreGenuine(d: Digests, invocations: seq<Invocation>)
    ensures Genuine(d, Runs(d, None, invocations))
    decreases |invocations|
  {
    if invocations != [] {
      RunsAreGenuine(d, invocations[..|invocations| - 1]);
      StepKeeps(d, Runs(d, None, invocations[..|invocations| - 1]), invocations[|invocations| - 1]);
    }
  }

  ghost predicate AcceptedAt(d: Digests, invocations: seq<Invocation>, i: nat) {
    i < |invocations| && Accepts(d, Runs(d, None, invocations[..i]), invocations[i])
  }

  ghost predicate AcceptedLast(d: Digests, invocations: seq<Invocation>, i: nat) {
    AcceptedAt(d, invocations, i) && forall j: nat :: i < j ==> !AcceptedAt(d, invocations, j)
  }

  lemma AcceptedInFront(d: Digests, invocations: seq<Invocation>, n: nat, i: nat)
    requires i < n <= |invocations|
    ensures AcceptedAt(d, invocations[..n], i) <==> AcceptedAt(d, invocations, i)
  {
    assert invocations[..n][..i] == invocations[..i];
  }

  lemma StepStores(d: Digests, stored: Option<Review>, inv: Invocation)
    ensures Accepts(d, stored, inv) ==> Step(d, stored, inv) == Reviewed(d, inv) && Reviewed(d, inv).Some?
    ensures !Accepts(d, stored, inv) ==> Step(d, stored, inv) == stored
  {}

  /** Nothing is stored as long as nothing is accepted, and what is stored is always the review of the
      inventory that was accepted last. */
  lemma {:induction false} StoredIsLastAccepted(d: Digests, invocations: seq<Invocation>)
    ensures LastIsStored(d, invocations, Runs(d, None, invocations))
    decreases |invocations|
  {
    if invocations != [] {
      var front, inv := invocations[..|invocations| - 1], invocations[|invocations| - 1];
      StoredIsLastAccepted(d, front);
      assert invocations == front + [inv];
      StoredStep(d, front, inv, Runs(d, None, front));
      RunsNext(d, front, inv);
    }
  }

  lemma RunsNext(d: Digests, front: seq<Invocation>, inv: Invocation)
    ensures Runs(d, None, front + [inv]) == Step(d, Runs(d, None, front), inv)
    ensures AcceptedAt(d, front + [inv], |front|) <==> Accepts(d, Runs(d, None, front), inv)
  {
    assert (front + [inv])[..|front|] == front;
  }

  lemma AcceptedEarlier(d: Digests, front: seq<Invocation>, inv: Invocation, i: nat)
    ensures AcceptedAt(d, front, i) ==> AcceptedAt(d, front + [inv], i)
    ensures AcceptedAt(d, front + [inv], i) && i < |front| ==> AcceptedAt(d, front, i)
  {
    if i < |front| {
      assert (front + [inv])[..|front|] == front;
      AcceptedInFront(d, front + [inv], |front|, i);
    }
  }

  /** Nothing is stored and nothing was accepted, or the review of what was accepted last is stored. */
  ghost predicate LastIsStored(d: Digests, invocations: seq<Invocation>, stored: Option<Review>) {
    && (stored.None? ==> forall i: nat :: !AcceptedAt(d, invocations, i))
    && (stored.Some? ==>
          exists i: nat :: AcceptedLast(d, invocations, i) && stored == Reviewed(d, invocations[i]))
  }

  lemma StoredAnew(d: Digests, front: seq<Invocation>, inv: Invocation)
    requires AcceptedAt(d, front + [inv], |front|) && Reviewed(d, inv).Some?
    ensures LastIsStored(d, front + [inv], Reviewed(d, inv))
  {
    assert AcceptedLast(d, front + [inv], |front|);
  }

  lemma StoredBefore(d: Digests, front: seq<Invocation>, inv: Invocation, stored: Option<Review>)
    requires LastIsStored(d, front, stored) && !AcceptedAt(d, front + [inv], |front|)
    ensures LastIsStored(d, front + [inv], stored)
  {
    forall i: nat
      ensures AcceptedAt(d, front + [inv], i) <==> AcceptedAt(d, front, i)
    {
      AcceptedEarlier(d, front, inv, i);
    }
    if stored.Some? {
      var i: nat :| AcceptedLast(d, front, i) && stored == Reviewed(d, front[i]);
      assert AcceptedLast(d, front + [inv], i);
    }
  }

  lemma StoredStep(d: Digests, front: seq<Invocation>, inv: Invocation, before: Option<Review>)
    requires before == Runs(d, None, front) && LastIsStored(d, front, before)
    ensures LastIsStored(d, front + [inv], Step(d, before, inv))
  {
    StepStores(d, before, inv);
    RunsNext(d, front, inv);
    if AcceptedAt(d, front + [inv], |front|) {
      StoredAnew(d, front, inv);
    } else {
      StoredBefore(d, front, inv, before);
    }
  }

  /** A refresh is accepted exactly when the baseline and the normative entries are the stored ones. */
  lemma RefreshIff(d: Digests, old': Invocation, inv: Invocation)
    requires Reviewed(d, old').Some? && Reviewed(d, inv).Some? && inv.command == Refresh
    requires SelfTests(d, inv, Reviewed(d, inv).value)
    ensures Accepts(d, Reviewed(d, old'), inv) <==>
      inv.baseline == old'.baseline && SameNormative(old'.entries, inv.entries)
  {
    if inv.baseline == old'.baseline {
      PayloadIff(d, old'.entries, inv.entries, inv.baseline, inv.scope);
    }
  }
}
