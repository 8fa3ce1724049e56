/** The proposal review: the approval payload over the normative files and the package inventory over all files. */
module ProposalReview {
  import opened Wrappers

  datatype Role = Normative | Historical | Reproduction | Advisory

  datatype Entry = Entry(path: string, bytes: int, sha256: string, role: Role)

  datatype Baseline = Baseline(commit: string, tree: string)

  datatype Scope = Scope(normativePaths: seq<string>, advisoryMayOverride: bool, packageAuthorizes: bool)

  datatype Payload = Payload(baseline: Baseline, files: seq<Entry>)

  datatype PackagePayload = PackagePayload(contentDigest: string, files: seq<Entry>)

  datatype Review = Review(payload: Payload, contentDigest: string, packagePayload: PackagePayload,
                           packageIntegrityDigest: string)

  /** SHA-256 of the serialised payloads. */
  datatype Digests = Digests(content: Payload -> string, package: PackagePayload -> string)

  const GOAL := "proposed/PROJECT_GOAL.md"
  const DESIGN := "CHECK-DESIGN.md"

  /** Sorted, as the source keeps it. */
  const NORMATIVE_PATHS: seq<string> := [
    "ACCEPTANCE-MAPPING.md", "APPROVAL-SCOPE.md", "TRANSITION-CONTRACT.md", "acceptance-mapping.json",
    "approval-scope.json", "proposed/AGENTS.md", "proposed/CONTRACT.md", GOAL, "proposed/evals/ACCEPTANCE.md",
    "proposed/evals/HIDDEN_VALIDATION_PROTOCOL.md", "proposed/evals/acceptance-manifest.json",
    "proposed/evals/immutable-contract-lock.json", "proposed/qualification-target-contract.json"]

  const HISTORICAL_NAMES: set<string> :=
    {"baseline-index.json", "revision-baseline.json", "prior-review-manifest.json"}

  predicate EndsWith(s: string, tail: string) {
    |s| >= |tail| && s[|s| - |tail|..] == tail
  }

  function Classify(path: string): Role {
    if path in NORMATIVE_PATHS then Normative
    else if "baseline/" <= path || path in HISTORICAL_NAMES then Historical
    else if EndsWith(path, ".ts") || EndsWith(path, ".mjs") then Reproduction
    else Advisory
  }

  // ----- The order of paths -----

  /** How `sort()` compares two strings. */
  predicate Less(a: string, b: string) {
    if b == "" then false
    else if a == "" then true
    else if a[0] != b[0] then a[0] < b[0]
    else Less(a[1..], b[1..])
  }

  lemma {:induction false} LessIsTotal(a: string, b: string)
    ensures !(Less(a, b) && Less(b, a)) && (a == b || Less(a, b) || Less(b, a))
    decreases |a|
  {
    if a != "" && b != "" && a[0] == b[0] {
      LessIsTotal(a[1..], b[1..]);
      assert a == [a[0]] + a[1..] && b == [b[0]] + b[1..];
    }
  }

  lemma {:induction false} LessIsTransitive(a: string, b: string, c: string)
    requires Less(a, b) && Less(b, c)
    ensures Less(a, c)
    decreases |a|
  {
    if a != "" && a[0] == b[0] == c[0] {
      LessIsTransitive(a[1..], b[1..], c[1..]);
    }
  }

  /** Distinct and equal to their own sorting. */
  predicate Ordered(entries: seq<Entry>) {
    && (forall i, j :: 0 <= i < j < |entries| ==> entries[i].path != entries[j].path)
    && (forall i :: 0 < i < |entries| ==> !Less(entries[i].path, entries[i - 1].path))
  }

  lemma {:induction false} OrderedAll(entries: seq<Entry>, i: nat, j: nat)
    requires Ordered(entries) && i < j < |entries|
    ensures Less(entries[i].path, entries[j].path)
    decreases j - i
  {
    LessIsTotal(entries[j - 1].path, entries[j].path);
    if i < j - 1 {
      OrderedAll(entries, i, j - 1);
      LessIsTransitive(entries[i].path, entries[j - 1].path, entries[j].path);
    }
  }

  ghost predicate Rising(entries: seq<Entry>) {
    forall i, j :: 0 <= i < j < |entries| ==> Less(entries[i].path, entries[j].path)
  }

  /** A rising list is determined by its elements. */
  lemma {:induction false} RisingIsUnique(a: seq<Entry>, b: seq<Entry>)
    requires Rising(a) && Rising(b) && forall e :: e in a <==> e in b
    ensures a == b
    decreases |a|
  {
    assert b != [] ==> b[0] in b;
    if a != [] {
      assert a[0] in b;
      SameFirst(a, b);
      var e := a[0];
      assert a == [e] + a[1..] && b == [e] + b[1..];
      forall x
        ensures x in a[1..] <==> x in b[1..]
      {
        TailElements(a, x);
        TailElements(b, x);
      }
      RisingIsUnique(a[1..], b[1..]);
    }
  }

  lemma SameFirst(a: seq<Entry>, b: seq<Entry>)
    requires a != [] && b != [] && Rising(a) && Rising(b) && forall e :: e in a <==> e in b
    ensures a[0] == b[0]
  {
    assert a[0] in b && b[0] in a;
    var i :| 0 <= i < |b| && b[i] == a[0];
    var j :| 0 <= j < |a| && a[j] == b[0];
    LessIsTotal(a[0].path, b[0].path);
  }

  lemma TailElements(a: seq<Entry>, x: Entry)
    requires a != [] && Rising(a)
    ensures x in a[1..] <==> x in a && x != a[0]
  {
    if x in a[1..] {
      var i :| 0 <= i < |a[1..]| && a[1..][i] == x;
      assert Less(a[0].path, a[i + 1].path);
      LessIsTotal(x.path, x.path);
    }
    assert a == [a[0]] + a[1..];
  }

  // ----- Creating a review -----

  function Segments(path: string): seq<string>
    decreases |path|
  {
    if path == "" then [""]
    else if path[0] == '/' then [""] + Segments(path[1..])
    else var rest := Segments(path[1..]); if rest == [] then [[path[0]]] else [[path[0]] + rest[0]] + rest[1..]
  }

  predicate SafePath(path: string) {
    !("/" <= path) && '\\' !in path && ".." !in Segments(path) && "." !in Segments(path)
  }

  predicate HexDigest(s: string) {
    |s| == 64 && forall c :: c in s ==> '0' <= c <= '9' || 'a' <= c <= 'f'
  }

  predicate EntryOk(e: Entry) {
    SafePath(e.path) && e.role == Classify(e.path) && HexDigest(e.sha256) && 0 <= e.bytes <= 9007199254740991
  }

  predicate HasPath(entries: seq<Entry>, path: string) {
    exists i :: 0 <= i < |entries| && entries[i].path == path
  }

  predicate Acceptable(entries: seq<Entry>, scope: Scope) {
    && scope == Scope(NORMATIVE_PATHS, false, false)
    && Ordered(entries)
    && (forall p :: p in NORMATIVE_PATHS ==> HasPath(entries, p))
    && (forall i :: 0 <= i < |entries| ==> EntryOk(entries[i]))
  }

  function OfRole(entries: seq<Entry>, role: Role): (kept: seq<Entry>)
    ensures forall e :: e in kept <==> e in entries && e.role == role
  {
    if entries == [] then []
    else
      var rest := OfRole(entries[1..], role);
      assert forall e :: e in entries <==> e == entries[0] || e in entries[1..];
      if entries[0].role == role then [entries[0]] + rest else rest
  }

  function CreateReview(d: Digests, entries: seq<Entry>, baseline: Baseline, scope: Scope): Option<Review> {
    if !Acceptable(entries, scope) then None
    else
      var payload := Payload(baseline, OfRole(entries, Normative));
      var package := PackagePayload(d.content(payload), entries);
      Some(Review(payload, d.content(payload), package, d.package(package)))
  }

  predicate AdvisoryRefresh(d: Digests, previous: Review, next: Review) {
    && previous.contentDigest == d.content(previous.payload)
    && previous.packageIntegrityDigest == d.package(previous.packagePayload)
    && previous.contentDigest == next.contentDigest
    && previous.payload == next.payload
  }

  lemma {:induction false} OfRoleRises(entries: seq<Entry>, role: Role)
    requires Rising(entries)
    ensures Rising(OfRole(entries, role))
    decreases |entries|
  {
    if entries != [] {
      OfRoleRises(entries[1..], role);
      var rest := OfRole(entries[1..], role);
      forall e | e in rest
        ensures Less(entries[0].path, e.path)
      {
        FirstIsLess(entries, e);
      }
      RisesFrom(entries[0], rest);
    }
  }

  lemma FirstIsLess(entries: seq<Entry>, e: Entry)
    requires entries != [] && Rising(entries) && e in entries[1..]
    ensures Less(entries[0].path, e.path)
  {
    var i :| 0 <= i < |entries[1..]| && entries[1..][i] == e;
    assert entries[i + 1] == e;
  }

  lemma RisesFrom(first: Entry, rest: seq<Entry>)
    requires Rising(rest) && forall e :: e in rest ==> Less(first.path, e.path)
    ensures Rising([first] + rest)
  {
    assert forall i :: 0 <= i < |rest| ==> rest[i] in rest;
  }

  lemma AcceptableRises(entries: seq<Entry>, scope: Scope)
    requires Acceptable(entries, scope)
    ensures Rising(entries) && Rising(OfRole(entries, Normative))
  {
    forall i, j | 0 <= i < j < |entries|
      ensures Less(entries[i].path, entries[j].path)
    {
      OrderedAll(entries, i, j);
    }
    OfRoleRises(entries, Normative);
  }

  /** The normative entries of an inventory. */
  ghost predicate SameNormative(a: seq<Entry>, b: seq<Entry>) {
    forall e: Entry :: e.role == Normative ==> (e in a <==> e in b)
  }

  /** Accepted inventories with the same baseline have the same approval payload exactly when they have the
      same normative entries; nothing else in them matters, not even how many files there are. */
  lemma PayloadIff(d: Digests, a: seq<Entry>, b: seq<Entry>, baseline: Baseline, scope: Scope)
    requires CreateReview(d, a, baseline, scope).Some? && CreateReview(d, b, baseline, scope).Some?
    ensures CreateReview(d, a, baseline, scope).value.payload == CreateReview(d, b, baseline, scope).value.payload
       <==> SameNormative(a, b)
    ensures SameNormative(a, b) ==>
      CreateReview(d, a, baseline, scope).value.contentDigest == CreateReview(d, b, baseline, scope).value.contentDigest
  {
    AcceptableRises(a, scope);
    AcceptableRises(b, scope);
    var x, y := OfRole(a, Normative), OfRole(b, Normative);
    if SameNormative(a, b) {
      RisingIsUnique(x, y);
    }
    if x == y {
      forall e: Entry | e.role == Normative
        ensures e in a <==> e in b
      {
        assert e in x <==> e in a;
      }
    }
  }

  lemma KeptPath(entries: seq<Entry>, role: Role, p: string)
    requires HasPath(entries, p) && forall i :: 0 <= i < |entries| && entries[i].path == p ==> entries[i].role == role
    ensures HasPath(OfRole(entries, role), p)
  {
    var i :| 0 <= i < |entries| && entries[i].path == p;
    assert entries[i] in OfRole(entries, role);
    var j :| 0 <= j < |OfRole(entries, role)| && OfRole(entries, role)[j] == entries[i];
  }

  lemma NormativeIff(entries: seq<Entry>, e: Entry)
    requires (forall i :: 0 <= i < |entries| ==> EntryOk(entries[i])) && e in entries
    ensures e.role == Normative <==> e.path in NORMATIVE_PATHS
  {
    var i :| 0 <= i < |entries| && entries[i] == e;
    assert EntryOk(entries[i]);
  }

  /** The payload lists exactly the declared normative paths, in their declared order. */
  lemma PayloadPaths(d: Digests, entries: seq<Entry>, baseline: Baseline, scope: Scope)
    requires CreateReview(d, entries, baseline, scope).Some?
    ensures var files := CreateReview(d, entries, baseline, scope).value.payload.files;
      && (forall e :: e in files ==> e.path in NORMATIVE_PATHS)
      && (forall p :: p in NORMATIVE_PATHS ==> HasPath(files, p))
      && Rising(files)
  {
    AcceptableRises(entries, scope);
    forall e | e in entries
      ensures e.role == Normative <==> e.path in NORMATIVE_PATHS
    {
      NormativeIff(entries, e);
    }
    forall p | p in NORMATIVE_PATHS
      ensures HasPath(OfRole(entries, Normative), p)
    {
      KeptPath(entries, Normative, p);
    }
  }
}
