/** The review and its manifest in plain terms: which inventories are reviewed, what their review holds, and which
    invocations of the script are accepted after which. */
module SealRules {
  import opened Wrappers
  import opened Joining
  import opened ProposalReview
  import opened ApprovalSeal

  // ----- Paths -----

  /** In the order of strings: at the first difference the smaller character, or nothing at all, comes first. */
  ghost predicate Precedes(a: string, b: string) {
    exists k: nat ::
      k <= |a| && k < |b| && a[..k] == b[..k] && (k < |a| ==> a[k] < b[k])
  }

  lemma {:induction false} LessIff(a: string, b: string)
    ensures Less(a, b) <==> Precedes(a, b)
    decreases |a|
  {
    if a != "" && b != "" && a[0] == b[0] {
      LessIff(a[1..], b[1..]);
      if Precedes(a[1..], b[1..]) {
        var k: nat :| k <= |a[1..]| && k < |b[1..]| && a[1..][..k] == b[1..][..k]
                      && (k < |a[1..]| ==> a[1..][k] < b[1..][k]);
        assert a[..k + 1] == [a[0]] + a[1..][..k] && b[..k + 1] == [b[0]] + b[1..][..k];
      }
      if Precedes(a, b) {
        var k: nat :| k <= |a| && k < |b| && a[..k] == b[..k] && (k < |a| ==> a[k] < b[k]);
        assert a[1..][..k - 1] == a[..k][1..] && b[1..][..k - 1] == b[..k][1..];
      }
    } else if b != "" {
      FirstDiffers(a, b);
    }
  }

  lemma FirstDiffers(a: string, b: string)
    requires b != "" && (a == "" || a[0] != b[0])
    ensures Less(a, b) <==> Precedes(a, b)
  {
    if Less(a, b) {
      assert a[..0] == b[..0];
    }
    if Precedes(a, b) {
      var k: nat :| k <= |a| && k < |b| && a[..k] == b[..k] && (k < |a| ==> a[k] < b[k]);
      SameHead(a, b, k);
    }
  }

  lemma SameHead(a: string, b: string, k: nat)
    requires k <= |a| && k <= |b| && a[..k] == b[..k]
    ensures k > 0 ==> a[0] == b[0]
  {
    if k > 0 {
      assert a[..k][0] == a[0];
    }
  }

  /** The segments of a path are what stands between its slashes. */
  lemma {:induction false} SegmentsAre(path: string)
    ensures Segments(path) != [] && JoinWith(Segments(path), "/") == path
    ensures forall i :: 0 <= i < |Segments(path)| ==> '/' !in Segments(path)[i]
    decreases |path|
  {
    if path != "" {
      var rest := Segments(path[1..]);
      SegmentsAre(path[1..]);
      assert path == [path[0]] + path[1..];
      if path[0] == '/' {
        assert Segments(path)[1..] == rest;
      } else {
        assert Segments(path)[1..] == rest[1..];
      }
    }
  }

  // ----- Roles -----

  /** What a path's role is. */
  lemma RoleIs(path: string)
    ensures Classify(path)
         == if path in ["ACCEPTANCE-MAPPING.md", "APPROVAL-SCOPE.md", "TRANSITION-CONTRACT.md",
                        "acceptance-mapping.json", "approval-scope.json", "proposed/AGENTS.md",
                        "proposed/CONTRACT.md", "proposed/PROJECT_GOAL.md", "proposed/evals/ACCEPTANCE.md",
                        "proposed/evals/HIDDEN_VALIDATION_PROTOCOL.md", "proposed/evals/acceptance-manifest.json",
                        "proposed/evals/immutable-contract-lock.json",
                        "proposed/qualification-target-contract.json"] then Normative
            else if (exists more :: path == "baseline/" + more)
                    || path in ["baseline-index.json", "revision-baseline.json", "prior-review-manifest.json"]
                 then Historical
            else if exists stem :: path == stem + ".ts" || path == stem + ".mjs" then Reproduction
            else Advisory
  {
    NormativePathsAre();
    HistoricalNamesAre(path);
    Front(path, "baseline/");
    Tail(path, ".ts");
    Tail(path, ".mjs");
  }

  lemma NormativePathsAre()
    ensures NORMATIVE_PATHS
         == ["ACCEPTANCE-MAPPING.md", "APPROVAL-SCOPE.md", "TRANSITION-CONTRACT.md", "acceptance-mapping.json",
             "approval-scope.json", "proposed/AGENTS.md", "proposed/CONTRACT.md", "proposed/PROJECT_GOAL.md",
             "proposed/evals/ACCEPTANCE.md", "proposed/evals/HIDDEN_VALIDATION_PROTOCOL.md",
             "proposed/evals/acceptance-manifest.json", "proposed/evals/immutable-contract-lock.json",
             "proposed/qualification-target-contract.json"]
  {}

  lemma HistoricalNamesAre(path: string)
    ensures path in HISTORICAL_NAMES <==>
      path in ["baseline-index.json", "revision-baseline.json", "prior-review-manifest.json"]
  {}

  lemma Front(s: string, front: string)
    ensures front <= s <==> exists more :: s == front + more
  {
    if front <= s {
      assert s == front + s[|front|..];
    }
  }

  lemma Tail(s: string, tail: string)
    ensures EndsWith(s, tail) <==> exists stem :: s == stem + tail
  {
    if EndsWith(s, tail) {
      assert s == s[..|s| - |tail|] + tail;
    }
  }

  // ----- Reviews -----

  ghost predicate BetweenSlashes(path: string, pieces: seq<string>) {
    pieces != [] && JoinWith(pieces, "/") == path && forall i :: 0 <= i < |pieces| ==> '/' !in pieces[i]
  }

  /** A path that stays inside: relative, without backslashes, and with nothing between its slashes that leads up. */
  ghost predicate StaysInside(path: string) {
    && (path != "" ==> path[0] != '/') && '\\' !in path
    && (forall pieces :: BetweenSlashes(path, pieces) ==> ".." !in pieces && "." !in pieces)
  }

  /** What every inventory entry has to be: a path that stays inside, its path's role, a hash of 64 hexadecimal digits
      and a size a number can hold. */
  ghost predicate Proper(e: Entry) {
    && StaysInside(e.path) && e.role == Classify(e.path)
    && |e.sha256| == 64 && (forall i :: 0 <= i < 64 ==> e.sha256[i] in "0123456789abcdef")
    && 0 <= e.bytes <= 9007199254740991
  }

  lemma {:induction false} SegmentsUnique(path: string, pieces: seq<string>)
    requires BetweenSlashes(path, pieces)
    ensures pieces == Segments(path)
    decreases |path|
  {
    if pieces[0] == "" {
      if |pieces| > 1 {
        assert path == "/" + JoinWith(pieces[1..], "/");
        assert path[1..] == JoinWith(pieces[1..], "/");
        SegmentsUnique(path[1..], pieces[1..]);
        assert pieces == [""] + pieces[1..];
      }
    } else {
      var shorter := [pieces[0][1..]] + pieces[1..];
      OneCharacterLess(pieces, shorter, path);
      SegmentsUnique(path[1..], shorter);
      assert pieces[0] == [path[0]] + shorter[0] && pieces[1..] == shorter[1..];
      assert pieces == [pieces[0]] + pieces[1..];
    }
  }

  lemma OneCharacterLess(pieces: seq<string>, shorter: seq<string>, path: string)
    requires pieces != [] && pieces[0] != "" && path == JoinWith(pieces, "/")
    requires shorter == [pieces[0][1..]] + pieces[1..]
    ensures path != "" && path[0] == pieces[0][0] && path[1..] == JoinWith(shorter, "/")
  {
    assert shorter[1..] == pieces[1..];
  }

  lemma HexIff(s: string)
    ensures HexDigest(s) <==> |s| == 64 && forall i :: 0 <= i < 64 ==> s[i] in "0123456789abcdef"
  {
    forall i | 0 <= i < |s|
      ensures s[i] in "0123456789abcdef" <==> '0' <= s[i] <= '9' || 'a' <= s[i] <= 'f'
    {
      HexCharacterIff(s[i]);
    }
    assert forall i :: 0 <= i < |s| ==> s[i] in s;
  }

  lemma HexCharacterIff(c: char)
    ensures c in "0123456789abcdef" <==> '0' <= c <= '9' || 'a' <= c <= 'f'
  {
    var digits := "0123456789abcdef";
    assert forall j :: 0 <= j < 16 ==> digits[j] as int == if j < 10 then 48 + j else 87 + j;
    if '0' <= c <= '9' {
      assert digits[c as int - 48] == c;
    } else if 'a' <= c <= 'f' {
      assert digits[c as int - 87] == c;
    }
  }

  lemma InsideIff(path: string)
    ensures SafePath(path) <==> StaysInside(path)
  {
    SegmentsAre(path);
    assert BetweenSlashes(path, Segments(path));
    forall pieces | BetweenSlashes(path, pieces)
      ensures pieces == Segments(path)
    {
      SegmentsUnique(path, pieces);
    }
    NotRooted(path, "/");
  }

  lemma NotRooted(path: string, slash: string)
    requires slash == ['/']
    ensures slash <= path <==> path != "" && path[0] == '/'
  {}

  lemma ProperIff(e: Entry)
    ensures EntryOk(e) <==> Proper(e)
  {
    HexIff(e.sha256);
    InsideIff(e.path);
  }

  /** Exactly these inventories are reviewed: the scope names the thirteen normative files and claims nothing else, the
      paths rise, none of the thirteen is missing, and every entry is proper. */
  lemma ReviewIff(d: Digests, entries: seq<Entry>, baseline: Baseline, scope: Scope)
    ensures CreateReview(d, entries, baseline, scope).Some? <==>
      && scope.normativePaths
         == ["ACCEPTANCE-MAPPING.md", "APPROVAL-SCOPE.md", "TRANSITION-CONTRACT.md", "acceptance-mapping.json",
             "approval-scope.json", "proposed/AGENTS.md", "proposed/CONTRACT.md", "proposed/PROJECT_GOAL.md",
             "proposed/evals/ACCEPTANCE.md", "proposed/evals/HIDDEN_VALIDATION_PROTOCOL.md",
             "proposed/evals/acceptance-manifest.json", "proposed/evals/immutable-contract-lock.json",
             "proposed/qualification-target-contract.json"]
      && !scope.advisoryMayOverride && !scope.packageAuthorizes
      && (forall i, j :: 0 <= i < j < |entries| ==> Precedes(entries[i].path, entries[j].path))
      && (forall p :: p in scope.normativePaths ==> exists i :: 0 <= i < |entries| && entries[i].path == p)
      && (forall i :: 0 <= i < |entries| ==> Proper(entries[i]))
  {
    forall i | 0 <= i < |entries|
      ensures EntryOk(entries[i]) <==> Proper(entries[i])
    {
      ProperIff(entries[i]);
    }
    OrderIff(entries);
  }

  lemma OrderIff(entries: seq<Entry>)
    ensures Ordered(entries) <==>
      forall i, j :: 0 <= i < j < |entries| ==> Precedes(entries[i].path, entries[j].path)
  {
    forall i, j | 0 <= i < j < |entries|
      ensures Less(entries[i].path, entries[j].path) <==> Precedes(entries[i].path, entries[j].path)
    {
      LessIff(entries[i].path, entries[j].path);
    }
    if Ordered(entries) {
      forall i, j | 0 <= i < j < |entries|
        ensures Less(entries[i].path, entries[j].path)
      {
        OrderedAll(entries, i, j);
      }
    }
    if Rising(entries) {
      forall i, j | 0 <= i < j < |entries|
        ensures entries[i].path != entries[j].path && !Less(entries[j].path, entries[i].path)
      {
        LessIsTotal(entries[i].path, entries[j].path);
      }
    }
  }

  /** What a review holds: for approval the baseline and, in order, exactly the normative files; for the package that
      approval's digest and the whole inventory. */
  lemma ReviewHolds(d: Digests, entries: seq<Entry>, baseline: Baseline, scope: Scope)
    requires CreateReview(d, entries, baseline, scope).Some?
    ensures var r := CreateReview(d, entries, baseline, scope).value;
      && r.payload.baseline == baseline
      && (forall e :: e in r.payload.files <==> e in entries && e.path in scope.normativePaths)
      && (forall i, j :: 0 <= i < j < |r.payload.files| ==> Precedes(r.payload.files[i].path, r.payload.files[j].path))
      && r.contentDigest == d.content(r.payload)
      && r.packagePayload == PackagePayload(r.contentDigest, entries)
      && r.packageIntegrityDigest == d.package(r.packagePayload)
  {
    var files := OfRole(entries, Normative);
    AcceptableRises(entries, scope);
    forall i, j | 0 <= i < j < |files|
      ensures Precedes(files[i].path, files[j].path)
    {
      LessIff(files[i].path, files[j].path);
    }
    forall e | e in entries
      ensures e.role == Normative <==> e.path in scope.normativePaths
    {
      NormativeIff(entries, e);
    }
  }

  // ----- Invocations -----

  /** The inventory is reviewed and passes the script's own mutation tests. */
  ghost predicate Ready(d: Digests, inv: Invocation) {
    Reviewed(d, inv).Some? && SelfTests(d, inv, Reviewed(d, inv).value)
  }

  ghost predicate SameInventory(one: Invocation, two: Invocation) {
    one.entries == two.entries && one.baseline == two.baseline
  }

  lemma CheckStep(d: Digests, stored: Option<Review>, inv: Invocation)
    requires inv.command == Check
    ensures Step(d, stored, inv) == stored
    ensures Accepts(d, stored, inv) <==> Ready(d, inv) && stored == Reviewed(d, inv)
  {}

  lemma SameReview(d: Digests, one: Invocation, two: Invocation)
    requires Reviewed(d, one).Some? && Reviewed(d, two).Some?
    ensures Reviewed(d, one) == Reviewed(d, two) <==> SameInventory(one, two)
  {}

  /** The one invocation accepted last, if any was. */
  lemma Latest(d: Digests, front: seq<Invocation>) returns (i: nat)
    ensures Runs(d, None, front).None? ==> forall j: nat :: !AcceptedAt(d, front, j)
    ensures Runs(d, None, front).Some? ==>
      AcceptedLast(d, front, i) && Runs(d, None, front) == Reviewed(d, front[i])
      && forall j: nat :: AcceptedLast(d, front, j) ==> j == i
  {
    StoredIsLastAccepted(d, front);
    i := 0;
    if Runs(d, None, front).Some? {
      i :| AcceptedLast(d, front, i) && Runs(d, None, front) == Reviewed(d, front[i]);
      forall j: nat | AcceptedLast(d, front, j)
        ensures j == i
      {
        assert AcceptedAt(d, front, i) && AcceptedAt(d, front, j);
      }
    }
  }

  /** A plain check changes nothing, whatever it says. It is accepted exactly if its inventory is ready and something
      was accepted before, the last of it with the same inventory and the same baseline. */
  lemma CheckIff(d: Digests, front: seq<Invocation>, inv: Invocation)
    requires inv.command == Check
    ensures Runs(d, None, front + [inv]) == Runs(d, None, front)
    ensures AcceptedAt(d, front + [inv], |front|) <==>
      Ready(d, inv)
      && exists i: nat :: AcceptedLast(d, front, i) && SameInventory(front[i], inv)
  {
    RunsNext(d, front, inv);
    CheckStep(d, Runs(d, None, front), inv);
    var i := Latest(d, front);
    if Runs(d, None, front).Some? && Reviewed(d, inv).Some? {
      SameReview(d, front[i], inv);
    }
  }

  /** Whatever the manifest holds, a corrupt seal is never refreshed: its two digests have to be those of its payloads,
      and the payload and its digest have to stay. */
  lemma RefreshOfStored(d: Digests, old': Review, inv: Invocation)
    requires inv.command == Refresh && Ready(d, inv)
    ensures Accepts(d, Some(old'), inv) <==>
      var next := Reviewed(d, inv).value;
      && old'.contentDigest == d.content(old'.payload) && old'.packageIntegrityDigest == d.package(old'.packagePayload)
      && old'.payload == next.payload
  {}

  /** A seal is accepted exactly if its inventory is ready and nothing was accepted before. */
  lemma SealIff(d: Digests, front: seq<Invocation>, inv: Invocation)
    requires inv.command == Seal
    ensures AcceptedAt(d, front + [inv], |front|) <==> Ready(d, inv) && forall j: nat :: !AcceptedAt(d, front, j)
  {
    RunsNext(d, front, inv);
    var i := Latest(d, front);
  }

  /** A refresh is accepted exactly if its inventory is ready and something was accepted before, the last of it with the
      same baseline and the same normative entries. */
  lemma RefreshAfterIff(d: Digests, front: seq<Invocation>, inv: Invocation)
    requires inv.command == Refresh
    ensures AcceptedAt(d, front + [inv], |front|) <==>
      Ready(d, inv)
      && exists i: nat :: AcceptedLast(d, front, i) && inv.baseline == front[i].baseline
                          && SameNormative(front[i].entries, inv.entries)
  {
    RunsNext(d, front, inv);
    var i := Latest(d, front);
    if Runs(d, None, front).Some? && Ready(d, inv) {
      RefreshIff(d, front[i], inv);
    }
  }
}
