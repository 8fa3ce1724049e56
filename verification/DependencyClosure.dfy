/** The package resolver of the input preparation: which version of a package is selected, which package
    answers a dependency, and which set of packages the worklist returns. */
module DependencyClosure {
  import opened Wrappers

  /** One clause of a dependency field: blank, or its alternatives in order. */
  datatype Clause = Blank | Choices(names: seq<string>)

  datatype Candidate = Candidate(index: string, version: string, clauses: seq<Clause>)

  datatype Installed = Installed(name: string, offers: seq<string>)

  /** Signed indexes, installed packages as the source's dictionary lists them (one for each name, where the name
      first stands), pinned versions, and `dpkg --compare-versions gt`. */
  datatype Catalog = Catalog(available: map<string, seq<Candidate>>, installed: seq<Installed>,
                             fixed: map<string, string>, newer: (string, string) -> bool)

  // ----- Selecting a version -----

  function OfVersion(pool: seq<Candidate>, version: string): (kept: seq<Candidate>)
    ensures forall k :: k in kept <==> k in pool && k.version == version
  {
    if pool == [] then []
    else if pool[0].version == version then [pool[0]] + OfVersion(pool[1..], version)
    else OfVersion(pool[1..], version)
  }

  /** The candidates of a package, within its pin if it has one. */
  function Pool(c: Catalog, name: string): seq<Candidate> {
    if name !in c.available then []
    else if name in c.fixed then OfVersion(c.available[name], c.fixed[name])
    else c.available[name]
  }

  /** Where the scan stands after `n` candidates. */
  function Best(c: Catalog, pool: seq<Candidate>, n: nat): (k: nat)
    requires 1 <= n <= |pool|
    ensures k < n
  {
    if n == 1 then 0
    else
      var k := Best(c, pool, n - 1);
      if c.newer(pool[n - 1].version, pool[k].version) then n - 1 else k
  }

  function Pick(c: Catalog, name: string): Option<Candidate> {
    var pool := Pool(c, name);
    if pool == [] then None else Some(pool[Best(c, pool, |pool|)])
  }

  /** What version comparison is taken to be: a strict order in which "neither is newer" is transitive. */
  ghost predicate VersionOrder(newer: (string, string) -> bool) {
    && (forall a, b :: newer(a, b) ==> !newer(b, a))
    && (forall a, b, d {:trigger newer(a, b), newer(b, d)} :: !newer(a, b) && !newer(b, d) ==> !newer(a, d))
  }

  /** The k-th of the first n candidates is the first of the newest: none of them is newer, and those before
      it are older. */
  ghost predicate FirstNewest(c: Catalog, pool: seq<Candidate>, n: nat, k: nat)
    requires n <= |pool|
  {
    && k < n
    && (forall j :: 0 <= j < n ==> !c.newer(pool[j].version, pool[k].version))
    && (forall j :: 0 <= j < k ==> c.newer(pool[k].version, pool[j].version))
  }

  /** The scan keeps the first of the newest candidates. */
  lemma {:induction false} BestIsFirstNewest(c: Catalog, pool: seq<Candidate>, n: nat)
    requires VersionOrder(c.newer) && 1 <= n <= |pool|
    ensures FirstNewest(c, pool, n, Best(c, pool, n))
    decreases n
  {
    if n > 1 {
      BestIsFirstNewest(c, pool, n - 1);
      var k, last := Best(c, pool, n - 1), pool[n - 1].version;
      var best := pool[k].version;
      if c.newer(last, best) {
        forall j | 0 <= j < n - 1
          ensures c.newer(last, pool[j].version) && !c.newer(pool[j].version, last)
        {
          assert !c.newer(pool[j].version, best);
          assert !c.newer(last, pool[j].version) ==> !c.newer(last, best);
        }
      }
    }
  }

  /** A selected candidate is one of its package's, within its pin, and the first of the newest there. */
  lemma PickIsFirstNewest(c: Catalog, name: string)
    requires VersionOrder(c.newer) && Pick(c, name).Some?
    ensures name in c.available && Pick(c, name).value in c.available[name]
    ensures name in c.fixed ==> Pick(c, name).value.version == c.fixed[name]
    ensures var pool := Pool(c, name);
      exists k: nat :: FirstNewest(c, pool, |pool|, k) && pool[k] == Pick(c, name).value
  {
    var pool := Pool(c, name);
    BestIsFirstNewest(c, pool, |pool|);
    assert pool[Best(c, pool, |pool|)] in pool;
  }

  // ----- Answering a dependency -----

  predicate IsInstalled(c: Catalog, name: string) {
    exists i :: 0 <= i < |c.installed| && c.installed[i].name == name
  }

  function FirstPreferred(c: Catalog, choices: seq<string>): (r: Option<string>)
    ensures r.Some? ==> r.value in choices && r.value in c.available && IsInstalled(c, r.value)
    ensures r.None? ==> forall n :: n in choices && n in c.available ==> !IsInstalled(c, n)
  {
    if choices == [] then None
    else if IsInstalled(c, choices[0]) && choices[0] in c.available then Some(choices[0])
    else FirstPreferred(c, choices[1..])
  }

  function FirstAvailable(c: Catalog, choices: seq<string>): (r: Option<string>)
    ensures r.Some? ==> r.value in choices && r.value in c.available
    ensures r.None? ==> forall n :: n in choices ==> n !in c.available
  {
    if choices == [] then None
    else if choices[0] in c.available then Some(choices[0])
    else FirstAvailable(c, choices[1..])
  }

  predicate Answers(c: Catalog, i: Installed, choices: seq<string>) {
    i.name in c.available && exists n :: n in choices && n in i.offers
  }

  function FirstProvider(c: Catalog, installed: seq<Installed>, choices: seq<string>): (r: Option<string>)
    ensures r.Some? ==> exists i :: i in installed && i.name == r.value && Answers(c, i, choices)
    ensures r.None? ==> forall i :: i in installed ==> !Answers(c, i, choices)
  {
    if installed == [] then None
    else if Answers(c, installed[0], choices) then Some(installed[0].name)
    else FirstProvider(c, installed[1..], choices)
  }

  /** An installed alternative first, then any available one, then an installed package that provides one. */
  function Provider(c: Catalog, choices: seq<string>): (r: Option<string>)
    ensures r.Some? ==> r.value in c.available
    ensures r.None? <==>
      (forall n :: n in choices ==> n !in c.available) && forall i :: i in c.installed ==> !Answers(c, i, choices)
  {
    if FirstPreferred(c, choices).Some? then FirstPreferred(c, choices)
    else if FirstAvailable(c, choices).Some? then FirstAvailable(c, choices)
    else FirstProvider(c, c.installed, choices)
  }

  predicate Preferred(c: Catalog, name: string) {
    IsInstalled(c, name) && name in c.available
  }

  lemma {:induction false} PreferredIsFirst(c: Catalog, choices: seq<string>, k: nat)
    requires k < |choices| && Preferred(c, choices[k]) && forall j :: 0 <= j < k ==> !Preferred(c, choices[j])
    ensures FirstPreferred(c, choices) == Some(choices[k])
    decreases k
  {
    if k > 0 {
      assert !Preferred(c, choices[0]);
      PreferredIsFirst(c, choices[1..], k - 1);
    }
  }

  lemma {:induction false} AvailableIsFirst(c: Catalog, choices: seq<string>, k: nat)
    requires k < |choices| && choices[k] in c.available && forall j :: 0 <= j < k ==> choices[j] !in c.available
    ensures FirstAvailable(c, choices) == Some(choices[k])
    decreases k
  {
    if k > 0 {
      AvailableIsFirst(c, choices[1..], k - 1);
    }
  }

  lemma {:induction false} ProviderIsFirst(c: Catalog, installed: seq<Installed>, choices: seq<string>, k: nat)
    requires k < |installed| && Answers(c, installed[k], choices)
    requires forall j :: 0 <= j < k ==> !Answers(c, installed[j], choices)
    ensures FirstProvider(c, installed, choices) == Some(installed[k].name)
    decreases k
  {
    if k > 0 {
      ProviderIsFirst(c, installed[1..], choices, k - 1);
    }
  }

  /** The three rules in order of precedence, each by position: the first alternative that is installed and
      available; failing any, the first available; failing any, the first installed package that is available
      and provides an alternative. */
  lemma ProviderRule(c: Catalog, choices: seq<string>, k: nat)
    ensures k < |choices| && Preferred(c, choices[k]) && (forall j :: 0 <= j < k ==> !Preferred(c, choices[j])) ==>
      Provider(c, choices) == Some(choices[k])
    ensures k < |choices| && choices[k] in c.available && (forall j :: 0 <= j < k ==> choices[j] !in c.available)
            && (forall n :: n in choices ==> !Preferred(c, n)) ==>
      Provider(c, choices) == Some(choices[k])
    ensures k < |c.installed| && Answers(c, c.installed[k], choices)
            && (forall j :: 0 <= j < k ==> !Answers(c, c.installed[j], choices))
            && (forall n :: n in choices ==> n !in c.available) ==>
      Provider(c, choices) == Some(c.installed[k].name)
  {
    if k < |choices| && Preferred(c, choices[k]) && (forall j :: 0 <= j < k ==> !Preferred(c, choices[j])) {
      PreferredIsFirst(c, choices, k);
    }
    if k < |choices| && choices[k] in c.available && forall j :: 0 <= j < k ==> choices[j] !in c.available {
      AvailableIsFirst(c, choices, k);
      assert FirstPreferred(c, choices).Some? ==> Preferred(c, FirstPreferred(c, choices).value);
    }
    if k < |c.installed| && Answers(c, c.installed[k], choices)
       && forall j :: 0 <= j < k ==> !Answers(c, c.installed[j], choices) {
      ProviderIsFirst(c, c.installed, choices, k);
    }
  }

  /** The packages a list of clauses asks for, None if some clause has no provider. */
  function Asked(c: Catalog, clauses: seq<Clause>): (r: Option<seq<string>>)
    ensures r.Some? <==> forall k :: k in clauses && k.Choices? ==> Provider(c, k.names).Some?
    ensures r.Some? ==> forall n :: n in r.value <==>
      exists k :: k in clauses && k.Choices? && Provider(c, k.names) == Some(n)
  {
    if clauses == [] then Some([])
    else
      var front, last := clauses[..|clauses| - 1], clauses[|clauses| - 1];
      assert forall k :: k in clauses <==> k in front || k == last;
      match Asked(c, front)
      case None => None
      case Some(names) =>
        if last.Blank? then Some(names)
        else if Provider(c, last.names).None? then None
        else Some(names + [Provider(c, last.names).value])
  }

  // ----- What a resolution is -----

  /** A package that can be selected, all of whose clauses have providers. */
  ghost predicate Resolvable(c: Catalog, name: string) {
    Pick(c, name).Some? && Asked(c, Pick(c, name).value.clauses).Some?
  }

  /** Every member is resolvable and brings the provider of each of its clauses. */
  ghost predicate Closed(c: Catalog, names: set<string>) {
    forall n :: n in names ==>
      Resolvable(c, n) && forall d :: d in Asked(c, Pick(c, n).value.clauses).value ==> d in names
  }

  ghost predicate Contains(names: set<string>, roots: seq<string>) {
    forall n :: n in roots ==> n in names
  }

  /** The least closed set over the roots, each name with its selected candidate. */
  ghost predicate IsResolution(c: Catalog, roots: seq<string>, records: map<string, Candidate>) {
    && Contains(records.Keys, roots) && Closed(c, records.Keys)
    && (forall n :: n in records ==> Pick(c, n) == Some(records[n]))
    && (forall s: set<string> {:trigger Closed(c, s)} :: Closed(c, s) && Contains(s, roots) ==> records.Keys <= s)
  }

  /** There is at most one resolution, so nothing depends on the order the worklist is taken in, nor on the
      order of the roots. */
  lemma ResolutionIsUnique(c: Catalog, roots: seq<string>, other: seq<string>, one: map<string, Candidate>,
                           two: map<string, Candidate>)
    requires forall n :: n in roots <==> n in other
    requires IsResolution(c, roots, one) && IsResolution(c, other, two)
    ensures one == two
  {
    assert Contains(two.Keys, roots) && Contains(one.Keys, other);
    assert one.Keys == two.Keys;
    assert forall n :: n in one ==> Some(one[n]) == Pick(c, n) == Some(two[n]);
  }

  // ----- The worklist -----

  datatype Work = Work(records: map<string, Candidate>, pending: seq<string>)

  /** Handles the i-th pending name; the source always takes the last. None where it raises. */
  function Take(c: Catalog, w: Work, i: nat): Option<Work>
    requires i < |w.pending|
  {
    var name, rest := w.pending[i], w.pending[..i] + w.pending[i + 1..];
    if name in w.records then Some(Work(w.records, rest))
    else
      match Pick(c, name)
      case None => None
      case Some(selected) =>
        match Asked(c, selected.clauses)
        case None => None
        case Some(names) => Some(Work(w.records[name := selected], rest + names))
  }

  ghost predicate RootsKept(roots: seq<string>, w: Work) {
    forall n :: n in roots ==> n in w.records || n in w.pending
  }

  ghost predicate RecordsKept(c: Catalog, w: Work) {
    forall n :: n in w.records ==> Pick(c, n) == Some(w.records[n]) && Resolvable(c, n)
  }

  ghost predicate NeedsKept(c: Catalog, w: Work) {
    forall n :: n in w.records ==>
      && Asked(c, w.records[n].clauses).Some?
      && forall d :: d in Asked(c, w.records[n].clauses).value ==> d in w.records || d in w.pending
  }

  ghost predicate Within(s: set<string>, w: Work) {
    w.records.Keys <= s && Contains(s, w.pending)
  }

  /** Whatever the order so far: the roots and the needs of every record are recorded or pending, and both
      lie inside every closed set over the roots. */
  ghost predicate Keeps(c: Catalog, roots: seq<string>, w: Work) {
    && RootsKept(roots, w) && RecordsKept(c, w) && NeedsKept(c, w)
    && (forall s: set<string> {:trigger Closed(c, s)} :: Closed(c, s) && Contains(s, roots) ==> Within(s, w))
  }

  lemma Rest(pending: seq<string>, i: nat)
    requires i < |pending|
    ensures forall n :: n in pending <==> n == pending[i] || n in pending[..i] + pending[i + 1..]
  {
    forall n | n in pending
      ensures n == pending[i] || n in pending[..i] + pending[i + 1..]
    {
      var j :| 0 <= j < |pending| && pending[j] == n;
      if j < i {
        assert pending[..i][j] == n;
      } else if j > i {
        assert pending[i + 1..][j - i - 1] == n;
      }
    }
  }

  lemma TakeRecorded(c: Catalog, roots: seq<string>, w: Work, i: nat)
    requires Keeps(c, roots, w) && i < |w.pending| && w.pending[i] in w.records
    ensures Keeps(c, roots, Take(c, w, i).value)
  {
    Rest(w.pending, i);
    var next := Take(c, w, i).value;
    forall s: set<string> | Closed(c, s) && Contains(s, roots)
      ensures Within(s, next)
    {
      assert Within(s, w);
    }
  }

  lemma TakeNewNeeds(c: Catalog, w: Work, i: nat)
    requires NeedsKept(c, w) && i < |w.pending| && w.pending[i] !in w.records && Take(c, w, i).Some?
    ensures NeedsKept(c, Take(c, w, i).value)
  {
    Rest(w.pending, i);
  }

  lemma TakeNewWithin(c: Catalog, w: Work, i: nat, s: set<string>)
    requires i < |w.pending| && w.pending[i] !in w.records && Take(c, w, i).Some?
    requires Closed(c, s) && Within(s, w)
    ensures Within(s, Take(c, w, i).value)
  {
    Rest(w.pending, i);
    assert w.pending[i] in s;
  }

  lemma TakeNew(c: Catalog, roots: seq<string>, w: Work, i: nat)
    requires Keeps(c, roots, w) && i < |w.pending| && w.pending[i] !in w.records && Take(c, w, i).Some?
    ensures Keeps(c, roots, Take(c, w, i).value)
  {
    var next := Take(c, w, i).value;
    TakeNewNeeds(c, w, i);
    forall s: set<string> | Closed(c, s) && Contains(s, roots)
      ensures Within(s, next)
    {
      TakeNewWithin(c, w, i, s);
    }
    assert RootsKept(roots, next) by {
      Rest(w.pending, i);
    }
  }

  lemma TakeKeeps(c: Catalog, roots: seq<string>, w: Work, i: nat, next: Work)
    requires Keeps(c, roots, w) && i < |w.pending| && Take(c, w, i) == Some(next)
    ensures Keeps(c, roots, next)
  {
    if w.pending[i] in w.records {
      TakeRecorded(c, roots, w, i);
    } else {
      TakeNew(c, roots, w, i);
    }
  }

  /** No closed set contains the roots: some package they need cannot be had. */
  ghost predicate Unresolvable(c: Catalog, roots: seq<string>) {
    forall s: set<string> :: Contains(s, roots) ==> !Closed(c, s)
  }

  /** If handling a name raises, the roots have no resolution. */
  lemma TakeFails(c: Catalog, roots: seq<string>, w: Work, i: nat)
    requires Keeps(c, roots, w) && i < |w.pending| && Take(c, w, i).None?
    ensures Unresolvable(c, roots)
  {
    assert !Resolvable(c, w.pending[i]);
  }

  lemma StartKeeps(c: Catalog, roots: seq<string>)
    ensures Keeps(c, roots, Work(map[], roots))
  {}

  lemma EmptyIsResolution(c: Catalog, roots: seq<string>, w: Work)
    requires Keeps(c, roots, w) && w.pending == []
    ensures IsResolution(c, roots, w.records)
  {
    forall n | n in w.records.Keys
      ensures Resolvable(c, n) && forall d :: d in Asked(c, Pick(c, n).value.clauses).value ==> d in w.records.Keys
    {
      assert Pick(c, n).value == w.records[n];
    }
  }

  /** Any order at all: a run that empties the worklist, taking names in whatever order, ends with the same
      records. */
  function TakeAll(c: Catalog, w: Work, order: seq<nat>): Option<Work>
    decreases |order|
  {
    if order == [] then Some(w)
    else if order[0] >= |w.pending| then None
    else
      match Take(c, w, order[0])
      case None => None
      case Some(next) => TakeAll(c, next, order[1..])
  }

  lemma {:induction false} AnyOrderResolves(c: Catalog, roots: seq<string>, w: Work, order: seq<nat>)
    requires Keeps(c, roots, w) && TakeAll(c, w, order).Some? && TakeAll(c, w, order).value.pending == []
    ensures IsResolution(c, roots, TakeAll(c, w, order).value.records)
    decreases |order|
  {
    if order == [] {
      EmptyIsResolution(c, roots, w);
    } else {
      TakeKeeps(c, roots, w, order[0], Take(c, w, order[0]).value);
      AnyOrderResolves(c, roots, Take(c, w, order[0]).value, order[1..]);
    }
  }

  /** The scan of one package's candidates. */
  method Select(c: Catalog, pool: seq<Candidate>) returns (selected: Candidate)
    requires pool != []
    ensures selected == pool[Best(c, pool, |pool|)]
  {
    selected := pool[0];
    for i := 1 to |pool|
      invariant selected == pool[Best(c, pool, i)]
    {
      if c.newer(pool[i].version, selected.version) {
        selected := pool[i];
      }
    }
  }

  /** Appends what a selected candidate asks for, clause by clause; None where a clause has no provider. */
  method Append(c: Catalog, pending: seq<string>, clauses: seq<Clause>) returns (longer: Option<seq<string>>)
    ensures longer == match Asked(c, clauses) case None => None case Some(names) => Some(pending + names)
  {
    var all := pending;
    var i := 0;
    while i < |clauses|
      invariant i <= |clauses|
      invariant Extends(c, pending, clauses[..i], all)
    {
      AskedNext(c, pending, clauses, i, all);
      if clauses[i].Choices? {
        var dependency := Provider(c, clauses[i].names);
        if dependency.None? {
          return None;
        }
        all := all + [dependency.value];
      }
      i := i + 1;
    }
    assert clauses[..i] == clauses;
    longer := Some(all);
  }

  /** All of these clauses have been asked for. */
  ghost predicate Extends(c: Catalog, pending: seq<string>, clauses: seq<Clause>, all: seq<string>) {
    Asked(c, clauses).Some? && all == pending + Asked(c, clauses).value
  }

  lemma AskedNext(c: Catalog, pending: seq<string>, clauses: seq<Clause>, i: nat, all: seq<string>)
    requires i < |clauses| && Extends(c, pending, clauses[..i], all)
    ensures clauses[i].Blank? ==> Extends(c, pending, clauses[..i + 1], all)
    ensures clauses[i].Choices? && Provider(c, clauses[i].names).Some? ==>
      Extends(c, pending, clauses[..i + 1], all + [Provider(c, clauses[i].names).value])
    ensures clauses[i].Choices? && Provider(c, clauses[i].names).None? ==> Asked(c, clauses).None?
  {
    var front := clauses[..i + 1];
    assert front[..i] == clauses[..i];
    assert clauses[i] in clauses;
    assert Asked(c, front) == if clauses[i].Blank? then Asked(c, clauses[..i])
      else if Provider(c, clauses[i].names).None? then None
      else Some(Asked(c, clauses[..i]).value + [Provider(c, clauses[i].names).value]);
  }

  lemma LastIndex(pending: seq<string>)
    requires pending != []
    ensures pending[..|pending| - 1] + pending[|pending| - 1 + 1..] == pending[..|pending| - 1]
  {}

  /** Recording an available name leaves fewer to record. */
  lemma FewerLeft(c: Catalog, records: map<string, Candidate>, name: string, selected: Candidate)
    requires name in c.available && name !in records
    ensures |c.available.Keys - records[name := selected].Keys| < |c.available.Keys - records.Keys|
  {
    var before, after := c.available.Keys - records.Keys, c.available.Keys - records[name := selected].Keys;
    assert before == after + {name};
    assert name !in after;
  }

  /** One turn of the loop: pops the last pending name and handles it. */
  method TakeLast(c: Catalog, records: map<string, Candidate>, pending: seq<string>) returns (next: Option<Work>)
    requires pending != []
    ensures next == Take(c, Work(records, pending), |pending| - 1)
  {
    LastIndex(pending);
    var name, rest := pending[|pending| - 1], pending[..|pending| - 1];
    if name in records {
      return Some(Work(records, rest));
    }
    var pool := Pool(c, name);
    if pool == [] {
      return None;
    }
    var selected := Select(c, pool);
    var longer := Append(c, rest, selected.clauses);
    if longer.None? {
      return None;
    }
    next := Some(Work(records[name := selected], longer.value));
  }

  lemma TakeShrinks(c: Catalog, w: Work, i: nat, next: Work)
    requires i < |w.pending| && Take(c, w, i) == Some(next)
    ensures
      && (w.pending[i] in w.records ==> next.records == w.records && |next.pending| < |w.pending|)
      && (w.pending[i] !in w.records ==>
            |c.available.Keys - next.records.Keys| < |c.available.Keys - w.records.Keys|)
  {
    if w.pending[i] !in w.records {
      FewerLeft(c, w.records, w.pending[i], Pick(c, w.pending[i]).value);
    }
  }

  ghost predicate Shrinks(c: Catalog, w: Work, next: Work) {
    || (next.records == w.records && |next.pending| < |w.pending|)
    || |c.available.Keys - next.records.Keys| < |c.available.Keys - w.records.Keys|
  }

  /** The same turn, with what it keeps: the invariant, progress, and the meaning of a failure. */
  method Turn(c: Catalog, ghost roots: seq<string>, w: Work) returns (next: Option<Work>)
    requires Keeps(c, roots, w) && w.pending != []
    ensures next.Some? ==> Keeps(c, roots, next.value) && Shrinks(c, w, next.value)
    ensures next.None? ==> Unresolvable(c, roots)
  {
    next := TakeLast(c, w.records, w.pending);
    if next.None? {
      TakeFails(c, roots, w, |w.pending| - 1);
    } else {
      TakeKeeps(c, roots, w, |w.pending| - 1, next.value);
      TakeShrinks(c, w, |w.pending| - 1, next.value);
    }
  }

  /** The closure. It returns the least closed set over the roots if any set over them is closed, and fails
      only if none is. */
  method Resolve(c: Catalog, roots: seq<string>) returns (result: Option<map<string, Candidate>>)
    ensures result.Some? ==> IsResolution(c, roots, result.value)
    ensures result.None? ==> Unresolvable(c, roots)
  {
    var w := Work(map[], roots);
    StartKeeps(c, roots);
    while w.pending != []
      invariant Keeps(c, roots, w)
      decreases |c.available.Keys - w.records.Keys|, |w.pending|
    {
      var next := Turn(c, roots, w);
      if next.None? {
        return None;
      }
      w := next.value;
    }
    EmptyIsResolution(c, roots, w);
    result := Some(w.records);
  }

  /** What the preparation goes on with: the resolution of its roots, if it has an acceptable size. */
  method Prepare(c: Catalog, roots: seq<string>) returns (records: Option<map<string, Candidate>>)
    ensures records.Some? ==> IsResolution(c, roots, records.value) && 1 < |records.value| < 160
    ensures forall r :: IsResolution(c, roots, r) && 1 < |r| < 160 ==> records == Some(r)
  {
    records := Resolve(c, roots);
    if records.Some? {
      forall r | IsResolution(c, roots, r)
        ensures r == records.value
      {
        ResolutionIsUnique(c, roots, roots, r, records.value);
      }
      if !(1 < |records.value| < 160) {
        records := None;
      }
    }
  }
}
