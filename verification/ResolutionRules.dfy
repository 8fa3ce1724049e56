/** The resolver's result in terms of the package lists themselves: which candidate stands for a name, which package
    answers a dependency, and what is recorded. */
module ResolutionRules {
  import opened Wrappers
  import opened DependencyClosure

  // ----- The candidate of a name -----

  /** The k-th listed candidate is the first of the newest in the whole list, or, for a pinned name, the first of the
      pinned version. */
  ghost predicate Chosen(c: Catalog, name: string, k: nat) {
    && name in c.available && k < |c.available[name]|
    && var list := c.available[name];
       if name in c.fixed
       then list[k].version == c.fixed[name] && forall j :: 0 <= j < k ==> list[j].version != c.fixed[name]
       else
         && (forall j :: 0 <= j < |list| ==> !c.newer(list[j].version, list[k].version))
         && (forall j :: 0 <= j < k ==> c.newer(list[k].version, list[j].version))
  }

  lemma ChosenOnce(c: Catalog, name: string, k: nat, j: nat)
    requires Chosen(c, name, k) && Chosen(c, name, j)
    ensures j == k
  {
    NotBefore(c, name, k, j);
    NotBefore(c, name, j, k);
  }

  lemma NotBefore(c: Catalog, name: string, k: nat, j: nat)
    requires Chosen(c, name, k) && Chosen(c, name, j)
    ensures !(k < j)
  {
    var first, second := c.available[name][k].version, c.available[name][j].version;
    assert name !in c.fixed ==> !c.newer(second, first);
  }

  lemma {:induction false} PinnedFront(pool: seq<Candidate>, version: string)
    ensures (OfVersion(pool, version) == []) <==> forall j :: 0 <= j < |pool| ==> pool[j].version != version
    ensures OfVersion(pool, version) != [] ==>
      exists k: nat :: k < |pool| && pool[k] == OfVersion(pool, version)[0] && pool[k].version == version
                       && forall j :: 0 <= j < k ==> pool[j].version != version
    decreases |pool|
  {
    if pool != [] {
      var rest := pool[1..];
      PinnedFront(rest, version);
      if pool[0].version != version && OfVersion(rest, version) != [] {
        var k: nat :| k < |rest| && rest[k] == OfVersion(rest, version)[0] && rest[k].version == version
                      && forall j :: 0 <= j < k ==> rest[j].version != version;
        assert pool[k + 1] == OfVersion(pool, version)[0];
        assert forall j :: 1 <= j < k + 1 ==> pool[j] == rest[j - 1];
      }
    }
  }

  /** Among candidates of one version the scan keeps the first. */
  lemma {:induction false} BestOfEqual(c: Catalog, pool: seq<Candidate>, n: nat, version: string)
    requires VersionOrder(c.newer) && 1 <= n <= |pool| && forall k :: k in pool ==> k.version == version
    ensures Best(c, pool, n) == 0
    decreases n
  {
    if n > 1 {
      BestOfEqual(c, pool, n - 1, version);
      assert pool[n - 1] in pool && pool[0] in pool;
      assert !c.newer(version, version);
    }
  }

  lemma PinnedPick(c: Catalog, name: string)
    requires VersionOrder(c.newer) && Pick(c, name).Some? && name in c.fixed
    ensures exists k: nat :: Chosen(c, name, k) && c.available[name][k] == Pick(c, name).value
  {
    var list, version := c.available[name], c.fixed[name];
    PinnedFront(list, version);
    BestOfEqual(c, OfVersion(list, version), |OfVersion(list, version)|, version);
    var k: nat :| k < |list| && list[k] == OfVersion(list, version)[0] && list[k].version == version
                  && forall j :: 0 <= j < k ==> list[j].version != version;
    assert Chosen(c, name, k);
  }

  lemma FreePick(c: Catalog, name: string)
    requires VersionOrder(c.newer) && Pick(c, name).Some? && name !in c.fixed
    ensures exists k: nat :: Chosen(c, name, k) && c.available[name][k] == Pick(c, name).value
  {
    var list := c.available[name];
    BestIsFirstNewest(c, list, |list|);
    assert Chosen(c, name, Best(c, list, |list|));
  }

  /** A name stands for no candidate exactly if none is listed, or none of its pinned version is. */
  lemma PickNone(c: Catalog, name: string)
    ensures Pick(c, name).None? <==>
      name !in c.available
      || c.available[name] == []
      || (name in c.fixed
          && forall j :: 0 <= j < |c.available[name]| ==> c.available[name][j].version != c.fixed[name])
  {
    if name in c.available && name in c.fixed {
      PinnedFront(c.available[name], c.fixed[name]);
    }
  }

  /** And otherwise for exactly the one at the chosen place of its list. */
  lemma PickIff(c: Catalog, name: string, x: Candidate)
    requires VersionOrder(c.newer)
    ensures Pick(c, name) == Some(x) <==> exists k: nat :: Chosen(c, name, k) && c.available[name][k] == x
  {
    if Pick(c, name).Some? {
      if name in c.fixed {
        PinnedPick(c, name);
      } else {
        FreePick(c, name);
      }
      var k: nat :| Chosen(c, name, k) && c.available[name][k] == Pick(c, name).value;
      forall j: nat | Chosen(c, name, j)
        ensures j == k
      {
        ChosenOnce(c, name, j, k);
      }
    } else {
      PickNone(c, name);
    }
  }

  // ----- The provider of a clause -----

  ghost predicate At(c: Catalog, choices: seq<string>, k: nat, name: string) {
    && k < |choices| && choices[k] == name
    && name in c.available && (exists i :: 0 <= i < |c.installed| && c.installed[i].name == name)
    && forall j :: 0 <= j < k ==>
         choices[j] in c.available ==> forall i :: 0 <= i < |c.installed| ==> c.installed[i].name != choices[j]
  }

  ghost predicate NoneInstalled(c: Catalog, choices: seq<string>) {
    forall j, i :: 0 <= j < |choices| && choices[j] in c.available && 0 <= i < |c.installed| ==>
      c.installed[i].name != choices[j]
  }

  ghost predicate FirstListed(c: Catalog, choices: seq<string>, k: nat, name: string) {
    && k < |choices| && choices[k] == name && name in c.available
    && forall j :: 0 <= j < k ==> choices[j] !in c.available
  }

  ghost predicate NoneListed(c: Catalog, choices: seq<string>) {
    forall j :: 0 <= j < |choices| ==> choices[j] !in c.available
  }

  /** The installed package offers an alternative and is itself listed. */
  ghost predicate Offers(c: Catalog, choices: seq<string>, i: nat) {
    && i < |c.installed| && c.installed[i].name in c.available
    && exists j, m :: 0 <= j < |choices| && 0 <= m < |c.installed[i].offers| && c.installed[i].offers[m] == choices[j]
  }

  lemma PreferredMeans(c: Catalog, choices: seq<string>, k: nat)
    requires k < |choices|
    ensures Preferred(c, choices[k]) <==>
      choices[k] in c.available && exists i :: 0 <= i < |c.installed| && c.installed[i].name == choices[k]
  {}

  lemma NonePreferred(c: Catalog, choices: seq<string>)
    requires NoneInstalled(c, choices)
    ensures forall n :: n in choices ==> !Preferred(c, n)
  {
    forall n | n in choices
      ensures !Preferred(c, n)
    {
      var k :| 0 <= k < |choices| && choices[k] == n;
      PreferredMeans(c, choices, k);
    }
  }

  lemma OffersMeans(c: Catalog, choices: seq<string>, i: nat)
    requires i < |c.installed|
    ensures Answers(c, c.installed[i], choices) <==> Offers(c, choices, i)
  {
    if Answers(c, c.installed[i], choices) {
      var n :| n in choices && n in c.installed[i].offers;
      var j :| 0 <= j < |choices| && choices[j] == n;
      var m :| 0 <= m < |c.installed[i].offers| && c.installed[i].offers[m] == n;
      assert Offers(c, choices, i);
    }
    if Offers(c, choices, i) {
      var j, m :| 0 <= j < |choices| && 0 <= m < |c.installed[i].offers| && c.installed[i].offers[m] == choices[j];
      assert choices[j] in choices && choices[j] in c.installed[i].offers;
    }
  }

  /** The provider of a clause, by position: the first alternative that is listed and installed; if none is both, the
      first that is listed; if none is listed, the first installed package that is listed and offers one. */
  lemma ProviderMeans(c: Catalog, choices: seq<string>, k: nat, name: string)
    ensures At(c, choices, k, name) ==> Provider(c, choices) == Some(name)
    ensures NoneInstalled(c, choices) && FirstListed(c, choices, k, name) ==> Provider(c, choices) == Some(name)
    ensures NoneListed(c, choices) && Offers(c, choices, k) && (forall i :: 0 <= i < k ==> !Offers(c, choices, i)) ==>
      Provider(c, choices) == Some(c.installed[k].name)
  {
    if At(c, choices, k, name) {
      forall j | 0 <= j < k
        ensures !Preferred(c, choices[j])
      {
        PreferredMeans(c, choices, j);
      }
      PreferredMeans(c, choices, k);
      PreferredIsFirst(c, choices, k);
    }
    if NoneInstalled(c, choices) && FirstListed(c, choices, k, name) {
      NonePreferred(c, choices);
      ProviderRule(c, choices, k);
    }
    if NoneListed(c, choices) && Offers(c, choices, k) && forall i :: 0 <= i < k ==> !Offers(c, choices, i) {
      forall i | 0 <= i <= k
        ensures Answers(c, c.installed[i], choices) <==> Offers(c, choices, i)
      {
        OffersMeans(c, choices, i);
      }
      ProviderRule(c, choices, k);
    }
  }

  /** A clause without a provider is one of which nothing is listed and which nothing listed and installed offers. */
  lemma NoProvider(c: Catalog, choices: seq<string>)
    ensures Provider(c, choices).None? <==>
      NoneListed(c, choices) && forall i :: 0 <= i < |c.installed| ==> !Offers(c, choices, i)
  {
    forall i | 0 <= i < |c.installed|
      ensures Answers(c, c.installed[i], choices) <==> Offers(c, choices, i)
    {
      OffersMeans(c, choices, i);
    }
    if NoneListed(c, choices) {
      assert forall n :: n in choices ==> n !in c.available;
    }
    assert forall i :: 0 <= i < |c.installed| ==> c.installed[i] in c.installed;
  }

  // ----- What is recorded -----

  /** What a closed set is, over the lists: every name stands for a listed candidate, and every clause of that candidate
      that is not blank has its provider in the set. */
  ghost predicate ClosedOver(c: Catalog, names: set<string>) {
    forall n :: n in names ==>
      exists k: nat :: Chosen(c, n, k)
        && forall i :: 0 <= i < |c.available[n][k].clauses| && c.available[n][k].clauses[i].Choices? ==>
             var p := Provider(c, c.available[n][k].clauses[i].names);
             p.Some? && p.value in names
  }

  ghost predicate Satisfied(c: Catalog, clauses: seq<Clause>, names: set<string>) {
    forall i :: 0 <= i < |clauses| && clauses[i].Choices? ==>
      Provider(c, clauses[i].names).Some? && Provider(c, clauses[i].names).value in names
  }

  lemma AskedIn(c: Catalog, clauses: seq<Clause>, names: set<string>)
    ensures Satisfied(c, clauses, names) <==>
      Asked(c, clauses).Some? && forall d :: d in Asked(c, clauses).value ==> d in names
  {
    if Satisfied(c, clauses, names) {
      forall k | k in clauses && k.Choices?
        ensures Provider(c, k.names).Some? && Provider(c, k.names).value in names
      {
        var i :| 0 <= i < |clauses| && clauses[i] == k;
      }
    } else {
      var i :| 0 <= i < |clauses| && clauses[i].Choices?
               && !(Provider(c, clauses[i].names).Some? && Provider(c, clauses[i].names).value in names);
      assert clauses[i] in clauses;
    }
  }

  lemma ClosedIff(c: Catalog, names: set<string>)
    requires VersionOrder(c.newer)
    ensures Closed(c, names) <==> ClosedOver(c, names)
  {
    if Closed(c, names) {
      forall n | n in names
        ensures exists k: nat :: Chosen(c, n, k) && Satisfied(c, c.available[n][k].clauses, names)
      {
        var x := Pick(c, n).value;
        PickIff(c, n, x);
        AskedIn(c, x.clauses, names);
        var k: nat :| Chosen(c, n, k) && c.available[n][k] == x;
      }
    }
    if ClosedOver(c, names) {
      forall n | n in names
        ensures Resolvable(c, n) && forall d :: d in Asked(c, Pick(c, n).value.clauses).value ==> d in names
      {
        var k: nat :| Chosen(c, n, k) && Satisfied(c, c.available[n][k].clauses, names);
        PickIff(c, n, c.available[n][k]);
        AskedIn(c, c.available[n][k].clauses, names);
      }
    }
  }

  ghost predicate StandFor(c: Catalog, records: map<string, Candidate>) {
    forall n :: n in records ==> exists k: nat :: Chosen(c, n, k) && c.available[n][k] == records[n]
  }

  ghost predicate Supplied(c: Catalog, records: map<string, Candidate>) {
    forall n :: n in records ==> Satisfied(c, records[n].clauses, records.Keys)
  }

  ghost predicate InEvery(c: Catalog, roots: seq<string>, names: set<string>) {
    forall s: set<string> {:trigger ClosedOver(c, s)} ::
      ClosedOver(c, s) && (forall n :: n in roots ==> n in s) ==> names <= s
  }

  lemma InEveryIff(c: Catalog, roots: seq<string>, names: set<string>)
    requires VersionOrder(c.newer)
    ensures InEvery(c, roots, names)
       <==> forall s: set<string> {:trigger Closed(c, s)} :: Closed(c, s) && Contains(s, roots) ==> names <= s
  {
    forall s: set<string>
      ensures Closed(c, s) <==> ClosedOver(c, s)
    {
      ClosedIff(c, s);
    }
  }

  /** A resolution, over the lists: each recorded candidate is the chosen one of its name, the roots and the providers
      of all clauses are recorded, and nothing is recorded that some closed set over the roots could do without. */
  lemma ResolutionIff(c: Catalog, roots: seq<string>, records: map<string, Candidate>)
    requires VersionOrder(c.newer)
    ensures IsResolution(c, roots, records) <==>
      && (forall n :: n in roots ==> n in records)
      && StandFor(c, records) && Supplied(c, records) && InEvery(c, roots, records.Keys)
  {
    InEveryIff(c, roots, records.Keys);
    RecordsChosen(c, records);
    if forall n :: n in records ==> Pick(c, n) == Some(records[n]) {
      RecordsClosed(c, records);
    }
  }

  lemma RecordsChosen(c: Catalog, records: map<string, Candidate>)
    requires VersionOrder(c.newer)
    ensures (forall n :: n in records ==> Pick(c, n) == Some(records[n]))
       <==> StandFor(c, records)
  {
    forall n | n in records
      ensures Pick(c, n) == Some(records[n]) <==>
        exists k: nat :: Chosen(c, n, k) && c.available[n][k] == records[n]
    {
      PickIff(c, n, records[n]);
    }
  }

  lemma RecordsClosed(c: Catalog, records: map<string, Candidate>)
    requires forall n :: n in records ==> Pick(c, n) == Some(records[n])
    ensures Closed(c, records.Keys) <==> Supplied(c, records)
  {
    forall n | n in records
      ensures Satisfied(c, records[n].clauses, records.Keys) <==>
        Asked(c, records[n].clauses).Some? && forall d :: d in Asked(c, records[n].clauses).value ==> d in records.Keys
    {
      AskedIn(c, records[n].clauses, records.Keys);
    }
  }
}
