/** The audits' test-case reconciliations: removing each old case from the new ones, and removing renamed cases
    from both sides before comparing the rest. */
module CasePreservation {
  import opened Counting
  import opened Wrappers

  function Splice<T>(s: seq<T>, k: nat): (r: seq<T>)
    requires k < |s|
    ensures |r| == |s| - 1
  {
    s[..k] + s[k + 1..]
  }

  function FirstWith<T>(s: seq<T>, key: T -> string, name: string): (r: Option<nat>)
    ensures r.Some? ==> r.value < |s| && key(s[r.value]) == name && forall i :: 0 <= i < r.value ==> key(s[i]) != name
    ensures r.None? ==> forall i :: 0 <= i < |s| ==> key(s[i]) != name
  {
    if s == [] then None
    else if key(s[0]) == name then Some(0)
    else
      match FirstWith(s[1..], key, name)
      case None => None
      case Some(i) => Some(i + 1)
  }

  /** Removes, for each name in turn, the first case that has it. */
  function RemoveEach<T>(names: seq<string>, s: seq<T>, key: T -> string): Option<seq<T>>
    decreases |names|
  {
    if names == [] then Some(s)
    else
      match FirstWith(s, key, names[0])
      case None => None
      case Some(k) => RemoveEach(names[1..], Splice(s, k), key)
  }

  lemma SpliceKeys<T>(s: seq<T>, key: T -> string, k: nat)
    requires k < |s|
    ensures multiset(Keys(s, key)) == multiset(Keys(Splice(s, k), key)) + multiset{key(s[k])}
  {
    var keys := Keys(s, key);
    assert keys == keys[..k] + [keys[k]] + keys[k + 1..];
    assert Keys(Splice(s, k), key) == keys[..k] + keys[k + 1..];
  }

  lemma InclusionStep(a: multiset<string>, b: multiset<string>, x: string)
    ensures a + multiset{x} <= b + multiset{x} <==> a <= b
    ensures (b + multiset{x}) - (a + multiset{x}) == b - a
  {
    if a + multiset{x} <= b + multiset{x} {
      forall y
        ensures a[y] <= b[y]
      {
        assert (a + multiset{x})[y] <= (b + multiset{x})[y];
      }
    }
  }

  /** The loop decides multiset inclusion, and what remains is the exact multiset difference. */
  lemma {:induction false} RemovalIsInclusion<T>(names: seq<string>, s: seq<T>, key: T -> string)
    ensures RemoveEach(names, s, key).Some? <==> multiset(names) <= multiset(Keys(s, key))
    ensures RemoveEach(names, s, key).Some? ==>
      multiset(Keys(RemoveEach(names, s, key).value, key)) == multiset(Keys(s, key)) - multiset(names)
    decreases |names|
  {
    if names != [] {
      assert names == [names[0]] + names[1..];
      var found := FirstWith(s, key, names[0]);
      if found.None? {
        assert names[0] !in Keys(s, key);
        assert multiset(names)[names[0]] >= 1;
      } else {
        SpliceKeys(s, key, found.value);
        RemovalIsInclusion(names[1..], Splice(s, found.value), key);
        InclusionStep(multiset(names[1..]), multiset(Keys(Splice(s, found.value), key)), names[0]);
        assert multiset(names) == multiset(names[1..]) + multiset{names[0]};
      }
    }
  }

  // ----- The same in one scan -----

  /** One pass over the list that drops a case as long as its key is still to be removed. */
  function Scan<T>(left: multiset<string>, s: seq<T>, key: T -> string): seq<T>
    decreases |s|
  {
    if s == [] then []
    else if key(s[0]) in left then Scan(left - multiset{key(s[0])}, s[1..], key)
    else [s[0]] + Scan(left, s[1..], key)
  }

  lemma {:induction false} ScanStep<T>(left: multiset<string>, s: seq<T>, key: T -> string, k: nat)
    requires k < |s| && forall i :: 0 <= i < k ==> key(s[i]) != key(s[k])
    ensures Scan(left + multiset{key(s[k])}, s, key) == Scan(left, Splice(s, k), key)
    decreases |s|
  {
    var name, more := key(s[k]), left + multiset{key(s[k])};
    if k == 0 {
      assert more - multiset{name} == left && Splice(s, 0) == s[1..];
    } else {
      var first := key(s[0]);
      assert Splice(s, k)[0] == s[0] && Splice(s, k)[1..] == Splice(s[1..], k - 1);
      if first in left {
        assert more - multiset{first} == left - multiset{first} + multiset{name};
        ScanStep(left - multiset{first}, s[1..], key, k - 1);
      } else {
        ScanStep(left, s[1..], key, k - 1);
      }
    }
  }

  lemma {:induction false} ScanOfNone<T>(s: seq<T>, key: T -> string)
    ensures Scan(multiset{}, s, key) == s
    decreases |s|
  {
    if s != [] {
      ScanOfNone(s[1..], key);
      assert s == [s[0]] + s[1..];
    }
  }

  /** The removal loop, whose cost is one search for each name, leaves what a single scan leaves: of each key,
      its first occurrences go, as many as are named. */
  lemma {:induction false} RemovalIsScan<T>(names: seq<string>, s: seq<T>, key: T -> string)
    requires RemoveEach(names, s, key).Some?
    ensures RemoveEach(names, s, key) == Some(Scan(multiset(names), s, key))
    decreases |names|
  {
    if names == [] {
      ScanOfNone(s, key);
    } else {
      var k := FirstWith(s, key, names[0]).value;
      RemovalIsScan(names[1..], Splice(s, k), key);
      ScanStep(multiset(names[1..]), s, key, k);
      assert names == [names[0]] + names[1..];
      assert multiset(names) == multiset(names[1..]) + multiset{names[0]};
    }
  }

  /** The order of the old cases is irrelevant: it changes neither the verdict nor what remains. */
  lemma OrderOfRemovals<T>(one: seq<string>, two: seq<string>, s: seq<T>, key: T -> string)
    requires multiset(one) == multiset(two)
    ensures RemoveEach(one, s, key) == RemoveEach(two, s, key)
  {
    RemovalIsInclusion(one, s, key);
    RemovalIsInclusion(two, s, key);
    if RemoveEach(one, s, key).Some? {
      RemovalIsScan(one, s, key);
      RemovalIsScan(two, s, key);
    }
  }

  // ----- Positions -----

  ghost predicate Within(positions: seq<nat>, n: nat) {
    forall i :: 0 <= i < |positions| ==> positions[i] < n
  }

  ghost predicate Increasing(positions: seq<nat>) {
    forall i, j :: 0 <= i < j < |positions| ==> positions[i] < positions[j]
  }

  /** Positions after the gap move up by one. */
  function Widen(positions: seq<nat>, k: nat): (wide: seq<nat>)
    ensures |wide| == |positions|
    ensures forall i :: 0 <= i < |positions| ==> wide[i] == if positions[i] < k then positions[i] else positions[i] + 1
  {
    seq(|positions|, i requires 0 <= i < |positions| => if positions[i] < k then positions[i] else positions[i] + 1)
  }

  /** Every position of the list is removed for one name or kept, never both. */
  ghost predicate Splits<T>(names: seq<string>, s: seq<T>, key: T -> string, rest: seq<T>, removed: seq<nat>,
                            kept: seq<nat>)
  {
    && |removed| == |names| && |kept| == |rest| && |removed| + |kept| == |s|
    && Within(removed, |s|) && Within(kept, |s|) && NoRepeat(removed + kept) && Increasing(kept)
    && (forall i :: 0 <= i < |names| ==> key(s[removed[i]]) == names[i])
    && (forall i :: 0 <= i < |rest| ==> s[kept[i]] == rest[i])
  }

  lemma WidenNoRepeat(positions: seq<nat>, k: nat)
    requires NoRepeat(positions)
    ensures NoRepeat([k] + Widen(positions, k))
  {
    var all := [k] + Widen(positions, k);
    forall i, j | 0 <= i < j < |all|
      ensures all[i] != all[j]
    {
      assert all[j] == Widen(positions, k)[j - 1];
      if i > 0 {
        assert all[i] == Widen(positions, k)[i - 1] && positions[i - 1] != positions[j - 1];
      }
    }
  }

  /** A position of the spliced list and its position before the splice. */
  lemma WidenPoints<T>(s: seq<T>, k: nat, positions: seq<nat>)
    requires k < |s| && Within(positions, |s| - 1)
    ensures Within(Widen(positions, k), |s|)
    ensures forall i :: 0 <= i < |positions| ==> s[Widen(positions, k)[i]] == Splice(s, k)[positions[i]]
    ensures Increasing(positions) ==> Increasing(Widen(positions, k))
  {}

  lemma WidenSplits<T>(names: seq<string>, s: seq<T>, key: T -> string, k: nat, rest: seq<T>, removed: seq<nat>,
                       kept: seq<nat>)
    requires names != [] && k < |s| && key(s[k]) == names[0]
    requires Splits(names[1..], Splice(s, k), key, rest, removed, kept)
    ensures Splits(names, s, key, rest, [k] + Widen(removed, k), Widen(kept, k))
  {
    var wideRemoved, wideKept := Widen(removed, k), Widen(kept, k);
    WidenPoints(s, k, removed);
    WidenPoints(s, k, kept);
    assert [k] + wideRemoved + wideKept == [k] + Widen(removed + kept, k);
    WidenNoRepeat(removed + kept, k);
    var all := [k] + wideRemoved;
    forall i | 0 <= i < |names|
      ensures all[i] < |s| && key(s[all[i]]) == names[i]
    {
      if i > 0 {
        assert all[i] == wideRemoved[i - 1] && names[1..][i - 1] == names[i];
        assert key(Splice(s, k)[removed[i - 1]]) == names[1..][i - 1];
      }
    }
  }

  /** What remains is an order-preserving subsequence, and every case is accounted for once. */
  lemma {:induction false} RemovalSplits<T>(names: seq<string>, s: seq<T>, key: T -> string)
      returns (removed: seq<nat>, kept: seq<nat>)
    requires RemoveEach(names, s, key).Some?
    ensures Splits(names, s, key, RemoveEach(names, s, key).value, removed, kept)
    decreases |names|
  {
    if names == [] {
      removed, kept := [], seq(|s|, i => i);
    } else {
      var k := FirstWith(s, key, names[0]).value;
      removed, kept := RemovalSplits(names[1..], Splice(s, k), key);
      WidenSplits(names, s, key, k, RemoveEach(names, s, key).value, removed, kept);
      removed, kept := [k] + Widen(removed, k), Widen(kept, k);
    }
  }

  // ----- Case preservation -----

  function Itself(s: string): string { s }

  /** The preservation loop: succeeds exactly when every old identity is among the new ones with its
      multiplicity, and what remains is the exact multiset difference, in the order of the new list. */
  method PreserveCases(old': seq<string>, new': seq<string>) returns (remaining: Option<seq<string>>)
    ensures remaining == RemoveEach(old', new', Itself)
    ensures remaining.Some? <==> multiset(old') <= multiset(new')
    ensures remaining.Some? ==> multiset(remaining.value) == multiset(new') - multiset(old')
    ensures remaining.Some? ==> remaining.value == Scan(multiset(old'), new', Itself)
  {
    KeysOfStrings(new');
    RemovalIsInclusion(old', new', Itself);
    var left := new';
    for i := 0 to |old'|
      invariant RemoveEach(old'[i..], left, Itself) == RemoveEach(old', new', Itself)
    {
      assert old'[i..][1..] == old'[i + 1..];
      var index := FirstWith(left, Itself, old'[i]);
      if index.None? {
        return None;
      }
      left := Splice(left, index.value);
    }
    KeysOfStrings(left);
    RemovalIsScan(old', new', Itself);
    remaining := Some(left);
  }

  lemma KeysOfStrings(s: seq<string>)
    ensures Keys(s, Itself) == s
  {}

  // ----- Renamed cases -----

  /** One observed test: its identity and everything else recorded about it. */
  datatype Test = Test(identity: string, record: string)

  datatype Rename = Rename(prior: string, current: string)

  function IdentityOf(t: Test): string { t.identity }

  function Priors(mapping: seq<Rename>): (names: seq<string>)
    ensures |names| == |mapping| && forall i :: 0 <= i < |mapping| ==> names[i] == mapping[i].prior
  {
    seq(|mapping|, i requires 0 <= i < |mapping| => mapping[i].prior)
  }

  function Currents(mapping: seq<Rename>): (names: seq<string>)
    ensures |names| == |mapping| && forall i :: 0 <= i < |mapping| ==> names[i] == mapping[i].current
  {
    seq(|mapping|, i requires 0 <= i < |mapping| => mapping[i].current)
  }

  /** Both runs hold the renamed identities as often as they are renamed, and dropping the first occurrences of
      these from each leaves the same tests in the same order. */
  ghost predicate Reconciled(old': seq<Test>, new': seq<Test>, mapping: seq<Rename>) {
    && multiset(Priors(mapping)) <= multiset(Keys(old', IdentityOf))
    && multiset(Currents(mapping)) <= multiset(Keys(new', IdentityOf))
    && Scan(multiset(Priors(mapping)), old', IdentityOf) == Scan(multiset(Currents(mapping)), new', IdentityOf)
  }

  lemma ReconciledIff(old': seq<Test>, new': seq<Test>, mapping: seq<Rename>)
    ensures Reconciled(old', new', mapping) <==>
      && RemoveEach(Priors(mapping), old', IdentityOf).Some?
      && RemoveEach(Priors(mapping), old', IdentityOf) == RemoveEach(Currents(mapping), new', IdentityOf)
  {
    RemovalIsInclusion(Priors(mapping), old', IdentityOf);
    RemovalIsInclusion(Currents(mapping), new', IdentityOf);
    if RemoveEach(Priors(mapping), old', IdentityOf).Some? {
      RemovalIsScan(Priors(mapping), old', IdentityOf);
    }
    if RemoveEach(Currents(mapping), new', IdentityOf).Some? {
      RemovalIsScan(Currents(mapping), new', IdentityOf);
    }
  }

  /** The paired removal followed by the comparison of the rests. */
  method Reconcile(old': seq<Test>, new': seq<Test>, mapping: seq<Rename>) returns (accepted: bool)
    ensures accepted <==> Reconciled(old', new', mapping)
  {
    ghost var priors, currents := Priors(mapping), Currents(mapping);
    ReconciledIff(old', new', mapping);
    var remainingOld, remainingNew := old', new';
    for i := 0 to |mapping|
      invariant RemoveEach(priors[i..], remainingOld, IdentityOf) == RemoveEach(priors, old', IdentityOf)
      invariant RemoveEach(currents[i..], remainingNew, IdentityOf) == RemoveEach(currents, new', IdentityOf)
    {
      assert priors[i..][1..] == priors[i + 1..] && currents[i..][1..] == currents[i + 1..];
      var oldIndex := FirstWith(remainingOld, IdentityOf, mapping[i].prior);
      var newIndex := FirstWith(remainingNew, IdentityOf, mapping[i].current);
      if oldIndex.None? || newIndex.None? {
        return false;
      }
      remainingOld, remainingNew := Splice(remainingOld, oldIndex.value), Splice(remainingNew, newIndex.value);
    }
    accepted := remainingOld == remainingNew;
  }

  /** A one-to-one correspondence of positions: the first pairs carry the declared renames in order, every
      other pair joins equal tests. */
  ghost predicate Corresponds(old': seq<Test>, new': seq<Test>, mapping: seq<Rename>, left: seq<nat>,
                              right: seq<nat>)
  {
    && |left| == |right| == |old'| == |new'| && |mapping| <= |left|
    && Within(left, |old'|) && NoRepeat(left) && Within(right, |new'|) && NoRepeat(right)
    && (forall i :: 0 <= i < |mapping| ==>
          old'[left[i]].identity == mapping[i].prior && new'[right[i]].identity == mapping[i].current)
    && (forall i :: |mapping| <= i < |left| ==> old'[left[i]] == new'[right[i]])
  }

  /** An accepted reconciliation is a bijection between the two runs that does nothing but the declared
      renames; the identities then differ by exactly those renames. */
  lemma ReconciledBijection(old': seq<Test>, new': seq<Test>, mapping: seq<Rename>)
      returns (left: seq<nat>, right: seq<nat>)
    requires Reconciled(old', new', mapping)
    ensures Corresponds(old', new', mapping, left, right)
    ensures multiset(Keys(new', IdentityOf))
         == multiset(Keys(old', IdentityOf)) - multiset(Priors(mapping)) + multiset(Currents(mapping))
  {
    ReconciledIff(old', new', mapping);
    var rest := RemoveEach(Priors(mapping), old', IdentityOf).value;
    var removedOld, keptOld := RemovalSplits(Priors(mapping), old', IdentityOf);
    var removedNew, keptNew := RemovalSplits(Currents(mapping), new', IdentityOf);
    left, right := removedOld + keptOld, removedNew + keptNew;
    forall i | 0 <= i < |left|
      ensures left[i] < |old'| && right[i] < |new'|
      ensures i < |mapping| ==>
        old'[left[i]].identity == mapping[i].prior && new'[right[i]].identity == mapping[i].current
      ensures |mapping| <= i ==> old'[left[i]] == new'[right[i]]
    {
      if i < |mapping| {
        assert IdentityOf(old'[removedOld[i]]) == Priors(mapping)[i];
        assert IdentityOf(new'[removedNew[i]]) == Currents(mapping)[i];
      } else {
        assert old'[keptOld[i - |mapping|]] == rest[i - |mapping|] == new'[keptNew[i - |mapping|]];
      }
    }
    RemovalIsInclusion(Priors(mapping), old', IdentityOf);
    RemovalIsInclusion(Currents(mapping), new', IdentityOf);
  }
}
