/** Pin inventories: the change list between two of them, and the repair that applies one. */
module PinInventory {
  import opened Framing
  import opened Counting
  import opened Wrappers

  datatype Pin = Pin(path: string, bytes: nat, sha256: string)

  datatype Facts = Facts(bytes: nat, sha256: string)

  datatype Change = Change(path: string, before: Facts, after: Facts)

  function FactsOf(p: Pin): Facts { Facts(p.bytes, p.sha256) }

  function PinPath(p: Pin): string { p.path }

  function ChangePath(c: Change): string { c.path }

  ghost predicate Distinct(pins: seq<Pin>) {
    DistinctBy(pins, PinPath)
  }

  // ----- Computing the change list -----

  /** Two pins for one place: None if they cannot be compared, otherwise at most one change. */
  function Compare(before: Pin, after: Pin): Option<seq<Change>> {
    if before.path != after.path then None
    else if before.sha256 != after.sha256 then Some([Change(before.path, FactsOf(before), FactsOf(after))])
    else if before.bytes == after.bytes then Some([])
    else None
  }

  function Diff(original: seq<Pin>, revised: seq<Pin>): Option<seq<Change>> {
    if |original| != |revised| then None
    else if original == [] then Some([])
    else
      var last := |original| - 1;
      match (Diff(original[..last], revised[..last]), Compare(original[last], revised[last]))
      case (Some(changes), Some(change)) => Some(changes + change)
      case _ => None
  }

  method ComputeChanges(original: seq<Pin>, revised: seq<Pin>) returns (result: Option<seq<Change>>)
    ensures result == Diff(original, revised)
  {
    if |original| != |revised| {
      return None;
    }
    var changes: seq<Change> := [];
    for i := 0 to |original|
      invariant Diff(original[..i], revised[..i]) == Some(changes)
    {
      var before, after := original[i], revised[i];
      assert original[..i + 1][..i] == original[..i] && revised[..i + 1][..i] == revised[..i];
      if before.path != after.path {
        DiffFails(original, revised, i);
        return None;
      }
      if before.sha256 != after.sha256 {
        changes := changes + [Change(before.path, FactsOf(before), FactsOf(after))];
      } else if before.bytes != after.bytes {
        DiffFails(original, revised, i);
        return None;
      } else {
        assert changes + [] == changes;
      }
    }
    assert original[..|original|] == original && revised[..|revised|] == revised;
    result := Some(changes);
  }

  lemma {:induction false} DiffFails(original: seq<Pin>, revised: seq<Pin>, i: nat)
    requires |original| == |revised| && i < |original| && Compare(original[i], revised[i]).None?
    ensures Diff(original, revised).None?
    decreases |original|
  {
    var last := |original| - 1;
    if i < last {
      DiffFails(original[..last], revised[..last], i);
    }
  }

  /** The places at which two inventories differ, in order, and the rows that stand for them. */
  ghost predicate ListsPlaces(original: seq<Pin>, revised: seq<Pin>, changes: seq<Change>, places: seq<nat>) {
    && |original| == |revised| && |places| == |changes|
    && (forall a, b :: 0 <= a < b < |places| ==> places[a] < places[b])
    && (forall k :: 0 <= k < |places| ==>
          && places[k] < |original| && original[places[k]].sha256 != revised[places[k]].sha256
          && changes[k] == Change(original[places[k]].path,
                                  Facts(original[places[k]].bytes, original[places[k]].sha256),
                                  Facts(revised[places[k]].bytes, revised[places[k]].sha256)))
    && (forall i :: 0 <= i < |original| && original[i].sha256 != revised[i].sha256 ==> i in places)
  }

  /** The comparison succeeds exactly for inventories with the same paths at the same places in which no size changes
      under one hash. */
  lemma {:induction false} DiffIff(original: seq<Pin>, revised: seq<Pin>)
    ensures Diff(original, revised).Some? <==>
      && |original| == |revised|
      && forall i :: 0 <= i < |original| ==>
           && original[i].path == revised[i].path
           && (original[i].sha256 == revised[i].sha256 ==> original[i].bytes == revised[i].bytes)
    decreases |original|
  {
    if |original| == |revised| && original != [] {
      DiffIff(original[..|original| - 1], revised[..|original| - 1]);
    }
  }

  /** And it then lists exactly the places whose hashes differ, in order. */
  lemma {:induction false} DiffLists(original: seq<Pin>, revised: seq<Pin>) returns (places: seq<nat>)
    requires Diff(original, revised).Some?
    ensures ListsPlaces(original, revised, Diff(original, revised).value, places)
    decreases |original|
  {
    places := [];
    if original != [] {
      var last := |original| - 1;
      places := DiffLists(original[..last], revised[..last]);
      OnePlaceMore(original, revised, Diff(original[..last], revised[..last]).value, places);
      if original[last].sha256 != revised[last].sha256 {
        places := places + [last];
      } else {
        var front := Diff(original[..last], revised[..last]).value;
        assert front + [] == front;
      }
    }
  }

  lemma OnePlaceMore(original: seq<Pin>, revised: seq<Pin>, front: seq<Change>, places: seq<nat>)
    requires original != [] && |original| == |revised|
    requires Compare(original[|original| - 1], revised[|original| - 1]).Some?
    requires ListsPlaces(original[..|original| - 1], revised[..|original| - 1], front, places)
    ensures var last := |original| - 1;
      var row := Compare(original[last], revised[last]).value;
      ListsPlaces(original, revised, front + row, places + if row == [] then [] else [last])
  {
    var last := |original| - 1;
    if original[last].sha256 != revised[last].sha256 {
      assert (places + [last])[|places|] == last;
      forall i | 0 <= i < |original| && original[i].sha256 != revised[i].sha256
        ensures i in places + [last]
      {
        if i < last {
          assert original[..last][i] == original[i] && revised[..last][i] == revised[i];
        }
      }
    } else {
      assert places + [] == places && front + [] == front;
      assert forall i :: 0 <= i < last ==> original[..last][i] == original[i] && revised[..last][i] == revised[i];
    }
  }

  // ----- Applying a change list -----

  /** What a map built from the rows holds for a path: the last row for it. */
  function Lookup(changes: seq<Change>, path: string): (r: Option<Change>)
    ensures r.Some? ==> r.value in changes && r.value.path == path
    ensures r.None? <==> forall c :: c in changes ==> c.path != path
  {
    LastWith(changes, ChangePath, path)
  }

  function PatchPin(changes: seq<Change>, pin: Pin): Option<Pin> {
    match Lookup(changes, pin.path)
    case None => Some(pin)
    case Some(c) => if c.before == FactsOf(pin) then Some(Pin(pin.path, c.after.bytes, c.after.sha256)) else None
  }

  /** The repaired inventory: every change found must start from the pin it replaces. */
  function Patch(changes: seq<Change>, pins: seq<Pin>): (r: Option<seq<Pin>>)
    ensures r.Some? <==> forall i :: 0 <= i < |pins| ==> PatchPin(changes, pins[i]).Some?
    ensures r.Some? ==>
      |r.value| == |pins| && forall i :: 0 <= i < |pins| ==> PatchPin(changes, pins[i]) == Some(r.value[i])
  {
    if pins == [] then Some([])
    else
      match (Patch(changes, pins[..|pins| - 1]), PatchPin(changes, pins[|pins| - 1]))
      case (Some(front), Some(pin)) => Some(front + [pin])
      case _ => None
  }

  /** A retained file is the one a pin describes. */
  predicate Holds(hash: seq<Byte> -> string, files: map<string, seq<Byte>>, path: string, facts: Facts) {
    path in files && |files[path]| == facts.bytes && hash(files[path]) == facts.sha256
  }

  /** The files at hand: the implementation, and both retained versions of every changed file. */
  datatype Store = Store(implementation: map<string, seq<Byte>>, before: map<string, seq<Byte>>,
                         after: map<string, seq<Byte>>)

  predicate PinHolds(hash: seq<Byte> -> string, s: Store, changes: seq<Change>, pin: Pin) {
    && (match Lookup(changes, pin.path)
        case None => true
        case Some(c) => Holds(hash, s.before, pin.path, c.before) && Holds(hash, s.after, pin.path, c.after))
    && (match PatchPin(changes, pin)
        case None => false
        case Some(expected) => Holds(hash, s.implementation, pin.path, FactsOf(expected)))
  }

  function Paths(pins: seq<Pin>): set<string> {
    KeySet(pins, PinPath)
  }

  /** The change map stands for the rows it was built from. */
  ghost predicate Indexes(byPath: map<string, Change>, changes: seq<Change>) {
    forall path {:trigger Lookup(changes, path)} ::
      Lookup(changes, path) == if path in byPath then Some(byPath[path]) else None
  }

  lemma IndexStep(byPath: map<string, Change>, changes: seq<Change>, c: Change)
    requires Indexes(byPath, changes)
    ensures Indexes(byPath[c.path := c], changes + [c])
  {
    forall path
      ensures Lookup(changes + [c], path) == if c.path == path then Some(c) else Lookup(changes, path)
    {
      LastWithNext(changes, c, ChangePath, path);
    }
  }

  /** `new Map(rows)`: a later row replaces an earlier one for the same path. */
  method IndexChanges(changes: seq<Change>) returns (byPath: map<string, Change>)
    ensures Indexes(byPath, changes)
  {
    byPath := map[];
    for i := 0 to |changes|
      invariant Indexes(byPath, changes[..i])
    {
      IndexStep(byPath, changes[..i], changes[i]);
      assert changes[..i + 1] == changes[..i] + [changes[i]];
      byPath := byPath[changes[i].path := changes[i]];
    }
    assert changes[..|changes|] == changes;
  }

  /** One turn of the repair: the expected pin, if it starts from this one and all files are as described. */
  method RepairPin(hash: seq<Byte> -> string, s: Store, byPath: map<string, Change>, ghost changes: seq<Change>,
                   pin: Pin) returns (repaired: Option<Pin>)
    requires Indexes(byPath, changes)
    ensures repaired.Some? <==> PinHolds(hash, s, changes, pin)
    ensures repaired.Some? ==> repaired == PatchPin(changes, pin)
  {
    var expected := pin;
    assert Lookup(changes, pin.path) == if pin.path in byPath then Some(byPath[pin.path]) else None;
    if pin.path in byPath {
      var change := byPath[pin.path];
      if change.before != FactsOf(pin)
         || !Holds(hash, s.before, pin.path, change.before) || !Holds(hash, s.after, pin.path, change.after) {
        return None;
      }
      expected := Pin(pin.path, change.after.bytes, change.after.sha256);
    }
    if !Holds(hash, s.implementation, pin.path, FactsOf(expected)) {
      return None;
    }
    repaired := Some(expected);
  }

  /** The k-th row is the last one for its path. */
  ghost predicate LastRow(changes: seq<Change>, k: nat, path: string) {
    k < |changes| && changes[k].path == path && forall j :: k < j < |changes| ==> changes[j].path != path
  }

  lemma {:induction false} LookupIff(changes: seq<Change>, path: string)
    ensures forall k: nat :: LastRow(changes, k, path) ==> Lookup(changes, path) == Some(changes[k])
    ensures Lookup(changes, path).Some? ==> exists k: nat :: LastRow(changes, k, path)
    decreases |changes|
  {
    if changes != [] {
      var last := |changes| - 1;
      var front := changes[..last];
      LookupIff(front, path);
      assert changes == front + [changes[last]];
      LastWithNext(front, changes[last], ChangePath, path);
      if changes[last].path == path {
        assert LastRow(changes, last, path);
      } else {
        forall k: nat
          ensures LastRow(changes, k, path) <==> LastRow(front, k, path)
        {
          assert k < last ==> front[k] == changes[k];
        }
      }
    }
  }

  /** A retained file of these facts. */
  ghost predicate Retained(hash: seq<Byte> -> string, files: map<string, seq<Byte>>, path: string, bytes: nat,
                           sha256: string)
  {
    path in files && |files[path]| == bytes && hash(files[path]) == sha256
  }

  /** A pin without a row holds if its file is the pinned one. A pin with a row holds if the last row for its path
      starts from it, both retained versions are the ones the row names, and the file is already the later one. */
  lemma PinHoldsIff(hash: seq<Byte> -> string, s: Store, changes: seq<Change>, pin: Pin, k: nat)
    ensures (forall j :: 0 <= j < |changes| ==> changes[j].path != pin.path) ==>
      && (PinHolds(hash, s, changes, pin) <==>
            Retained(hash, s.implementation, pin.path, pin.bytes, pin.sha256))
      && PatchPin(changes, pin) == Some(pin)
    ensures LastRow(changes, k, pin.path) ==>
      var c := changes[k];
      && (PinHolds(hash, s, changes, pin) <==>
            && c.before.bytes == pin.bytes && c.before.sha256 == pin.sha256
            && Retained(hash, s.before, pin.path, pin.bytes, pin.sha256)
            && Retained(hash, s.after, pin.path, c.after.bytes, c.after.sha256)
            && Retained(hash, s.implementation, pin.path, c.after.bytes, c.after.sha256))
      && (PinHolds(hash, s, changes, pin) ==>
            PatchPin(changes, pin) == Some(Pin(pin.path, c.after.bytes, c.after.sha256)))
  {
    LookupIff(changes, pin.path);
  }

  lemma PatchStep(changes: seq<Change>, pins: seq<Pin>, i: nat)
    requires i < |pins| && Patch(changes, pins[..i]).Some? && PatchPin(changes, pins[i]).Some?
    ensures Patch(changes, pins[..i + 1]) == Some(Patch(changes, pins[..i]).value + [PatchPin(changes, pins[i]).value])
    ensures Paths(pins[..i + 1]) == Paths(pins[..i]) + {pins[i].path}
  {
    assert pins[..i + 1][..i] == pins[..i] && pins[..i + 1] == pins[..i] + [pins[i]];
    KeySetNext(pins[..i], pins[i], PinPath);
  }

  ghost predicate AllHold(hash: seq<Byte> -> string, s: Store, changes: seq<Change>, pins: seq<Pin>) {
    forall i :: 0 <= i < |pins| ==> PinHolds(hash, s, changes, pins[i])
  }

  lemma HoldStep(hash: seq<Byte> -> string, s: Store, changes: seq<Change>, pins: seq<Pin>, i: nat)
    requires i < |pins|
    ensures AllHold(hash, s, changes, pins[..i + 1]) <==>
      AllHold(hash, s, changes, pins[..i]) && PinHolds(hash, s, changes, pins[i])
    ensures !PinHolds(hash, s, changes, pins[i]) ==> !AllHold(hash, s, changes, pins)
  {
    assert forall j :: 0 <= j < i ==> pins[..i + 1][j] == pins[..i][j];
    assert pins[..i + 1][i] == pins[i];
  }

  /** The repair: accepts exactly when every pin can be patched, every file involved is the one described and
      no path occurs twice, and returns the patched inventory. */
  method ApplyRepair(hash: seq<Byte> -> string, s: Store, changes: seq<Change>, original: seq<Pin>)
      returns (result: Option<seq<Pin>>)
    ensures result.Some? <==> Distinct(original) && AllHold(hash, s, changes, original)
    ensures result.Some? ==> Patch(changes, original) == result
  {
    var byPath := IndexChanges(changes);
    var pins: seq<Pin> := [];
    var files: set<string> := {};
    for i := 0 to |original|
      invariant Patch(changes, original[..i]) == Some(pins) && files == Paths(original[..i])
      invariant AllHold(hash, s, changes, original[..i])
    {
      var expected := RepairPin(hash, s, byPath, changes, original[i]);
      HoldStep(hash, s, changes, original, i);
      if expected.None? {
        return None;
      }
      PatchStep(changes, original, i);
      pins := pins + [expected.value];
      files := files + {original[i].path};
    }
    assert original[..|original|] == original;
    CountPaths(original);
    result := if |files| == |original| then Some(pins) else None;
  }

  /** As many paths as pins means that no path occurs twice. */
  lemma CountPaths(pins: seq<Pin>)
    ensures |Paths(pins)| <= |pins|
    ensures |Paths(pins)| == |pins| <==> forall i, j :: 0 <= i < j < |pins| ==> pins[i].path != pins[j].path
  {
    CountKeys(pins, PinPath);
    DistinctPaths(pins);
  }

  lemma DistinctPaths(pins: seq<Pin>)
    ensures Distinct(pins) <==> forall i, j :: 0 <= i < j < |pins| ==> pins[i].path != pins[j].path
  {
    assert forall p: Pin :: PinPath(p) == p.path;
  }

  // ----- What the two do to each other -----

  /** The row a comparison leaves for one place. */
  function ChangeAt(before: Pin, after: Pin): Option<Change> {
    if before.sha256 != after.sha256 then Some(Change(before.path, FactsOf(before), FactsOf(after))) else None
  }

  /** The change list holds, for each path of the inventory, exactly the row for that place, and nothing for
      any other path. */
  ghost predicate Describes(changes: seq<Change>, original: seq<Pin>, revised: seq<Pin>) {
    && |original| == |revised|
    && (forall i :: 0 <= i < |original| ==>
          Compare(original[i], revised[i]).Some?
          && Lookup(changes, original[i].path) == ChangeAt(original[i], revised[i]))
    && (forall path {:trigger Lookup(changes, path)} :: path !in Paths(original) ==> Lookup(changes, path).None?)
  }

  lemma LookupLast(front: seq<Change>, row: seq<Change>, path: string)
    requires |row| <= 1
    ensures Lookup(front + row, path)
         == if row != [] && row[0].path == path then Some(row[0]) else Lookup(front, path)
  {
    if row == [] {
      assert front + row == front;
    } else {
      assert (front + row)[..|front|] == front;
    }
  }

  lemma DescribesStep(front: seq<Change>, original: seq<Pin>, revised: seq<Pin>, before: Pin, after: Pin)
    requires Describes(front, original, revised) && before.path !in Paths(original)
    requires Compare(before, after).Some?
    ensures Describes(front + Compare(before, after).value, original + [before], revised + [after])
  {
    var row := Compare(before, after).value;
    var changes, pins := front + row, original + [before];
    forall path
      ensures Lookup(changes, path) == if path == before.path then ChangeAt(before, after) else Lookup(front, path)
    {
      LookupLast(front, row, path);
    }
    KeySetNext(original, before, PinPath);
    forall i | 0 <= i < |original|
      ensures pins[i].path in Paths(original)
    {
      assert pins[i] in original;
    }
  }

  lemma {:induction false} DiffDescribes(original: seq<Pin>, revised: seq<Pin>)
    requires Diff(original, revised).Some? && Distinct(original)
    ensures Describes(Diff(original, revised).value, original, revised)
    decreases |original|
  {
    if original != [] {
      var last := |original| - 1;
      LastKeyIsNew(original, PinPath);
      DiffDescribes(original[..last], revised[..last]);
      DescribesStep(Diff(original[..last], revised[..last]).value, original[..last], revised[..last],
                    original[last], revised[last]);
      FrontAndLast(original, revised);
    }
  }

  lemma FrontAndLast(original: seq<Pin>, revised: seq<Pin>)
    requires original != [] && |original| == |revised|
    ensures original == original[..|original| - 1] + [original[|original| - 1]]
    ensures revised == revised[..|revised| - 1] + [revised[|revised| - 1]]
  {}

  lemma DescribedPatch(changes: seq<Change>, original: seq<Pin>, revised: seq<Pin>)
    requires Describes(changes, original, revised)
    ensures Patch(changes, original) == Some(revised)
  {
    forall i | 0 <= i < |original|
      ensures PatchPin(changes, original[i]) == Some(revised[i])
    {
      assert Compare(original[i], revised[i]).Some?;
    }
    assert Patch(changes, original).value == revised;
  }

  /** Applying the computed change list to the original inventory yields the revised one. */
  lemma DiffThenPatch(original: seq<Pin>, revised: seq<Pin>)
    requires Diff(original, revised).Some? && Distinct(original)
    ensures Patch(Diff(original, revised).value, original) == Some(revised)
  {
    DiffDescribes(original, revised);
    DescribedPatch(Diff(original, revised).value, original, revised);
  }

  ghost predicate DistinctRows(changes: seq<Change>) {
    DistinctBy(changes, ChangePath)
  }

  lemma LookupOfRow(changes: seq<Change>, c: Change)
    requires DistinctRows(changes) && c in changes
    ensures Lookup(changes, c.path) == Some(c)
  {
    var i :| 0 <= i < |changes| && changes[i] == c;
    LastWithDistinct(changes, ChangePath, i);
  }

  lemma LookupAgrees(one: seq<Change>, two: seq<Change>, path: string)
    requires DistinctRows(two) && (forall c :: c in one ==> c in two) && Lookup(one, path).Some?
    ensures Lookup(two, path) == Lookup(one, path)
  {
    LookupOfRow(two, Lookup(one, path).value);
  }

  /** Two lists of rows with distinct paths and the same rows, in any order, hold the same for every path. */
  lemma OrderIsIrrelevant(one: seq<Change>, two: seq<Change>, path: string)
    requires DistinctRows(one) && DistinctRows(two) && multiset(one) == multiset(two)
    ensures Lookup(one, path) == Lookup(two, path)
  {
    assert forall c :: c in one <==> c in multiset(one);
    assert forall c :: c in two <==> c in multiset(two);
    if Lookup(one, path).Some? {
      LookupAgrees(one, two, path);
    }
    if Lookup(two, path).Some? {
      LookupAgrees(two, one, path);
    }
  }

  /** The declared change list is compared with the computed one after sorting, so it may come in any order:
      applying it still yields the revised inventory. */
  lemma AnyOrderPatches(original: seq<Pin>, revised: seq<Pin>, declared: seq<Change>)
    requires Diff(original, revised).Some? && Distinct(original)
    requires multiset(declared) == multiset(Diff(original, revised).value)
    ensures Patch(declared, original) == Some(revised)
  {
    var changes := Diff(original, revised).value;
    DiffDescribes(original, revised);
    DiffRowsAreDistinct(original, revised);
    PermutedRows(changes, declared);
    forall path
      ensures Lookup(declared, path) == Lookup(changes, path)
    {
      OrderIsIrrelevant(declared, changes, path);
    }
    assert Describes(declared, original, revised);
    DescribedPatch(declared, original, revised);
  }

  /** Reordering distinct rows keeps them distinct. */
  lemma PermutedRows(rows: seq<Change>, other: seq<Change>)
    requires DistinctRows(rows) && multiset(rows) == multiset(other)
    ensures DistinctRows(other)
  {
    PermutedNoRepeat(rows, other);
    forall i, j | 0 <= i < j < |other|
      ensures other[i].path != other[j].path
    {
      assert other[i] in multiset(rows) && other[j] in multiset(rows);
      if other[i].path == other[j].path {
        LookupOfRow(rows, other[i]);
        LookupOfRow(rows, other[j]);
      }
    }
  }

  lemma {:induction false} DiffRowsAreDistinct(original: seq<Pin>, revised: seq<Pin>)
    requires Diff(original, revised).Some? && Distinct(original)
    ensures DistinctRows(Diff(original, revised).value)
    ensures forall c :: c in Diff(original, revised).value ==> c.path in Paths(original)
    decreases |original|
  {
    if original != [] {
      var last := |original| - 1;
      var front := Diff(original[..last], revised[..last]).value;
      DiffRowsAreDistinct(original[..last], revised[..last]);
      assert original == original[..last] + [original[last]];
      KeySetNext(original[..last], original[last], PinPath);
      LastKeyIsNew(original, PinPath);
      assert forall i :: 0 <= i < |front| ==> front[i] in front;
    }
  }

  /** Comparing an inventory with its own repair gives back what the repair changed: for every path, the row
      that was applied there if it changed the hash, and none otherwise. It fails exactly when some applied
      row changes the size of a file but not its hash. */
  lemma PatchThenDiff(changes: seq<Change>, original: seq<Pin>)
    requires Patch(changes, original).Some? && Distinct(original)
    ensures var revised := Patch(changes, original).value;
      && (Diff(original, revised).Some? <==>
            forall i :: 0 <= i < |original| && Lookup(changes, original[i].path).Some? ==>
              var c := Lookup(changes, original[i].path).value;
              c.before.sha256 == c.after.sha256 ==> c.before.bytes == c.after.bytes)
      && (Diff(original, revised).Some? ==>
            forall i :: 0 <= i < |original| ==>
              Lookup(Diff(original, revised).value, original[i].path)
              == match Lookup(changes, original[i].path)
                 case None => None
                 case Some(c) => if c.before.sha256 == c.after.sha256 then None else Some(c))
  {
    var revised := Patch(changes, original).value;
    CompareAll(original, revised);
    if Diff(original, revised).Some? {
      DiffDescribes(original, revised);
    }
  }

  /** Without the file checks it does fail: a row that changes a size under an unchanged hash can be applied but
      not found again. */
  lemma RepairWithoutComparison()
    ensures var row := Change("a", Facts(1, "h"), Facts(2, "h"));
      Patch([row], [Pin("a", 1, "h")]) == Some([Pin("a", 2, "h")])
      && Diff([Pin("a", 1, "h")], [Pin("a", 2, "h")]).None?
  {
    var row := Change("a", Facts(1, "h"), Facts(2, "h"));
    var before, after := Pin("a", 1, "h"), Pin("a", 2, "h");
    assert PatchPin([row], before) == Some(after);
    assert Patch([row], [before]).value == [after];
    DiffFails([before], [after], 0);
  }

  /** The row a comparison gives back for an applied one. */
  function Effect(row: Option<Change>): Option<Change> {
    if row.Some? && row.value.before == row.value.after then None else row
  }

  /** Both files a row describes are there, so with a collision-free hash equal hashes mean equal facts. */
  lemma SameHashSameFacts(hash: seq<Byte> -> string, s: Store, changes: seq<Change>, pin: Pin)
    requires PinHolds(hash, s, changes, pin) && Lookup(changes, pin.path).Some?
    requires forall x, y :: hash(x) == hash(y) ==> x == y
    ensures var c := Lookup(changes, pin.path).value; c.before.sha256 == c.after.sha256 ==> c.before == c.after
  {}

  /** Patch and compare, for every repair the method accepts and a collision-free hash: the repaired inventory
      can be compared with the original, and the comparison holds, for each pinned path, the applied row unless
      that changed nothing, and no row for any other path. */
  lemma AcceptedRepairCompares(hash: seq<Byte> -> string, s: Store, changes: seq<Change>, original: seq<Pin>)
    requires Distinct(original) && AllHold(hash, s, changes, original)
    requires forall x, y :: hash(x) == hash(y) ==> x == y
    ensures Patch(changes, original).Some? && Diff(original, Patch(changes, original).value).Some?
    ensures forall path :: Lookup(Diff(original, Patch(changes, original).value).value, path)
                        == if path in Paths(original) then Effect(Lookup(changes, path)) else None
  {
    forall i | 0 <= i < |original|
      ensures PatchPin(changes, original[i]).Some?
      ensures Lookup(changes, original[i].path).Some? ==>
        var c := Lookup(changes, original[i].path).value; c.before.sha256 == c.after.sha256 ==> c.before == c.after
    {
      assert PinHolds(hash, s, changes, original[i]);
      if Lookup(changes, original[i].path).Some? {
        SameHashSameFacts(hash, s, changes, original[i]);
      }
    }
    PatchThenDiff(changes, original);
    var revised := Patch(changes, original).value;
    DiffDescribes(original, revised);
    forall path
      ensures Lookup(Diff(original, revised).value, path)
           == if path in Paths(original) then Effect(Lookup(changes, path)) else None
    {
      PathIndex(original, path);
    }
  }

  lemma {:induction false} CompareAll(original: seq<Pin>, revised: seq<Pin>)
    requires |original| == |revised|
    ensures Diff(original, revised).Some? <==>
      forall i :: 0 <= i < |original| ==> Compare(original[i], revised[i]).Some?
    decreases |original|
  {
    if original != [] {
      CompareAll(original[..|original| - 1], revised[..|original| - 1]);
    }
  }

  /** Two changes to one place in a row. */
  function Merge(first: Option<Change>, second: Option<Change>): Option<Change> {
    match (first, second)
    case (None, _) => second
    case (_, None) => first
    case (Some(a), Some(b)) =>
      if a.before.sha256 == b.after.sha256 then None else Some(Change(a.path, a.before, b.after))
  }

  lemma MergeDescribes(first: seq<Change>, second: seq<Change>, both: seq<Change>, original: seq<Pin>,
                       middle: seq<Pin>, revised: seq<Pin>, path: string)
    requires Describes(first, original, middle) && Describes(second, middle, revised)
    requires Describes(both, original, revised) && Paths(middle) == Paths(original)
    ensures Lookup(both, path) == Merge(Lookup(first, path), Lookup(second, path))
  {
    if path in Paths(original) {
      var i :| 0 <= i < |original| && original[i].path == path;
      assert Compare(original[i], middle[i]).Some? && Compare(middle[i], revised[i]).Some?;
      assert Lookup(both, path) == ChangeAt(original[i], revised[i]);
    } else {
      assert Lookup(first, path).None? && Lookup(second, path).None?;
    }
  }

  /** Successive repairs compose: the change list across two revisions holds, for each path, the merge of the
      two lists' rows. */
  lemma ChangesCompose(original: seq<Pin>, middle: seq<Pin>, revised: seq<Pin>)
    requires Distinct(original)
    requires Diff(original, middle).Some? && Diff(middle, revised).Some? && Diff(original, revised).Some?
    ensures forall path :: Lookup(Diff(original, revised).value, path)
                        == Merge(Lookup(Diff(original, middle).value, path), Lookup(Diff(middle, revised).value, path))
  {
    CompareAll(original, middle);
    SamePaths(original, middle);
    DiffDescribes(original, middle);
    DiffDescribes(middle, revised);
    DiffDescribes(original, revised);
    forall path
      ensures Lookup(Diff(original, revised).value, path)
           == Merge(Lookup(Diff(original, middle).value, path), Lookup(Diff(middle, revised).value, path))
    {
      MergeDescribes(Diff(original, middle).value, Diff(middle, revised).value, Diff(original, revised).value,
                     original, middle, revised, path);
    }
  }

  /** The list across both revisions exists exactly when no file has its first hash again at another size. */
  lemma AcrossBothIff(original: seq<Pin>, middle: seq<Pin>, revised: seq<Pin>)
    requires Diff(original, middle).Some? && Diff(middle, revised).Some?
    ensures |original| == |revised|
    ensures Diff(original, revised).Some? <==>
      forall i :: 0 <= i < |original| && original[i].sha256 == revised[i].sha256 ==>
        original[i].bytes == revised[i].bytes
  {
    DiffLengths(original, middle);
    DiffLengths(middle, revised);
    CompareAll(original, middle);
    CompareAll(middle, revised);
    PathAt(original, middle);
    PathAt(middle, revised);
    CompareAll(original, revised);
    forall i | 0 <= i < |original|
      ensures Compare(original[i], revised[i]).Some? <==>
        (original[i].sha256 == revised[i].sha256 ==> original[i].bytes == revised[i].bytes)
    {
      assert original[i].path == middle[i].path == revised[i].path;
    }
  }

  lemma DiffLengths(original: seq<Pin>, revised: seq<Pin>)
    requires Diff(original, revised).Some?
    ensures |original| == |revised|
  {}

  // ----- Repairs in turn -----

  /** A row of a second repair, made to start from where the first one started. */
  function Rebase(first: seq<Change>, row: Change): Change {
    match Lookup(first, row.path)
    case None => row
    case Some(c) => Change(row.path, c.before, row.after)
  }

  /** Two lists of rows as one: the first, then the second's rows from where the first ones started. */
  function InTurn(first: seq<Change>, second: seq<Change>): seq<Change> {
    if second == [] then first
    else InTurn(first, second[..|second| - 1]) + [Rebase(first, second[|second| - 1])]
  }

  lemma {:induction false} LookupInTurn(first: seq<Change>, second: seq<Change>, path: string)
    ensures Lookup(InTurn(first, second), path)
         == match Lookup(second, path)
            case None => Lookup(first, path)
            case Some(row) => Some(Rebase(first, row))
    decreases |second|
  {
    if second != [] {
      var front, row := second[..|second| - 1], second[|second| - 1];
      LookupInTurn(first, front, path);
      LookupLast(InTurn(first, front), [Rebase(first, row)], path);
    }
  }

  /** One pin through both repairs. */
  lemma PatchPinInTurn(first: seq<Change>, second: seq<Change>, pin: Pin)
    requires PatchPin(first, pin).Some? && PatchPin(second, PatchPin(first, pin).value).Some?
    ensures PatchPin(InTurn(first, second), pin) == PatchPin(second, PatchPin(first, pin).value)
  {
    LookupInTurn(first, second, pin.path);
  }

  /** Successive repairs compose, whatever lists they apply: the two lists in turn do in one repair what they do
      one after the other. */
  lemma RepairsCompose(first: seq<Change>, second: seq<Change>, original: seq<Pin>)
    requires Patch(first, original).Some? && Patch(second, Patch(first, original).value).Some?
    ensures Patch(InTurn(first, second), original) == Patch(second, Patch(first, original).value)
  {
    var middle := Patch(first, original).value;
    var revised := Patch(second, middle).value;
    forall i | 0 <= i < |original|
      ensures PatchPin(InTurn(first, second), original[i]) == Some(revised[i])
    {
      assert PatchPin(first, original[i]) == Some(middle[i]) && PatchPin(second, middle[i]) == Some(revised[i]);
      PatchPinInTurn(first, second, original[i]);
    }
    assert Patch(InTurn(first, second), original).value == revised;
  }

  lemma SamePaths(one: seq<Pin>, two: seq<Pin>)
    requires |one| == |two| && forall i :: 0 <= i < |one| ==> Compare(one[i], two[i]).Some?
    ensures Paths(one) == Paths(two) && (Distinct(one) ==> Distinct(two))
  {
    PathAt(one, two);
    forall path
      ensures path in Paths(one) <==> path in Paths(two)
    {
      PathIndex(one, path);
      PathIndex(two, path);
    }
  }

  lemma PathAt(one: seq<Pin>, two: seq<Pin>)
    requires |one| == |two| && forall i :: 0 <= i < |one| ==> Compare(one[i], two[i]).Some?
    ensures forall i :: 0 <= i < |one| ==> one[i].path == two[i].path
  {
    forall i | 0 <= i < |one|
      ensures one[i].path == two[i].path
    {
      assert Compare(one[i], two[i]).Some?;
    }
  }

  lemma PathIndex(pins: seq<Pin>, path: string)
    ensures path in Paths(pins) <==> exists i :: 0 <= i < |pins| && pins[i].path == path
  {
    if i :| 0 <= i < |pins| && pins[i].path == path {
      assert pins[i] in pins;
    }
  }
}
