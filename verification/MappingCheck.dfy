/** The acceptance-mapping check: a table of rows against the leaves of a manifest. */
module MappingCheck {
  import opened Counting
  import opened Wrappers
  import opened JsonText
  import opened JsonLeaves

  datatype Row = Row(pointer: string, value: Json, disposition: string, explanation: string)

  predicate Explained(r: Row) {
    |r.disposition| > 0 && |r.explanation| > 0
  }

  function RowKey(r: Row): string { r.pointer }

  /** What `new Map(rows by pointer)` holds: the last row for a pointer. */
  function RowFor(rows: seq<Row>, pointer: string): (r: Option<Row>)
    ensures r.Some? ==> r.value in rows && r.value.pointer == pointer
    ensures r.None? <==> forall row :: row in rows ==> row.pointer != pointer
  {
    LastWith(rows, RowKey, pointer)
  }

  function PointerSet(rows: seq<Row>): set<string> {
    KeySet(rows, RowKey)
  }

  predicate Covers(rows: seq<Row>, leaf: Leaf) {
    match RowFor(rows, leaf.pointer)
    case None => false
    case Some(row) => row.value == leaf.value && Explained(row)
  }

  /** What the check looks at: two counts, and one row for every leaf. */
  ghost predicate Passes(rows: seq<Row>, leaves: seq<Leaf>) {
    && |PointerSet(rows)| == |leaves| && |rows| == |leaves|
    && forall i :: 0 <= i < |leaves| ==> Covers(rows, leaves[i])
  }

  function AsLeaves(rows: seq<Row>): (leaves: seq<Leaf>)
    ensures |leaves| == |rows| && forall i :: 0 <= i < |rows| ==> leaves[i] == Leaf(rows[i].pointer, rows[i].value)
  {
    seq(|rows|, i requires 0 <= i < |rows| => Leaf(rows[i].pointer, rows[i].value))
  }

  // ----- The check decides a bijection -----

  ghost predicate DistinctRows(rows: seq<Row>) {
    DistinctBy(rows, RowKey)
  }

  lemma PassesMeansPermutation(rows: seq<Row>, leaves: seq<Leaf>)
    requires DistinctPointers(leaves) && Passes(rows, leaves)
    ensures multiset(AsLeaves(rows)) == multiset(leaves) && forall i :: 0 <= i < |rows| ==> Explained(rows[i])
  {
    CountKeys(rows, RowKey);
    forall x | x in leaves
      ensures x in AsLeaves(rows)
    {
      var i :| 0 <= i < |leaves| && leaves[i] == x;
      assert Covers(rows, leaves[i]);
      var row := RowFor(rows, x.pointer).value;
      var j :| 0 <= j < |rows| && rows[j] == row;
      assert AsLeaves(rows)[j] == x;
    }
    SameLengthInside(leaves, AsLeaves(rows));
    forall j | 0 <= j < |rows|
      ensures Explained(rows[j])
    {
      var x := AsLeaves(rows)[j];
      assert x in multiset(leaves);
      var i :| 0 <= i < |leaves| && leaves[i] == x;
      assert Covers(rows, leaves[i]);
      LastWithDistinct(rows, RowKey, j);
    }
  }

  lemma PermutationPasses(rows: seq<Row>, leaves: seq<Leaf>)
    requires DistinctPointers(leaves) && multiset(AsLeaves(rows)) == multiset(leaves)
    requires forall i :: 0 <= i < |rows| ==> Explained(rows[i])
    ensures Passes(rows, leaves)
  {
    assert |rows| == |multiset(AsLeaves(rows))| == |multiset(leaves)| == |leaves|;
    PermutedRowsAreDistinct(rows, leaves);
    CountKeys(rows, RowKey);
    forall i | 0 <= i < |leaves|
      ensures Covers(rows, leaves[i])
    {
      assert leaves[i] in multiset(AsLeaves(rows));
      var j :| 0 <= j < |rows| && AsLeaves(rows)[j] == leaves[i];
      LastWithDistinct(rows, RowKey, j);
    }
  }

  lemma PermutedRowsAreDistinct(rows: seq<Row>, leaves: seq<Leaf>)
    requires DistinctPointers(leaves) && multiset(AsLeaves(rows)) == multiset(leaves)
    ensures DistinctRows(rows)
  {
    var rowLeaves := AsLeaves(rows);
    forall i, j | 0 <= i < j < |rows|
      ensures rows[i].pointer != rows[j].pointer
    {
      if rows[i].pointer == rows[j].pointer {
        assert rowLeaves[i] in multiset(leaves) && rowLeaves[j] in multiset(leaves);
        var k :| 0 <= k < |leaves| && leaves[k] == rowLeaves[i];
        var l :| 0 <= l < |leaves| && leaves[l] == rowLeaves[j];
        assert k == l;
        assert rowLeaves[i] == rowLeaves[j];
        TwiceInside(rowLeaves, i, j);
        CountOnce(leaves, rowLeaves[i]);
      }
    }
  }

  /** The map stands for the rows it was built from. */
  ghost predicate Indexes(mapped: map<string, Row>, rows: seq<Row>) {
    mapped.Keys == PointerSet(rows) && forall p :: p in mapped ==> RowFor(rows, p) == Some(mapped[p])
  }

  lemma IndexStep(mapped: map<string, Row>, rows: seq<Row>, r: Row)
    requires Indexes(mapped, rows)
    ensures Indexes(mapped[r.pointer := r], rows + [r])
  {
    KeySetNext(rows, r, RowKey);
    forall p
      ensures RowFor(rows + [r], p) == if r.pointer == p then Some(r) else RowFor(rows, p)
    {
      LastWithNext(rows, r, RowKey, p);
    }
  }

  method IndexRows(rows: seq<Row>) returns (mapped: map<string, Row>)
    ensures Indexes(mapped, rows)
  {
    mapped := map[];
    for i := 0 to |rows|
      invariant Indexes(mapped, rows[..i])
    {
      IndexStep(mapped, rows[..i], rows[i]);
      assert rows[..i + 1] == rows[..i] + [rows[i]];
      mapped := mapped[rows[i].pointer := rows[i]];
    }
    assert rows[..|rows|] == rows;
  }

  lemma IndexCovers(mapped: map<string, Row>, rows: seq<Row>, leaf: Leaf)
    requires Indexes(mapped, rows)
    ensures Covers(rows, leaf) <==>
      leaf.pointer in mapped && mapped[leaf.pointer].value == leaf.value && Explained(mapped[leaf.pointer])
  {
    if leaf.pointer !in mapped {
      assert forall r :: r in rows ==> r.pointer in PointerSet(rows);
    }
  }

  /** The counts and the loop over the leaves. */
  method CheckRows(rows: seq<Row>, leaves: seq<Leaf>) returns (accepted: bool)
    ensures accepted <==> Passes(rows, leaves)
  {
    var mapped := IndexRows(rows);
    if |mapped.Keys| != |leaves| || |rows| != |leaves| {
      return false;
    }
    for i := 0 to |leaves|
      invariant forall j :: 0 <= j < i ==> Covers(rows, leaves[j])
    {
      var pointer := leaves[i].pointer;
      IndexCovers(mapped, rows, leaves[i]);
      if pointer !in mapped || mapped[pointer].value != leaves[i].value || !Explained(mapped[pointer]) {
        return false;
      }
    }
    accepted := true;
  }

  ghost predicate AllExplained(rows: seq<Row>) {
    forall i :: 0 <= i < |rows| ==> Explained(rows[i])
  }

  /** The audit's check of the mapping against a manifest. It accepts exactly when the rows, as pairs of
      pointer and value, are a permutation of the manifest's leaves and every row is explained: no leaf is
      missing, no row is stray, none is duplicated. */
  method CheckMapping(rows: seq<Row>, manifest: Json) returns (accepted: bool)
    requires UniqueKeys(manifest)
    ensures accepted <==>
      && multiset(AsLeaves(rows)) == multiset(Leaves(manifest, ""))
      && forall i :: 0 <= i < |rows| ==> rows[i].disposition != "" && rows[i].explanation != ""
  {
    var leaves := Leaves(manifest, "");
    accepted := CheckRows(rows, leaves);
    PointersAreDistinct(manifest);
    if accepted {
      PassesMeansPermutation(rows, leaves);
    } else if multiset(AsLeaves(rows)) == multiset(leaves) && AllExplained(rows) {
      PermutationPasses(rows, leaves);
    }
  }
}
