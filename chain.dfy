/**
 * The version chain of a logical entity: all rows sharing a model id. This
 * module states the invariants a versioned table keeps and the facts about
 * them that the save algorithms rely on.
 */
module Chain {
  import opened Database

  /** Some row carries model id `mid`. */
  ghost predicate HasModel(rows: seq<Row>, mid: Value)
  {
    exists i :: 0 <= i < |rows| && rows[i].modelId == mid
  }

  /** The number of current rows carrying model id `mid`. */
  function CurrentCount(rows: seq<Row>, mid: Value): (n: nat)
    ensures n <= |rows|
  {
    if rows == [] then 0
    else CurrentCount(rows[..|rows| - 1], mid) + (if rows[|rows| - 1].modelId == mid && rows[|rows| - 1].isCurrent then 1 else 0)
  }

  /** Exactly one current row for every model id in the table. */
  ghost predicate OneCurrentEach(rows: seq<Row>)
  {
    forall mid {:trigger HasModel(rows, mid)} :: HasModel(rows, mid) ==> CurrentCount(rows, mid) == 1
  }

  ghost predicate VersionsPositive(rows: seq<Row>)
  {
    forall i :: 0 <= i < |rows| ==> rows[i].version >= 1
  }

  /** The invariant every save path keeps. */
  ghost predicate WellFormed(rows: seq<Row>)
  {
    OneCurrentEach(rows) && VersionsPositive(rows)
  }

  /**
   * Model ids mirror primary keys (the strategy of the Versioned trait):
   * every model id is the key of a row inserted earlier.
   */
  ghost predicate MirroredIds(rows: seq<Row>, nextId: nat)
  {
    forall i :: 0 <= i < |rows| ==> rows[i].modelId.Int? && 0 <= rows[i].modelId.i < nextId
  }

  /** Within one model id no version number occurs twice. */
  ghost predicate UniqueVersions(rows: seq<Row>)
  {
    forall i, j ::
      0 <= i < |rows| && 0 <= j < |rows| && rows[i].modelId == rows[j].modelId && rows[i].version == rows[j].version
      ==> i == j
  }

  /** The current row of a model id carries its highest version. */
  ghost predicate CurrentIsLatest(rows: seq<Row>)
  {
    forall i, j ::
      0 <= i < |rows| && 0 <= j < |rows| && rows[i].modelId == rows[j].modelId && rows[i].isCurrent
      ==> rows[j].version <= rows[i].version
  }

  /** The shape version navigation relies on. */
  ghost predicate Linear(rows: seq<Row>)
  {
    UniqueVersions(rows) && CurrentIsLatest(rows)
  }

  /** Some row of model id `mid` carries version `v`. */
  ghost predicate HasVersion(rows: seq<Row>, mid: Value, v: int)
  {
    exists i :: 0 <= i < |rows| && rows[i].modelId == mid && rows[i].version == v
  }

  /** Version `v` of `mid` is the first one, or the version before it is stored. */
  ghost predicate Preceded(rows: seq<Row>, mid: Value, v: int)
  {
    v == 1 || HasVersion(rows, mid, v - 1)
  }

  /** No gaps: below every stored version of a model id, the one before it is stored too. */
  ghost predicate Contiguous(rows: seq<Row>)
  {
    forall i {:trigger Preceded(rows, rows[i].modelId, rows[i].version)} ::
      0 <= i < |rows| ==> Preceded(rows, rows[i].modelId, rows[i].version)
  }

  /** Without gaps, every version from 1 up to a stored one is stored. */
  lemma {:induction false} ContiguousDownTo(rows: seq<Row>, i: nat, v: int)
    requires Contiguous(rows) && i < |rows| && 1 <= v <= rows[i].version
    ensures HasVersion(rows, rows[i].modelId, v)
    decreases rows[i].version - v
  {
    if v < rows[i].version {
      assert Preceded(rows, rows[i].modelId, rows[i].version);
      var j :| 0 <= j < |rows| && rows[j].modelId == rows[i].modelId && rows[j].version == rows[i].version - 1;
      ContiguousDownTo(rows, j, v);
    } else {
      assert rows[i].modelId == rows[i].modelId && rows[i].version == v;
    }
  }

  /** Appending a row keeps every stored version, and keeps the table without gaps when the row's version is preceded. */
  lemma ContiguousAppend(rows: seq<Row>, x: Row)
    requires Contiguous(rows) && Preceded(rows, x.modelId, x.version)
    ensures Contiguous(rows + [x])
    ensures forall mid, v :: HasVersion(rows, mid, v) ==> HasVersion(rows + [x], mid, v)
  {
    var r := rows + [x];
    forall mid, v | HasVersion(rows, mid, v) ensures HasVersion(r, mid, v) {
      var p :| 0 <= p < |rows| && rows[p].modelId == mid && rows[p].version == v;
      assert r[p] == rows[p];
    }
    forall i | 0 <= i < |r| ensures Preceded(r, r[i].modelId, r[i].version) {
      if i < |rows| {
        assert r[i] == rows[i];
        assert Preceded(rows, rows[i].modelId, rows[i].version);
      }
    }
  }

  lemma CurrentCountAppend(rows: seq<Row>, r: Row, mid: Value)
    ensures CurrentCount(rows + [r], mid) == CurrentCount(rows, mid) + (if r.modelId == mid && r.isCurrent then 1 else 0)
  {
    assert (rows + [r])[..|rows|] == rows;
  }

  /** A model id absent from the table has no current row. */
  lemma {:induction false} CurrentCountAbsent(rows: seq<Row>, mid: Value)
    requires !HasModel(rows, mid)
    ensures CurrentCount(rows, mid) == 0
  {
    if rows != [] {
      var init := rows[..|rows| - 1];
      assert !HasModel(init, mid) by {
        forall i | 0 <= i < |init| ensures init[i].modelId != mid {
          assert init[i] == rows[i];
        }
      }
      CurrentCountAbsent(init, mid);
    }
  }

  /** A current row is counted for its own model id. */
  lemma {:induction false} CurrentCountHit(rows: seq<Row>, k: nat)
    requires k < |rows| && rows[k].isCurrent
    ensures CurrentCount(rows, rows[k].modelId) >= 1
  {
    if k < |rows| - 1 {
      var init := rows[..|rows| - 1];
      assert init[k] == rows[k];
      CurrentCountHit(init, k);
    }
  }

  /** Two current rows of one model id make the count at least two. */
  lemma {:induction false} CurrentCountTwo(rows: seq<Row>, j: nat, k: nat)
    requires j < k < |rows| && rows[j].isCurrent && rows[k].isCurrent
    requires rows[j].modelId == rows[k].modelId
    ensures CurrentCount(rows, rows[k].modelId) >= 2
  {
    var init := rows[..|rows| - 1];
    if k < |rows| - 1 {
      assert init[k] == rows[k] && init[j] == rows[j];
      CurrentCountTwo(init, j, k);
    } else {
      assert init[j] == rows[j];
      CurrentCountHit(init, j);
    }
  }

  /** The count over two rows. */
  lemma CurrentCountPair(x: Row, y: Row, mid: Value)
    ensures CurrentCount([x, y], mid) == (if x.modelId == mid && x.isCurrent then 1 else 0) + (if y.modelId == mid && y.isCurrent then 1 else 0)
  {
    assert [x, y][..1] == [x];
    assert [x][..0] == [];
  }

  /** Under the invariant, a current row is the only current row of its model id. */
  lemma OnlyCurrent(rows: seq<Row>, j: nat, k: nat)
    requires OneCurrentEach(rows)
    requires j < |rows| && k < |rows| && rows[j].isCurrent && rows[k].isCurrent
    requires rows[j].modelId == rows[k].modelId
    ensures j == k
  {
    assert HasModel(rows, rows[k].modelId);
    if j < k {
      CurrentCountTwo(rows, j, k);
    } else if k < j {
      CurrentCountTwo(rows, k, j);
    }
  }

  /** The count depends only on the model ids and current flags of the rows. */
  lemma {:induction false} CurrentCountFlagsOnly(rows: seq<Row>, rows': seq<Row>, mid: Value)
    requires |rows| == |rows'|
    requires forall i :: 0 <= i < |rows| ==> rows[i].modelId == rows'[i].modelId && rows[i].isCurrent == rows'[i].isCurrent
    ensures CurrentCount(rows, mid) == CurrentCount(rows', mid)
  {
    if rows != [] {
      var n := |rows| - 1;
      CurrentCountFlagsOnly(rows[..n], rows'[..n], mid);
    }
  }

  /** The highest version stored for `mid`; None when the model id is absent. */
  function MaxVersion(rows: seq<Row>, mid: Value): (m: Option<int>)
    ensures m.None? <==> !HasModel(rows, mid)
    ensures m.Some? ==> exists i :: 0 <= i < |rows| && rows[i].modelId == mid && rows[i].version == m.value
    ensures forall i :: 0 <= i < |rows| && rows[i].modelId == mid ==> m.Some? && rows[i].version <= m.value
  {
    if rows == [] then None
    else
      var init := rows[..|rows| - 1];
      var last := rows[|rows| - 1];
      var m := MaxVersion(init, mid);
      assert forall i :: 0 <= i < |init| ==> init[i] == rows[i];
      if last.modelId != mid then m
      else if m.Some? && last.version <= m.value then m
      else Some(last.version)
  }
}
