/**
 * The Versioned trait: the copy-on-write save of a versioned model (model id
 * mirrors the primary key), the in-place minor save, the keys an update is
 * restricted to, the next-version computation, navigation between versions
 * and the serialisation filter that hides bookkeeping columns.
 */
module Versioned {
  import opened Columns
  import opened Database
  import opened Eloquent
  import opened Chain

  // ---------------------------------------------------------------------
  // Serialisation filter
  // ---------------------------------------------------------------------

  /** The keys to hide: the caller's keys followed by the current flag and the model id. */
  function HideVersioned(toHide: seq<string>): (r: seq<string>)
    ensures forall k :: k in r <==> k in toHide || k == IsCurrentVersionColumn || k == ModelIdColumn
    ensures |r| == |toHide| + 2 && r[..|toHide|] == toHide
    ensures r[|toHide|] == IsCurrentVersionColumn && r[|toHide| + 1] == ModelIdColumn
  {
    toHide + [IsCurrentVersionColumn, ModelIdColumn]
  }

  /**
   * `attributesToArray`: every attribute of an unversioned or non-current
   * model (an unsaved model has no flag, which reads as 0); otherwise every
   * attribute except the hidden keys, values unchanged.
   */
  method AttributesToArray(m: Record, toHide: seq<string>) returns (r: map<string, Value>)
    ensures !m.isVersioned || !m.persisted || !m.isCurrent ==> r == m.AllAttributes()
    ensures m.isVersioned && m.persisted && m.isCurrent ==>
      forall k :: k in r <==> k in m.AllAttributes() && k !in toHide && k != IsCurrentVersionColumn && k != ModelIdColumn
    ensures forall k :: k in r ==> k in m.AllAttributes() && r[k] == m.AllAttributes()[k]
  {
    var parent := m.AllAttributes();
    if !m.isVersioned || !m.persisted || !m.isCurrent {
      return parent;
    }
    var hidden := HideVersioned(toHide);
    r := map[];
    var todo := parent.Keys;
    while todo != {}
      invariant todo <= parent.Keys
      invariant forall k :: k in r <==> k in parent && k !in todo && k !in hidden
      invariant forall k :: k in r ==> r[k] == parent[k]
      decreases todo
    {
      var k :| k in todo;
      if k !in hidden {
        r := r[k := parent[k]];
      }
      todo := todo - {k};
    }
  }

  // ---------------------------------------------------------------------
  // Keys of the save query
  // ---------------------------------------------------------------------

  /** The clauses `setKeysForSaveQuery` adds: the primary key and the current flag. */
  function SaveKeys(table: string, key: nat): seq<WhereClause>
  {
    [Basic(KeyColumn, Int(key)), Basic(Qualified(table, IsCurrentVersionColumn), Int(1))]
  }

  /** `setKeysForSaveQuery`. */
  method SetKeysForSaveQuery(query: Query, table: string, key: nat)
    modifies query
    ensures query.wheres == old(query.wheres) + SaveKeys(table, key)
    ensures query.bindings == old(query.bindings) + [Int(key), Int(1)]
    ensures query.orders == old(query.orders)
  {
    query.Where(KeyColumn, Int(key));
    query.Where(Qualified(table, IsCurrentVersionColumn), Int(1));
  }

  /** An update keyed by the save keys reaches exactly the current row with that key. */
  lemma SaveKeysSelectCurrentRow(table: string, row: Row, key: nat)
    ensures Satisfies(table, row, SaveKeys(table, key)) <==> row.id == key && row.isCurrent
  {
    var ws := SaveKeys(table, key);
    if |KeyColumn| > |table| {
      assert KeyColumn[|table|] != (table + ".")[|table|];
      assert KeyColumn[..|table| + 1] != table + ".";
    }
    assert Unqualified(table, KeyColumn) == KeyColumn;
    assert Holds(table, row, ws[0]) <==> row.id == key;
    QualifiedRoundTrip(table, IsCurrentVersionColumn);
    assert Holds(table, row, ws[1]) <==> row.isCurrent;
  }

  // ---------------------------------------------------------------------
  // Next version
  // ---------------------------------------------------------------------

  /** `getNextVersion`: the highest stored version of the model id plus one (1 when none). */
  function NextVersion(rows: seq<Row>, mid: Value): (v: int)
    ensures forall i :: 0 <= i < |rows| && rows[i].modelId == mid ==> rows[i].version < v
    ensures !HasModel(rows, mid) ==> v == 1
    ensures HasModel(rows, mid) ==> exists i :: 0 <= i < |rows| && rows[i].modelId == mid && rows[i].version == v - 1
  {
    var max := MaxVersion(rows, mid);
    if max.None? then 1 else max.value + 1
  }

  /** With positive versions the next version is positive too. */
  lemma NextVersionPositive(rows: seq<Row>, mid: Value)
    requires VersionsPositive(rows)
    ensures NextVersion(rows, mid) >= 1
  {
    if HasModel(rows, mid) {
      var i :| 0 <= i < |rows| && rows[i].modelId == mid && rows[i].version == NextVersion(rows, mid) - 1;
    }
  }

  // ---------------------------------------------------------------------
  // Save: the table after each path
  // ---------------------------------------------------------------------

  /** The row a create inserts: version 1 and current (the column defaults). */
  function Created(rows: seq<Row>, nextId: nat, mid: Value, attributes: Attributes): (r: seq<Row>)
    ensures |r| == |rows| + 1 && r[..|rows|] == rows
    ensures r[|rows|] == Row(nextId, mid, 1, true, attributes)
  {
    rows + [Row(nextId, mid, 1, true, attributes)]
  }

  /**
   * The archive copy of a model about to be versioned: the original values
   * over a replica of the model, under a fresh key, not current, keeping
   * the model id and the version being replaced.
   */
  function Archive(current: Row, original: Attributes, id: nat): (a: Row)
    ensures a.id == id && !a.isCurrent
    ensures a.modelId == current.modelId && a.version == current.version
    ensures a.payload == current.payload + original
  {
    Row(id, current.modelId, current.version, false, current.payload + original)
  }

  /**
   * The table after the versioning transaction of a dirty model: the archive
   * is inserted; then, unless the `updating` event vetoes, the current row
   * with the model's key gets the next version and the dirty columns.
   */
  function SaveVersionRows(table: string, rows: seq<Row>, nextId: nat, current: Row, original: Attributes, updatingOk: bool): seq<Row>
  {
    var archived := rows + [Archive(current, original, nextId)];
    if !updatingOk then archived
    else
      UpdateWhere(table, archived, SaveKeys(table, current.id),
                  Assignment(None, Some(NextVersion(archived, current.modelId)), Dirty(current.payload, original)))
  }

  /** The table after a minor save of a stored model: the dirty columns in place. */
  function MinorRows(table: string, rows: seq<Row>, key: nat, dirty: Attributes, updatingOk: bool): seq<Row>
  {
    if dirty == map[] || !updatingOk then rows
    else UpdateWhere(table, rows, SaveKeys(table, key), Assignment(None, None, dirty))
  }

  // ---------------------------------------------------------------------
  // Save: what each path keeps
  // ---------------------------------------------------------------------

  /** Creating an entity with an unused model id keeps the invariants and starts its chain. */
  lemma CreateKeepsChain(rows: seq<Row>, nextId: nat, mid: Value, attributes: Attributes)
    requires WellFormed(rows) && !HasModel(rows, mid)
    ensures WellFormed(Created(rows, nextId, mid, attributes))
    ensures CurrentCount(Created(rows, nextId, mid, attributes), mid) == 1
    ensures Linear(rows) ==> Linear(Created(rows, nextId, mid, attributes))
  {
    var r := Created(rows, nextId, mid, attributes);
    var row := Row(nextId, mid, 1, true, attributes);
    assert r == rows + [row];
    forall mid' | HasModel(r, mid') ensures CurrentCount(r, mid') == 1 {
      CurrentCountAppend(rows, row, mid');
      if mid' == mid {
        CurrentCountAbsent(rows, mid);
      } else {
        var i :| 0 <= i < |r| && r[i].modelId == mid';
        assert HasModel(rows, mid') by { assert rows[i] == r[i]; }
      }
    }
  }

  /** Under the mirror strategy the new key is an unused model id, and ids stay mirrored. */
  lemma MirroredCreate(rows: seq<Row>, nextId: nat, attributes: Attributes)
    requires MirroredIds(rows, nextId)
    ensures !HasModel(rows, Int(nextId))
    ensures MirroredIds(Created(rows, nextId, Int(nextId), attributes), nextId + 1)
    ensures Stored(Created(rows, nextId, Int(nextId), attributes), nextId, Int(nextId))
  {
    assert Created(rows, nextId, Int(nextId), attributes)[|rows|].id == nextId;
  }

  /** A dirty save adds exactly one row, the archive, and moves no key, model id or flag. */
  lemma SaveVersionAppendsArchive(table: string, rows: seq<Row>, nextId: nat, current: Row, original: Attributes, updatingOk: bool)
    ensures |SaveVersionRows(table, rows, nextId, current, original, updatingOk)| == |rows| + 1
    ensures SaveVersionRows(table, rows, nextId, current, original, updatingOk)[|rows|] == Archive(current, original, nextId)
    ensures forall i :: 0 <= i < |rows| ==>
      && SaveVersionRows(table, rows, nextId, current, original, updatingOk)[i].id == rows[i].id
      && SaveVersionRows(table, rows, nextId, current, original, updatingOk)[i].modelId == rows[i].modelId
      && SaveVersionRows(table, rows, nextId, current, original, updatingOk)[i].isCurrent == rows[i].isCurrent
  {
    var archive := Archive(current, original, nextId);
    SaveKeysSelectCurrentRow(table, archive, current.id);
  }

  /** A dirty save keeps one current row per model id and positive versions. */
  lemma SaveVersionKeepsWellFormed(table: string, rows: seq<Row>, nextId: nat, current: Row, original: Attributes, updatingOk: bool)
    requires WellFormed(rows) && HasModel(rows, current.modelId) && current.version >= 1
    ensures WellFormed(SaveVersionRows(table, rows, nextId, current, original, updatingOk))
  {
    var archive := Archive(current, original, nextId);
    var archived := rows + [archive];
    var r := SaveVersionRows(table, rows, nextId, current, original, updatingOk);
    SaveVersionAppendsArchive(table, rows, nextId, current, original, updatingOk);
    assert forall i :: 0 <= i < |rows| ==> archived[i] == rows[i];
    forall mid | HasModel(r, mid) ensures CurrentCount(r, mid) == 1 {
      CurrentCountFlagsOnly(r, archived, mid);
      CurrentCountAppend(rows, archive, mid);
      var i :| 0 <= i < |r| && r[i].modelId == mid;
      if i < |rows| {
        assert HasModel(rows, mid) by { assert rows[i].modelId == mid; }
      }
    }
    assert VersionsPositive(archived);
    NextVersionPositive(archived, current.modelId);
  }

  /**
   * When the update goes through, the model's current row, and no other row,
   * gets the next version (above every stored version of its model id) and
   * the dirty columns.
   */
  lemma SaveVersionBumpsCurrent(table: string, rows: seq<Row>, nextId: nat, current: Row, original: Attributes, k: nat)
    requires UniqueKeys(rows)
    requires k < |rows| && rows[k].id == current.id && rows[k].isCurrent && rows[k].modelId == current.modelId
    ensures |SaveVersionRows(table, rows, nextId, current, original, true)| == |rows| + 1
    ensures SaveVersionRows(table, rows, nextId, current, original, true)[k]
      == rows[k].(version := SaveVersionRows(table, rows, nextId, current, original, true)[k].version,
                  payload := rows[k].payload + Dirty(current.payload, original))
    ensures forall j :: 0 <= j < |rows| && rows[j].modelId == current.modelId ==>
      rows[j].version < SaveVersionRows(table, rows, nextId, current, original, true)[k].version
    ensures current.version < SaveVersionRows(table, rows, nextId, current, original, true)[k].version
    ensures forall j :: 0 <= j < |rows| && j != k ==> SaveVersionRows(table, rows, nextId, current, original, true)[j] == rows[j]
  {
    var archive := Archive(current, original, nextId);
    var archived := rows + [archive];
    var r := SaveVersionRows(table, rows, nextId, current, original, true);
    SaveKeysSelectCurrentRow(table, rows[k], current.id);
    assert archived[k] == rows[k];
    assert r[k].version == NextVersion(archived, current.modelId);
    assert archived[|rows|].modelId == current.modelId;
    forall j | 0 <= j < |rows| && j != k ensures r[j] == rows[j] {
      assert archived[j] == rows[j];
      SaveKeysSelectCurrentRow(table, rows[j], current.id);
    }
  }

  /**
   * Raising the current row of one model id by one version and appending a
   * non-current copy of its old version keeps versions unique with the
   * current row the latest.
   */
  lemma BumpKeepsLinear(rows: seq<Row>, r: seq<Row>, k: nat)
    requires OneCurrentEach(rows) && Linear(rows)
    requires k < |rows| && rows[k].isCurrent && |r| == |rows| + 1
    requires forall j :: 0 <= j < |rows| && j != k ==> r[j] == rows[j]
    requires r[k].modelId == rows[k].modelId && r[k].isCurrent && r[k].version == rows[k].version + 1
    requires r[|rows|].modelId == rows[k].modelId && r[|rows|].version == rows[k].version && !r[|rows|].isCurrent
    ensures Linear(r)
  {
    var mid := rows[k].modelId;
    forall i, j | 0 <= i < |r| && 0 <= j < |r| && r[i].modelId == r[j].modelId && r[i].version == r[j].version
      ensures i == j
    {
    }
    forall i, j | 0 <= i < |r| && 0 <= j < |r| && r[i].modelId == r[j].modelId && r[i].isCurrent
      ensures r[j].version <= r[i].version
    {
      if r[i].modelId == mid {
        OnlyCurrent(rows, i, k);
      }
    }
  }

  /**
   * A dirty save of the current row, when the update goes through, keeps
   * versions unique per model id with the current row the latest.
   */
  lemma SaveVersionKeepsLinear(table: string, rows: seq<Row>, nextId: nat, current: Row, original: Attributes, k: nat)
    requires OneCurrentEach(rows) && Linear(rows) && UniqueKeys(rows)
    requires k < |rows| && rows[k].id == current.id && rows[k].isCurrent
    requires rows[k].modelId == current.modelId && rows[k].version == current.version
    ensures Linear(SaveVersionRows(table, rows, nextId, current, original, true))
  {
    var mid := current.modelId;
    var archived := rows + [Archive(current, original, nextId)];
    var r := SaveVersionRows(table, rows, nextId, current, original, true);
    SaveVersionBumpsCurrent(table, rows, nextId, current, original, k);
    SaveVersionAppendsArchive(table, rows, nextId, current, original, true);
    assert r[k].version == current.version + 1 by {
      var i :| 0 <= i < |archived| && archived[i].modelId == mid && archived[i].version == r[k].version - 1;
      if i < |rows| {
        assert archived[i] == rows[i];
      }
    }
    BumpKeepsLinear(rows, r, k);
  }

  /**
   * An `updating` veto does not undo the archive insert: the archive and the
   * untouched current row then carry the same model id and version.
   */
  lemma VetoedUpdateKeepsArchive(table: string, rows: seq<Row>, nextId: nat, current: Row, original: Attributes, k: nat)
    requires k < |rows| && rows[k].modelId == current.modelId && rows[k].version == current.version
    ensures SaveVersionRows(table, rows, nextId, current, original, false) == rows + [Archive(current, original, nextId)]
    ensures !UniqueVersions(SaveVersionRows(table, rows, nextId, current, original, false))
  {
    var r := SaveVersionRows(table, rows, nextId, current, original, false);
    assert r[k] == rows[k] && r[|rows|].version == current.version;
  }

  /** A minor save adds no row and leaves keys, model ids, versions and flags alone. */
  lemma MinorSaveInPlace(table: string, rows: seq<Row>, key: nat, dirty: Attributes, updatingOk: bool)
    ensures |MinorRows(table, rows, key, dirty, updatingOk)| == |rows|
    ensures forall i :: 0 <= i < |rows| ==>
      && MinorRows(table, rows, key, dirty, updatingOk)[i].id == rows[i].id
      && MinorRows(table, rows, key, dirty, updatingOk)[i].modelId == rows[i].modelId
      && MinorRows(table, rows, key, dirty, updatingOk)[i].version == rows[i].version
      && MinorRows(table, rows, key, dirty, updatingOk)[i].isCurrent == rows[i].isCurrent
    ensures WellFormed(rows) ==> WellFormed(MinorRows(table, rows, key, dirty, updatingOk))
    ensures Linear(rows) ==> Linear(MinorRows(table, rows, key, dirty, updatingOk))
  {
    var r := MinorRows(table, rows, key, dirty, updatingOk);
    forall mid | HasModel(r, mid) ensures HasModel(rows, mid) && CurrentCount(r, mid) == CurrentCount(rows, mid) {
      CurrentCountFlagsOnly(r, rows, mid);
      var i :| 0 <= i < |r| && r[i].modelId == mid;
      assert rows[i].modelId == mid;
    }
  }

  /**
   * The create path of `save`, an insert followed by an update setting the
   * model id to the new key, leaves the table as if the row had been
   * inserted with its model id already set.
   */
  lemma CreateThenMirror(table: string, rows: seq<Row>, id: nat, mid: Value, attributes: Attributes, original: Attributes)
    requires KeysBelow(rows, id)
    ensures UpdateWhere(table, rows + [Row(id, mid, 1, true, attributes)], SaveKeys(table, id),
                        Assignment(Some(Int(id)), None, Dirty(attributes, original)))
            == Created(rows, id, Int(id), attributes)
  {
    var inserted := rows + [Row(id, mid, 1, true, attributes)];
    var r := UpdateWhere(table, inserted, SaveKeys(table, id), Assignment(Some(Int(id)), None, Dirty(attributes, original)));
    DirtyAbsorbed(attributes, original);
    forall i | 0 <= i < |rows| ensures r[i] == rows[i] {
      assert inserted[i] == rows[i];
      SaveKeysSelectCurrentRow(table, rows[i], id);
    }
    SaveKeysSelectCurrentRow(table, inserted[|rows|], id);
  }

  /**
   * The first edit of a fresh entity with the same payload columns: the
   * edited row keeps key 1, is current, has version 2 and the new values; the
   * archive under key 2 holds version 1 and the old values, not current. One
   * row is current, two rows are stored.
   */
  lemma EditAfterCreate(table: string, before: Attributes, after: Attributes)
    requires before.Keys == after.Keys
    ensures
      var r := SaveVersionRows(table, Created([], 1, Int(1), before), 2, Row(1, Int(1), 1, true, after), before, true);
      && |r| == 2
      && r[0] == Row(1, Int(1), 2, true, after)
      && r[1] == Row(2, Int(1), 1, false, before)
      && CurrentCount(r, Int(1)) == 1
  {
    var rows := [Row(1, Int(1), 1, true, before)];
    var current := Row(1, Int(1), 1, true, after);
    assert Created([], 1, Int(1), before) == rows;
    SaveVersionBumpsCurrent(table, rows, 2, current, before, 0);
    SaveVersionAppendsArchive(table, rows, 2, current, before, true);
    NextVersionOfPair(rows[0], Archive(current, before, 2));
    DirtyOverSameColumns(before, after);
    var r := SaveVersionRows(table, rows, 2, current, before, true);
    assert r == [r[0], r[1]];
    CurrentCountPair(r[0], r[1], Int(1));
  }

  /** Two rows of one model id at version 1: the next version is 2. */
  lemma NextVersionOfPair(x: Row, y: Row)
    requires x.modelId == y.modelId && x.version == 1 && y.version == 1
    ensures NextVersion([x, y], x.modelId) == 2
  {
    assert [x, y][0] == x;
  }

  // ---------------------------------------------------------------------
  // Save: the methods
  // ---------------------------------------------------------------------

  /** Some row carries this key and this model id. */
  ghost predicate Stored(rows: seq<Row>, id: nat, mid: Value)
  {
    exists i :: 0 <= i < |rows| && rows[i].id == id && rows[i].modelId == mid
  }

  /**
   * The rows under key `id` carry model id `mid` and current flag
   * `isCurrent`; when the flag is set they also carry version `version` and
   * hold the synced values `original`.
   */
  ghost predicate Synced(rows: seq<Row>, id: nat, mid: Value, version: int, isCurrent: bool, original: Attributes)
  {
    forall i :: 0 <= i < |rows| && rows[i].id == id ==>
      && rows[i].modelId == mid && rows[i].isCurrent == isCurrent
      && (isCurrent ==> rows[i].version == version && Agrees(original, rows[i].payload))
  }

  /**
   * A stored model with these values is tracked by the table: a row carries
   * its key and model id, its version is positive and preceded, and the
   * rows under its key agree with it (for a current model: same version,
   * synced values stored).
   */
  ghost predicate TracksRow(rows: seq<Row>, id: nat, mid: Value, version: int, isCurrent: bool, original: Attributes)
  {
    && version >= 1 && Stored(rows, id, mid) && Preceded(rows, mid, version)
    && Synced(rows, id, mid, version, isCurrent, original)
  }

  /**
   * The table invariants both strategies keep (one current row per model
   * id, positive versions, no gaps) and, once the model is stored, the
   * model tracked by the table.
   */
  ghost predicate Tracked(rows: seq<Row>, persisted: bool, id: nat, mid: Value, version: int, isCurrent: bool, original: Attributes)
  {
    WellFormed(rows) && Contiguous(rows) && (persisted ==> TracksRow(rows, id, mid, version, isCurrent, original))
  }

  /** The table invariants of the mirror strategy, and the model tracked by that table. */
  ghost predicate Consistent(m: Record, store: Store)
    reads m`persisted, m`version, m`id, m`modelId, m`isCurrent, m`original, store
  {
    && store.Valid() && MirroredIds(store.rows, store.nextId)
    && Tracked(store.rows, m.persisted, m.id, m.modelId, m.version, m.isCurrent, m.original)
  }

  /**
   * The archive of a current model holds what its row held: the synced
   * value of every synced column, and the model's value of the others.
   */
  lemma ArchiveHoldsStoredValues(rows: seq<Row>, k: nat, current: Row, original: Attributes, nextId: nat)
    requires Synced(rows, current.id, current.modelId, current.version, true, original)
    requires k < |rows| && rows[k].id == current.id
    ensures forall c :: c in Archive(current, original, nextId).payload <==> c in original || c in current.payload
    ensures forall c :: c in original ==> Archive(current, original, nextId).payload[c] == rows[k].payload[c]
    ensures forall c :: c in current.payload && c !in original ==> Archive(current, original, nextId).payload[c] == current.payload[c]
  {
    assert Agrees(original, rows[k].payload);
  }

  /**
   * The update of a dirty save hits only current rows under the model's key,
   * which carry the archived version: every version stored before the update
   * is still stored after it.
   */
  lemma SaveVersionKeepsVersions(table: string, rows: seq<Row>, nextId: nat, current: Row, original: Attributes, isCurrent: bool, mid: Value, v: int)
    requires Synced(rows, current.id, current.modelId, current.version, isCurrent, original)
    requires HasVersion(rows + [Archive(current, original, nextId)], mid, v)
    ensures HasVersion(SaveVersionRows(table, rows, nextId, current, original, true), mid, v)
  {
    var archived := rows + [Archive(current, original, nextId)];
    var r := SaveVersionRows(table, rows, nextId, current, original, true);
    SaveVersionAppendsArchive(table, rows, nextId, current, original, true);
    var p :| 0 <= p < |archived| && archived[p].modelId == mid && archived[p].version == v;
    SaveKeysSelectCurrentRow(table, archived[p], current.id);
    if p < |rows| && rows[p].id == current.id && rows[p].isCurrent {
      assert archived[p] == rows[p];
      assert r[|rows|].modelId == mid && r[|rows|].version == v;
    } else {
      assert r[p] == archived[p];
    }
  }

  /**
   * After an update that goes through, every row's version is preceded: the
   * updated rows carry the next version, one above a stored version, and the
   * other rows keep theirs.
   */
  lemma SaveVersionRowPreceded(table: string, rows: seq<Row>, nextId: nat, current: Row, original: Attributes, isCurrent: bool, i: nat)
    requires Contiguous(rows + [Archive(current, original, nextId)])
    requires Synced(rows, current.id, current.modelId, current.version, isCurrent, original)
    requires i < |rows| + 1
    ensures Preceded(SaveVersionRows(table, rows, nextId, current, original, true),
                     SaveVersionRows(table, rows, nextId, current, original, true)[i].modelId,
                     SaveVersionRows(table, rows, nextId, current, original, true)[i].version)
  {
    var archived := rows + [Archive(current, original, nextId)];
    var r := SaveVersionRows(table, rows, nextId, current, original, true);
    var nv := NextVersion(archived, current.modelId);
    SaveVersionAppendsArchive(table, rows, nextId, current, original, true);
    SaveKeysSelectCurrentRow(table, archived[i], current.id);
    if Satisfies(table, archived[i], SaveKeys(table, current.id)) {
      assert archived[i] == rows[i];
      assert r[i].version == nv && r[i].modelId == current.modelId;
      assert HasModel(archived, current.modelId) by { assert archived[|rows|].modelId == current.modelId; }
      SaveVersionKeepsVersions(table, rows, nextId, current, original, isCurrent, current.modelId, nv - 1);
    } else {
      assert r[i] == archived[i];
      if archived[i].version != 1 {
        assert Preceded(archived, archived[i].modelId, archived[i].version);
        SaveVersionKeepsVersions(table, rows, nextId, current, original, isCurrent, archived[i].modelId, archived[i].version - 1);
      }
    }
  }

  /**
   * A dirty save of a model whose version is preceded keeps the table
   * without gaps, and the model's new version preceded.
   */
  lemma SaveVersionKeepsContiguous(table: string, rows: seq<Row>, nextId: nat, current: Row, original: Attributes, isCurrent: bool, updatingOk: bool)
    requires Contiguous(rows) && Preceded(rows, current.modelId, current.version)
    requires Synced(rows, current.id, current.modelId, current.version, isCurrent, original)
    ensures Contiguous(SaveVersionRows(table, rows, nextId, current, original, updatingOk))
    ensures Preceded(SaveVersionRows(table, rows, nextId, current, original, updatingOk), current.modelId,
                     if updatingOk then NextVersion(rows + [Archive(current, original, nextId)], current.modelId) else current.version)
  {
    var archive := Archive(current, original, nextId);
    var archived := rows + [archive];
    ContiguousAppend(rows, archive);
    if updatingOk {
      var r := SaveVersionRows(table, rows, nextId, current, original, true);
      SaveVersionAppendsArchive(table, rows, nextId, current, original, true);
      forall i | 0 <= i < |r| ensures Preceded(r, r[i].modelId, r[i].version) {
        SaveVersionRowPreceded(table, rows, nextId, current, original, isCurrent, i);
      }
      assert HasModel(archived, current.modelId) by { assert archived[|rows|].modelId == current.modelId; }
      SaveVersionKeepsVersions(table, rows, nextId, current, original, isCurrent, current.modelId, NextVersion(archived, current.modelId) - 1);
    } else {
      assert archived[|rows|] == archive;
    }
  }

  /**
   * A dirty save keeps the rows under the model's key on its model id and
   * flag; for a current model they carry the version it ends with and hold
   * the values it ends with (its new values when the update goes through).
   */
  lemma SaveVersionKeepsSynced(table: string, rows: seq<Row>, nextId: nat, current: Row, original: Attributes, isCurrent: bool, updatingOk: bool)
    requires KeysBelow(rows, nextId) && Stored(rows, current.id, current.modelId)
    requires Synced(rows, current.id, current.modelId, current.version, isCurrent, original)
    ensures Synced(SaveVersionRows(table, rows, nextId, current, original, updatingOk), current.id, current.modelId,
                   if updatingOk then NextVersion(rows + [Archive(current, original, nextId)], current.modelId) else current.version,
                   isCurrent, if updatingOk then current.payload else original)
  {
    var archived := rows + [Archive(current, original, nextId)];
    var r := SaveVersionRows(table, rows, nextId, current, original, updatingOk);
    var v := if updatingOk then NextVersion(archived, current.modelId) else current.version;
    var o := if updatingOk then current.payload else original;
    SaveVersionAppendsArchive(table, rows, nextId, current, original, updatingOk);
    var s :| 0 <= s < |rows| && rows[s].id == current.id && rows[s].modelId == current.modelId;
    assert current.id < nextId;
    forall i | 0 <= i < |r| && r[i].id == current.id
      ensures r[i].modelId == current.modelId && r[i].isCurrent == isCurrent
      ensures isCurrent ==> r[i].version == v && Agrees(o, r[i].payload)
    {
      assert i < |rows|;
      assert archived[i] == rows[i];
      if updatingOk {
        SaveKeysSelectCurrentRow(table, rows[i], current.id);
        if isCurrent {
          DirtyOverAgreeing(rows[i].payload, current.payload, original);
        }
      }
    }
  }

  /**
   * A dirty save of a tracked model keeps the table well formed and without
   * gaps, and the model tracked with the version and values it ends with;
   * a version that goes through is above the archived one.
   */
  lemma SaveVersionKeepsTracks(table: string, rows: seq<Row>, nextId: nat, current: Row, original: Attributes, updatingOk: bool)
    requires KeysBelow(rows, nextId)
    requires Tracked(rows, true, current.id, current.modelId, current.version, current.isCurrent, original)
    ensures
      var v := NextVersion(rows + [Archive(current, original, nextId)], current.modelId);
      && Tracked(SaveVersionRows(table, rows, nextId, current, original, updatingOk), true, current.id, current.modelId,
                 if updatingOk then v else current.version, current.isCurrent, if updatingOk then current.payload else original)
      && v > current.version
  {
    SaveVersionKeepsTracked(table, rows, nextId, current, original, updatingOk);
    SaveVersionKeepsContiguous(table, rows, nextId, current, original, current.isCurrent, updatingOk);
    SaveVersionKeepsSynced(table, rows, nextId, current, original, current.isCurrent, updatingOk);
  }

  /**
   * The state a dirty save leaves is consistent again: the table as the
   * versioning transaction leaves it, the model with the same key, model id
   * and flag, and the version and synced values the save gives it.
   */
  lemma ConsistentAfterVersioning(m: Record, store: Store, rows: seq<Row>, nextId: nat, current: Row, original: Attributes, updatingOk: bool)
    requires KeysBelow(rows, nextId) && MirroredIds(rows, nextId)
    requires Tracked(rows, true, current.id, current.modelId, current.version, current.isCurrent, original)
    requires store.Valid() && store.nextId == nextId + 1
    requires store.rows == SaveVersionRows(store.table, rows, nextId, current, original, updatingOk)
    requires m.version == if updatingOk then NextVersion(rows + [Archive(current, original, nextId)], m.modelId) else current.version
    requires m.original == if updatingOk then m.attributes else original
    requires m.persisted && m.id == current.id && m.modelId == current.modelId && m.isCurrent == current.isCurrent
    requires m.attributes == current.payload
    ensures Consistent(m, store)
    ensures updatingOk ==> current.version < m.version
  {
    SaveVersionKeepsTracks(store.table, rows, nextId, current, original, updatingOk);
    SaveVersionKeepsMirrored(store.table, rows, nextId, current, original, updatingOk);
  }

  /**
   * A create under a fresh key starts a chain at version 1: the table stays
   * without gaps and the new key holds the inserted values.
   */
  lemma CreateKeepsTracks(rows: seq<Row>, nextId: nat, mid: Value, attributes: Attributes)
    requires KeysBelow(rows, nextId) && WellFormed(rows) && Contiguous(rows) && !HasModel(rows, mid)
    ensures Tracked(Created(rows, nextId, mid, attributes), true, nextId, mid, 1, true, attributes)
  {
    var r := Created(rows, nextId, mid, attributes);
    CreateKeepsChain(rows, nextId, mid, attributes);
    ContiguousAppend(rows, r[|rows|]);
    assert r == rows + [r[|rows|]];
    assert r[|rows|].id == nextId;
  }

  /** A dirty save keeps the saved model's key and model id in the table. */
  lemma SaveVersionKeepsStored(table: string, rows: seq<Row>, nextId: nat, current: Row, original: Attributes, updatingOk: bool)
    requires Stored(rows, current.id, current.modelId)
    ensures Stored(SaveVersionRows(table, rows, nextId, current, original, updatingOk), current.id, current.modelId)
  {
    var r := SaveVersionRows(table, rows, nextId, current, original, updatingOk);
    SaveVersionAppendsArchive(table, rows, nextId, current, original, updatingOk);
    var i :| 0 <= i < |rows| && rows[i].id == current.id && rows[i].modelId == current.modelId;
    assert r[i].id == current.id && r[i].modelId == current.modelId;
  }

  /** A dirty save keeps model ids mirrored (the archive reuses a stored model id) and the model stored. */
  lemma SaveVersionKeepsMirrored(table: string, rows: seq<Row>, nextId: nat, current: Row, original: Attributes, updatingOk: bool)
    requires MirroredIds(rows, nextId) && Stored(rows, current.id, current.modelId)
    ensures MirroredIds(SaveVersionRows(table, rows, nextId, current, original, updatingOk), nextId + 1)
    ensures Stored(SaveVersionRows(table, rows, nextId, current, original, updatingOk), current.id, current.modelId)
  {
    SaveVersionKeepsStored(table, rows, nextId, current, original, updatingOk);
    SaveVersionAppendsArchive(table, rows, nextId, current, original, updatingOk);
    var i :| 0 <= i < |rows| && rows[i].id == current.id && rows[i].modelId == current.modelId;
    assert rows[i].modelId.Int?;
  }

  /** A dirty save of a stored model keeps the table well formed, the model stored and its new version above the old. */
  lemma SaveVersionKeepsTracked(table: string, rows: seq<Row>, nextId: nat, current: Row, original: Attributes, updatingOk: bool)
    requires WellFormed(rows) && Stored(rows, current.id, current.modelId) && current.version >= 1
    ensures WellFormed(SaveVersionRows(table, rows, nextId, current, original, updatingOk))
    ensures Stored(SaveVersionRows(table, rows, nextId, current, original, updatingOk), current.id, current.modelId)
    ensures NextVersion(rows + [Archive(current, original, nextId)], current.modelId) > current.version
  {
    var i :| 0 <= i < |rows| && rows[i].id == current.id && rows[i].modelId == current.modelId;
    assert HasModel(rows, current.modelId);
    SaveVersionKeepsWellFormed(table, rows, nextId, current, original, updatingOk);
    SaveVersionKeepsStored(table, rows, nextId, current, original, updatingOk);
    NextVersionAboveArchive(rows, current, original, nextId);
  }

  /** The version a dirty save assigns is positive and above the version it archives. */
  lemma NextVersionAboveArchive(rows: seq<Row>, current: Row, original: Attributes, nextId: nat)
    requires VersionsPositive(rows) && current.version >= 1
    ensures NextVersion(rows + [Archive(current, original, nextId)], current.modelId) > current.version >= 1
  {
    var archived := rows + [Archive(current, original, nextId)];
    assert archived[|rows|].modelId == current.modelId;
  }

  /**
   * The versioning transaction of `save` for a stored, dirty model,
   * followed by `finishSave` (the original values synced) when it saved.
   */
  method SaveNewVersion(m: Record, store: Store, updatingOk: bool) returns (saved: bool)
    requires store.Valid()
    modifies m`version, m`original, store
    ensures store.Valid() && store.nextId == old(store.nextId) + 1
    ensures store.rows == SaveVersionRows(store.table, old(store.rows), old(store.nextId), old(m.AsRow()), old(m.original), updatingOk)
    ensures saved == updatingOk
    ensures m.version == if updatingOk then NextVersion(old(store.rows) + [Archive(old(m.AsRow()), old(m.original), old(store.nextId))], m.modelId) else old(m.version)
    ensures m.original == if updatingOk then m.attributes else old(m.original)
    ensures m.persisted == old(m.persisted) && m.id == old(m.id) && m.modelId == old(m.modelId)
      && m.isCurrent == old(m.isCurrent) && m.attributes == old(m.attributes)
  {
    ghost var rows0, row, original := store.rows, m.AsRow(), m.original;
    ghost var target := SaveVersionRows(store.table, rows0, store.nextId, row, original, updatingOk);
    var query := new Query();
    var _ := store.Insert(Archive(m.AsRow(), m.original, store.nextId));
    if !updatingOk {
      assert store.rows == target;
      return false;
    }
    var dirty := Dirty(m.attributes, m.original);
    m.version := NextVersion(store.rows, m.modelId);
    SetKeysForSaveQuery(query, store.table, m.id);
    assert query.wheres == SaveKeys(store.table, row.id);
    store.Update(query.wheres, Assignment(None, Some(m.version), dirty));
    assert store.rows == target;
    saved := true;
    m.original := m.attributes;
  }

  /**
   * The create path of `save`: insert the model, then set its model id to
   * the key it received; then `finishSave`.
   */
  method CreateFirstVersion(m: Record, store: Store)
    requires store.Valid()
    modifies m`persisted, m`id, m`modelId, m`version, m`isCurrent, m`original, store
    ensures store.Valid()
    ensures m.persisted && m.id == old(store.nextId) && m.modelId == Int(m.id) && m.version == 1 && m.isCurrent
    ensures m.original == m.attributes
    ensures store.rows == Created(old(store.rows), old(store.nextId), Int(old(store.nextId)), old(m.attributes))
    ensures store.nextId == old(store.nextId) + 1
  {
    ghost var rows0 := store.rows;
    var query := new Query();
    var id := store.Insert(Row(0, m.modelId, 1, true, m.attributes));
    m.persisted, m.id := true, id;
    m.modelId := Int(m.id);
    SetKeysForSaveQuery(query, store.table, m.id);
    assert query.wheres == SaveKeys(store.table, id);
    store.Update(query.wheres, Assignment(Some(m.modelId), None, Dirty(m.attributes, m.original)));
    m.version, m.isCurrent := 1, true;
    CreateThenMirror(store.table, rows0, id, old(m.modelId), m.attributes, m.original);
    m.original := m.attributes;
  }

  /** The dirty path of `save` on a consistent table: versioning keeps the table consistent. */
  method VersionDirtyModel(m: Record, store: Store, updatingOk: bool) returns (saved: bool)
    requires Consistent(m, store) && m.persisted
    modifies m`version, m`original, store
    ensures Consistent(m, store) && store.nextId == old(store.nextId) + 1
    ensures store.rows == SaveVersionRows(store.table, old(store.rows), old(store.nextId), old(m.AsRow()), old(m.original), updatingOk)
    ensures saved == updatingOk
    ensures m.version == if updatingOk then NextVersion(old(store.rows) + [Archive(old(m.AsRow()), old(m.original), old(store.nextId))], m.modelId) else old(m.version)
    ensures m.original == if updatingOk then m.attributes else old(m.original)
    ensures updatingOk ==> old(m.version) < m.version
  {
    ghost var rows0, row, original, nextId := store.rows, m.AsRow(), m.original, store.nextId;
    saved := SaveNewVersion(m, store, updatingOk);
    ConsistentAfterVersioning(m, store, rows0, nextId, row, original, updatingOk);
  }

  /** The create path of `save` on a consistent table: the new first version keeps it consistent. */
  method InsertNewModel(m: Record, store: Store)
    requires Consistent(m, store) && !m.persisted
    modifies m`persisted, m`id, m`modelId, m`version, m`isCurrent, m`original, store
    ensures Consistent(m, store)
    ensures m.persisted && m.id == old(store.nextId) && m.modelId == Int(m.id) && m.version == 1 && m.isCurrent
    ensures store.rows == Created(old(store.rows), old(store.nextId), Int(old(store.nextId)), old(m.attributes))
    ensures store.nextId == old(store.nextId) + 1
    ensures m.original == m.attributes
  {
    ghost var rows0, nextId, attributes := store.rows, store.nextId, m.attributes;
    CreateFirstVersion(m, store);
    MirroredCreate(rows0, nextId, attributes);
    CreateKeepsTracks(rows0, nextId, Int(nextId), attributes);
  }

  /**
   * `save`: a `saving` veto changes nothing; a new model is inserted and its
   * model id set to its new key; a stored dirty model is versioned; a stored
   * clean model is left alone and reported as not saved.
   */
  method Save(m: Record, store: Store, savingOk: bool, updatingOk: bool) returns (saved: bool)
    requires Consistent(m, store)
    modifies m`persisted, m`id, m`modelId, m`version, m`isCurrent, m`original, store
    ensures Consistent(m, store)
    ensures !savingOk ==> !saved && unchanged(m) && unchanged(store)
    ensures savingOk && !old(m.persisted) ==>
      && saved && m.persisted && m.id == old(store.nextId) && m.modelId == Int(m.id) && m.version == 1 && m.isCurrent
      && store.rows == Created(old(store.rows), old(store.nextId), Int(old(store.nextId)), old(m.attributes))
      && store.nextId == old(store.nextId) + 1
      && m.original == m.attributes
    ensures savingOk && old(m.persisted) && !old(m.IsDirty()) ==> !saved && unchanged(m) && unchanged(store)
    ensures savingOk && old(m.persisted) && old(m.IsDirty()) ==>
      && saved == updatingOk && store.nextId == old(store.nextId) + 1
      && m.persisted && m.id == old(m.id) && m.modelId == old(m.modelId) && m.isCurrent == old(m.isCurrent)
    ensures savingOk && old(m.persisted) && old(m.IsDirty()) ==>
      store.rows == SaveVersionRows(store.table, old(store.rows), old(store.nextId), old(m.AsRow()), old(m.original), updatingOk)
    ensures savingOk && old(m.persisted) && old(m.IsDirty()) && updatingOk ==>
      && m.version == NextVersion(old(store.rows) + [Archive(old(m.AsRow()), old(m.original), old(store.nextId))], m.modelId)
      && old(m.version) < m.version && m.original == m.attributes
    ensures savingOk && old(m.persisted) && old(m.IsDirty()) && !updatingOk ==>
      m.version == old(m.version) && unchanged(m`original)
  {
    if !savingOk {
      return false;
    }
    if m.persisted {
      if m.IsDirty() {
        saved := VersionDirtyModel(m, store, updatingOk);
      } else {
        saved := false;
      }
    } else {
      InsertNewModel(m, store);
      saved := true;
    }
  }

  /**
   * `saveMinor` (the framework's plain save): the dirty columns are written
   * over the current row in place; a new model is inserted as it is.
   */
  method SaveMinor(m: Record, store: Store, savingOk: bool, updatingOk: bool) returns (saved: bool)
    requires store.Valid()
    modifies m`persisted, m`id, m`version, m`isCurrent, m`original, store
    ensures store.Valid()
    ensures !savingOk ==> !saved && unchanged(m) && unchanged(store)
    ensures savingOk && old(m.persisted) ==>
      && saved == (updatingOk || !old(m.IsDirty()))
      && store.rows == MinorRows(store.table, old(store.rows), old(m.id), old(Dirty(m.attributes, m.original)), updatingOk)
      && store.nextId == old(store.nextId)
      && m.persisted && m.id == old(m.id) && m.modelId == old(m.modelId) && m.version == old(m.version) && m.isCurrent == old(m.isCurrent)
      && (saved ==> m.original == m.attributes) && (!saved ==> m.original == old(m.original))
    ensures savingOk && !old(m.persisted) ==>
      && saved && m.persisted && m.id == old(store.nextId) && m.modelId == old(m.modelId) && m.version == 1 && m.isCurrent
      && store.rows == Created(old(store.rows), old(store.nextId), old(m.modelId), old(m.attributes))
      && store.nextId == old(store.nextId) + 1
      && m.original == m.attributes
  {
    if !savingOk {
      return false;
    }
    var query := new Query();
    if m.persisted {
      var dirty := Dirty(m.attributes, m.original);
      if dirty != map[] {
        if !updatingOk {
          return false;
        }
        SetKeysForSaveQuery(query, store.table, m.id);
        assert query.wheres == SaveKeys(store.table, m.id);
        store.Update(query.wheres, Assignment(None, None, dirty));
      }
      saved := true;
    } else {
      var id := store.Insert(Row(0, m.modelId, 1, true, m.attributes));
      m.persisted, m.id := true, id;
      m.version, m.isCurrent := 1, true;
      saved := true;
    }
    m.original := m.attributes;
  }

  // ---------------------------------------------------------------------
  // Navigation
  // ---------------------------------------------------------------------

  /**
   * The first row, in table order, with the given model id and version: a
   * query without the version scope, ordered by model id (all candidates
   * share it), taking the first.
   */
  function FindVersion(rows: seq<Row>, mid: Value, version: int): (r: Option<Row>)
    ensures r.None? <==> forall i :: 0 <= i < |rows| ==> !(rows[i].modelId == mid && rows[i].version == version)
    ensures r.Some? ==>
      exists i :: && 0 <= i < |rows| && rows[i] == r.value && r.value.modelId == mid && r.value.version == version
                  && forall j :: 0 <= j < i ==> !(rows[j].modelId == mid && rows[j].version == version)
  {
    if rows == [] then None
    else if rows[0].modelId == mid && rows[0].version == version then Some(rows[0])
    else
      var r := FindVersion(rows[1..], mid, version);
      assert forall i :: 0 < i < |rows| ==> rows[i] == rows[1..][i - 1];
      r
  }

  /** `getPreviousModel`: none at version 1, otherwise the row one version lower. */
  function PreviousModel(rows: seq<Row>, model: Row): (r: Option<Row>)
    ensures model.version == 1 ==> r.None?
    ensures r.Some? ==> r.value in rows && r.value.modelId == model.modelId && r.value.version == model.version - 1
    ensures model.version != 1 && (exists i :: 0 <= i < |rows| && rows[i].modelId == model.modelId && rows[i].version == model.version - 1)
      ==> r.Some?
  {
    if model.version == 1 then None else FindVersion(rows, model.modelId, model.version - 1)
  }

  /** `getNextModel`: none for a current row, otherwise the row one version higher. */
  function NextModel(rows: seq<Row>, model: Row): (r: Option<Row>)
    ensures model.isCurrent ==> r.None?
    ensures r.Some? ==> r.value in rows && r.value.modelId == model.modelId && r.value.version == model.version + 1
    ensures !model.isCurrent && (exists i :: 0 <= i < |rows| && rows[i].modelId == model.modelId && rows[i].version == model.version + 1)
      ==> r.Some?
  {
    if model.isCurrent then None else FindVersion(rows, model.modelId, model.version + 1)
  }

  /** With versions unique per model id, the lookup finds the one matching row. */
  lemma FindVersionUnique(rows: seq<Row>, k: nat)
    requires UniqueVersions(rows) && k < |rows|
    ensures FindVersion(rows, rows[k].modelId, rows[k].version) == Some(rows[k])
  {
  }

  /** Stepping back then forward returns to the same row. */
  lemma NextOfPrevious(rows: seq<Row>, k: nat)
    requires Linear(rows) && k < |rows|
    requires PreviousModel(rows, rows[k]).Some?
    ensures NextModel(rows, PreviousModel(rows, rows[k]).value) == Some(rows[k])
  {
    var p := PreviousModel(rows, rows[k]).value;
    var i :| 0 <= i < |rows| && rows[i] == p;
    FindVersionUnique(rows, k);
  }

  /** Stepping forward then back returns to the same row. */
  lemma PreviousOfNext(rows: seq<Row>, k: nat)
    requires Linear(rows) && VersionsPositive(rows) && k < |rows|
    requires NextModel(rows, rows[k]).Some?
    ensures PreviousModel(rows, NextModel(rows, rows[k]).value) == Some(rows[k])
  {
    FindVersionUnique(rows, k);
  }
}
