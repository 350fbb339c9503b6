/**
 * The appended-versioning strategy: a variant of the versioned save in
 * which the model id of a new entity comes from a generator (a UUID in the
 * repository's own models) rather than from the key of its first row.
 * Editing a stored model is the same archive-then-update transaction as in
 * the Versioned trait.
 */
module AppendedVersioning {
  import opened Columns
  import opened Database
  import opened Eloquent
  import opened Chain
  import Versioned

  /**
   * `getIdAttribute`: the primary-key attribute, but only when the model
   * holds an `id` attribute; otherwise null. A missing primary-key
   * attribute also reads as null.
   */
  function IdAttribute(all: map<string, Value>, primaryKey: string): (r: Value)
    ensures KeyColumn !in all ==> r == Null
    ensures KeyColumn in all && primaryKey in all ==> r == all[primaryKey]
    ensures KeyColumn in all && primaryKey !in all ==> r == Null
  {
    if KeyColumn in all && primaryKey in all then all[primaryKey] else Null
  }

  /**
   * With the default primary key, a stored model reads back its own key and
   * an unsaved model without an `id` payload column reads null.
   */
  lemma IdAttributeOfRecord(m: Record)
    requires m.persisted || KeyColumn !in m.attributes
    ensures IdAttribute(m.AllAttributes(), KeyColumn) == (if m.persisted then Int(m.id) else Null)
  {
  }

  /**
   * The table invariant of this strategy (one current row per model id,
   * positive versions) and the model stored in that table. Model ids need
   * not mirror keys here.
   */
  ghost predicate Consistent(m: Record, store: Store)
    reads m`persisted, m`version, m`id, m`modelId, m`isCurrent, m`original, store
  {
    store.Valid() && Versioned.Tracked(store.rows, m.persisted, m.id, m.modelId, m.version, m.isCurrent, m.original)
  }

  /**
   * The create path: the model id is set from the generator, then the model
   * is inserted once (no follow-up update); then `finishSave`.
   */
  method CreateWithModelId(m: Record, store: Store, generatedModelId: Value)
    requires store.Valid()
    modifies m`persisted, m`id, m`modelId, m`version, m`isCurrent, m`original, store
    ensures store.Valid()
    ensures m.persisted && m.id == old(store.nextId) && m.modelId == generatedModelId && m.version == 1 && m.isCurrent
    ensures m.original == m.attributes
    ensures store.rows == Versioned.Created(old(store.rows), old(store.nextId), generatedModelId, old(m.attributes))
    ensures store.nextId == old(store.nextId) + 1
  {
    m.modelId := generatedModelId;
    var id := store.Insert(Row(0, m.modelId, 1, true, m.attributes));
    m.persisted, m.id := true, id;
    m.version, m.isCurrent := 1, true;
    m.original := m.attributes;
  }

  /**
   * The state a dirty save leaves is consistent again: the table as the
   * versioning transaction leaves it, the model with the same key, model id
   * and flag, and the version and synced values the save gives it.
   */
  lemma ConsistentAfterVersioning(m: Record, store: Store, rows: seq<Row>, nextId: nat, current: Row, original: Attributes, updatingOk: bool)
    requires KeysBelow(rows, nextId)
    requires Versioned.Tracked(rows, true, current.id, current.modelId, current.version, current.isCurrent, original)
    requires store.Valid() && store.nextId == nextId + 1
    requires store.rows == Versioned.SaveVersionRows(store.table, rows, nextId, current, original, updatingOk)
    requires m.version == if updatingOk then Versioned.NextVersion(rows + [Versioned.Archive(current, original, nextId)], m.modelId) else current.version
    requires m.original == if updatingOk then m.attributes else original
    requires m.persisted && m.id == current.id && m.modelId == current.modelId && m.isCurrent == current.isCurrent
    requires m.attributes == current.payload
    ensures Consistent(m, store)
    ensures updatingOk ==> current.version < m.version
  {
    Versioned.SaveVersionKeepsTracks(store.table, rows, nextId, current, original, updatingOk);
  }

  /** The dirty path of `save` on a consistent table: versioning keeps it consistent. */
  method VersionDirtyModel(m: Record, store: Store, updatingOk: bool) returns (saved: bool)
    requires Consistent(m, store) && m.persisted
    modifies m`version, m`original, store
    ensures Consistent(m, store) && store.nextId == old(store.nextId) + 1
    ensures store.rows == Versioned.SaveVersionRows(store.table, old(store.rows), old(store.nextId), old(m.AsRow()), old(m.original), updatingOk)
    ensures saved == updatingOk
    ensures m.version == if updatingOk then Versioned.NextVersion(old(store.rows) + [Versioned.Archive(old(m.AsRow()), old(m.original), old(store.nextId))], m.modelId) else old(m.version)
    ensures m.original == if updatingOk then m.attributes else old(m.original)
    ensures updatingOk ==> old(m.version) < m.version
  {
    ghost var rows0, row, original, nextId := store.rows, m.AsRow(), m.original, store.nextId;
    saved := Versioned.SaveNewVersion(m, store, updatingOk);
    ConsistentAfterVersioning(m, store, rows0, nextId, row, original, updatingOk);
  }

  /** The create path of `save` on a consistent table, with a fresh generated model id. */
  method InsertNewModel(m: Record, store: Store, generatedModelId: Value)
    requires Consistent(m, store) && !m.persisted && !HasModel(store.rows, generatedModelId)
    modifies m`persisted, m`id, m`modelId, m`version, m`isCurrent, m`original, store
    ensures Consistent(m, store)
    ensures m.persisted && m.id == old(store.nextId) && m.modelId == generatedModelId && m.version == 1 && m.isCurrent
    ensures store.rows == Versioned.Created(old(store.rows), old(store.nextId), generatedModelId, old(m.attributes))
    ensures store.nextId == old(store.nextId) + 1
    ensures m.original == m.attributes
  {
    ghost var rows0, nextId, attributes := store.rows, store.nextId, m.attributes;
    CreateWithModelId(m, store, generatedModelId);
    Versioned.CreateKeepsTracks(rows0, nextId, generatedModelId, attributes);
  }

  /**
   * `save` of the appended strategy: a `saving` veto changes nothing; a new
   * model gets the generated model id and one row; a stored dirty model is
   * versioned; a stored clean model is left alone and reported as not saved.
   * The generator is fresh: its id belongs to no stored entity.
   */
  method Save(m: Record, store: Store, generatedModelId: Value, savingOk: bool, updatingOk: bool) returns (saved: bool)
    requires Consistent(m, store)
    requires !m.persisted ==> !HasModel(store.rows, generatedModelId)
    modifies m`persisted, m`id, m`modelId, m`version, m`isCurrent, m`original, store
    ensures Consistent(m, store)
    ensures !savingOk ==> !saved && unchanged(m) && unchanged(store)
    ensures savingOk && !old(m.persisted) ==>
      && saved && m.persisted && m.id == old(store.nextId) && m.modelId == generatedModelId && m.version == 1 && m.isCurrent
      && store.rows == Versioned.Created(old(store.rows), old(store.nextId), generatedModelId, old(m.attributes))
      && store.nextId == old(store.nextId) + 1
      && m.original == m.attributes
    ensures savingOk && old(m.persisted) && !old(m.IsDirty()) ==> !saved && unchanged(m) && unchanged(store)
    ensures savingOk && old(m.persisted) && old(m.IsDirty()) ==>
      && saved == updatingOk && store.nextId == old(store.nextId) + 1
      && m.persisted && m.id == old(m.id) && m.modelId == old(m.modelId) && m.isCurrent == old(m.isCurrent)
    ensures savingOk && old(m.persisted) && old(m.IsDirty()) ==>
      store.rows == Versioned.SaveVersionRows(store.table, old(store.rows), old(store.nextId), old(m.AsRow()), old(m.original), updatingOk)
    ensures savingOk && old(m.persisted) && old(m.IsDirty()) && updatingOk ==>
      && m.version == Versioned.NextVersion(old(store.rows) + [Versioned.Archive(old(m.AsRow()), old(m.original), old(store.nextId))], m.modelId)
      && old(m.version) < m.version && m.original == m.attributes
    ensures savingOk && old(m.persisted) && old(m.IsDirty()) && !updatingOk ==>
      m.version == old(m.version) && unchanged(m`original)
  {
    if !savingOk {
      return false;
    }
    if m.persisted {
      if m.IsDirty() {
        saved := VersionDirtyModel(m, store, updatingOk);
      } else {
        saved := false;
      }
    } else {
      InsertNewModel(m, store, generatedModelId);
      saved := true;
    }
  }
}
