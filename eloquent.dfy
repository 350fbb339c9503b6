/**
 * The in-memory model instance the versioning traits act on. The
 * bookkeeping columns (key, model id, version, current flag) are kept apart
 * from the application payload: only the save algorithms write them.
 */
module Eloquent {
  import opened Columns
  import opened Database

  /**
   * The payload columns whose value differs from the last synced values
   * (a column missing from `original` counts as changed).
   */
  function Dirty(attributes: Attributes, original: Attributes): (d: Attributes)
    ensures forall k :: k in d <==> k in attributes && (k !in original || attributes[k] != original[k])
    ensures forall k :: k in d ==> d[k] == attributes[k]
  {
    map k | k in attributes && (k !in original || attributes[k] != original[k]) :: attributes[k]
  }

  /** Writing the dirty columns over the current values changes nothing. */
  lemma DirtyAbsorbed(attributes: Attributes, original: Attributes)
    ensures attributes + Dirty(attributes, original) == attributes
  {
  }

  /**
   * When an edit keeps the payload columns, writing its dirty columns over
   * the old values gives the edit, and the old values written over the edit
   * give the old values back.
   */
  lemma DirtyOverSameColumns(before: Attributes, after: Attributes)
    requires before.Keys == after.Keys
    ensures before + Dirty(after, before) == after
    ensures after + before == before
  {
  }

  /** Every column of `values` is stored with the same value. */
  ghost predicate Agrees(values: Attributes, stored: Attributes)
  {
    forall k :: k in values ==> k in stored && stored[k] == values[k]
  }

  /**
   * A row holding the synced values, with the dirty columns written over
   * it, holds the model's current values.
   */
  lemma DirtyOverAgreeing(stored: Attributes, attributes: Attributes, original: Attributes)
    requires Agrees(original, stored)
    ensures Agrees(attributes, stored + Dirty(attributes, original))
  {
  }

  /** Nothing is dirty right after the original values are synced. */
  lemma SyncedIsClean(attributes: Attributes)
    ensures Dirty(attributes, attributes) == map[]
  {
    assert forall k :: k !in Dirty(attributes, attributes);
  }

  class Record {
    var persisted: bool
    var id: nat
    var modelId: Value
    var version: int
    var isCurrent: bool
    var isVersioned: bool
    var attributes: Attributes
    var original: Attributes

    /** A new, unsaved model filled with the given payload. */
    constructor (attributes: Attributes)
      ensures !persisted && isVersioned
      ensures this.attributes == attributes && original == map[]
      ensures modelId == Null
    {
      persisted := false;
      id := 0;
      modelId := Null;
      version := 1;
      isCurrent := true;
      isVersioned := true;
      this.attributes := attributes;
      original := map[];
    }

    predicate IsDirty()
      reads this`attributes, this`original
    {
      Dirty(attributes, original) != map[]
    }

    /** The row this model stands for, with its current payload. */
    function AsRow(): Row
      reads this`id, this`modelId, this`version, this`isCurrent, this`attributes
    {
      Row(id, modelId, version, isCurrent, attributes)
    }

    /**
     * Every attribute the model holds, bookkeeping columns included once the
     * model has been stored.
     */
    function AllAttributes(): (all: map<string, Value>)
      reads this`persisted, this`id, this`modelId, this`version, this`isCurrent, this`attributes
      ensures persisted ==> KeyColumn in all && all[KeyColumn] == Int(id)
      ensures persisted ==> ModelIdColumn in all && all[ModelIdColumn] == modelId
      ensures persisted ==> VersionColumn in all && all[VersionColumn] == Int(version)
      ensures persisted ==> IsCurrentVersionColumn in all && all[IsCurrentVersionColumn] == Flag(isCurrent)
      ensures forall k :: k in attributes ==> k in all
      ensures !persisted ==> all == attributes
    {
      if persisted then
        attributes + map[KeyColumn := Int(id), ModelIdColumn := modelId,
                         VersionColumn := Int(version), IsCurrentVersionColumn := Flag(isCurrent)]
      else attributes
    }

    /** `setIsVersioned`. */
    method SetIsVersioned(isVersioned: bool)
      modifies this`isVersioned
      ensures this.isVersioned == isVersioned
    {
      this.isVersioned := isVersioned;
    }
  }
}
