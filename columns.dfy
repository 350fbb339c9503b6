/**
 * The bookkeeping columns of a versioned table (the constants of the
 * versioned query builder) and their table-qualified spellings.
 */
module Columns {

  const ModelIdColumn: string := "model_id"
  const VersionColumn: string := "version"
  const IsCurrentVersionColumn: string := "is_current_version"

  /** The three bookkeeping column names are pairwise distinct. */
  lemma BookkeepingColumnsDistinct()
    ensures ModelIdColumn != VersionColumn
    ensures ModelIdColumn != IsCurrentVersionColumn
    ensures VersionColumn != IsCurrentVersionColumn
  {
    assert ModelIdColumn[0] != VersionColumn[0];
    assert ModelIdColumn[0] != IsCurrentVersionColumn[0];
    assert VersionColumn[0] != IsCurrentVersionColumn[0];
  }

  /** `table.column`, the spelling used by the getQualified...Column helpers. */
  function Qualified(table: string, column: string): (r: string)
    ensures |r| == |table| + 1 + |column|
    ensures r[..|table| + 1] == table + "."
    ensures r[|table| + 1..] == column
  {
    table + "." + column
  }

  /**
   * The column a reference names once a leading `table.` qualifier is
   * dropped, as the database resolves it against that table.
   */
  function Unqualified(table: string, column: string): (r: string)
    ensures |r| <= |column|
    ensures |column| <= |table| || column[..|table| + 1] != table + "." ==> r == column
  {
    if |column| > |table| && column[..|table| + 1] == table + "." then column[|table| + 1..] else column
  }

  /** Qualifying a column and resolving it again gives back the column. */
  lemma QualifiedRoundTrip(table: string, column: string)
    ensures Unqualified(table, Qualified(table, column)) == column
  {
  }
}
