/**
 * The relational layer the versioning logic runs on, abstracted to what that
 * logic relies on: one table as a sequence of rows with an auto-increment key
 * counter, `where` clauses with their positional bindings, and `update ...
 * where` over the rows that satisfy a list of clauses.
 */
module Database {
  import opened Columns

  datatype Option<T> = None | Some(value: T)

  /** A column value. PHP's loose comparisons between kinds are not modelled. */
  datatype Value = Null | Int(i: int) | Str(s: string)

  /** The application-owned columns of a row (its payload). */
  type Attributes = map<string, Value>

  /** The primary-key column of the tables in this model. */
  const KeyColumn: string := "id"

  /** One physical row of a versioned table. */
  datatype Row = Row(id: nat, modelId: Value, version: int, isCurrent: bool, payload: Attributes)

  /** The stored form of the current-version flag (1 or 0). */
  function Flag(b: bool): (v: Value)
    ensures v == Int(1) <==> b
    ensures v == Int(0) <==> !b
  {
    Int(if b then 1 else 0)
  }

  /** The value a row holds in a column named plainly or qualified by `table`. */
  function ColumnValue(table: string, row: Row, column: string): Option<Value>
  {
    var c := Unqualified(table, column);
    if c == KeyColumn then Some(Int(row.id))
    else if c == ModelIdColumn then Some(row.modelId)
    else if c == VersionColumn then Some(Int(row.version))
    else if c == IsCurrentVersionColumn then Some(Flag(row.isCurrent))
    else if c in row.payload then Some(row.payload[c])
    else None
  }

  /** A where clause: `column = value`, `column in (values)` or `column is null`. */
  datatype WhereClause =
    | Basic(column: string, value: Value)
    | In(column: string, values: seq<Value>)
    | IsNull(column: string)

  /** The bindings a clause contributes, in order. */
  function ClauseBindings(w: WhereClause): seq<Value>
  {
    match w
    case Basic(_, v) => [v]
    case In(_, vs) => vs
    case IsNull(_) => []
  }

  /** The bindings of a list of clauses, concatenated in clause order. */
  function WhereBindings(ws: seq<WhereClause>): (bs: seq<Value>)
  {
    if ws == [] then [] else WhereBindings(ws[..|ws| - 1]) + ClauseBindings(ws[|ws| - 1])
  }

  /** Whether a row satisfies one clause. */
  predicate Holds(table: string, row: Row, w: WhereClause)
  {
    var v := ColumnValue(table, row, w.column);
    match w
    case Basic(_, x) => v == Some(x)
    case In(_, xs) => v.Some? && v.value in xs
    case IsNull(_) => v == None || v == Some(Null)
  }

  /** Whether a row satisfies every clause (clauses are joined with `and`). */
  predicate Satisfies(table: string, row: Row, ws: seq<WhereClause>)
  {
    forall i :: 0 <= i < |ws| ==> Holds(table, row, ws[i])
  }

  datatype Direction = Asc | Desc
  datatype Order = Order(column: string, direction: Direction)

  /** The mutable state of a query: its where clauses, their bindings and its orders. */
  class Query {
    var wheres: seq<WhereClause>
    var bindings: seq<Value>
    var orders: seq<Order>

    constructor ()
      ensures wheres == [] && bindings == [] && orders == []
    {
      wheres, bindings, orders := [], [], [];
    }

    /** `where(column, value)`: appends a basic clause and its binding. */
    method Where(column: string, value: Value)
      modifies this`wheres, this`bindings
      ensures wheres == old(wheres) + [Basic(column, value)]
      ensures bindings == old(bindings) + [value]
      ensures orders == old(orders)
    {
      wheres := wheres + [Basic(column, value)];
      bindings := bindings + [value];
    }

    /** `whereIn(column, values)`: appends an `in` clause and its bindings. */
    method WhereIn(column: string, values: seq<Value>)
      modifies this`wheres, this`bindings
      ensures wheres == old(wheres) + [In(column, values)]
      ensures bindings == old(bindings) + values
      ensures orders == old(orders)
    {
      wheres := wheres + [In(column, values)];
      bindings := bindings + values;
    }

    /** `orderBy(column)`: appends an ascending order. */
    method OrderBy(column: string)
      modifies this`orders
      ensures orders == old(orders) + [Order(column, Asc)]
      ensures wheres == old(wheres) && bindings == old(bindings)
    {
      orders := orders + [Order(column, Asc)];
    }
  }

  /**
   * The columns an `update` statement assigns: optionally the model id and
   * the version, and the given payload columns.
   */
  datatype Assignment = Assignment(modelId: Option<Value>, version: Option<int>, payload: Attributes)

  function Assign(r: Row, a: Assignment): (r': Row)
    ensures r'.id == r.id && r'.isCurrent == r.isCurrent
    ensures r'.modelId == (if a.modelId.Some? then a.modelId.value else r.modelId)
    ensures r'.version == (if a.version.Some? then a.version.value else r.version)
    ensures r'.payload == r.payload + a.payload
  {
    r.(modelId := if a.modelId.Some? then a.modelId.value else r.modelId,
       version := if a.version.Some? then a.version.value else r.version,
       payload := r.payload + a.payload)
  }

  /** `update ... where ws`: every row satisfying `ws` gets the assignment. */
  function UpdateWhere(table: string, rows: seq<Row>, ws: seq<WhereClause>, a: Assignment): (r: seq<Row>)
    ensures |r| == |rows|
    ensures forall i :: 0 <= i < |rows| ==> r[i] == (if Satisfies(table, rows[i], ws) then Assign(rows[i], a) else rows[i])
  {
    seq(|rows|, i requires 0 <= i < |rows| => if Satisfies(table, rows[i], ws) then Assign(rows[i], a) else rows[i])
  }

  /** Every key is below the counter, so the counter is a fresh key. */
  ghost predicate KeysBelow(rows: seq<Row>, nextId: nat)
  {
    forall i :: 0 <= i < |rows| ==> rows[i].id < nextId
  }

  /** No two rows share a primary key. */
  ghost predicate UniqueKeys(rows: seq<Row>)
  {
    forall i, j :: 0 <= i < |rows| && 0 <= j < |rows| && rows[i].id == rows[j].id ==> i == j
  }

  /** One versioned table, with its auto-increment counter. */
  class Store {
    const table: string
    var rows: seq<Row>
    var nextId: nat

    ghost predicate Valid()
      reads this
    {
      KeysBelow(rows, nextId) && UniqueKeys(rows)
    }

    constructor (table: string)
      ensures Valid()
      ensures this.table == table && rows == [] && nextId == 1
    {
      this.table := table;
      rows := [];
      nextId := 1;
    }

    /** `insert`: the row is stored under a fresh key, whatever key it carried. */
    method Insert(row: Row) returns (id: nat)
      requires Valid()
      modifies this
      ensures Valid()
      ensures id == old(nextId) && nextId == id + 1
      ensures rows == old(rows) + [row.(id := id)]
    {
      id := nextId;
      rows := rows + [row.(id := id)];
      nextId := nextId + 1;
    }

    /** `update ... where ws`. */
    method Update(ws: seq<WhereClause>, a: Assignment)
      requires Valid()
      modifies this
      ensures Valid()
      ensures nextId == old(nextId)
      ensures rows == UpdateWhere(table, old(rows), ws, a)
    {
      rows := UpdateWhere(table, rows, ws, a);
    }
  }
}
