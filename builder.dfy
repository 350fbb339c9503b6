/**
 * The query builder of versioned models: fetching defaults to ordering by
 * model id, and `findAll` fetches by primary key through `findMany`.
 */
module Builder {
  import opened Columns
  import opened Database

  /** The orders a fetch runs with: the query's own, or by model id when it has none. */
  function DefaultOrders(orders: seq<Order>): (r: seq<Order>)
    ensures orders == [] ==> r == [Order(ModelIdColumn, Asc)]
    ensures orders != [] ==> r == orders
    ensures r != []
  {
    if |orders| == 0 then [Order(ModelIdColumn, Asc)] else orders
  }

  /** Adding the default order twice is adding it once. */
  lemma DefaultOrdersIdempotent(orders: seq<Order>)
    ensures DefaultOrders(DefaultOrders(orders)) == DefaultOrders(orders)
  {
  }

  /** Only an empty order list is touched, and then model id is its only order. */
  lemma DefaultOrdersOnlyWhenEmpty(orders: seq<Order>)
    ensures DefaultOrders(orders) == orders <==> orders != []
    ensures orders == [] ==> |DefaultOrders(orders)| == 1 && DefaultOrders(orders)[0].column == ModelIdColumn
  {
  }

  class VersionedBuilder {
    const query: Query
    /** The table of the builder's model, which qualifies its key column. */
    const table: string

    constructor (query: Query, table: string)
      ensures this.query == query && this.table == table
    {
      this.query := query;
      this.table := table;
    }

    /** `first`: the default order is added before the framework fetches one model. */
    method First()
      modifies query`orders
      ensures query.orders == DefaultOrders(old(query.orders))
    {
      if |query.orders| == 0 {
        query.OrderBy(ModelIdColumn);
      }
    }

    /** `getModels`: the default order is added before the framework fetches the models. */
    method GetModels()
      modifies query`orders
      ensures query.orders == DefaultOrders(old(query.orders))
    {
      if |query.orders| == 0 {
        query.OrderBy(ModelIdColumn);
      }
    }

    /**
     * The framework's `findMany`: no ids means no query at all; otherwise a
     * `key in (ids)` clause, then `get`, which runs `getModels`.
     */
    method FindMany(ids: seq<Value>) returns (fetched: bool)
      modifies query`wheres, query`bindings, query`orders
      ensures fetched <==> ids != []
      ensures !fetched ==> unchanged(query)
      ensures fetched ==> query.wheres == old(query.wheres) + [In(Qualified(table, KeyColumn), ids)]
      ensures fetched ==> query.bindings == old(query.bindings) + ids
      ensures fetched ==> query.orders == DefaultOrders(old(query.orders))
    {
      if |ids| == 0 {
        return false;
      }
      query.WhereIn(Qualified(table, KeyColumn), ids);
      GetModels();
      fetched := true;
    }

    /** `findAll(id)`: `findMany` of the one-element list `[id]`. */
    method FindAll(id: Value)
      modifies query`wheres, query`bindings, query`orders
      ensures query.wheres == old(query.wheres) + [In(Qualified(table, KeyColumn), [id])]
      ensures query.bindings == old(query.bindings) + [id]
      ensures query.orders == DefaultOrders(old(query.orders))
    {
      var _ := FindMany([id]);
    }
  }

  /**
   * The clause `findAll(id)` adds selects exactly the rows with that primary
   * key, current or not.
   */
  lemma FindAllSelectsKey(table: string, row: Row, ws: seq<WhereClause>, id: nat)
    ensures Satisfies(table, row, ws + [In(Qualified(table, KeyColumn), [Int(id)])]) <==> Satisfies(table, row, ws) && row.id == id
  {
    var w := In(Qualified(table, KeyColumn), [Int(id)]);
    QualifiedRoundTrip(table, KeyColumn);
    assert Holds(table, row, w) <==> row.id == id;
    if Satisfies(table, row, ws) && row.id == id {
      forall i | 0 <= i < |ws + [w]| ensures Holds(table, row, (ws + [w])[i]) {
        if i < |ws| {
          assert (ws + [w])[i] == ws[i];
        }
      }
    }
    if Satisfies(table, row, ws + [w]) {
      forall i | 0 <= i < |ws| ensures Holds(table, row, ws[i]) {
        assert (ws + [w])[i] == ws[i];
      }
      assert (ws + [w])[|ws|] == w;
    }
  }
}
