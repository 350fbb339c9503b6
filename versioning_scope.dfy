/**
 * The global scope that restricts every query of a versioned model to the
 * current rows, and its removal (`withOldVersions`) or inversion
 * (`onlyOldVersions`). A query is its list of where clauses plus the flat,
 * positional list of their bindings.
 */
module VersioningScope {
  import opened Columns
  import opened Database

  /** The scope's column, qualified by the model's table. */
  function ScopeColumn(table: string): (c: string)
    ensures Unqualified(table, c) == IsCurrentVersionColumn
  {
    QualifiedRoundTrip(table, IsCurrentVersionColumn);
    Qualified(table, IsCurrentVersionColumn)
  }

  /** The number of clauses of type `basic`: the running counter of `remove`. */
  function BasicCount(ws: seq<WhereClause>): (n: nat)
    ensures n <= |ws|
  {
    if ws == [] then 0 else BasicCount(ws[..|ws| - 1]) + (if ws[|ws| - 1].Basic? then 1 else 0)
  }

  /** The clauses `remove` keeps: those on any other column, in their order. */
  function KeptClauses(ws: seq<WhereClause>, column: string): (r: seq<WhereClause>)
    ensures forall i :: 0 <= i < |r| ==> r[i].column != column
  {
    if ws == [] then []
    else KeptClauses(ws[..|ws| - 1], column) + (if ws[|ws| - 1].column == column then [] else [ws[|ws| - 1]])
  }

  /**
   * The binding positions `remove` unsets: for each clause on the column,
   * the position given by the basic clauses counted so far, when a binding
   * exists there and equals 1.
   */
  function Unset(ws: seq<WhereClause>, bs: seq<Value>, column: string): set<int>
  {
    if ws == [] then {}
    else
      var k := BasicCount(ws);
      if ws[|ws| - 1].column == column && 1 <= k <= |bs| && bs[k - 1] == Int(1)
      then Unset(ws[..|ws| - 1], bs, column) + {k - 1}
      else Unset(ws[..|ws| - 1], bs, column)
  }

  /** The values left at the positions not in `gone`, renumbered from 0. */
  function Compact(bs: seq<Value>, gone: set<int>): (r: seq<Value>)
    ensures |r| <= |bs|
  {
    if bs == [] then []
    else Compact(bs[..|bs| - 1], gone) + (if |bs| - 1 in gone then [] else [bs[|bs| - 1]])
  }

  /**
   * `apply`: the query is restricted to current rows by one more clause,
   * `table.is_current_version = 1`.
   */
  method Apply(query: Query, table: string)
    modifies query
    ensures query.wheres == old(query.wheres) + [Basic(ScopeColumn(table), Int(1))]
    ensures query.bindings == old(query.bindings) + [Int(1)]
    ensures query.orders == old(query.orders)
  {
    query.Where(ScopeColumn(table), Int(1));
  }

  /**
   * `remove`: every clause on the scope's column is dropped; for each, the
   * binding found by counting basic clauses is dropped when it equals 1;
   * both lists are then renumbered.
   */
  method Remove(query: Query, table: string)
    modifies query`wheres, query`bindings
    ensures query.wheres == KeptClauses(old(query.wheres), ScopeColumn(table))
    ensures query.bindings == Compact(old(query.bindings), Unset(old(query.wheres), old(query.bindings), ScopeColumn(table)))
  {
    var column := ScopeColumn(table);
    var wheres, bindings := query.wheres, query.bindings;
    var kept: seq<WhereClause> := [];
    var unset: set<int> := {};
    var bindKey: nat := 0;
    for i := 0 to |wheres|
      invariant bindKey == BasicCount(wheres[..i])
      invariant kept == KeptClauses(wheres[..i], column)
      invariant unset == Unset(wheres[..i], bindings, column)
    {
      assert wheres[..i + 1] == wheres[..i] + [wheres[i]];
      KeptClausesSnoc(wheres[..i], wheres[i], column);
      UnsetSnoc(wheres[..i], wheres[i], bindings, column);
      if wheres[i].Basic? {
        bindKey := bindKey + 1;
      }
      if wheres[i].column == column {
        if 1 <= bindKey <= |bindings| && bindings[bindKey - 1] == Int(1) {
          unset := unset + {bindKey - 1};
        }
      } else {
        kept := kept + [wheres[i]];
      }
    }
    assert wheres[..|wheres|] == wheres;
    query.wheres := kept;
    query.bindings := Compact(bindings, unset);
  }

  /** The `withOldVersions` macro: the scope removed, so old rows are visible too. */
  method WithOldVersions(query: Query, table: string)
    modifies query`wheres, query`bindings
    ensures query.wheres == KeptClauses(old(query.wheres), ScopeColumn(table))
    ensures query.bindings == Compact(old(query.bindings), Unset(old(query.wheres), old(query.bindings), ScopeColumn(table)))
    ensures forall i :: 0 <= i < |query.wheres| ==> query.wheres[i].column != ScopeColumn(table)
  {
    Remove(query, table);
  }

  /**
   * The `onlyOldVersions` macro: the scope removed and replaced by
   * `table.is_current_version = 0`.
   */
  method OnlyOldVersions(query: Query, table: string)
    modifies query`wheres, query`bindings
    ensures query.wheres == KeptClauses(old(query.wheres), ScopeColumn(table)) + [Basic(ScopeColumn(table), Int(0))]
    ensures query.bindings == Compact(old(query.bindings), Unset(old(query.wheres), old(query.bindings), ScopeColumn(table))) + [Int(0)]
    ensures forall i :: 0 <= i < |query.wheres| ==>
      (query.wheres[i].column == ScopeColumn(table) <==> i == |query.wheres| - 1)
  {
    Remove(query, table);
    var wheres, bindings := query.wheres, query.bindings;
    query.wheres, query.bindings := wheres + [Basic(ScopeColumn(table), Int(0))], bindings + [Int(0)];
  }

  // ---------------------------------------------------------------------
  // What the scope's clauses select
  // ---------------------------------------------------------------------

  /** A row satisfies one more clause iff it satisfies the others and that one. */
  lemma SatisfiesAppend(table: string, row: Row, ws: seq<WhereClause>, w: WhereClause)
    ensures Satisfies(table, row, ws + [w]) <==> Satisfies(table, row, ws) && Holds(table, row, w)
  {
    if Satisfies(table, row, ws) && Holds(table, row, w) {
      forall i | 0 <= i < |ws + [w]| ensures Holds(table, row, (ws + [w])[i]) {
        if i < |ws| {
          assert (ws + [w])[i] == ws[i];
        }
      }
    }
    if Satisfies(table, row, ws + [w]) {
      forall i | 0 <= i < |ws| ensures Holds(table, row, ws[i]) {
        assert (ws + [w])[i] == ws[i];
      }
      assert (ws + [w])[|ws|] == w;
    }
  }

  /** After `apply`, a row is selected iff it was selected before and is current. */
  lemma ApplySelectsCurrent(table: string, row: Row, ws: seq<WhereClause>)
    ensures Satisfies(table, row, ws + [Basic(ScopeColumn(table), Int(1))]) <==> Satisfies(table, row, ws) && row.isCurrent
  {
    SatisfiesAppend(table, row, ws, Basic(ScopeColumn(table), Int(1)));
  }

  /**
   * After `onlyOldVersions`, a row is selected iff it passes the remaining
   * clauses and is not current.
   */
  lemma OnlyOldSelectsArchived(table: string, row: Row, ws: seq<WhereClause>)
    ensures Satisfies(table, row, KeptClauses(ws, ScopeColumn(table)) + [Basic(ScopeColumn(table), Int(0))])
        <==> Satisfies(table, row, KeptClauses(ws, ScopeColumn(table))) && !row.isCurrent
  {
    SatisfiesAppend(table, row, KeptClauses(ws, ScopeColumn(table)), Basic(ScopeColumn(table), Int(0)));
  }

  /** Removing clauses only widens a query: every row selected before still is. */
  lemma RemoveWidens(table: string, row: Row, ws: seq<WhereClause>, column: string)
    requires Satisfies(table, row, ws)
    ensures Satisfies(table, row, KeptClauses(ws, column))
  {
    var r := KeptClauses(ws, column);
    KeptClausesMembers(ws, column);
    forall i | 0 <= i < |r| ensures Holds(table, row, r[i]) {
      assert r[i] in ws;
    }
  }

  // ---------------------------------------------------------------------
  // Clause and binding bookkeeping of `remove`
  // ---------------------------------------------------------------------

  /** Filtering distributes over concatenation, so the kept clauses keep their order. */
  lemma {:induction false} KeptClausesAppend(a: seq<WhereClause>, b: seq<WhereClause>, column: string)
    ensures KeptClauses(a + b, column) == KeptClauses(a, column) + KeptClauses(b, column)
    decreases |b|
  {
    if b == [] {
      assert a + b == a;
    } else {
      var b' := b[..|b| - 1];
      assert (a + b)[..|a + b| - 1] == a + b';
      KeptClausesAppend(a, b', column);
    }
  }

  /**
   * Only bindings equal to 1 are unset, and only at positions the basic
   * clauses reach.
   */
  lemma {:induction false} UnsetOnlyOnes(ws: seq<WhereClause>, bs: seq<Value>, column: string)
    ensures forall k :: k in Unset(ws, bs, column) ==> 0 <= k < |bs| && k < BasicCount(ws) && bs[k] == Int(1)
  {
    if ws != [] {
      UnsetOnlyOnes(ws[..|ws| - 1], bs, column);
    }
  }

  /** The kept clauses are exactly the clauses on other columns. */
  lemma {:induction false} KeptClausesMembers(ws: seq<WhereClause>, column: string)
    ensures forall w :: w in KeptClauses(ws, column) <==> w in ws && w.column != column
  {
    if ws != [] {
      var p := ws[..|ws| - 1];
      KeptClausesMembers(p, column);
      assert ws == p + [ws[|ws| - 1]];
    }
  }

  /** A query with no clause on the column keeps all of its clauses. */
  lemma {:induction false} KeptClausesNone(ws: seq<WhereClause>, column: string)
    requires forall i :: 0 <= i < |ws| ==> ws[i].column != column
    ensures KeptClauses(ws, column) == ws
  {
    if ws != [] {
      var p := ws[..|ws| - 1];
      assert forall i :: 0 <= i < |p| ==> p[i] == ws[i];
      KeptClausesNone(p, column);
      assert ws == p + [ws[|ws| - 1]];
    }
  }

  /** A query with no clause on the column has no binding unset. */
  lemma {:induction false} UnsetNone(ws: seq<WhereClause>, bs: seq<Value>, column: string)
    requires forall i :: 0 <= i < |ws| ==> ws[i].column != column
    ensures Unset(ws, bs, column) == {}
  {
    if ws != [] {
      UnsetNone(ws[..|ws| - 1], bs, column);
    }
  }

  /** Nothing unset, nothing dropped. */
  lemma {:induction false} CompactNone(bs: seq<Value>)
    ensures Compact(bs, {}) == bs
  {
    if bs != [] {
      CompactNone(bs[..|bs| - 1]);
    }
  }

  /** Positions past the end of the list do not matter. */
  lemma {:induction false} CompactBeyond(bs: seq<Value>, gone: set<int>, m: int)
    requires m >= |bs|
    ensures Compact(bs, gone + {m}) == Compact(bs, gone)
  {
    if bs != [] {
      CompactBeyond(bs[..|bs| - 1], gone, m);
    }
  }

  /** The positions unset by a prefix depend only on the bindings that prefix counts. */
  lemma {:induction false} UnsetExtend(ws: seq<WhereClause>, bs: seq<Value>, ext: seq<Value>, column: string)
    requires BasicCount(ws) <= |bs|
    ensures Unset(ws, bs + ext, column) == Unset(ws, bs, column)
  {
    if ws != [] {
      UnsetExtend(ws[..|ws| - 1], bs, ext, column);
      var k := BasicCount(ws);
      if 1 <= k {
        assert (bs + ext)[k - 1] == bs[k - 1];
      }
    }
  }

  /** Without `in` clauses, each basic clause carries exactly one binding. */
  lemma {:induction false} BindingsCountBasic(ws: seq<WhereClause>)
    requires forall i :: 0 <= i < |ws| ==> !ws[i].In?
    ensures |WhereBindings(ws)| == BasicCount(ws)
  {
    if ws != [] {
      BindingsCountBasic(ws[..|ws| - 1]);
    }
  }

  /** One clause more contributes its own bindings at the end. */
  lemma WhereBindingsSnoc(p: seq<WhereClause>, w: WhereClause)
    ensures WhereBindings(p + [w]) == WhereBindings(p) + ClauseBindings(w)
  {
    assert (p + [w])[..|p|] == p;
  }

  /** One clause more is kept at the end, unless it is on the column. */
  lemma KeptClausesSnoc(p: seq<WhereClause>, w: WhereClause, column: string)
    ensures w.column == column ==> KeptClauses(p + [w], column) == KeptClauses(p, column)
    ensures w.column != column ==> KeptClauses(p + [w], column) == KeptClauses(p, column) + [w]
  {
    assert (p + [w])[..|p|] == p;
  }

  /** One clause more unsets at most the position its count reaches. */
  lemma UnsetSnoc(p: seq<WhereClause>, w: WhereClause, bs: seq<Value>, column: string)
    ensures BasicCount(p + [w]) == BasicCount(p) + (if w.Basic? then 1 else 0)
    ensures w.column == column && 1 <= BasicCount(p + [w]) <= |bs| && bs[BasicCount(p + [w]) - 1] == Int(1) ==>
      Unset(p + [w], bs, column) == Unset(p, bs, column) + {BasicCount(p + [w]) - 1}
    ensures !(w.column == column && 1 <= BasicCount(p + [w]) <= |bs| && bs[BasicCount(p + [w]) - 1] == Int(1)) ==>
      Unset(p + [w], bs, column) == Unset(p, bs, column)
  {
    assert (p + [w])[..|p|] == p;
  }

  /** One value more is kept at the end, unless its position is gone. */
  lemma CompactSnoc(bs: seq<Value>, x: Value, gone: set<int>)
    ensures |bs| in gone ==> Compact(bs + [x], gone) == Compact(bs, gone)
    ensures |bs| !in gone ==> Compact(bs + [x], gone) == Compact(bs, gone) + [x]
  {
    assert (bs + [x])[..|bs|] == bs;
  }

  /** The inductive step of `RemoveKeepsAlignment` for a scope clause `= 1`. */
  lemma AlignmentStepScope(p: seq<WhereClause>, column: string)
    requires |WhereBindings(p)| == BasicCount(p)
    requires Compact(WhereBindings(p), Unset(p, WhereBindings(p), column)) == WhereBindings(KeptClauses(p, column))
    ensures
      var ws := p + [Basic(column, Int(1))];
      Compact(WhereBindings(ws), Unset(ws, WhereBindings(ws), column)) == WhereBindings(KeptClauses(ws, column))
  {
    var w := Basic(column, Int(1));
    var ws := p + [w];
    var bp := WhereBindings(p);
    WhereBindingsSnoc(p, w);
    var b := bp + [Int(1)];
    assert WhereBindings(ws) == b;
    UnsetSnoc(p, w, b, column);
    UnsetExtend(p, bp, [Int(1)], column);
    var u := Unset(p, bp, column);
    assert b[|bp|] == Int(1);
    assert Unset(ws, b, column) == u + {|bp|};
    CompactSnoc(bp, Int(1), u + {|bp|});
    CompactBeyond(bp, u, |bp|);
    KeptClausesSnoc(p, w, column);
  }

  /** The inductive step of `RemoveKeepsAlignment` for a clause that is kept. */
  lemma AlignmentStepKept(p: seq<WhereClause>, w: WhereClause, column: string)
    requires !w.In? && w.column != column
    requires |WhereBindings(p)| == BasicCount(p)
    requires Compact(WhereBindings(p), Unset(p, WhereBindings(p), column)) == WhereBindings(KeptClauses(p, column))
    ensures Compact(WhereBindings(p + [w]), Unset(p + [w], WhereBindings(p + [w]), column)) == WhereBindings(KeptClauses(p + [w], column))
  {
    var ws := p + [w];
    var bp := WhereBindings(p);
    WhereBindingsSnoc(p, w);
    var b := bp + ClauseBindings(w);
    UnsetSnoc(p, w, b, column);
    UnsetExtend(p, bp, ClauseBindings(w), column);
    var u := Unset(p, bp, column);
    assert Unset(ws, b, column) == u;
    var kp := KeptClauses(p, column);
    KeptClausesSnoc(p, w, column);
    WhereBindingsSnoc(kp, w);
    if w.Basic? {
      UnsetOnlyOnes(p, bp, column);
      assert |bp| !in u;
      CompactSnoc(bp, w.value, u);
    } else {
      assert b == bp;
    }
  }

  /**
   * `remove` keeps clauses and bindings aligned when the query has no `in`
   * clause and every clause on the column is the scope's own `= 1`: the
   * bindings left are exactly those of the clauses left, in order.
   */
  lemma {:induction false} RemoveKeepsAlignment(ws: seq<WhereClause>, column: string)
    requires forall i :: 0 <= i < |ws| ==> !ws[i].In?
    requires forall i :: 0 <= i < |ws| && ws[i].column == column ==> ws[i] == Basic(column, Int(1))
    ensures Compact(WhereBindings(ws), Unset(ws, WhereBindings(ws), column)) == WhereBindings(KeptClauses(ws, column))
  {
    if ws != [] {
      var p, w := ws[..|ws| - 1], ws[|ws| - 1];
      assert forall i :: 0 <= i < |p| ==> p[i] == ws[i];
      RemoveKeepsAlignment(p, column);
      BindingsCountBasic(p);
      assert ws == p + [w];
      if w.column == column {
        AlignmentStepScope(p, column);
      } else {
        AlignmentStepKept(p, w, column);
      }
    }
  }

  /**
   * `remove` is idempotent: once no clause is on the column, a second call
   * leaves the clauses and the bindings as they are.
   */
  lemma RemoveIdempotent(ws: seq<WhereClause>, bs: seq<Value>, column: string)
    ensures KeptClauses(KeptClauses(ws, column), column) == KeptClauses(ws, column)
    ensures Unset(KeptClauses(ws, column), bs, column) == {}
    ensures Compact(bs, Unset(KeptClauses(ws, column), bs, column)) == bs
  {
    KeptClausesNone(KeptClauses(ws, column), column);
    UnsetNone(KeptClauses(ws, column), bs, column);
    CompactNone(bs);
  }

  /**
   * `remove` undoes `apply` on a query with no clause on the scope's column
   * whose bindings are counted by its basic clauses.
   */
  lemma {:induction false} RemoveUndoesApply(ws: seq<WhereClause>, bs: seq<Value>, table: string)
    requires forall i :: 0 <= i < |ws| ==> ws[i].column != ScopeColumn(table)
    requires |bs| == BasicCount(ws)
    ensures KeptClauses(ws + [Basic(ScopeColumn(table), Int(1))], ScopeColumn(table)) == ws
    ensures Compact(bs + [Int(1)], Unset(ws + [Basic(ScopeColumn(table), Int(1))], bs + [Int(1)], ScopeColumn(table))) == bs
  {
    var column := ScopeColumn(table);
    var ws' := ws + [Basic(column, Int(1))];
    assert ws'[..|ws'| - 1] == ws;
    KeptClausesNone(ws, column);
    UnsetNone(ws, bs + [Int(1)], column);
    assert Unset(ws', bs + [Int(1)], column) == {|bs|};
    assert (bs + [Int(1)])[..|bs|] == bs;
    CompactBeyond(bs, {}, |bs|);
    CompactNone(bs);
  }

  /**
   * Counting only basic clauses misplaces bindings after an `in` clause:
   * removing the scope from `id in (5, 6) and is_current_version = 1`
   * leaves the scope's binding behind, one more binding than clauses need.
   */
  lemma InClauseLeavesOrphanBinding(table: string)
    ensures
      var ws := [In(KeyColumn, [Int(5), Int(6)]), Basic(ScopeColumn(table), Int(1))];
      var bs := WhereBindings(ws);
      && bs == [Int(5), Int(6), Int(1)]
      && KeptClauses(ws, ScopeColumn(table)) == [In(KeyColumn, [Int(5), Int(6)])]
      && Compact(bs, Unset(ws, bs, ScopeColumn(table))) == bs
      && |Compact(bs, Unset(ws, bs, ScopeColumn(table)))| == |WhereBindings(KeptClauses(ws, ScopeColumn(table)))| + 1
  {
    var column := ScopeColumn(table);
    var first := [In(KeyColumn, [Int(5), Int(6)])];
    var ws := first + [Basic(column, Int(1))];
    assert ws == [In(KeyColumn, [Int(5), Int(6)]), Basic(column, Int(1))];
    assert KeyColumn != column by {
      assert |column| == |table| + 1 + |IsCurrentVersionColumn|;
    }
    WhereBindingsSnoc([], first[0]);
    assert [] + first == first;
    assert WhereBindings(first) == [Int(5), Int(6)];
    WhereBindingsSnoc(first, Basic(column, Int(1)));
    var bs := WhereBindings(ws);
    assert bs == [Int(5), Int(6), Int(1)];
    KeptClausesSnoc([], first[0], column);
    KeptClausesSnoc(first, Basic(column, Int(1)), column);
    UnsetSnoc([], first[0], bs, column);
    UnsetSnoc(first, Basic(column, Int(1)), bs, column);
    assert Unset(ws, bs, column) == {};
    CompactNone(bs);
  }

  /**
   * A removed clause whose value is not 1 leaves its binding behind: after
   * `onlyOldVersions`, removing the scope again drops the `= 0` clause but
   * keeps its binding.
   */
  lemma ZeroClauseLeavesOrphanBinding(table: string)
    ensures
      var ws := [Basic(ScopeColumn(table), Int(0))];
      && KeptClauses(ws, ScopeColumn(table)) == []
      && Compact([Int(0)], Unset(ws, [Int(0)], ScopeColumn(table))) == [Int(0)]
  {
    var ws := [Basic(ScopeColumn(table), Int(0))];
    assert ws[..0] == [];
    assert Unset(ws, [Int(0)], ScopeColumn(table)) == {};
    CompactNone([Int(0)]);
  }
}
