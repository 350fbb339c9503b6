/**
 * The version differ: compares the attributes of two model instances, left
 * and right, after dropping the bookkeeping and timestamp columns and any
 * fields the caller names, and reports every left attribute whose value
 * occurs nowhere among the right-hand values.
 */
module VersionDiffer {
  import opened Columns
  import opened Database

  /** A model's class, with the classes it extends or implements. */
  datatype ModelClass = ModelClass(name: string, ancestors: set<string>)

  /** `left instanceof right`: the right object's class is the left's class or one of its ancestors. */
  predicate InstanceOf(left: ModelClass, right: ModelClass)
  {
    right.name == left.name || right.name in left.ancestors
  }

  datatype DiffError = IncompatibleModelMismatch

  datatype Result<T> = Success(value: T) | Failure(error: DiffError)

  /** The fields every diff ignores. */
  const DefaultIgnored: seq<string> := ["is_current_version", "version", "created_at", "updated_at", "deleted_at"]

  /** The keys of one reported change: the positions 0 and 1 and the names `left` and `right`. */
  datatype EntryKey = Position(n: int) | Named(s: string)

  /** A reported change: the left value under `0` and `left`, the right value under `1` and `right`. */
  function Entry(left: Value, right: Value): (e: map<EntryKey, Value>)
    ensures e.Keys == {Position(0), Position(1), Named("left"), Named("right")}
    ensures e[Position(0)] == e[Named("left")] == left
    ensures e[Position(1)] == e[Named("right")] == right
  {
    map[Position(0) := left, Position(1) := right, Named("left") := left, Named("right") := right]
  }

  /** The decimal digits of a natural number. */
  function Decimal(n: nat): (s: string)
    ensures |s| >= 1
  {
    if n < 10 then ["0123456789"[n]] else Decimal(n / 10) + ["0123456789"[n % 10]]
  }

  /** The string form PHP compares values by in `array_diff`. */
  function AsString(v: Value): string
  {
    match v
    case Null => ""
    case Int(i) => if i < 0 then "-" + Decimal(-i) else Decimal(i)
    case Str(s) => s
  }

  /** `array_except`: the attributes minus the ignored fields. */
  function Except(attributes: map<string, Value>, ignored: seq<string>): (r: map<string, Value>)
    ensures forall k :: k in r <==> k in attributes && k !in ignored
    ensures forall k :: k in r ==> r[k] == attributes[k]
  {
    map k | k in attributes && k !in ignored :: attributes[k]
  }

  /** Whether `v` compares equal, as a string, to some value of `m`. */
  predicate AmongValues(v: Value, m: map<string, Value>)
  {
    exists k :: k in m && AsString(m[k]) == AsString(v)
  }

  /**
   * `diff`: an error when the left model is not an instance of the right's
   * class; otherwise, for every left attribute (ignored fields dropped)
   * whose value is among none of the right values, the left value and the
   * right value under the same key (null when the right has none).
   */
  function Diff(leftClass: ModelClass, left: map<string, Value>, rightClass: ModelClass, right: map<string, Value>, ignoredFields: seq<string>): (r: Result<map<string, map<EntryKey, Value>>>)
    ensures r.Failure? <==> !InstanceOf(leftClass, rightClass)
    ensures r.Success? ==> forall k :: k in r.value ==> k in left && k !in DefaultIgnored && k !in ignoredFields
    ensures r.Success? ==> forall k :: k in r.value <==>
      k in left && k !in DefaultIgnored + ignoredFields && !AmongValues(left[k], Except(right, DefaultIgnored + ignoredFields))
    ensures r.Success? ==> forall k :: k in r.value ==>
      r.value[k] == Entry(left[k], if k in right && k !in DefaultIgnored + ignoredFields then right[k] else Null)
  {
    if !InstanceOf(leftClass, rightClass) then Failure(IncompatibleModelMismatch)
    else
      var ignored := DefaultIgnored + ignoredFields;
      Success(Changes(Except(left, ignored), Except(right, ignored)))
  }

  /**
   * The changes between two filtered attribute maps: each left attribute
   * whose value is among none of the right values, with the right value
   * under the same key (null when there is none).
   */
  function Changes(l: map<string, Value>, r: map<string, Value>): (d: map<string, map<EntryKey, Value>>)
  {
    map k | k in l && !AmongValues(l[k], r) :: Entry(l[k], if k in r then r[k] else Null)
  }

  /**
   * Two maps over the same keys that agree everywhere but at `key`, where
   * the left value occurs nowhere on the right, differ exactly at `key`.
   */
  lemma OneEditOneChange(l: map<string, Value>, r: map<string, Value>, key: string)
    requires l.Keys == r.Keys && key in l && !AmongValues(l[key], r)
    requires forall k :: k in l && k != key ==> l[k] == r[k]
    ensures Changes(l, r) == map[key := Entry(l[key], r[key])]
  {
    var d := Changes(l, r);
    forall k | k in l && k != key ensures AmongValues(l[k], r) {
      assert k in r && AsString(r[k]) == AsString(l[k]);
    }
    assert d.Keys == {key};
  }

  /** None of the default ignored fields is ever reported; `model_id` can be. */
  lemma IgnoredNeverReported(leftClass: ModelClass, left: map<string, Value>, rightClass: ModelClass, right: map<string, Value>, ignoredFields: seq<string>)
    requires InstanceOf(leftClass, rightClass)
    ensures IsCurrentVersionColumn !in Diff(leftClass, left, rightClass, right, ignoredFields).value
    ensures VersionColumn !in Diff(leftClass, left, rightClass, right, ignoredFields).value
    ensures "created_at" !in Diff(leftClass, left, rightClass, right, ignoredFields).value
    ensures "updated_at" !in Diff(leftClass, left, rightClass, right, ignoredFields).value
    ensures "deleted_at" !in Diff(leftClass, left, rightClass, right, ignoredFields).value
    ensures forall f :: f in ignoredFields ==> f !in Diff(leftClass, left, rightClass, right, ignoredFields).value
  {
    assert DefaultIgnored[0] == IsCurrentVersionColumn && DefaultIgnored[1] == VersionColumn;
  }

  /** `model_id` is not ignored: a model id that changed is reported. */
  lemma ModelIdReported(c: ModelClass)
    ensures
      var d := Diff(c, map[ModelIdColumn := Int(1)], c, map[ModelIdColumn := Int(2)], []);
      d.Success? && ModelIdColumn in d.value
  {
    var r := Except(map[ModelIdColumn := Int(2)], DefaultIgnored);
    assert ModelIdColumn !in DefaultIgnored;
    assert AsString(Int(1)) == "1" && AsString(Int(2)) == "2";
    assert forall k :: k in r ==> k == ModelIdColumn;
  }

  /** Two models with the same attributes, once the ignored fields are dropped, have no differences. */
  lemma IdenticalHaveNoDifferences(c: ModelClass, left: map<string, Value>, right: map<string, Value>, ignoredFields: seq<string>)
    requires Except(left, DefaultIgnored + ignoredFields) == Except(right, DefaultIgnored + ignoredFields)
    ensures Diff(c, left, c, right, ignoredFields) == Success(map[])
  {
    var ignored := DefaultIgnored + ignoredFields;
    var d := Diff(c, left, c, right, ignoredFields).value;
    forall k | k in left && k !in ignored ensures AmongValues(left[k], Except(right, ignored)) {
      assert k in Except(left, ignored);
    }
    assert d.Keys == {};
  }

  /**
   * Values are compared across keys and by their string form: a value that
   * moved to another key, or changed from an integer to the same digits as a
   * string, is not reported.
   */
  lemma ComparedByValueNotKey(c: ModelClass)
    ensures Diff(c, map["a" := Str("x"), "n" := Int(5)], c, map["a" := Str("y"), "b" := Str("x"), "n" := Str("5")], []) == Success(map[])
  {
    var l := map["a" := Str("x"), "n" := Int(5)];
    var r := map["a" := Str("y"), "b" := Str("x"), "n" := Str("5")];
    assert AsString(Int(5)) == "5";
    assert AmongValues(Str("x"), r) by {
      assert AsString(r["b"]) == "x";
    }
    assert AmongValues(Int(5), r) by {
      assert AsString(r["n"]) == "5";
    }
    forall k | k in l ensures AmongValues(l[k], r) {
      assert k == "a" || k == "n";
    }
    AllFoundNoChanges(l, r);
    NothingIgnored(l);
    NothingIgnored(r);
  }

  /** When every left value occurs among the right values, nothing is reported. */
  lemma AllFoundNoChanges(l: map<string, Value>, r: map<string, Value>)
    requires forall k :: k in l ==> AmongValues(l[k], r)
    ensures Changes(l, r) == map[]
  {
    assert Changes(l, r).Keys == {};
  }

  /** Attributes with single-letter names keep them all when the default fields are dropped. */
  lemma NothingIgnored(m: map<string, Value>)
    requires forall k :: k in m ==> |k| == 1
    ensures Except(m, DefaultIgnored + []) == m
  {
    assert DefaultIgnored + [] == DefaultIgnored;
    assert forall i :: 0 <= i < |DefaultIgnored| ==> |DefaultIgnored[i]| > 1;
  }

  /** The columns of the test suite's `Widget` model that the edit leaves alone. */
  const Unchanged: map<string, Value> := map[ModelIdColumn := Int(1), "gadget_id" := Int(1), "doodad_id" := Int(1)]

  /** A row of the test suite's `Widget` model, with its bookkeeping columns. */
  function TestRow(id: int, name: string, version: int, current: int): map<string, Value>
  {
    Unchanged[KeyColumn := Int(id)]["name" := Str(name)][VersionColumn := Int(version)][IsCurrentVersionColumn := Int(current)]
  }

  /** Dropping the ignored fields from such a row keeps the key, the model id and the payload. */
  lemma ExceptTestRow(id: int, name: string, version: int, current: int)
    ensures Except(TestRow(id, name, version, current), DefaultIgnored + []) == Unchanged[KeyColumn := Int(id)]["name" := Str(name)]
  {
    assert DefaultIgnored + [] == DefaultIgnored;
    assert KeyColumn !in DefaultIgnored && ModelIdColumn !in DefaultIgnored;
    assert "name" !in DefaultIgnored && "gadget_id" !in DefaultIgnored && "doodad_id" !in DefaultIgnored;
    assert DefaultIgnored[0] == IsCurrentVersionColumn && DefaultIgnored[1] == VersionColumn;
  }

  /**
   * The edit of the test suite: the archived row (key 2, version 1) against
   * the edited model (key 1, version 2). The `name` edit is reported with
   * the old value on the left and the new one on the right; the key is
   * reported too, because the archive holds a fresh key that no right value
   * repeats. The model id and the unchanged columns are not reported.
   */
  lemma NameEditReported(c: ModelClass)
    ensures Diff(c, TestRow(2, "Widget", 1, 0), c, TestRow(1, "Updated Widget", 2, 1), [])
         == Success(map["name" := Entry(Str("Widget"), Str("Updated Widget")), KeyColumn := Entry(Int(2), Int(1))])
  {
    ExceptTestRow(2, "Widget", 1, 0);
    ExceptTestRow(1, "Updated Widget", 2, 1);
    KeyAndNameChanged(Unchanged);
  }

  /**
   * Over columns that all hold `1`, one of them the model id, a row with key
   * 2 and one name against a row with key 1 and a new name: the key and the
   * name are the changes.
   */
  lemma KeyAndNameChanged(u: map<string, Value>)
    requires ModelIdColumn in u && forall k :: k in u ==> u[k] == Int(1)
    ensures Changes(u[KeyColumn := Int(2)]["name" := Str("Widget")], u[KeyColumn := Int(1)]["name" := Str("Updated Widget")])
         == map["name" := Entry(Str("Widget"), Str("Updated Widget")), KeyColumn := Entry(Int(2), Int(1))]
  {
    var l := u[KeyColumn := Int(2)]["name" := Str("Widget")];
    var r := u[KeyColumn := Int(1)]["name" := Str("Updated Widget")];
    assert KeyColumn != "name" && ModelIdColumn != "name";
    assert AsString(Int(1)) == "1" && AsString(Int(2)) == "2";
    forall k | k in r ensures AsString(r[k]) == "1" || AsString(r[k]) == "Updated Widget" {
    }
    assert AmongValues(Int(1), r) by {
      assert AsString(r[ModelIdColumn]) == "1";
    }
    var d := Changes(l, r);
    assert d.Keys == {"name", KeyColumn};
    MapOfTwo(d, "name", KeyColumn);
  }

  /** A map on two keys is the display of its two entries. */
  lemma MapOfTwo<K, V>(d: map<K, V>, a: K, b: K)
    requires d.Keys == {a, b}
    ensures d == map[a := d[a], b := d[b]]
  {
  }

  /** The differ refuses models of unrelated classes. */
  lemma MismatchRefused(left: map<string, Value>, right: map<string, Value>)
    ensures Diff(ModelClass("UnusedModel", {"Model"}), left, ModelClass("Widget", {"Model"}), right, []).Failure?
  {
  }
}
