/** Exactly when factoring keys into one conjunction selects their rows, and
    key lists that pass the count test and are still selected wrongly.  */
module PartitionExactness {
  import opened Sets
  import opened Wrappers
  import opened PartitionFilters
  import opened CartesianProduct
  import opened PartitionPredicate
  import opened PartitionSelection

  /** Different dimensions have different columns. */
  ghost predicate OwnColumns(dims: set<string>, names: map<string, string>)
    requires dims <= names.Keys
  {
    forall d, e :: d in dims && e in dims && names[d] == names[e] ==> d == e
  }

  /** The row with the columns of `dims` set to the tuple's values. */
  ghost function Overwrite(row: Row, dims: set<string>, names: map<string, string>, t: Tuple): Row
    requires dims <= names.Keys && dims <= t.Keys
  {
    if dims == {} then row
    else
      var d :| d in dims;
      Overwrite(row, dims - {d}, names, t)[names[d] := t[d]]
  }

  lemma {:induction false} OverwriteElsewhere(row: Row, dims: set<string>, names: map<string, string>, t: Tuple,
                                              c: string)
    requires dims <= names.Keys && dims <= t.Keys && forall d :: d in dims ==> names[d] != c
    ensures var r := Overwrite(row, dims, names, t); (c in r <==> c in row) && (c in row ==> r[c] == row[c])
    decreases |dims|
  {
    if dims != {} {
      var d :| d in dims && Overwrite(row, dims, names, t) == Overwrite(row, dims - {d}, names, t)[names[d] := t[d]];
      OverwriteElsewhere(row, dims - {d}, names, t, c);
    }
  }

  lemma {:induction false} OverwriteAt(row: Row, dims: set<string>, names: map<string, string>, t: Tuple, e: string)
    requires dims <= names.Keys && dims <= t.Keys && OwnColumns(dims, names) && e in dims
    ensures var r := Overwrite(row, dims, names, t); names[e] in r && r[names[e]] == t[e]
    decreases |dims|
  {
    var d :| d in dims && Overwrite(row, dims, names, t) == Overwrite(row, dims - {d}, names, t)[names[d] := t[d]];
    if d != e {
      assert names[d] != names[e];
      OverwriteAt(row, dims - {d}, names, t, e);
    }
  }

  /** The dimensions in which the keys differ. */
  ghost function Spread(vals: map<string, seq<string>>): set<string> {
    set d | d in vals && |vals[d]| > 1
  }

  lemma SameColumnSameVerdict(less: Order, a: Row, b: Row, col: string, values: seq<string>,
                              definition: Option<Definition>)
    requires (col in a <==> col in b) && (col in a ==> a[col] == b[col])
    ensures HoldsDimension(less, a, col, values, definition) <==> HoldsDimension(less, b, col, values, definition)
  {
    var fs := DimensionFilters(Dimension(col, values, definition));
    forall f | f in fs
      ensures Holds(less, a, f) <==> Holds(less, b, f)
    {
      assert f.col == col;
    }
  }

  ghost predicate Setting(keys: seq<Key>, dims: set<string>, names: map<string, string>) {
    && Uniform(keys, dims) && keys != []
    && dims <= names.Keys && OwnColumns(dims, names)
    && DimValues(keys).Keys == dims
    && Count(dims, DimValues(keys)) == |keys|
  }

  /** A row accepted by a key, moved to a tuple that no key has, is accepted by
      the factored form. */
  lemma MovedRowFactors(less: Order, row: Row, keys: seq<Key>, dims: set<string>, i: nat, t: Tuple,
                        definition: Definition, names: map<string, string>)
    requires Setting(keys, dims, names) && i < |keys| && Fits(t, dims, DimValues(keys))
    requires KeyAccepts(less, row, keys[i], definition, names)
    ensures FactorAccepts(less, Overwrite(row, Spread(DimValues(keys)), names, t), DimValues(keys), definition, names)
  {
    hide HoldsDimension, DimValues, TupleOf, DefinitionOf, Overwrite, Count;
    var vals := DimValues(keys);
    var moved := Overwrite(row, Spread(vals), names, t);
    forall d | d in vals
      ensures HoldsDimension(less, moved, names[d], vals[d], DefinitionOf(definition, d))
    {
      DimensionOfKey(keys, dims, i, d);
      if |vals[d]| == 1 {
        assert forall e :: e in Spread(vals) ==> names[e] != names[d];
        OverwriteElsewhere(row, Spread(vals), names, t, names[d]);
        SameColumnSameVerdict(less, row, moved, names[d], vals[d], DefinitionOf(definition, d));
      } else {
        OverwriteAt(row, Spread(vals), names, t, d);
        SpreadMeaning(less, moved, names[d], vals[d], DefinitionOf(definition, d));
      }
    }
  }

  lemma MovedRowShows(less: Order, row: Row, keys: seq<Key>, dims: set<string>, j: nat, t: Tuple,
                      definition: Definition, names: map<string, string>)
    requires Setting(keys, dims, names) && j < |keys| && Fits(t, dims, DimValues(keys))
    requires NoWindowSpread(keys, definition)
    requires KeyAccepts(less, Overwrite(row, Spread(DimValues(keys)), names, t), keys[j], definition, names)
    ensures TupleOf(keys[j]) == t
  {
    hide HoldsDimension, DimValues, DefinitionOf, Overwrite, Count;
    var vals := DimValues(keys);
    var moved := Overwrite(row, Spread(vals), names, t);
    forall d | d in dims
      ensures TupleOf(keys[j])[d] == t[d]
    {
      DimensionOfKey(keys, dims, j, d);
      OnlyMember(vals[d], t[d]);
      if |vals[d]| != 1 {
        OverwriteAt(row, Spread(vals), names, t, d);
        PlainMeaning(less, moved, names[d], TupleOf(keys[j])[d], DefinitionOf(definition, d));
      }
    }
  }

  /** Repeated keys that pass the count test leave a tuple out. */
  lemma MissingTuple(keys: seq<Key>, dims: set<string>, names: map<string, string>) returns (t: Tuple)
    requires Setting(keys, dims, names) && !Distinct(keys)
    ensures Fits(t, dims, DimValues(keys)) && t !in TuplesOf(keys, dims)
  {
    hide DimValues, Fits, TupleOf, OwnColumns;
    var vals, ts := DimValues(keys), TuplesOf(keys, dims);
    TuplesDistinct(keys, dims);
    ValuesDistinct(keys, dims);
    forall u | u in ts
      ensures u in Tuples(dims, vals)
    {
      var k :| 0 <= k < |ts| && ts[k] == u;
      ValuesFit(keys, dims, k);
      TuplesIff(dims, vals, u);
    }
    CountedWithRepeats(ts, dims, vals);
    t :| t in Tuples(dims, vals) && t !in ts;
    TuplesIff(dims, vals, t);
  }

  /** The factored form selects the row of such a tuple; no key does. */
  lemma RepeatsOverselect(less: Order, row: Row, keys: seq<Key>, dims: set<string>, i: nat,
                          definition: Definition, names: map<string, string>) returns (moved: Row)
    requires Setting(keys, dims, names) && i < |keys| && !Distinct(keys)
    requires NoWindowSpread(keys, definition) && KeyAccepts(less, row, keys[i], definition, names)
    ensures FactorAccepts(less, moved, DimValues(keys), definition, names)
    ensures !SomeKeyAccepts(less, moved, keys, definition, names)
  {
    hide HoldsDimension, DimValues, DefinitionOf, Overwrite, KeyAccepts, FactorAccepts;
    hide Fits, TupleOf, Count, NoWindowSpread;
    var vals := DimValues(keys);
    var t := MissingTuple(keys, dims, names);
    FitsKeys(t, dims, vals);
    MovedRowFactors(less, row, keys, dims, i, t, definition, names);
    moved := Overwrite(row, Spread(vals), names, t);
    if SomeKeyAccepts(less, moved, keys, definition, names) {
      var j :| 0 <= j < |keys| && KeyAccepts(less, moved, keys[j], definition, names);
      MovedRowShows(less, row, keys, dims, j, t, definition, names);
    }
  }

  lemma FitsKeys(t: Tuple, dims: set<string>, vals: map<string, seq<string>>)
    requires vals.Keys == dims && Fits(t, dims, vals)
    ensures t.Keys == dims
  {
  }

  lemma ValuesDistinct(keys: seq<Key>, dims: set<string>)
    requires Uniform(keys, dims) && DimValues(keys).Keys == dims
    ensures forall d :: d in dims ==> Distinct(DimValues(keys)[d])
  {
    forall d | d in dims
      ensures Distinct(DimValues(keys)[d])
    {
      ValuesOfDistinct(keys, d);
    }
  }

  // ---------------------------------------------------- windows in several values

  lemma {:induction false} Fresh(avoid: set<string>) returns (z: string)
    ensures z !in avoid
    ensures forall x :: x in avoid ==> |x| < |z|
    decreases |avoid|
  {
    if avoid == {} {
      z := "z";
    } else {
      var x :| x in avoid;
      var y := Fresh(avoid - {x});
      z := y + x + "z";
    }
  }

  /** `less`, with `z` moved to right below `end`. */
  ghost function Placed(less: Order, z: string, end: string): Order {
    (x: string, y: string) =>
      if x == z then y != z && !less(y, end) else if y == z then less(x, end) else less(x, y)
  }

  lemma PlacedTransitive(less: Order, z: string, end: string, a: string, b: string, c: string)
    requires StrictOrder(less) && z != end
    requires Placed(less, z, end)(a, b) && Placed(less, z, end)(b, c)
    ensures Placed(less, z, end)(a, c)
  {
    if a != z && b != z && c != z {
      assert less(a, b) && less(b, c);
    } else if b == z {
      assert a != z && c != z && less(a, end) && !less(c, end);
      assert less(end, c) || end == c;
    } else if a == z {
      assert c == z || less(b, c);
    } else {
      assert less(a, b) && less(b, end);
    }
  }

  lemma PlacedStrict(less: Order, z: string, end: string)
    requires StrictOrder(less) && z != end
    ensures StrictOrder(Placed(less, z, end))
  {
    var order := Placed(less, z, end);
    forall a, b, c | order(a, b) && order(b, c)
      ensures order(a, c)
    {
      PlacedTransitive(less, z, end, a, b, c);
    }
    assert forall x, y :: order(x, y) || order(y, x) || x == y;
  }

  /** The filter's bound, if it has one, is not `z`. */
  ghost predicate Bounded(f: Filter, z: string) {
    f.Compare? && !f.op.Eq? ==> f.value != z
  }

  lemma PlacedElsewhere(less: Order, z: string, end: string, a: Row, b: Row, col: string, values: seq<string>,
                        definition: Option<Definition>)
    requires (col in a <==> col in b) && (col in a ==> a[col] == b[col] && a[col] != z)
    requires forall f :: f in DimensionFilters(Dimension(col, values, definition)) ==> Bounded(f, z)
    ensures HoldsDimension(less, a, col, values, definition) <==>
            HoldsDimension(Placed(less, z, end), b, col, values, definition)
  {
    var fs := DimensionFilters(Dimension(col, values, definition));
    forall f | f in fs
      ensures Holds(less, a, f) <==> Holds(Placed(less, z, end), b, f)
    {
      assert f.col == col && Bounded(f, z);
    }
  }

  /** The window bounds of a key. */
  ghost function Bounds(k: Key, definition: Definition): set<string>
    requires k.Multi?
  {
    (set e | e in k.dims && Windowed(k, definition, e) :: WindowOf(k, definition, e).0)
    + (set e | e in k.dims && Windowed(k, definition, e) :: WindowOf(k, definition, e).1)
  }

  ghost predicate Windowed(k: Key, definition: Definition, e: string)
    requires k.Multi? && e in k.dims
  {
    |k.dims[e]| == 1 && Window(DefinitionOf(definition, e), k.dims[e][0]).Some?
  }

  ghost function WindowOf(k: Key, definition: Definition, e: string): (string, string)
    requires k.Multi? && e in k.dims && Windowed(k, definition, e)
  {
    Window(DefinitionOf(definition, e), k.dims[e][0]).value
  }

  lemma OutOfBounds(k: Key, definition: Definition, e: string, col: string, z: string)
    requires k.Multi? && e in k.dims && z !in Bounds(k, definition)
    ensures forall f :: f in DimensionFilters(Dimension(col, k.dims[e], DefinitionOf(definition, e))) ==> Bounded(f, z)
  {
    if Windowed(k, definition, e) {
      assert WindowOf(k, definition, e).0 in Bounds(k, definition);
      assert WindowOf(k, definition, e).1 in Bounds(k, definition);
    }
  }

  lemma WindowMeaning(less: Order, row: Row, col: string, v: string, definition: Option<Definition>)
    requires Window(definition, v).Some?
    ensures var w := Window(definition, v).value;
      HoldsDimension(less, row, col, [v], definition) <==> col in row && !less(row[col], w.0) && less(row[col], w.1)
  {
    var w := Window(definition, v).value;
    var ge, lt := Compare(col, Ge, w.0), Compare(col, Lt, w.1);
    assert DimensionFilters(Dimension(col, [v], definition)) == [ge, lt];
    assert ge in [ge, lt] && lt in [ge, lt];
  }

  /** `z` lies inside a window that some value lies in. */
  lemma PlacedInside(less: Order, z: string, start: string, end: string, inside: string)
    requires StrictOrder(less) && z != start && z != end
    requires !less(inside, start) && less(inside, end)
    ensures !Placed(less, z, end)(z, start) && Placed(less, z, end)(z, end)
  {
    assert start == inside || less(start, inside);
    assert less(start, end);
  }

  /** A row inside the window of one of several values is not in the IN list. */
  lemma WindowsUnderselect(less: Order, row: Row, keys: seq<Key>, dims: set<string>, i: nat, d: string,
                           definition: Definition, names: map<string, string>) returns (order: Order, moved: Row)
    requires Setting(keys, dims, names) && i < |keys| && d in dims && |DimValues(keys)[d]| > 1
    requires Window(DefinitionOf(definition, d), TupleOf(keys[i])[d]).Some?
    requires StrictOrder(less) && KeyAccepts(less, row, keys[i], definition, names)
    ensures StrictOrder(order) && KeyAccepts(order, moved, keys[i], definition, names)
    ensures !FactorAccepts(order, moved, DimValues(keys), definition, names)
  {
    hide HoldsDimension, DimValues, DefinitionOf, Window, Count, StrictOrder, Placed, Bounds;
    var vals, def, k := DimValues(keys), DefinitionOf(definition, d), keys[i];
    var v := TupleOf(k)[d];
    var w := Window(def, v).value;
    var z := Fresh((set x | x in vals[d]) + row.Values + Bounds(k, definition) + {w.0, w.1});
    order := Placed(less, z, w.1);
    moved := row[names[d] := z];
    PlacedStrict(less, z, w.1);
    DimensionOfKey(keys, dims, i, d);
    WindowMeaning(less, row, names[d], v, def);
    PlacedInside(less, z, w.0, w.1, row[names[d]]);
    forall e | e in k.dims
      ensures HoldsDimension(order, moved, names[e], k.dims[e], DefinitionOf(definition, e))
    {
      if e == d {
        WindowMeaning(order, moved, names[d], v, def);
      } else {
        assert names[e] != names[d];
        OutOfBounds(k, definition, e, names[e], z);
        PlacedElsewhere(less, z, w.1, row, moved, names[e], k.dims[e], DefinitionOf(definition, e));
      }
    }
    SpreadMeaning(order, moved, names[d], vals[d], def);
  }

  ghost predicate Equivalent(less: Order, row: Row, keys: seq<Key>, definition: Definition, names: map<string, string>)
    requires AllMulti(keys) && DimValues(keys).Keys <= names.Keys
    requires forall i :: 0 <= i < |keys| ==> keys[i].dims.Keys <= names.Keys
  {
    FactorAccepts(less, row, DimValues(keys), definition, names) <==> SomeKeyAccepts(less, row, keys, definition, names)
  }

  /** The factored form selects exactly the rows of the keys, whatever the rows
      and the order of their values. */
  ghost predicate SelectsExactly(keys: seq<Key>, definition: Definition, names: map<string, string>)
    requires AllMulti(keys) && DimValues(keys).Keys <= names.Keys
    requires forall i :: 0 <= i < |keys| ==> keys[i].dims.Keys <= names.Keys
  {
    forall less: Order, row: Row :: StrictOrder(less) ==> Equivalent(less, row, keys, definition, names)
  }

  ghost predicate SelectableKey(k: Key, definition: Definition, names: map<string, string>)
    requires k.Multi? && k.dims.Keys <= names.Keys
  {
    exists less: Order, row: Row :: StrictOrder(less) && KeyAccepts(less, row, k, definition, names)
  }

  /** Each key selects some row, under some strict total order of values. */
  ghost predicate Selectable(keys: seq<Key>, definition: Definition, names: map<string, string>)
    requires AllMulti(keys) && forall i :: 0 <= i < |keys| ==> keys[i].dims.Keys <= names.Keys
  {
    forall i :: 0 <= i < |keys| ==> SelectableKey(keys[i], definition, names)
  }

  lemma RepeatsFail(keys: seq<Key>, dims: set<string>, definition: Definition, names: map<string, string>)
    requires Setting(keys, dims, names) && Selectable(keys, definition, names)
    requires !Distinct(keys) && NoWindowSpread(keys, definition)
    ensures !SelectsExactly(keys, definition, names)
  {
    hide DimValues, NoWindowSpread, KeyAccepts, FactorAccepts, Count, StrictOrder;
    assert SelectableKey(keys[0], definition, names);
    var less: Order, row: Row :| StrictOrder(less) && KeyAccepts(less, row, keys[0], definition, names);
    var moved := RepeatsOverselect(less, row, keys, dims, 0, definition, names);
    assert !Equivalent(less, moved, keys, definition, names);
  }

  /** The key that brings a windowed value into a dimension with several. */
  lemma WindowedKey(keys: seq<Key>, dims: set<string>, definition: Definition) returns (i: nat, d: string)
    requires Uniform(keys, dims) && DimValues(keys).Keys == dims && !NoWindowSpread(keys, definition)
    ensures i < |keys| && d in dims && |DimValues(keys)[d]| > 1
    ensures Window(DefinitionOf(definition, d), TupleOf(keys[i])[d]).Some?
  {
    hide Window, DefinitionOf, ValuesOf, DimValues;
    var v: string;
    d, v :| d in DimValues(keys) && v in DimValues(keys)[d] && |DimValues(keys)[d]| > 1
            && Window(DefinitionOf(definition, d), v) != None;
    DimValuesAt(keys, d);
    ValuesOfContents(keys, d, v);
    i :| 0 <= i < |keys| && d in keys[i].dims && v in keys[i].dims[d];
    assert TupleOf(keys[i])[d] == v;
  }

  lemma DimValuesAt(keys: seq<Key>, d: string)
    requires AllMulti(keys) && d in DimValues(keys)
    ensures DimValues(keys)[d] == ValuesOf(keys, d)
  {
  }

  lemma WindowsFail(keys: seq<Key>, dims: set<string>, definition: Definition, names: map<string, string>)
    requires Setting(keys, dims, names) && Selectable(keys, definition, names)
    requires !NoWindowSpread(keys, definition)
    ensures !SelectsExactly(keys, definition, names)
  {
    hide DimValues, NoWindowSpread, KeyAccepts, FactorAccepts, Count, TupleOf, Window, DefinitionOf, StrictOrder;
    var i, d := WindowedKey(keys, dims, definition);
    assert SelectableKey(keys[i], definition, names);
    var less: Order, row: Row :| StrictOrder(less) && KeyAccepts(less, row, keys[i], definition, names);
    var order, moved := WindowsUnderselect(less, row, keys, dims, i, d, definition, names);
    assert !Equivalent(order, moved, keys, definition, names);
  }

  /** Single-valued keys over the same dimensions, each with a column of its own,
      that pass the count test are selected exactly by the factored form, for
      every row and every strict total order of values, if and only if they are
      pairwise distinct and no time-window dimension takes more than one value. */
  lemma FactoringExactlyWhen(keys: seq<Key>, dims: set<string>, definition: Definition, names: map<string, string>)
    requires Setting(keys, dims, names) && Selectable(keys, definition, names)
    ensures SelectsExactly(keys, definition, names) <==> Distinct(keys) && NoWindowSpread(keys, definition)
  {
    hide DimValues, NoWindowSpread, FactorAccepts, SomeKeyAccepts, Count, Selectable, StrictOrder;
    if Distinct(keys) && NoWindowSpread(keys, definition) {
      forall less: Order, row: Row
        ensures Equivalent(less, row, keys, definition, names)
      {
        FactoredSelects(less, row, keys, dims, definition, names);
      }
    } else if !NoWindowSpread(keys, definition) {
      WindowsFail(keys, dims, definition, names);
    } else {
      RepeatsFail(keys, dims, definition, names);
    }
  }
}
