/** Key lists that pass the count test of the factored form and are selected
    wrongly by it, a family for each condition they violate.  */
module PartitionCounterexamples {
  import opened Sets
  import opened Wrappers
  import opened PartitionFilters
  import opened CartesianProduct
  import opened PartitionPredicate
  import opened PartitionSelection

  ghost predicate PassesCount(keys: seq<Key>)
    requires AllMulti(keys)
  {
    Count(DimValues(keys).Keys, DimValues(keys)) == |keys|
  }

  ghost predicate Gives(keys: seq<Key>, d: string, v: string)
    requires AllMulti(keys)
  {
    exists i :: 0 <= i < |keys| && d in keys[i].dims && v in keys[i].dims[d]
  }

  /** The number of collected values, from their contents. */
  lemma Collected(keys: seq<Key>, d: string, vs: set<string>)
    requires AllMulti(keys) && d in DimsOf(keys)
    requires forall v :: Gives(keys, d, v) <==> v in vs
    ensures d in DimValues(keys) && |DimValues(keys)[d]| == |vs| && forall v :: v in DimValues(keys)[d] <==> v in vs
  {
    hide ValuesOf;
    var q := ValuesOf(keys, d);
    ValuesOfDistinct(keys, d);
    DistinctSize(q);
    forall v
      ensures v in q <==> v in vs
    {
      ValuesOfContents(keys, d, v);
      assert Gives(keys, d, v) <==> v in vs;
    }
    assert (set v | v in q) == vs;
  }

  lemma TwoDims(vals: map<string, seq<string>>, d: string, e: string)
    requires d != e && vals.Keys == {d, e}
    ensures Count(vals.Keys, vals) == |vals[d]| * |vals[e]|
  {
    CountRemove({d, e}, vals, d);
    assert {d, e} - {d} == {e};
    CountRemove({e}, vals, e);
    assert {e} - {e} == {};
  }

  lemma OneDim(vals: map<string, seq<string>>, d: string)
    requires vals.Keys == {d}
    ensures Count(vals.Keys, vals) == |vals[d]|
  {
    CountRemove({d}, vals, d);
    assert {d} - {d} == {};
  }

  lemma AnyMeaning(less: Order, row: Row, col: string, values: seq<string>)
    ensures HoldsDimension(less, row, col, values, None) <==> col in row && row[col] in values
  {
    ColumnFiltersMeaning(less, row, col, values);
  }

  /** Two dimensions with two values each count to four. */
  lemma TwoByTwoValues(keys: seq<Key>, d: string, e: string, vs: set<string>, ws: set<string>)
    requires AllMulti(keys) && d != e && |vs| == 2 && |ws| == 2 && DimsOf(keys) == {d, e}
    requires (forall x :: Gives(keys, d, x) <==> x in vs) && (forall x :: Gives(keys, e, x) <==> x in ws)
    ensures Count(DimValues(keys).Keys, DimValues(keys)) == 4 && DimValues(keys).Keys == {d, e}
    ensures forall x :: x in DimValues(keys)[d] <==> x in vs
    ensures forall x :: x in DimValues(keys)[e] <==> x in ws
  {
    hide ValuesOf, Count, Gives, DimsOf, AllMulti;
    Collected(keys, d, vs);
    Collected(keys, e, ws);
    TwoDims(DimValues(keys), d, e);
  }

  lemma TwoByTwoCounted(keys: seq<Key>, d: string, e: string, vs: set<string>, ws: set<string>)
    requires AllMulti(keys) && |keys| == 4 && d != e && |vs| == 2 && |ws| == 2
    requires forall i :: 0 <= i < 4 ==> keys[i].dims.Keys == {d, e}
    requires (forall x :: Gives(keys, d, x) <==> x in vs) && (forall x :: Gives(keys, e, x) <==> x in ws)
    ensures PassesCount(keys) && DimValues(keys).Keys == {d, e}
    ensures forall x :: x in DimValues(keys)[d] <==> x in vs
    ensures forall x :: x in DimValues(keys)[e] <==> x in ws
  {
    hide ValuesOf, Count, Gives;
    assert DimsOf(keys) == {d, e} by {
      assert keys[0].dims.Keys == {d, e};
    }
    TwoByTwoValues(keys, d, e, vs, ws);
  }

  lemma PairAccepted(less: Order, row: Row, dims: map<string, seq<string>>, d: string, e: string)
    requires dims.Keys == {d, e} && row.Keys == {d, e}
    ensures FactorAccepts(less, row, dims, Static, map[d := d, e := e]) <==> row[d] in dims[d] && row[e] in dims[e]
  {
    hide HoldsDimension;
    AnyMeaning(less, row, d, dims[d]);
    AnyMeaning(less, row, e, dims[e]);
  }

  lemma KeyIsFactor(less: Order, row: Row, k: Key, definition: Definition, names: map<string, string>)
    requires k.Multi? && k.dims.Keys <= names.Keys
    ensures KeyAccepts(less, row, k, definition, names) <==> FactorAccepts(less, row, k.dims, definition, names)
  {
  }

  /** Four keys over two dimensions with two values each pass the count test;
      when none of them has both `v` and `w`, the row that does is selected by
      the factored form and by no key. */
  lemma GapSelected(less: Order, keys: seq<Key>, d: string, e: string, vs: set<string>, ws: set<string>,
                    v: string, w: string)
    requires AllMulti(keys) && |keys| == 4 && d != e && |vs| == 2 && |ws| == 2 && v in vs && w in ws
    requires forall i :: 0 <= i < 4 ==> keys[i].dims.Keys == {d, e} && (v !in keys[i].dims[d] || w !in keys[i].dims[e])
    requires (forall x :: Gives(keys, d, x) <==> x in vs) && (forall x :: Gives(keys, e, x) <==> x in ws)
    ensures PassesCount(keys) && DimValues(keys).Keys == {d, e}
    ensures FactorAccepts(less, map[d := v, e := w], DimValues(keys), Static, map[d := d, e := e])
    ensures !SomeKeyAccepts(less, map[d := v, e := w], keys, Static, map[d := d, e := e])
  {
    hide DimValues, PassesCount, FactorAccepts, KeyAccepts, Gives;
    var row: Row := map[d := v, e := w];
    TwoByTwoCounted(keys, d, e, vs, ws);
    PairAccepted(less, row, DimValues(keys), d, e);
    forall i | 0 <= i < 4
      ensures !KeyAccepts(less, row, keys[i], Static, map[d := d, e := e])
    {
      KeyIsFactor(less, row, keys[i], Static, map[d := d, e := e]);
      PairAccepted(less, row, keys[i].dims, d, e);
    }
  }

  function Pair(d: string, v: string, e: string, w: string): Key {
    Multi(map[d := [v], e := [w]])
  }

  /** Two keys, each given twice. */
  lemma RepeatedKeys(less: Order, d: string, e: string, us: string, eu: string, free: string, pro: string)
    requires d != e && us != eu && free != pro
    ensures var keys := [Pair(d, us, e, free), Pair(d, us, e, free), Pair(d, eu, e, pro), Pair(d, eu, e, pro)];
      var names := map[d := d, e := e];
      && PassesCount(keys) && DimValues(keys).Keys == {d, e}
      && FactorAccepts(less, map[d := us, e := pro], DimValues(keys), Static, names)
      && !SomeKeyAccepts(less, map[d := us, e := pro], keys, Static, names)
  {
    hide FactorAccepts, SomeKeyAccepts, PassesCount;
    var keys := [Pair(d, us, e, free), Pair(d, us, e, free), Pair(d, eu, e, pro), Pair(d, eu, e, pro)];
    assert us in keys[0].dims[d] && eu in keys[2].dims[d] && free in keys[0].dims[e] && pro in keys[2].dims[e];
    assert Gives(keys, d, us) && Gives(keys, d, eu) && Gives(keys, e, free) && Gives(keys, e, pro);
    GapSelected(less, keys, d, e, {us, eu}, {free, pro}, us, pro);
  }

  /** A key with two values in one dimension. */
  lemma MultiValuedKey(less: Order, d: string, e: string, us: string, eu: string, free: string, pro: string)
    requires d != e && us != eu && free != pro
    ensures var keys := [Multi(map[d := [us, eu], e := [free]]),
                         Pair(d, us, e, free), Pair(d, eu, e, pro), Pair(d, eu, e, free)];
      var names := map[d := d, e := e];
      && PassesCount(keys) && DimValues(keys).Keys == {d, e}
      && FactorAccepts(less, map[d := us, e := pro], DimValues(keys), Static, names)
      && !SomeKeyAccepts(less, map[d := us, e := pro], keys, Static, names)
  {
    hide FactorAccepts, SomeKeyAccepts, PassesCount;
    var keys := [Multi(map[d := [us, eu], e := [free]]),
                 Pair(d, us, e, free), Pair(d, eu, e, pro), Pair(d, eu, e, free)];
    assert us in keys[1].dims[d] && eu in keys[2].dims[d] && free in keys[1].dims[e] && pro in keys[2].dims[e];
    assert Gives(keys, d, us) && Gives(keys, d, eu) && Gives(keys, e, free) && Gives(keys, e, pro);
    GapSelected(less, keys, d, e, {us, eu}, {free, pro}, us, pro);
  }

  /** A key without one of the dimensions: its rows are lost. */
  lemma DifferentDimensions(less: Order, d: string, e: string, x: string, z: string, y: string, w: string)
    requires d != e && x != z && w != y
    ensures var keys := [Pair(d, x, e, y), Multi(map[d := [z]])];
      var names := map[d := d, e := e];
      && PassesCount(keys) && DimValues(keys).Keys == {d, e}
      && SomeKeyAccepts(less, map[d := z, e := w], keys, Static, names)
      && !FactorAccepts(less, map[d := z, e := w], DimValues(keys), Static, names)
  {
    hide ValuesOf, Count, HoldsDimension;
    var keys := [Pair(d, x, e, y), Multi(map[d := [z]])];
    var row: Row := map[d := z, e := w];
    assert x in keys[0].dims[d] && z in keys[1].dims[d] && y in keys[0].dims[e];
    assert DimsOf(keys) == {d, e} by {
      assert keys[0].dims.Keys == {d, e};
    }
    assert Gives(keys, d, x) && Gives(keys, d, z) && Gives(keys, e, y);
    Collected(keys, d, {x, z});
    Collected(keys, e, {y});
    TwoDims(DimValues(keys), d, e);
    AnyMeaning(less, row, e, DimValues(keys)[e]);
    AnyMeaning(less, row, d, keys[1].dims[d]);
    assert KeyAccepts(less, row, keys[1], Static, map[d := d, e := e]);
  }

  /** Two values of a time-window dimension, the first with a window, the other
      with or without one: the rows inside the window are lost. */
  lemma TwoWindows(less: Order, d: string, windows: map<string, (string, string)>, v: string, w: string, z: string)
    requires v in windows && v != w && z != v && z != w && !less(z, windows[v].0) && less(z, windows[v].1)
    ensures var keys := [Multi(map[d := [v]]), Multi(map[d := [w]])];
      var definition := MultiDimensional(map[d := TimeWindow(windows)]);
      && PassesCount(keys) && DimValues(keys).Keys == {d}
      && SomeKeyAccepts(less, map[d := z], keys, definition, map[d := d])
      && !FactorAccepts(less, map[d := z], DimValues(keys), definition, map[d := d])
  {
    hide ValuesOf, Count;
    var keys := [Multi(map[d := [v]]), Multi(map[d := [w]])];
    var definition := MultiDimensional(map[d := TimeWindow(windows)]);
    var row: Row := map[d := z];
    assert v in keys[0].dims[d] && w in keys[1].dims[d];
    assert DimsOf(keys) == {d} by {
      assert keys[0].dims.Keys == {d};
    }
    assert Gives(keys, d, v) && Gives(keys, d, w);
    Collected(keys, d, {v, w});
    OneDim(DimValues(keys), d);
    SpreadMeaning(less, row, d, DimValues(keys)[d], DefinitionOf(definition, d));
    assert KeyAccepts(less, row, keys[0], definition, map[d := d]);
  }
}
