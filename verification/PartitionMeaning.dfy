/** Which rows a partition context stands for, said in terms of its keys, its
    definition and the columns alone, and that what is built selects them.  */
module PartitionMeaning {
  import opened Wrappers
  import opened PartitionFilters
  import opened PartitionPredicate
  import opened PartitionSelection
  import opened PartitionText
  import opened SqlText
  import Strings

  type Windows = map<string, (string, string)>

  /** The column lies in the half-open window of the only value, if that has
      one, and otherwise holds one of the values. */
  ghost predicate ValueSelects(less: Order, row: Row, col: string, values: seq<string>, windows: Windows) {
    && col in row
    && if |values| == 1 && values[0] in windows
       then !less(row[col], windows[values[0]].0) && less(row[col], windows[values[0]].1)
       else row[col] in values
  }

  ghost function WindowsOf(definition: Definition): Windows {
    match definition
    case TimeWindow(windows) => windows
    case _ => map[]
  }

  /** The windows of one dimension. */
  ghost function WindowsAt(definition: Definition, dim: string): Windows {
    match definition
    case MultiDimensional(dimensions) => if dim in dimensions then WindowsOf(dimensions[dim]) else map[]
    case _ => map[]
  }

  /** The key can be expressed: a single key over one column, a multi key with a
      column for each of its dimensions. */
  ghost predicate Expressible(key: Key, expr: PartitionExpr) {
    match key
    case Single(_) => expr.Column?
    case Multi(dims) => expr.Columns? && dims.Keys <= expr.names.Keys
    case KeySet(_) => false
  }

  /** The row belongs to the partition. */
  ghost predicate KeySelects(less: Order, row: Row, key: Key, definition: Definition, expr: PartitionExpr)
    requires Expressible(key, expr)
  {
    match key
    case Single(values) => ValueSelects(less, row, expr.name, values, WindowsOf(definition))
    case Multi(dims) =>
      forall d :: d in dims ==> ValueSelects(less, row, expr.names[d], dims[d], WindowsAt(definition, d))
  }

  /** Why a key cannot be expressed. */
  ghost predicate Refused(key: Key, expr: PartitionExpr, e: Error) {
    match key
    case Single(_) => expr.Columns? && e == ValueError
    case Multi(dims) =>
      if expr.Column? then e == ValueError
      else e.KeyError? && e.dim in dims && e.dim !in expr.names
    case KeySet(_) => e == NotImplementedError
  }

  // ------------------------------------------------------------------ one key

  lemma DimensionSelects(less: Order, row: Row, col: string, values: seq<string>, definition: Option<Definition>)
    ensures HoldsDimension(less, row, col, values, definition) <==>
      ValueSelects(less, row, col, values, if definition.Some? then WindowsOf(definition.value) else map[])
  {
    if |values| == 1 && Window(definition, values[0]).Some? {
      var w := Window(definition, values[0]).value;
      var ge, lt := Compare(col, Ge, w.0), Compare(col, Lt, w.1);
      assert DimensionFilters(Dimension(col, values, definition)) == [ge, lt];
      assert ge in [ge, lt] && lt in [ge, lt];
    } else {
      ColumnFiltersMeaning(less, row, col, values);
    }
  }

  lemma SingleSelects(less: Order, row: Row, key: Key, definition: Definition, col: string)
    requires key.Single?
    ensures var r := FiltersForKey(key, definition, Column(col));
      r.Success? && (HoldsAll(less, row, r.value) <==> KeySelects(less, row, key, definition, Column(col)))
  {
    var d := Dimension(col, key.values, Some(definition));
    assert Flatten([d]) == DimensionFilters(d) + Flatten([]) == DimensionFilters(d);
    DimensionSelects(less, row, col, key.values, Some(definition));
  }

  lemma MultiSelects(less: Order, row: Row, key: Key, definition: Definition, names: map<string, string>)
    requires key.Multi?
    ensures var r := FiltersForKey(key, definition, Columns(names));
      && (r.Success? <==> Expressible(key, Columns(names)))
      && (r.Success? ==> (HoldsAll(less, row, r.value) <==> KeySelects(less, row, key, definition, Columns(names))))
  {
    hide HoldsDimension, HoldsAll, ValueSelects, FiltersForKey, DefinitionOf, WindowsAt, WindowsOf;
    MultiKeyFilters(less, row, key, definition, names);
    if key.dims.Keys <= names.Keys {
      forall d | d in key.dims
        ensures HoldsDimension(less, row, names[d], key.dims[d], DefinitionOf(definition, d))
          <==> ValueSelects(less, row, names[d], key.dims[d], WindowsAt(definition, d))
      {
        DimensionSelects(less, row, names[d], key.dims[d], DefinitionOf(definition, d));
        SameWindows(definition, d);
      }
    }
  }

  lemma SameWindows(definition: Definition, d: string)
    ensures WindowsAt(definition, d) ==
      if DefinitionOf(definition, d).Some? then WindowsOf(DefinitionOf(definition, d).value) else map[]
  {
  }

  lemma {:induction false} MissingDimension(order: seq<string>, dims: map<string, seq<string>>, definition: Definition,
                                            names: map<string, string>)
    requires forall d :: d in order ==> d in dims
    ensures var r := Dimensions(order, dims, definition, names);
      r.Failure? ==> r.error.KeyError? && r.error.dim in order && r.error.dim !in names
  {
    if order != [] {
      MissingDimension(order[1..], dims, definition, names);
    }
  }

  /** The filters of a key exist exactly when it can be expressed, and accept
      exactly the rows of its partition. */
  lemma KeyFiltersSelect(less: Order, row: Row, key: Key, definition: Definition, expr: PartitionExpr)
    ensures var r := FiltersForKey(key, definition, expr);
      && (r.Success? <==> Expressible(key, expr))
      && (r.Success? ==> (HoldsAll(less, row, r.value) <==> KeySelects(less, row, key, definition, expr)))
      && (r.Failure? ==> Refused(key, expr, r.error))
  {
    hide HoldsAll, Flatten, Dimensions, Strings.Sorted, KeySelects;
    match key
    case Single(_) =>
      if expr.Column? {
        SingleSelects(less, row, key, definition, expr.name);
      }
    case Multi(dims) =>
      if expr.Columns? {
        MultiSelects(less, row, key, definition, expr.names);
        MissingDimension(Strings.Sorted(dims.Keys), dims, definition, expr.names);
      }
    case KeySet(_) =>
  }

  // ---------------------------------------------------------------- all the keys

  ghost predicate AllExpressible(keys: seq<Key>, expr: PartitionExpr) {
    forall i :: 0 <= i < |keys| ==> Expressible(keys[i], expr)
  }

  ghost predicate SomeKeySelects(less: Order, row: Row, keys: seq<Key>, definition: Definition, expr: PartitionExpr)
    requires AllExpressible(keys, expr)
  {
    exists i :: 0 <= i < |keys| && KeySelects(less, row, keys[i], definition, expr)
  }

  /** The error names what is wrong with one of the keys, or that there is no
      expression. */
  ghost predicate SomeRefused(keys: seq<Key>, expr: Option<PartitionExpr>, e: Error) {
    if expr.None? then e == ValueError
    else exists i :: 0 <= i < |keys| && Refused(keys[i], expr.value, e)
  }

  lemma {:induction false} FailingKey(keys: seq<Key>, definition: Definition, expr: PartitionExpr) returns (i: nat)
    requires FiltersForKeys(keys, definition, expr).Failure?
    ensures i < |keys| && FiltersForKey(keys[i], definition, expr).Failure?
    ensures FiltersForKey(keys[i], definition, expr).error == FiltersForKeys(keys, definition, expr).error
  {
    if FiltersForKey(keys[0], definition, expr).Failure? {
      i := 0;
    } else {
      i := FailingKey(keys[1..], definition, expr);
      i := i + 1;
    }
  }

  /** One conjunction for each key, in order, each accepting exactly the rows of
      its key's partition; or an error that names a key's fault. */
  lemma FiltersSelect(less: Order, row: Row, keys: seq<Key>, definition: Definition, expr: Option<PartitionExpr>)
    ensures var r := BuildPartitionFilters(keys, definition, expr);
      && (r.Success? <==> expr.Some? && AllExpressible(keys, expr.value))
      && (r.Success? ==> |r.value| == |keys| && forall i :: 0 <= i < |keys| ==>
            (HoldsAll(less, row, r.value[i]) <==> KeySelects(less, row, keys[i], definition, expr.value)))
      && (r.Failure? ==> SomeRefused(keys, expr, r.error))
  {
    hide HoldsAll, FiltersForKey, KeySelects, Expressible, Refused;
    if expr.Some? {
      FiltersForKeysSuccess(keys, definition, expr.value);
      forall i | 0 <= i < |keys|
        ensures var f := FiltersForKey(keys[i], definition, expr.value);
          && (f.Success? <==> Expressible(keys[i], expr.value))
          && (f.Success? ==> (HoldsAll(less, row, f.value) <==> KeySelects(less, row, keys[i], definition, expr.value)))
      {
        KeyFiltersSelect(less, row, keys[i], definition, expr.value);
      }
      if FiltersForKeys(keys, definition, expr.value).Failure? {
        var i := FailingKey(keys, definition, expr.value);
        KeyFiltersSelect(less, row, keys[i], definition, expr.value);
      }
    }
  }

  /** The built predicate accepts exactly the rows of the keys' partitions,
      whatever branch built it. */
  lemma BuiltSelects(less: Order, row: Row, keys: seq<Key>, definition: Definition, expr: Option<PartitionExpr>)
    requires FactoringSafe(keys, definition)
    ensures var r := Built(keys, definition, expr);
      && (r.Success? <==> expr.Some? && AllExpressible(keys, expr.value))
      && (r.Success? ==> (Accepts(less, row, r.value) <==> SomeKeySelects(less, row, keys, definition, expr.value)))
  {
    hide HoldsAll, Built, Accepts, FactoringSafe, KeySelects, AllExpressible, BuildPartitionFilters;
    PredicateSelectsKeys(less, row, keys, definition, expr);
    FiltersSelect(less, row, keys, definition, expr);
  }

  lemma AlternativesRefuse(keys: seq<Key>, definition: Definition, expr: PartitionExpr)
    requires Alternatives(keys, definition, expr).Failure?
    ensures SomeRefused(keys, Some(expr), Alternatives(keys, definition, expr).error)
  {
    hide FiltersForKey, Refused;
    var i := FailingKey(keys, definition, expr);
    KeyFiltersSelect((x, y) => false, map[], keys[i], definition, expr);
  }

  lemma FactoredRefuses(keys: seq<Key>, definition: Definition, names: map<string, string>)
    requires AllMulti(keys) && Factored(keys, definition, names).Failure?
    ensures SomeRefused(keys, Some(Columns(names)), Factored(keys, definition, names).error)
  {
    hide Alternatives, Dimensions, Strings.Sorted, ValuesOf;
    var vals := DimValues(keys);
    if Factored(keys, definition, names) == Alternatives(keys, definition, Columns(names)) {
      AlternativesRefuse(keys, definition, Columns(names));
    } else {
      MissingDimension(Strings.Sorted(vals.Keys), vals, definition, names);
      var d := Factored(keys, definition, names).error.dim;
      assert d in DimsOf(keys);
      var i :| 0 <= i < |keys| && d in keys[i].dims;
      assert Refused(keys[i], Columns(names), KeyError(d));
    }
  }

  /** When nothing can be built, the error says what is wrong with some key. */
  lemma BuiltRefuses(keys: seq<Key>, definition: Definition, expr: Option<PartitionExpr>)
    requires Built(keys, definition, expr).Failure?
    ensures SomeRefused(keys, expr, Built(keys, definition, expr).error)
  {
    hide Alternatives, Factored, Flatten;
    if expr.Some? {
      if |keys| == 1 {
        KeyFiltersSelect((x, y) => false, map[], keys[0], definition, expr.value);
      } else if AllSingle(keys) && expr.value.Column? {
        AlternativesRefuse(keys, definition, expr.value);
      } else if AllMulti(keys) && expr.value.Columns? {
        FactoredRefuses(keys, definition, expr.value.names);
      } else {
        AlternativesRefuse(keys, definition, expr.value);
      }
    }
  }

  /** There is something to write, and it can be read back. */
  ghost predicate Writable(keys: seq<Key>, expr: PartitionExpr) {
    PlainExpr(expr) && keys != [] && forall i :: 0 <= i < |keys| ==> HasDimension(keys[i])
  }

  /** The text, read as SQL, accepts the row exactly when it belongs to the
      partition of some key. */
  ghost predicate Selects(less: Order, row: Row, text: string, keys: seq<Key>, definition: Definition,
                          expr: PartitionExpr)
    requires AllExpressible(keys, expr)
  {
    var parsed := Parse(text);
    parsed.Some? && (Eval(less, row, parsed.value) <==> SomeKeySelects(less, row, keys, definition, expr))
  }

  /** The text, read as SQL, selects exactly the rows of the keys' partitions. */
  lemma TextSelects(less: Order, row: Row, keys: seq<Key>, definition: Definition, expr: PartitionExpr)
    requires Writable(keys, expr) && FactoringSafe(keys, definition)
    ensures var text := TextOf(Built(keys, definition, Some(expr)));
      && (text.Success? <==> AllExpressible(keys, expr))
      && (text.Success? ==> Selects(less, row, text.value, keys, definition, expr))
  {
    hide HoldsAll, Built, Parse, Eval, FactoringSafe, KeySelects, AllExpressible, BuildPartitionFilters, TextOf;
    TextSelectsKeys(less, row, keys, definition, expr);
    FiltersSelect(less, row, keys, definition, Some(expr));
  }

  /** `_build_predicate`, down to the text it returns: it selects the rows of the
      keys' partitions, or fails for a key that cannot be expressed. */
  method BuildPredicateText(keys: seq<Key>, definition: Definition, expr: Option<PartitionExpr>)
    returns (r: Result<string, Error>)
    ensures r == TextOf(Built(keys, definition, expr))
    ensures r.Failure? ==> SomeRefused(keys, expr, r.error)
    ensures expr.Some? && Writable(keys, expr.value) && FactoringSafe(keys, definition) ==>
      && (r.Success? <==> AllExpressible(keys, expr.value))
      && (r.Success? ==> forall less, row :: Selects(less, row, r.value, keys, definition, expr.value))
  {
    hide Built, Selects, FactoringSafe, AllExpressible, Writable, SomeRefused;
    var p := BuildPredicate(keys, definition, expr);
    r := if p.Failure? then Failure(p.error) else Success(PredicateText(p.value));
    if r.Failure? {
      BuiltRefuses(keys, definition, expr);
    }
    if expr.Some? && Writable(keys, expr.value) && FactoringSafe(keys, definition) {
      forall less: Order, row: Row
        ensures r.Success? <==> AllExpressible(keys, expr.value)
        ensures r.Success? ==> Selects(less, row, r.value, keys, definition, expr.value)
      {
        TextSelects(less, row, keys, definition, expr.value);
      }
      assert r.Success? <==> AllExpressible(keys, expr.value) by {
        TextSelects((x, y) => false, map[], keys, definition, expr.value);
      }
    }
  }
}
