/** The built predicate selects the rows of the partition keys, no more and no
    fewer.  */
module PartitionSelection {
  import opened Sets
  import opened Wrappers
  import opened PartitionFilters
  import opened CartesianProduct
  import opened PartitionPredicate
  import Strings

  // ------------------------------------------------------- collected values

  lemma {:induction false} AppendNewFacts(values: seq<string>, more: seq<string>)
    requires Distinct(values)
    ensures Distinct(AppendNew(values, more))
    ensures forall v :: v in AppendNew(values, more) <==> v in values || v in more
  {
    if more != [] {
      var n := |more| - 1;
      AppendNewFacts(values, more[..n]);
      assert forall v :: v in more <==> v in more[..n] || v == more[n];
    }
  }

  lemma {:induction false} ValuesOfDistinct(keys: seq<Key>, d: string)
    requires AllMulti(keys)
    ensures Distinct(ValuesOf(keys, d))
  {
    if keys != [] {
      var n := |keys| - 1;
      ValuesOfDistinct(keys[..n], d);
      if d in keys[n].dims {
        AppendNewFacts(ValuesOf(keys[..n], d), keys[n].dims[d]);
      }
    }
  }

  lemma {:induction false} ValuesOfContents(keys: seq<Key>, d: string, v: string)
    requires AllMulti(keys)
    ensures v in ValuesOf(keys, d) <==> exists i :: 0 <= i < |keys| && d in keys[i].dims && v in keys[i].dims[d]
  {
    if keys != [] {
      var n := |keys| - 1;
      ValuesOfContents(keys[..n], d, v);
      ValuesOfDistinct(keys[..n], d);
      assert forall i :: 0 <= i < n ==> keys[..n][i] == keys[i];
      if d in keys[n].dims {
        AppendNewFacts(ValuesOf(keys[..n], d), keys[n].dims[d]);
      }
    }
  }

  // --------------------------------------------------- single-valued multi keys

  /** All keys give each dimension of `dims`, and no other, one value. */
  ghost predicate Uniform(keys: seq<Key>, dims: set<string>) {
    && AllMulti(keys)
    && forall i :: 0 <= i < |keys| ==> keys[i].dims.Keys == dims && SingleValued(keys[i])
  }

  ghost predicate SingleValued(k: Key)
    requires k.Multi?
  {
    forall d :: d in k.dims ==> |k.dims[d]| == 1
  }

  ghost function TupleOf(k: Key): Tuple
    requires k.Multi? && SingleValued(k)
  {
    map d | d in k.dims :: k.dims[d][0]
  }

  ghost function TuplesOf(keys: seq<Key>, dims: set<string>): (r: seq<Tuple>)
    requires Uniform(keys, dims)
    ensures |r| == |keys| && forall i :: 0 <= i < |keys| ==> r[i] == TupleOf(keys[i])
  {
    seq(|keys|, i requires 0 <= i < |keys| => TupleOf(keys[i]))
  }

  lemma UniformDims(keys: seq<Key>, dims: set<string>)
    requires Uniform(keys, dims) && keys != []
    ensures DimsOf(keys) == dims
  {
    assert keys[0].dims.Keys == dims;
  }

  lemma TupleOfInjective(j: Key, k: Key)
    requires j.Multi? && k.Multi? && SingleValued(j) && SingleValued(k) && TupleOf(j) == TupleOf(k)
    ensures j == k
  {
    assert j.dims.Keys == TupleOf(j).Keys == TupleOf(k).Keys == k.dims.Keys;
    forall d | d in j.dims
      ensures j.dims[d] == k.dims[d]
    {
      assert TupleOf(j)[d] == TupleOf(k)[d];
      assert j.dims[d] == [j.dims[d][0]] && k.dims[d] == [k.dims[d][0]];
    }
    assert j.dims == k.dims;
  }

  lemma TuplesDistinct(keys: seq<Key>, dims: set<string>)
    requires Uniform(keys, dims)
    ensures Distinct(TuplesOf(keys, dims)) <==> Distinct(keys)
  {
    hide TupleOf, SingleValued;
    var ts := TuplesOf(keys, dims);
    if Distinct(keys) {
      forall i, j | 0 <= i < j < |ts|
        ensures ts[i] != ts[j]
      {
        if ts[i] == ts[j] {
          TupleOfInjective(keys[i], keys[j]);
        }
      }
    }
    if Distinct(ts) {
      forall i, j | 0 <= i < j < |keys|
        ensures keys[i] != keys[j]
      {
        assert ts[i] != ts[j];
      }
    }
  }

  lemma ValuesFit(keys: seq<Key>, dims: set<string>, i: nat)
    requires Uniform(keys, dims) && i < |keys|
    ensures DimValues(keys).Keys == dims
    ensures Fits(TupleOf(keys[i]), dims, DimValues(keys))
  {
    UniformDims(keys, dims);
    forall d | d in dims
      ensures TupleOf(keys[i])[d] in DimValues(keys)[d]
    {
      ValuesOfContents(keys, d, keys[i].dims[d][0]);
      assert keys[i].dims[d][0] in keys[i].dims[d];
    }
  }

  /** For distinct keys, the loop's count is the number of keys exactly when
      the keys are the full Cartesian product of the collected values. */
  lemma CountedIffProduct(keys: seq<Key>, dims: set<string>)
    requires Uniform(keys, dims) && keys != [] && Distinct(keys)
    ensures DimValues(keys).Keys == dims
    ensures Count(dims, DimValues(keys)) == |keys| <==>
            (forall t: Tuple :: Fits(t, dims, DimValues(keys)) ==> t in TuplesOf(keys, dims))
  {
    hide Fits, TupleOf, Tuples;
    var vals, ts := DimValues(keys), TuplesOf(keys, dims);
    ValuesFit(keys, dims, 0);
    forall d | d in dims
      ensures Distinct(vals[d])
    {
      ValuesOfDistinct(keys, d);
    }
    forall t | t in ts
      ensures t in Tuples(dims, vals)
    {
      var i :| 0 <= i < |ts| && ts[i] == t;
      ValuesFit(keys, dims, i);
      TuplesIff(dims, vals, t);
    }
    TuplesDistinct(keys, dims);
    CountedIffComplete(ts, dims, vals);
    forall t: Tuple
      ensures t in Tuples(dims, vals) <==> Fits(t, dims, vals)
    {
      TuplesIff(dims, vals, t);
    }
  }

  // ------------------------------------------------------------ the factored form

  /** A dimension with time windows takes one value over all keys. */
  ghost predicate NoWindowSpread(keys: seq<Key>, definition: Definition)
    requires AllMulti(keys)
  {
    forall d, v :: d in DimValues(keys) && v in DimValues(keys)[d] && |DimValues(keys)[d]| > 1 ==>
      Window(DefinitionOf(definition, d), v) == None
  }

  lemma SpreadMeaning(less: Order, row: Row, col: string, values: seq<string>, definition: Option<Definition>)
    requires |values| != 1
    ensures HoldsDimension(less, row, col, values, definition) <==> col in row && row[col] in values
  {
    ColumnFiltersMeaning(less, row, col, values);
  }

  lemma PlainMeaning(less: Order, row: Row, col: string, v: string, definition: Option<Definition>)
    requires Window(definition, v) == None
    ensures HoldsDimension(less, row, col, [v], definition) <==> col in row && row[col] == v
  {
    ColumnFiltersMeaning(less, row, col, [v]);
  }

  /** The key's own filters accept the row. */
  ghost predicate KeyAccepts(less: Order, row: Row, k: Key, definition: Definition, names: map<string, string>)
    requires k.Multi? && k.dims.Keys <= names.Keys
  {
    forall d :: d in k.dims ==> HoldsDimension(less, row, names[d], k.dims[d], DefinitionOf(definition, d))
  }

  /** The factored conjunction accepts the row. */
  ghost predicate FactorAccepts(less: Order, row: Row, vals: map<string, seq<string>>, definition: Definition,
                                names: map<string, string>)
    requires vals.Keys <= names.Keys
  {
    forall d :: d in vals ==> HoldsDimension(less, row, names[d], vals[d], DefinitionOf(definition, d))
  }

  /** How one dimension of a key relates to the collected values. */
  lemma DimensionOfKey(keys: seq<Key>, dims: set<string>, i: nat, d: string)
    requires Uniform(keys, dims) && i < |keys| && d in dims
    ensures d in DimValues(keys) && keys[i].dims[d] == [TupleOf(keys[i])[d]]
    ensures TupleOf(keys[i])[d] in DimValues(keys)[d]
    ensures |DimValues(keys)[d]| >= 1
    ensures |DimValues(keys)[d]| == 1 ==> DimValues(keys)[d] == keys[i].dims[d]
  {
    hide DimValues;
    ValuesFit(keys, dims, i);
    assert keys[i].dims[d] == [TupleOf(keys[i])[d]];
    OnlyMember(DimValues(keys)[d], TupleOf(keys[i])[d]);
  }

  lemma OnlyMember(vs: seq<string>, v: string)
    requires v in vs
    ensures |vs| >= 1 && (|vs| == 1 ==> vs == [v])
  {
  }

  lemma KeyImpliesFactor(less: Order, row: Row, keys: seq<Key>, dims: set<string>, i: nat,
                         definition: Definition, names: map<string, string>)
    requires Uniform(keys, dims) && i < |keys| && dims <= names.Keys && NoWindowSpread(keys, definition)
    requires KeyAccepts(less, row, keys[i], definition, names)
    ensures DimValues(keys).Keys == dims
    ensures FactorAccepts(less, row, DimValues(keys), definition, names)
  {
    hide HoldsDimension, DimValues, TupleOf, Fits, DefinitionOf;
    ValuesFit(keys, dims, i);
    var vals := DimValues(keys);
    forall d | d in vals
      ensures HoldsDimension(less, row, names[d], vals[d], DefinitionOf(definition, d))
    {
      DimensionOfKey(keys, dims, i, d);
      var v := TupleOf(keys[i])[d];
      if |vals[d]| != 1 {
        PlainMeaning(less, row, names[d], v, DefinitionOf(definition, d));
        SpreadMeaning(less, row, names[d], vals[d], DefinitionOf(definition, d));
      }
    }
  }

  /** The tuple of collected values that an accepted row shows. */
  ghost function Shown(row: Row, vals: map<string, seq<string>>, names: map<string, string>): Tuple
    requires vals.Keys <= names.Keys
    requires forall d :: d in vals ==> |vals[d]| == 1 || names[d] in row
  {
    map d | d in vals :: if |vals[d]| == 1 then vals[d][0] else row[names[d]]
  }

  lemma FactorShows(less: Order, row: Row, vals: map<string, seq<string>>, definition: Definition,
                    names: map<string, string>)
    requires vals.Keys <= names.Keys && FactorAccepts(less, row, vals, definition, names)
    ensures forall d :: d in vals ==> |vals[d]| == 1 || names[d] in row
    ensures Fits(Shown(row, vals, names), vals.Keys, vals)
  {
    hide HoldsDimension;
    forall d | d in vals
      ensures |vals[d]| == 1 || (names[d] in row && row[names[d]] in vals[d])
    {
      if |vals[d]| != 1 {
        SpreadMeaning(less, row, names[d], vals[d], DefinitionOf(definition, d));
      }
    }
  }

  lemma ShownKeyAccepts(less: Order, row: Row, keys: seq<Key>, dims: set<string>, i: nat,
                        definition: Definition, names: map<string, string>)
    requires Uniform(keys, dims) && i < |keys| && dims <= names.Keys && NoWindowSpread(keys, definition)
    requires DimValues(keys).Keys == dims && FactorAccepts(less, row, DimValues(keys), definition, names)
    requires forall d :: d in DimValues(keys) ==> |DimValues(keys)[d]| == 1 || names[d] in row
    requires TupleOf(keys[i]) == Shown(row, DimValues(keys), names)
    ensures KeyAccepts(less, row, keys[i], definition, names)
  {
    hide HoldsDimension, DimValues, TupleOf, DefinitionOf;
    var vals := DimValues(keys);
    forall d | d in keys[i].dims
      ensures HoldsDimension(less, row, names[d], keys[i].dims[d], DefinitionOf(definition, d))
    {
      DimensionOfKey(keys, dims, i, d);
      if |vals[d]| != 1 {
        PlainMeaning(less, row, names[d], TupleOf(keys[i])[d], DefinitionOf(definition, d));
      }
    }
  }

  ghost predicate SomeKeyAccepts(less: Order, row: Row, keys: seq<Key>, definition: Definition,
                                 names: map<string, string>)
    requires AllMulti(keys) && forall i :: 0 <= i < |keys| ==> keys[i].dims.Keys <= names.Keys
  {
    exists i :: 0 <= i < |keys| && KeyAccepts(less, row, keys[i], definition, names)
  }

  lemma FactorImpliesKey(less: Order, row: Row, keys: seq<Key>, dims: set<string>,
                         definition: Definition, names: map<string, string>)
    requires Uniform(keys, dims) && keys != [] && Distinct(keys) && dims <= names.Keys
    requires NoWindowSpread(keys, definition)
    requires DimValues(keys).Keys == dims && Count(dims, DimValues(keys)) == |keys|
    requires FactorAccepts(less, row, DimValues(keys), definition, names)
    ensures exists i :: 0 <= i < |keys| && KeyAccepts(less, row, keys[i], definition, names)
  {
    hide DimValues, TupleOf, Fits, NoWindowSpread, Shown, KeyAccepts, FactorAccepts, Uniform, Count;
    assert AllMulti(keys) by { UniformMulti(keys, dims); }
    var vals := DimValues(keys);
    FactorShows(less, row, vals, definition, names);
    CountedIffProduct(keys, dims);
    var t := Shown(row, vals, names);
    var ts := TuplesOf(keys, dims);
    assert t in ts;
    var i :| 0 <= i < |ts| && ts[i] == t;
    UniformMulti(keys, dims);
    ShownKeyAccepts(less, row, keys, dims, i, definition, names);
  }

  lemma UniformMulti(keys: seq<Key>, dims: set<string>)
    requires Uniform(keys, dims)
    ensures AllMulti(keys)
    ensures forall i :: 0 <= i < |keys| ==> keys[i].dims.Keys == dims && SingleValued(keys[i])
  {
  }

  /** The conjunction of INs neither over- nor under-selects. */
  lemma FactoredSelects(less: Order, row: Row, keys: seq<Key>, dims: set<string>,
                        definition: Definition, names: map<string, string>)
    requires Uniform(keys, dims) && keys != [] && Distinct(keys) && dims <= names.Keys
    requires NoWindowSpread(keys, definition)
    requires DimValues(keys).Keys == dims && Count(dims, DimValues(keys)) == |keys|
    ensures FactorAccepts(less, row, DimValues(keys), definition, names) <==>
            SomeKeyAccepts(less, row, keys, definition, names)
  {
    hide DimValues, NoWindowSpread, KeyAccepts, FactorAccepts, Count;
    if SomeKeyAccepts(less, row, keys, definition, names) {
      var i :| 0 <= i < |keys| && KeyAccepts(less, row, keys[i], definition, names);
      KeyImpliesFactor(less, row, keys, dims, i, definition, names);
    }
    if FactorAccepts(less, row, DimValues(keys), definition, names) {
      FactorImpliesKey(less, row, keys, dims, definition, names);
    }
  }

  // ------------------------------------------------------------- every branch

  /** `FiltersForKeys` succeeds exactly when every key has filters. */
  lemma {:induction false} FiltersForKeysSuccess(keys: seq<Key>, definition: Definition, expr: PartitionExpr)
    ensures FiltersForKeys(keys, definition, expr).Success? <==>
            forall i :: 0 <= i < |keys| ==> FiltersForKey(keys[i], definition, expr).Success?
  {
    if keys != [] {
      hide FiltersForKey;
      FiltersForKeysSuccess(keys[1..], definition, expr);
      assert forall i :: 1 <= i < |keys| ==> keys[i] == keys[1..][i - 1];
      assert forall i :: 0 <= i < |keys| - 1 ==> keys[1..][i] == keys[i + 1];
    }
  }

  lemma SortedDimensions(less: Order, row: Row, dims: map<string, seq<string>>, definition: Definition,
                         names: map<string, string>)
    ensures var r := Dimensions(Strings.Sorted(dims.Keys), dims, definition, names);
      && (r.Success? <==> dims.Keys <= names.Keys)
      && (r.Success? ==>
            (HoldsAll(less, row, Flatten(r.value)) <==> FactorAccepts(less, row, dims, definition, names)))
  {
    hide HoldsDimension, HoldsAll, Flatten, Dimensions, DefinitionOf, Strings.Sorted;
    var order := Strings.Sorted(dims.Keys);
    assert forall d :: d in order <==> d in dims;
    DimensionsMeaning(order, dims, definition, names);
    if dims.Keys <= names.Keys {
      DimensionsHold(less, row, dims, definition, names);
    }
  }

  lemma MultiKeyFilters(less: Order, row: Row, k: Key, definition: Definition, names: map<string, string>)
    requires k.Multi?
    ensures var r := FiltersForKey(k, definition, Columns(names));
      && (r.Success? <==> k.dims.Keys <= names.Keys)
      && (r.Success? ==> (HoldsAll(less, row, r.value) <==> KeyAccepts(less, row, k, definition, names)))
  {
    hide HoldsDimension, HoldsAll, Flatten, Dimensions, DefinitionOf, Strings.Sorted;
    SortedDimensions(less, row, k.dims, definition, names);
  }

  lemma SingleKeyFilters(less: Order, row: Row, k: Key, definition: Definition, col: string)
    requires k.Single? && !definition.TimeWindow?
    ensures var r := FiltersForKey(k, definition, Column(col));
      r.Success? && (HoldsAll(less, row, r.value) <==> col in row && row[col] in k.values)
  {
    var d := Dimension(col, k.values, Some(definition));
    assert Flatten([d]) == DimensionFilters(d) + Flatten([]) == DimensionFilters(d);
    ColumnFiltersMeaning(less, row, col, k.values);
  }

  lemma {:induction false} AllValuesContents(keys: seq<Key>, v: string)
    requires AllSingle(keys)
    ensures v in AllValues(keys) <==> exists i :: 0 <= i < |keys| && v in keys[i].values
  {
    if keys != [] {
      var n := |keys| - 1;
      AllValuesContents(keys[..n], v);
      assert forall i :: 0 <= i < n ==> keys[..n][i] == keys[i];
    }
  }

  /** Keys of one dimension merge into one IN, without conditions. */
  lemma MergedSelects(less: Order, row: Row, keys: seq<Key>, definition: Definition, col: string)
    requires AllSingle(keys) && !definition.TimeWindow?
    ensures var each := FiltersForKeys(keys, definition, Column(col));
      each.Success? && (HoldsAll(less, row, ColumnFilters(col, AllValues(keys))) <==> HoldsSome(less, row, each.value))
  {
    hide FiltersForKey, HoldsAll, ColumnFilters;
    forall i | 0 <= i < |keys|
      ensures var r := FiltersForKey(keys[i], definition, Column(col));
        r.Success? && (HoldsAll(less, row, r.value) <==> col in row && row[col] in keys[i].values)
    {
      SingleKeyFilters(less, row, keys[i], definition, col);
    }
    FiltersForKeysSuccess(keys, definition, Column(col));
    ColumnFiltersMeaning(less, row, col, AllValues(keys));
    if col in row {
      AllValuesContents(keys, row[col]);
    }
  }

  /** What the keys of a context must satisfy when the count test passes. */
  ghost predicate FactoringSafe(keys: seq<Key>, definition: Definition) {
    AllMulti(keys) && |keys| >= 2 && Count(DimValues(keys).Keys, DimValues(keys)) == |keys| ==>
      && Distinct(keys)
      && NoWindowSpread(keys, definition)
      && exists dims :: Uniform(keys, dims)
  }

  lemma FactoredKeys(less: Order, row: Row, keys: seq<Key>, definition: Definition, names: map<string, string>)
    requires AllMulti(keys)
    ensures var each := FiltersForKeys(keys, definition, Columns(names));
      && (each.Success? <==> DimsOf(keys) <= names.Keys)
      && (each.Success? ==>
            && (forall i :: 0 <= i < |keys| ==> keys[i].dims.Keys <= names.Keys)
            && (HoldsSome(less, row, each.value) <==> SomeKeyAccepts(less, row, keys, definition, names)))
  {
    hide FiltersForKey, HoldsAll, KeyAccepts;
    var each := FiltersForKeys(keys, definition, Columns(names));
    forall i | 0 <= i < |keys|
      ensures var r := FiltersForKey(keys[i], definition, Columns(names));
        && (r.Success? <==> keys[i].dims.Keys <= names.Keys)
        && (r.Success? ==> (HoldsAll(less, row, r.value) <==> KeyAccepts(less, row, keys[i], definition, names)))
    {
      MultiKeyFilters(less, row, keys[i], definition, names);
    }
    FiltersForKeysSuccess(keys, definition, Columns(names));
    if DimsOf(keys) <= names.Keys {
      forall i | 0 <= i < |keys|
        ensures keys[i].dims.Keys <= names.Keys
      {
        assert keys[i].dims.Keys <= DimsOf(keys);
      }
    }
    if each.Success? {
      forall d | d in DimsOf(keys)
        ensures d in names
      {
        var i :| 0 <= i < |keys| && d in keys[i].dims;
        assert keys[i].dims.Keys <= names.Keys;
      }
    }
  }

  lemma FactoredConjunction(less: Order, row: Row, keys: seq<Key>, definition: Definition, names: map<string, string>)
    requires AllMulti(keys)
    ensures var vals := DimValues(keys);
      var dims := Dimensions(Strings.Sorted(vals.Keys), vals, definition, names);
      && (dims.Success? <==> DimsOf(keys) <= names.Keys)
      && (dims.Success? ==>
            (HoldsAll(less, row, Flatten(dims.value)) <==> FactorAccepts(less, row, vals, definition, names)))
  {
    hide HoldsAll, Flatten, Dimensions, FactorAccepts, ValuesOf, DimsOf, Strings.Sorted;
    SortedDimensions(less, row, DimValues(keys), definition, names);
    assert DimValues(keys).Keys == DimsOf(keys);
  }

  lemma FactoredWhenCounted(less: Order, row: Row, keys: seq<Key>, definition: Definition, names: map<string, string>)
    requires AllMulti(keys) && |keys| >= 2 && Count(DimValues(keys).Keys, DimValues(keys)) == |keys|
    requires FactoringSafe(keys, definition) && DimsOf(keys) <= names.Keys
    ensures DimValues(keys).Keys <= names.Keys && forall i :: 0 <= i < |keys| ==> keys[i].dims.Keys <= names.Keys
    ensures FactorAccepts(less, row, DimValues(keys), definition, names) <==>
            SomeKeyAccepts(less, row, keys, definition, names)
  {
    hide FactorAccepts, SomeKeyAccepts, NoWindowSpread, Count, DimValues;
    var dims :| Uniform(keys, dims);
    UniformDims(keys, dims);
    ValuesFit(keys, dims, 0);
    FactoredSelects(less, row, keys, dims, definition, names);
  }

  lemma FactoredBranch(less: Order, row: Row, keys: seq<Key>, definition: Definition, names: map<string, string>)
    requires AllMulti(keys) && |keys| != 1 && FactoringSafe(keys, definition)
    ensures var r, each := Factored(keys, definition, names), FiltersForKeys(keys, definition, Columns(names));
      && (r.Success? <==> each.Success?)
      && (r.Success? ==> (Accepts(less, row, r.value) <==> HoldsSome(less, row, each.value)))
  {
    hide FiltersForKeys, HoldsAll, HoldsSome, Flatten, Dimensions, FactorAccepts, SomeKeyAccepts, FactoringSafe,
      Count, DimsOf, DimValues, Strings.Sorted;
    var vals := DimValues(keys);
    if Count(vals.Keys, vals) == |keys| {
      FactoredConjunction(less, row, keys, definition, names);
      FactoredKeys(less, row, keys, definition, names);
      if keys == [] {
        NoDims();
        EmptyCount(vals);
      } else if DimsOf(keys) <= names.Keys {
        FactoredWhenCounted(less, row, keys, definition, names);
      }
    }
  }

  lemma NoDims()
    ensures DimsOf([]) == {} && DimValues([]).Keys == {}
  {
  }

  lemma EmptyCount(vals: map<string, seq<string>>)
    requires vals.Keys == {}
    ensures Count(vals.Keys, vals) == 1
  {
  }

  /** In every branch, the built predicate accepts exactly the rows that the
      conjunction of some key accepts; it exists exactly when they do. */
  lemma PredicateSelectsKeys(less: Order, row: Row, keys: seq<Key>, definition: Definition, expr: Option<PartitionExpr>)
    requires FactoringSafe(keys, definition)
    ensures var r, each := Built(keys, definition, expr), BuildPartitionFilters(keys, definition, expr);
      && (r.Success? <==> each.Success?)
      && (r.Success? ==> (Accepts(less, row, r.value) <==> HoldsSome(less, row, each.value)))
  {
    hide HoldsAll, Flatten, Factored, FactoringSafe, KeyDimensions, ColumnFilters;
    if expr.Some? {
      if |keys| == 1 {
        FiltersForKeysSuccess(keys, definition, expr.value);
        assert FiltersForKeys(keys, definition, expr.value).Success? ==>
          HoldsSome(less, row, FiltersForKeys(keys, definition, expr.value).value)
          == HoldsAll(less, row, FiltersForKeys(keys, definition, expr.value).value[0]);
      } else if AllSingle(keys) && expr.value.Column? {
        if !definition.TimeWindow? {
          MergedSelects(less, row, keys, definition, expr.value.name);
        }
      } else if AllMulti(keys) && expr.value.Columns? {
        FactoredBranch(less, row, keys, definition, expr.value.names);
      }
    }
  }
}
