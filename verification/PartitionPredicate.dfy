/** The predicate built for all the partition keys of a context: merged into
    one IN, factored into one conjunction, or an OR of the keys' own filters.  */
module PartitionPredicate {
  import opened Wrappers
  import opened PartitionFilters
  import opened CartesianProduct
  import Strings

  ghost predicate AllMulti(keys: seq<Key>) {
    forall i :: 0 <= i < |keys| ==> keys[i].Multi?
  }

  ghost predicate AllSingle(keys: seq<Key>) {
    forall i :: 0 <= i < |keys| ==> keys[i].Single?
  }

  // -------------------------------------------------------------- specification

  /** All values of single keys, in order. */
  ghost function AllValues(keys: seq<Key>): seq<string>
    requires AllSingle(keys)
  {
    if keys == [] then [] else AllValues(keys[..|keys| - 1]) + keys[|keys| - 1].values
  }

  /** `values` with those of `more` that are new, in order. */
  ghost function AppendNew(values: seq<string>, more: seq<string>): seq<string> {
    if more == [] then values
    else
      var r := AppendNew(values, more[..|more| - 1]);
      if more[|more| - 1] in r then r else r + [more[|more| - 1]]
  }

  /** The values the keys give dimension `d`, without repetition. */
  ghost function ValuesOf(keys: seq<Key>, d: string): seq<string>
    requires AllMulti(keys)
  {
    if keys == [] then []
    else
      var before, last := ValuesOf(keys[..|keys| - 1], d), keys[|keys| - 1];
      if d in last.dims then AppendNew(before, last.dims[d]) else before
  }

  ghost function DimsOf(keys: seq<Key>): set<string>
    requires AllMulti(keys)
  {
    set i, d | 0 <= i < |keys| && d in keys[i].dims :: d
  }

  ghost function DimValues(keys: seq<Key>): map<string, seq<string>>
    requires AllMulti(keys)
  {
    map d | d in DimsOf(keys) :: ValuesOf(keys, d)
  }

  ghost function Alternatives(keys: seq<Key>, definition: Definition, expr: PartitionExpr): Result<Predicate, Error> {
    var each := FiltersForKeys(keys, definition, expr);
    if each.Failure? then Failure(each.error) else Success(Disjunction(each.value))
  }

  ghost function OneConjunction(dims: Result<seq<Dimension>, Error>): Result<Predicate, Error> {
    if dims.Failure? then Failure(dims.error) else Success(Conjunction(Flatten(dims.value)))
  }

  /** `_build_factored_multi_predicate`. */
  ghost function Factored(keys: seq<Key>, definition: Definition, names: map<string, string>): Result<Predicate, Error>
    requires AllMulti(keys)
  {
    var vals := DimValues(keys);
    if Count(vals.Keys, vals) != |keys| then Alternatives(keys, definition, Columns(names))
    else OneConjunction(Dimensions(Strings.Sorted(vals.Keys), vals, definition, names))
  }

  /** `_build_predicate`. */
  ghost function Built(keys: seq<Key>, definition: Definition, expr: Option<PartitionExpr>): Result<Predicate, Error> {
    if expr.None? then Failure(ValueError)
    else if |keys| == 1 then OneConjunction(KeyDimensions(keys[0], definition, expr.value))
    else if AllSingle(keys) && expr.value.Column? then
      if definition.TimeWindow? then Alternatives(keys, definition, expr.value)
      else Success(Conjunction(ColumnFilters(expr.value.name, AllValues(keys))))
    else if AllMulti(keys) && expr.value.Columns? then Factored(keys, definition, expr.value.names)
    else Alternatives(keys, definition, expr.value)
  }

  // -------------------------------------------------------------- the loops

  method CollectValues(keys: seq<Key>) returns (all: seq<string>)
    requires AllSingle(keys)
    ensures all == AllValues(keys)
  {
    all := [];
    for i := 0 to |keys|
      invariant all == AllValues(keys[..i])
    {
      assert keys[..i + 1][..i] == keys[..i];
      all := all + keys[i].values;
    }
    assert keys[..|keys|] == keys;
  }

  method AddNewValues(values: seq<string>, more: seq<string>) returns (r: seq<string>)
    ensures r == AppendNew(values, more)
  {
    r := values;
    for j := 0 to |more|
      invariant r == AppendNew(values, more[..j])
    {
      assert more[..j + 1][..j] == more[..j];
      if more[j] !in r {
        r := r + [more[j]];
      }
    }
    assert more[..|more|] == more;
  }

  /** The dictionary after some dimensions of the last key were added. */
  ghost predicate PartlyAdded(vals: map<string, seq<string>>, before: map<string, seq<string>>,
                              dims: map<string, seq<string>>, done: set<string>)
    requires done <= dims.Keys
  {
    && vals.Keys == before.Keys + done
    && forall d :: d in vals ==>
         vals[d] == if d in done then AppendNew(if d in before then before[d] else [], dims[d]) else before[d]
  }

  lemma DimsOfStep(keys: seq<Key>, i: nat)
    requires AllMulti(keys) && i < |keys|
    ensures DimsOf(keys[..i + 1]) == DimsOf(keys[..i]) + keys[i].dims.Keys
  {
    var before, after := keys[..i], keys[..i + 1];
    forall d | d in DimsOf(before) + keys[i].dims.Keys
      ensures d in DimsOf(after)
    {
      if d in DimsOf(before) {
        var j :| 0 <= j < |before| && d in before[j].dims;
        assert after[j] == before[j];
      } else {
        assert after[i] == keys[i];
      }
    }
  }

  lemma ValuesOfStep(keys: seq<Key>, i: nat, d: string)
    requires AllMulti(keys) && i < |keys|
    ensures ValuesOf(keys[..i + 1], d) ==
            var before := if d in DimsOf(keys[..i]) then ValuesOf(keys[..i], d) else [];
            if d in keys[i].dims then AppendNew(before, keys[i].dims[d]) else before
  {
    assert keys[..i + 1][..i] == keys[..i];
    if d !in DimsOf(keys[..i]) {
      NoValues(keys[..i], d);
    }
  }

  lemma DimValuesStep(keys: seq<Key>, i: nat, vals: map<string, seq<string>>)
    requires AllMulti(keys) && i < |keys|
    requires PartlyAdded(vals, DimValues(keys[..i]), keys[i].dims, keys[i].dims.Keys)
    ensures vals == DimValues(keys[..i + 1])
  {
    hide AppendNew, DimsOf, ValuesOf;
    DimsOfStep(keys, i);
    forall d | d in vals
      ensures vals[d] == ValuesOf(keys[..i + 1], d)
    {
      ValuesOfStep(keys, i, d);
    }
  }

  lemma {:induction false} NoValues(keys: seq<Key>, d: string)
    requires AllMulti(keys) && d !in DimsOf(keys)
    ensures ValuesOf(keys, d) == []
  {
    if keys != [] {
      var n := |keys| - 1;
      assert d !in keys[n].dims;
      forall i | 0 <= i < n
        ensures d !in keys[..n][i].dims
      {
        assert keys[..n][i] == keys[i];
      }
      NoValues(keys[..n], d);
    }
  }

  /** One key's dimensions enter the dictionary, in any order. */
  method AddKey(before: map<string, seq<string>>, dims: map<string, seq<string>>)
    returns (vals: map<string, seq<string>>)
    ensures PartlyAdded(vals, before, dims, dims.Keys)
  {
    vals := before;
    var rest := dims.Keys;
    while rest != {}
      invariant rest <= dims.Keys
      invariant PartlyAdded(vals, before, dims, dims.Keys - rest)
    {
      var dim :| dim in rest;
      if dim !in vals {
        vals := vals[dim := []];
      }
      var more := AddNewValues(vals[dim], dims[dim]);
      vals := vals[dim := more];
      rest := rest - {dim};
    }
    assert dims.Keys - rest == dims.Keys;
  }

  /** The dictionary `dim_values`. */
  method CollectDimValues(keys: seq<Key>) returns (vals: map<string, seq<string>>)
    requires AllMulti(keys)
    ensures vals == DimValues(keys)
  {
    vals := map[];
    assert vals == DimValues(keys[..0]);
    for i := 0 to |keys|
      invariant vals == DimValues(keys[..i])
    {
      vals := AddKey(vals, keys[i].dims);
      DimValuesStep(keys, i, vals);
    }
    assert keys[..|keys|] == keys;
  }

  method ExpectedCount(vals: map<string, seq<string>>) returns (count: nat)
    ensures count == Count(vals.Keys, vals)
  {
    count := 1;
    var rest := vals.Keys;
    while rest != {}
      invariant rest <= vals.Keys
      invariant count * Count(rest, vals) == Count(vals.Keys, vals)
    {
      var dim :| dim in rest;
      CountRemove(rest, vals, dim);
      Associate(count, |vals[dim]|, Count(rest - {dim}, vals));
      count := count * |vals[dim]|;
      rest := rest - {dim};
    }
  }

  lemma Associate(a: nat, b: nat, c: nat)
    ensures a * (b * c) == (a * b) * c
  {
  }

  method BuildFactored(keys: seq<Key>, definition: Definition, names: map<string, string>)
    returns (r: Result<Predicate, Error>)
    requires AllMulti(keys)
    ensures r == Factored(keys, definition, names)
  {
    var vals := CollectDimValues(keys);
    var count := ExpectedCount(vals);
    if count != |keys| {
      var each := FiltersForKeys(keys, definition, Columns(names));
      r := if each.Failure? then Failure(each.error) else Success(Disjunction(each.value));
    } else {
      var dims := Dimensions(Strings.Sorted(vals.Keys), vals, definition, names);
      r := if dims.Failure? then Failure(dims.error) else Success(Conjunction(Flatten(dims.value)));
    }
  }

  method BuildPredicate(keys: seq<Key>, definition: Definition, expr: Option<PartitionExpr>)
    returns (r: Result<Predicate, Error>)
    ensures r == Built(keys, definition, expr)
  {
    if expr.None? {
      return Failure(ValueError);
    }
    if |keys| == 1 {
      var one := FiltersForKey(keys[0], definition, expr.value);
      return if one.Failure? then Failure(one.error) else Success(Conjunction(one.value));
    }
    var single, multi := true, true;
    for i := 0 to |keys|
      invariant single == AllSingle(keys[..i]) && multi == AllMulti(keys[..i])
    {
      assert keys[..i + 1] == keys[..i] + [keys[i]];
      single := single && keys[i].Single?;
      multi := multi && keys[i].Multi?;
    }
    assert keys[..|keys|] == keys;
    if single && expr.value.Column? {
      if !definition.TimeWindow? {
        var all := CollectValues(keys);
        return Success(Conjunction(ColumnFilters(expr.value.name, all)));
      }
    } else if multi && expr.value.Columns? {
      r := BuildFactored(keys, definition, expr.value.names);
      return;
    }
    var each := FiltersForKeys(keys, definition, expr.value);
    r := if each.Failure? then Failure(each.error) else Success(Disjunction(each.value));
  }
}
