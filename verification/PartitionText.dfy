/** From partition keys to SQL text and back: what the text means.  */
module PartitionText {
  import opened Wrappers
  import opened PartitionFilters
  import opened PartitionPredicate
  import opened PartitionSelection
  import opened SqlText
  import Strings

  ghost function TextOf(p: Result<Predicate, Error>): Result<string, Error> {
    if p.Failure? then Failure(p.error) else Success(PredicateText(p.value))
  }

  // ---------------------------------------------------------- what can be written

  /** The columns of the expression are plain identifiers. */
  ghost predicate PlainExpr(expr: PartitionExpr) {
    match expr
    case Column(name) => IsIdentifier(name)
    case Columns(names) => forall d :: d in names ==> IsIdentifier(names[d])
  }

  ghost predicate HasDimension(k: Key) {
    k.Multi? ==> k.dims.Keys != {}
  }

  ghost predicate PlainDimensions(dims: seq<Dimension>) {
    forall i :: 0 <= i < |dims| ==> IsIdentifier(dims[i].col)
  }

  lemma {:induction false} FlattenPlain(dims: seq<Dimension>)
    requires PlainDimensions(dims)
    ensures PlainColumns(Flatten(dims))
    ensures dims != [] ==> Flatten(dims) != []
  {
    if dims != [] {
      FlattenPlain(dims[1..]);
      var first := DimensionFilters(dims[0]);
      assert |first| >= 1 && forall i :: 0 <= i < |first| ==> first[i].col == dims[0].col;
    }
  }

  lemma DimensionsPlain(dims: map<string, seq<string>>, definition: Definition, names: map<string, string>)
    requires PlainExpr(Columns(names))
    ensures var r := Dimensions(Strings.Sorted(dims.Keys), dims, definition, names);
      r.Success? ==> PlainColumns(Flatten(r.value)) && (dims.Keys != {} ==> Flatten(r.value) != [])
  {
    hide Flatten, Strings.Sorted, PlainColumns;
    var order := Strings.Sorted(dims.Keys);
    assert forall d :: d in order <==> d in dims;
    DimensionsMeaning(order, dims, definition, names);
    var r := Dimensions(order, dims, definition, names);
    if r.Success? {
      forall i | 0 <= i < |order|
        ensures IsIdentifier(r.value[i].col)
      {
        assert order[i] in order;
      }
      FlattenPlain(r.value);
      if dims.Keys != {} {
        var d :| d in dims.Keys;
        assert d in order;
      }
    }
  }

  lemma KeyPlain(k: Key, definition: Definition, expr: PartitionExpr)
    requires PlainExpr(expr) && HasDimension(k)
    ensures var r := FiltersForKey(k, definition, expr); r.Success? ==> r.value != [] && PlainColumns(r.value)
  {
    hide Flatten, Strings.Sorted, Dimensions, PlainColumns;
    match k
    case Single(values) =>
      if expr.Column? {
        FlattenPlain([Dimension(expr.name, values, Some(definition))]);
      }
    case Multi(dims) =>
      if expr.Columns? {
        DimensionsPlain(dims, definition, expr.names);
      }
    case KeySet(_) =>
  }

  lemma AlternativesPlain(keys: seq<Key>, definition: Definition, expr: PartitionExpr)
    requires PlainExpr(expr) && keys != [] && forall i :: 0 <= i < |keys| ==> HasDimension(keys[i])
    ensures var r := Alternatives(keys, definition, expr); r.Success? ==> Writable(r.value)
  {
    hide FiltersForKey, PlainColumns;
    forall i | 0 <= i < |keys|
      ensures var r := FiltersForKey(keys[i], definition, expr); r.Success? ==> r.value != [] && PlainColumns(r.value)
    {
      KeyPlain(keys[i], definition, expr);
    }
  }

  lemma FactoredPlain(keys: seq<Key>, definition: Definition, names: map<string, string>)
    requires AllMulti(keys) && PlainExpr(Columns(names)) && keys != []
    requires forall i :: 0 <= i < |keys| ==> HasDimension(keys[i])
    ensures var r := Factored(keys, definition, names); r.Success? ==> Writable(r.value)
  {
    hide Alternatives, Dimensions, Flatten, PlainColumns, Strings.Sorted;
    var vals := DimValues(keys);
    DimensionsPlain(vals, definition, names);
    AlternativesPlain(keys, definition, Columns(names));
    assert vals.Keys != {} by {
      var d :| d in keys[0].dims.Keys;
      assert d in DimsOf(keys);
    }
  }

  /** A context with keys, each with a dimension, and plain column names always
      has a text to parse. */
  lemma BuiltWritable(keys: seq<Key>, definition: Definition, expr: PartitionExpr)
    requires PlainExpr(expr) && keys != [] && forall i :: 0 <= i < |keys| ==> HasDimension(keys[i])
    ensures var r := Built(keys, definition, Some(expr)); r.Success? ==> Writable(r.value)
  {
    hide Alternatives, Factored, FiltersForKeys, KeyDimensions, Flatten, PlainColumns;
    if |keys| == 1 {
      KeyPlain(keys[0], definition, expr);
    } else if AllSingle(keys) && expr.Column? {
      if definition.TimeWindow? {
        AlternativesPlain(keys, definition, expr);
      } else {
        MergedPlain(expr.name, AllValues(keys));
      }
    } else if AllMulti(keys) && expr.Columns? {
      FactoredPlain(keys, definition, expr.names);
    } else {
      AlternativesPlain(keys, definition, expr);
    }
  }

  lemma MergedPlain(col: string, values: seq<string>)
    requires IsIdentifier(col)
    ensures ColumnFilters(col, values) != [] && PlainColumns(ColumnFilters(col, values))
  {
  }

  // -------------------------------------------------------------------- meaning

  /** The text that is returned, read as SQL, accepts exactly the rows that
      the filters of some key accept. */
  lemma TextSelectsKeys(less: Order, row: Row, keys: seq<Key>, definition: Definition, expr: PartitionExpr)
    requires PlainExpr(expr) && keys != [] && forall i :: 0 <= i < |keys| ==> HasDimension(keys[i])
    requires FactoringSafe(keys, definition)
    ensures var text := TextOf(Built(keys, definition, Some(expr)));
      var each := BuildPartitionFilters(keys, definition, Some(expr));
      && (text.Success? <==> each.Success?)
      && (text.Success? ==>
            var parsed := Parse(text.value);
            parsed.Some? && (Eval(less, row, parsed.value) <==> HoldsSome(less, row, each.value)))
  {
    hide Built, BuildPartitionFilters, Parse, Eval, PredicateText, ConditionOf;
    hide HoldsSome, Accepts, FactoringSafe, Writable;
    var r := Built(keys, definition, Some(expr));
    PredicateSelectsKeys(less, row, keys, definition, Some(expr));
    BuiltWritable(keys, definition, expr);
    if r.Success? {
      TextParses(r.value);
      ConditionMeaning(less, row, r.value);
    }
  }
}
