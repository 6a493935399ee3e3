/** Partition keys, the column filters that select them, and the rows those
    filters accept.  */
module PartitionFilters {
  import opened Wrappers
  import Strings

  /** A partitions definition. A time window gives some of its values a
      half-open interval, already formatted; the other kinds give none. */
  datatype Definition =
    | Static
    | Dynamic
    | TimeWindow(windows: map<string, (string, string)>)
    | MultiDimensional(dimensions: map<string, Definition>)

  datatype Key =
    | Single(values: seq<string>)
    | Multi(dims: map<string, seq<string>>)
    | KeySet(keys: seq<Key>)

  /** `PartitionExpr`: one column, or a column per dimension. */
  datatype PartitionExpr = Column(name: string) | Columns(names: map<string, string>)

  datatype Operator = Eq | Ge | Lt

  datatype Filter =
    | Compare(col: string, op: Operator, value: string)
    | In(col: string, values: seq<string>)

  /** A predicate as it is written out: one conjunction, or alternatives. */
  datatype Predicate =
    | Conjunction(filters: seq<Filter>)
    | Disjunction(conjunctions: seq<seq<Filter>>)

  datatype Error = ValueError | KeyError(dim: string) | NotImplementedError

  datatype Dimension = Dimension(col: string, values: seq<string>, definition: Option<Definition>)

  // ------------------------------------------------------------ filters of a key

  function ColumnFilters(col: string, values: seq<string>): seq<Filter> {
    if |values| == 1 then [Compare(col, Eq, values[0])] else [In(col, values)]
  }

  /** The window of one value of a dimension, when it has one. */
  function Window(definition: Option<Definition>, value: string): Option<(string, string)> {
    if definition.Some? && definition.value.TimeWindow? && value in definition.value.windows
    then Some(definition.value.windows[value]) else None
  }

  /** A range for a single time-window value, otherwise an equality or IN. */
  function DimensionFilters(d: Dimension): seq<Filter> {
    if |d.values| == 1 && Window(d.definition, d.values[0]).Some? then
      var w := Window(d.definition, d.values[0]).value;
      [Compare(d.col, Ge, w.0), Compare(d.col, Lt, w.1)]
    else ColumnFilters(d.col, d.values)
  }

  function DefinitionOf(definition: Definition, dim: string): Option<Definition> {
    if definition.MultiDimensional? && dim in definition.dimensions
    then Some(definition.dimensions[dim]) else None
  }

  function Dimensions(order: seq<string>, dims: map<string, seq<string>>, definition: Definition,
                      names: map<string, string>): Result<seq<Dimension>, Error>
    requires forall d :: d in order ==> d in dims
  {
    if order == [] then Success([])
    else if order[0] !in names then Failure(KeyError(order[0]))
    else
      var rest := Dimensions(order[1..], dims, definition, names);
      if rest.Failure? then rest
      else Success([Dimension(names[order[0]], dims[order[0]], DefinitionOf(definition, order[0]))] + rest.value)
  }

  /** `_key_dimensions`; the dimensions of a multi key come sorted by name. */
  function KeyDimensions(key: Key, definition: Definition, expr: PartitionExpr): Result<seq<Dimension>, Error> {
    match key
    case Single(values) =>
      if expr.Columns? then Failure(ValueError)
      else Success([Dimension(expr.name, values, Some(definition))])
    case Multi(dims) =>
      if expr.Column? then Failure(ValueError)
      else Dimensions(Strings.Sorted(dims.Keys), dims, definition, expr.names)
    case KeySet(_) => Failure(NotImplementedError)
  }

  function Flatten(dims: seq<Dimension>): seq<Filter> {
    if dims == [] then [] else DimensionFilters(dims[0]) + Flatten(dims[1..])
  }

  function FiltersForKey(key: Key, definition: Definition, expr: PartitionExpr): Result<seq<Filter>, Error> {
    var dims := KeyDimensions(key, definition, expr);
    if dims.Failure? then Failure(dims.error) else Success(Flatten(dims.value))
  }

  function FiltersForKeys(keys: seq<Key>, definition: Definition, expr: PartitionExpr)
    : (r: Result<seq<seq<Filter>>, Error>)
    ensures r.Success? ==> |r.value| == |keys|
    ensures r.Success? ==> forall i :: 0 <= i < |keys| ==>
              FiltersForKey(keys[i], definition, expr) == Success(r.value[i])
  {
    if keys == [] then Success([])
    else
      var first := FiltersForKey(keys[0], definition, expr);
      if first.Failure? then Failure(first.error)
      else
        var rest := FiltersForKeys(keys[1..], definition, expr);
        if rest.Failure? then rest else Success([first.value] + rest.value)
  }

  /** `_build_partition_filters`: one conjunction per key. */
  function BuildPartitionFilters(keys: seq<Key>, definition: Definition, expr: Option<PartitionExpr>)
    : Result<seq<seq<Filter>>, Error>
  {
    if expr.None? then Failure(ValueError) else FiltersForKeys(keys, definition, expr.value)
  }

  // ---------------------------------------------------------------- row semantics

  /** A row maps its non-null columns to values; `less` orders values. */
  type Row = map<string, string>
  type Order = (string, string) -> bool

  /** What a database orders by: irreflexive, transitive and total. */
  ghost predicate StrictOrder(less: Order) {
    && (forall x :: !less(x, x))
    && (forall x, y, z :: less(x, y) && less(y, z) ==> less(x, z))
    && (forall x, y :: less(x, y) || less(y, x) || x == y)
  }

  predicate Holds(less: Order, row: Row, f: Filter) {
    && f.col in row
    && match f
       case In(c, vs) => row[c] in vs
       case Compare(c, Eq, v) => row[c] == v
       case Compare(c, Ge, v) => !less(row[c], v)
       case Compare(c, Lt, v) => less(row[c], v)
  }

  predicate HoldsAll(less: Order, row: Row, fs: seq<Filter>) {
    forall f :: f in fs ==> Holds(less, row, f)
  }

  ghost predicate HoldsSome(less: Order, row: Row, conjunctions: seq<seq<Filter>>) {
    exists i :: 0 <= i < |conjunctions| && HoldsAll(less, row, conjunctions[i])
  }

  ghost predicate Accepts(less: Order, row: Row, p: Predicate) {
    match p
    case Conjunction(fs) => HoldsAll(less, row, fs)
    case Disjunction(cs) => HoldsSome(less, row, cs)
  }

  lemma HoldsAllAppend(less: Order, row: Row, a: seq<Filter>, b: seq<Filter>)
    ensures HoldsAll(less, row, a + b) <==> HoldsAll(less, row, a) && HoldsAll(less, row, b)
  {
    assert forall f :: f in a + b <==> f in a || f in b;
  }

  /** A conjunction over dimensions holds iff each dimension's part does. */
  lemma {:induction false} HoldsFlatten(less: Order, row: Row, dims: seq<Dimension>)
    ensures HoldsAll(less, row, Flatten(dims)) <==>
            forall i :: 0 <= i < |dims| ==> HoldsAll(less, row, DimensionFilters(dims[i]))
  {
    if dims != [] {
      HoldsFlatten(less, row, dims[1..]);
      HoldsAllAppend(less, row, DimensionFilters(dims[0]), Flatten(dims[1..]));
      assert forall i :: 1 <= i < |dims| ==> dims[i] == dims[1..][i - 1];
      assert forall i :: 0 <= i < |dims| - 1 ==> dims[1..][i] == dims[i + 1];
    }
  }

  lemma ColumnFiltersMeaning(less: Order, row: Row, col: string, values: seq<string>)
    ensures HoldsAll(less, row, ColumnFilters(col, values)) <==> col in row && row[col] in values
  {
    var f := ColumnFilters(col, values)[0];
    assert ColumnFilters(col, values) == [f] && f in [f];
    if |values| == 1 {
      assert col in row ==> (row[col] in values <==> row[col] == values[0]);
    }
  }

  /** Sorting, and where a missing column stops it. */
  lemma {:induction false} DimensionsMeaning(order: seq<string>, dims: map<string, seq<string>>,
                                             definition: Definition, names: map<string, string>)
    requires forall d :: d in order ==> d in dims
    ensures var r := Dimensions(order, dims, definition, names);
      && (r.Success? <==> forall d :: d in order ==> d in names)
      && (r.Success? ==>
            && |r.value| == |order|
            && forall i :: 0 <= i < |order| ==>
                 r.value[i] == Dimension(names[order[i]], dims[order[i]], DefinitionOf(definition, order[i])))
  {
    if order != [] {
      DimensionsMeaning(order[1..], dims, definition, names);
    }
  }

  /** A multi key's filters, dimension by dimension. */
  ghost predicate HoldsDimension(less: Order, row: Row, col: string, values: seq<string>,
                                 definition: Option<Definition>) {
    HoldsAll(less, row, DimensionFilters(Dimension(col, values, definition)))
  }

  lemma DimensionsHold(less: Order, row: Row, dims: map<string, seq<string>>,
                       definition: Definition, names: map<string, string>)
    requires forall d :: d in dims ==> d in names
    ensures var r := Dimensions(Strings.Sorted(dims.Keys), dims, definition, names);
      && r.Success?
      && (HoldsAll(less, row, Flatten(r.value)) <==>
            forall d :: d in dims ==> HoldsDimension(less, row, names[d], dims[d], DefinitionOf(definition, d)))
  {
    hide HoldsAll, DimensionFilters, Flatten, Dimensions, DefinitionOf;
    var order := Strings.Sorted(dims.Keys);
    DimensionsMeaning(order, dims, definition, names);
    var parts := Dimensions(order, dims, definition, names).value;
    HoldsFlatten(less, row, parts);
    if HoldsAll(less, row, Flatten(parts)) {
      forall d | d in dims
        ensures HoldsDimension(less, row, names[d], dims[d], DefinitionOf(definition, d))
      {
        assert d in order;
        var i :| 0 <= i < |order| && order[i] == d;
        assert HoldsAll(less, row, DimensionFilters(parts[i]));
      }
    }
    if forall d :: d in dims ==> HoldsDimension(less, row, names[d], dims[d], DefinitionOf(definition, d)) {
      forall i | 0 <= i < |parts|
        ensures HoldsAll(less, row, DimensionFilters(parts[i]))
      {
        assert order[i] in order;
        assert HoldsDimension(less, row, names[order[i]], dims[order[i]], DefinitionOf(definition, order[i]));
      }
    }
  }
}
