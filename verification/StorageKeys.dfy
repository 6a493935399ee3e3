/** Where the in-memory and the pickle handler keep an asset's partitions: a
    text key that can be read back, so the handlers act as a map keyed by asset
    and partition.  */
module StorageKeys {
  import opened Wrappers
  import opened PartitionFilters
  import Strings

  // -------------------------------------------------------------- texts of keys

  function Segment(dim: string, values: seq<string>): string {
    dim + "=" + Strings.Join(values, "|")
  }

  function Segments(order: seq<string>, dims: map<string, seq<string>>): (r: seq<string>)
    requires forall d :: d in order ==> d in dims
    ensures |r| == |order|
    ensures forall i :: 0 <= i < |order| ==> r[i] == Segment(order[i], dims[order[i]])
  {
    if order == [] then [] else [Segment(order[0], dims[order[0]])] + Segments(order[1..], dims)
  }

  /** `_partition_suffix`; a multi key lists its dimensions sorted by name. */
  function Suffix(partition: Option<Key>): Option<string> {
    match partition
    case Some(Single(values)) => Some(Strings.Join(values, "/"))
    case Some(Multi(dims)) => Some(Strings.Join(Segments(Strings.Sorted(dims.Keys), dims), "/"))
    case _ => None
  }

  /** An asset, or one partition of it. */
  datatype Location = Location(asset: string, partition: Option<Key>)

  /** The two ways of writing a location down. */
  datatype Layout = InMemory | Pickled(prefix: string)

  function StorageKey(layout: Layout, at: Location): string {
    var suffix := Suffix(at.partition);
    match layout
    case InMemory => if suffix.Some? then at.asset + "/" + suffix.value else at.asset
    case Pickled(prefix) =>
      var base := if suffix.Some? then at.asset + "/" + suffix.value + "/data.pkl" else at.asset + ".pkl";
      if prefix == "" then base else prefix + "/" + base
  }

  // ---------------------------------------------------------------- reading back

  /** The place of the first separator, or the end of the text. */
  function Find(text: string, sep: char): (n: nat)
    ensures n <= |text|
    ensures forall i :: 0 <= i < n ==> text[i] != sep
    ensures n < |text| ==> text[n] == sep
  {
    if text == "" || text[0] == sep then 0 else 1 + Find(text[1..], sep)
  }

  lemma FindIn(head: string, sep: char, tail: string)
    requires sep !in head
    ensures Find(head + [sep] + tail, sep) == |head|
    ensures Find(head, sep) == |head|
  {
    var text := head + [sep] + tail;
    assert text[|head|] == sep;
    assert forall i :: 0 <= i < |head| ==> head[i] in head && text[i] == head[i];
  }

  function Split(text: string, sep: char): seq<string>
    decreases |text|
  {
    var n := Find(text, sep);
    if n == |text| then [text] else [text[..n]] + Split(text[n + 1..], sep)
  }

  lemma SplitStep(head: string, sep: char, tail: string)
    requires sep !in head
    ensures Split(head + [sep] + tail, sep) == [head] + Split(tail, sep)
    ensures Split(head, sep) == [head]
  {
    var text := head + [sep] + tail;
    FindIn(head, sep, tail);
    assert text[..|head|] == head && text[|head| + 1..] == tail;
  }

  /** A list of texts without the separator can be read back. */
  lemma {:induction false} SplitJoin(parts: seq<string>, sep: char)
    requires parts != [] && forall p :: p in parts ==> sep !in p
    ensures Split(Strings.Join(parts, [sep]), sep) == parts
  {
    hide Split;
    SplitStep(parts[0], sep, Strings.Join(parts[1..], [sep]));
    if |parts| > 1 {
      SplitJoin(parts[1..], sep);
      assert parts == [parts[0]] + parts[1..];
    } else {
      assert parts == [parts[0]];
    }
  }

  function ReadSegment(segment: string): (string, seq<string>) {
    var n := Find(segment, '=');
    (segment[..n], Split(if n == |segment| then "" else segment[n + 1..], '|'))
  }

  function ReadDims(segments: seq<string>): map<string, seq<string>> {
    if segments == [] then map[]
    else
      var (dim, values) := ReadSegment(segments[0]);
      ReadDims(segments[1..])[dim := values]
  }

  function ReadSuffix(suffix: string): Key {
    var parts := Split(suffix, '/');
    if '=' in parts[0] then Multi(ReadDims(parts)) else Single(parts)
  }

  /** The location of an in-memory key. */
  function ReadKey(key: string): Location {
    var n := Find(key, '/');
    if n == |key| then Location(key, None) else Location(key[..n], Some(ReadSuffix(key[n + 1..])))
  }

  // ------------------------------------------------------------- which are plain

  /** Texts that keep clear of the separators around them. */
  predicate PlainDim(dim: string, values: seq<string>) {
    && '/' !in dim && '=' !in dim
    && values != [] && forall v :: v in values ==> '/' !in v && '|' !in v
  }

  predicate PlainKey(key: Key) {
    match key
    case Single(values) => values != [] && '=' !in values[0] && forall v :: v in values ==> '/' !in v
    case Multi(dims) =>
      dims != map[] && forall d :: d in dims ==> PlainDim(d, dims[d])
    case KeySet(_) => false
  }

  predicate PlainLocation(at: Location) {
    '/' !in at.asset && (at.partition.Some? ==> PlainKey(at.partition.value))
  }

  lemma {:induction false} JoinWithout(parts: seq<string>, sep: char, c: char)
    requires c != sep && forall p :: p in parts ==> c !in p
    ensures c !in Strings.Join(parts, [sep])
  {
    if |parts| > 1 {
      JoinWithout(parts[1..], sep, c);
    }
  }

  lemma SegmentRead(dim: string, values: seq<string>)
    requires PlainDim(dim, values)
    ensures ReadSegment(Segment(dim, values)) == (dim, values)
    ensures '/' !in Segment(dim, values)
    ensures '=' in Segment(dim, values)
  {
    var segment := Segment(dim, values);
    FindIn(dim, '=', Strings.Join(values, "|"));
    assert segment == dim + ['='] + Strings.Join(values, "|");
    assert segment[|dim|] == '=';
    assert segment[..|dim|] == dim && segment[|dim| + 1..] == Strings.Join(values, "|");
    SplitJoin(values, '|');
    JoinWithout(values, '|', '/');
  }

  lemma {:induction false} DimsRead(order: seq<string>, dims: map<string, seq<string>>)
    requires forall d :: d in order ==> d in dims && PlainDim(d, dims[d])
    ensures ReadDims(Segments(order, dims)) == map d | d in order :: dims[d]
  {
    hide PlainDim, ReadSegment, Segment;
    if order != [] {
      var d, rest := order[0], order[1..];
      DimsRead(rest, dims);
      SegmentRead(d, dims[d]);
      assert Segments(order, dims)[1..] == Segments(rest, dims);
    }
  }

  lemma SegmentsPlain(order: seq<string>, dims: map<string, seq<string>>)
    requires forall d :: d in order ==> d in dims && PlainDim(d, dims[d])
    ensures forall s :: s in Segments(order, dims) ==> '/' !in s && '=' in s
  {
    hide PlainDim, Segment, Segments;
    forall i | 0 <= i < |order|
      ensures '/' !in Segment(order[i], dims[order[i]]) && '=' in Segment(order[i], dims[order[i]])
    {
      SegmentRead(order[i], dims[order[i]]);
    }
  }

  lemma SegmentsRead(order: seq<string>, dims: map<string, seq<string>>)
    requires order != [] && forall d :: d in order ==> d in dims && PlainDim(d, dims[d])
    ensures ReadSuffix(Strings.Join(Segments(order, dims), "/")) == Multi(map d | d in order :: dims[d])
  {
    hide PlainDim, Segments, Strings.Join, ReadDims;
    var segments := Segments(order, dims);
    SegmentsPlain(order, dims);
    SplitJoin(segments, '/');
    assert segments[0] in segments;
    DimsRead(order, dims);
  }

  lemma MultiRead(dims: map<string, seq<string>>)
    requires PlainKey(Multi(dims))
    ensures ReadSuffix(Suffix(Some(Multi(dims))).value) == Multi(dims)
  {
    hide PlainDim, Segments, Strings.Join, ReadDims, ReadSuffix, Strings.Sorted;
    var order := Strings.Sorted(dims.Keys);
    assert order != [] by {
      var d :| d in dims;
      assert d in order;
    }
    SegmentsRead(order, dims);
    assert (map d | d in order :: dims[d]) == dims;
  }

  lemma SuffixRead(key: Key)
    requires PlainKey(key)
    ensures Suffix(Some(key)).Some? && ReadSuffix(Suffix(Some(key)).value) == key
  {
    match key
    case Single(values) =>
      SplitJoin(values, '/');
      assert values[0] in values;
    case Multi(dims) => MultiRead(dims);
  }

  /** The in-memory key of a plain location can be read back. */
  lemma KeyRead(at: Location)
    requires PlainLocation(at)
    ensures ReadKey(StorageKey(InMemory, at)) == at
  {
    hide PlainKey, ReadSuffix, Strings.Join, Segments;
    var key := StorageKey(InMemory, at);
    if at.partition.Some? {
      SuffixRead(at.partition.value);
      var suffix := Suffix(at.partition).value;
      FindIn(at.asset, '/', suffix);
      assert key == at.asset + ['/'] + suffix;
      assert key[..|at.asset|] == at.asset && key[|at.asset| + 1..] == suffix;
    } else {
      FindIn(at.asset, '/', "");
    }
  }

  // --------------------------------------------------------------- no two collide

  lemma SameTails(a: string, b: string, tail: string)
    requires a + tail == b + tail
    ensures a == b
  {
    assert |a| == |b|;
    assert (a + tail)[..|a|] == a && (b + tail)[..|b|] == b;
  }

  lemma SameHeads(head: string, a: string, b: string)
    requires head + a == head + b
    ensures a == b
  {
    assert (head + a)[|head|..] == a && (head + b)[|head|..] == b;
  }

  function PickleBase(at: Location): string {
    StorageKey(Pickled(""), at)
  }

  lemma SlashTells(at: Location)
    requires PlainLocation(at)
    ensures '/' in PickleBase(at) <==> at.partition.Some?
  {
    if at.partition.Some? {
      SuffixRead(at.partition.value);
      assert PickleBase(at)[|at.asset|] == '/';
    }
  }

  lemma PickleBaseInjective(a: Location, b: Location)
    requires PlainLocation(a) && PlainLocation(b) && PickleBase(a) == PickleBase(b)
    ensures a == b
  {
    SlashTells(a);
    SlashTells(b);
    if a.partition.Some? {
      SuffixRead(a.partition.value);
      SuffixRead(b.partition.value);
      assert PickleBase(a) == StorageKey(InMemory, a) + "/data.pkl";
      assert PickleBase(b) == StorageKey(InMemory, b) + "/data.pkl";
      SameTails(StorageKey(InMemory, a), StorageKey(InMemory, b), "/data.pkl");
      KeyRead(a);
      KeyRead(b);
    } else {
      SameTails(a.asset, b.asset, ".pkl");
    }
  }

  /** Different plain locations have different keys, in either layout. */
  lemma KeysInjective(layout: Layout, a: Location, b: Location)
    requires PlainLocation(a) && PlainLocation(b) && StorageKey(layout, a) == StorageKey(layout, b)
    ensures a == b
  {
    match layout
    case InMemory =>
      KeyRead(a);
      KeyRead(b);
    case Pickled(prefix) =>
      if prefix != "" {
        assert StorageKey(layout, a) == prefix + "/" + PickleBase(a);
        assert StorageKey(layout, b) == prefix + "/" + PickleBase(b);
        SameHeads(prefix + "/", PickleBase(a), PickleBase(b));
      }
      PickleBaseInjective(a, b);
  }

  // -------------------------------------------------------- order of dimensions

  lemma LeastComesFirst(least: string, dims: set<string>)
    requires Strings.IsLeast(least, dims)
    ensures Strings.Sorted(dims) == [least] + Strings.Sorted(dims - {least})
  {
    Strings.LeastExactlyOne(dims);
  }

  ghost predicate Covers(order: seq<string>, dims: set<string>) {
    forall d :: d in order <==> d in dims
  }

  lemma RestAscends(order: seq<string>, dims: set<string>)
    requires order != [] && Strings.Ordered(order) && Covers(order, dims)
    ensures Strings.Ordered(order[1..]) && Covers(order[1..], dims - {order[0]})
  {
    hide Strings.Leq;
    var rest := order[1..];
    assert forall i :: 0 <= i < |rest| ==> rest[i] == order[i + 1];
  }

  lemma NothingSorted(dims: set<string>)
    requires Covers([], dims)
    ensures Strings.Sorted(dims) == []
  {
    assert dims == {};
  }

  lemma {:induction false} SortedIsUnique(order: seq<string>, dims: set<string>)
    requires Strings.Ordered(order) && Covers(order, dims)
    ensures order == Strings.Sorted(dims)
    decreases |order|
  {
    hide Strings.Ordered, Covers, Strings.Sorted;
    if order == [] {
      NothingSorted(dims);
    } else {
      FirstIsLeast(order, dims);
      LeastComesFirst(order[0], dims);
      RestAscends(order, dims);
      SortedIsUnique(order[1..], dims - {order[0]});
    }
  }

  lemma FirstIsLeast(order: seq<string>, dims: set<string>)
    requires order != [] && Strings.Ordered(order) && Covers(order, dims)
    ensures Strings.IsLeast(order[0], dims)
  {
    Strings.LeqTotal(order[0], order[0]);
    forall d | d in dims
      ensures Strings.Leq(order[0], d)
    {
      var i :| 0 <= i < |order| && order[i] == d;
    }
  }

  /** However the dimensions were inserted, sorting them gives one suffix. */
  lemma SuffixIgnoresInsertion(dims: map<string, seq<string>>, order: seq<string>)
    requires Strings.Ordered(order) && forall d :: d in order <==> d in dims
    ensures Suffix(Some(Multi(dims))) == Some(Strings.Join(Segments(order, dims), "/"))
  {
    SortedIsUnique(order, dims.Keys);
  }

  // ------------------------------------------------------ without plain locations

  /** A slash in an asset's name makes a partition of it collide with one of
      another asset. */
  lemma SlashInAsset(asset: string, a: string, b: string, layout: Layout)
    ensures var longer, shorter := Location(asset + "/" + a, Some(Single([b]))), Location(asset, Some(Single([a, b])));
      longer != shorter && StorageKey(layout, longer) == StorageKey(layout, shorter)
  {
    assert [a, b][1..] == [b];
    assert Strings.Join([a, b], "/") == a + "/" + b;
    assert asset + "/" + (a + "/" + b) == (asset + "/" + a) + "/" + b;
    assert |asset + "/" + a| != |asset|;
  }

  /** Or the whole asset with a partition of the other. */
  lemma SlashInWholeAsset(asset: string, value: string, prefix: string)
    ensures var part := Location(asset, Some(Single([value])));
      && StorageKey(InMemory, Location(asset + "/" + value, None)) == StorageKey(InMemory, part)
      && StorageKey(Pickled(prefix), Location(asset + "/" + value + "/data", None)) == StorageKey(Pickled(prefix), part)
  {
    assert asset + "/" + value + "/data" + ".pkl" == asset + "/" + value + "/data.pkl";
  }

  /** A slash in a value makes one value collide with two. */
  lemma SlashInValue(asset: string, a: string, b: string, layout: Layout)
    ensures var one, two := Location(asset, Some(Single([a + "/" + b]))), Location(asset, Some(Single([a, b])));
      one != two && StorageKey(layout, one) == StorageKey(layout, two)
  {
    assert [a, b][1..] == [b];
    assert Strings.Join([a, b], "/") == a + "/" + b == Strings.Join([a + "/" + b], "/");
  }

  /** An equals sign in a value makes a single key collide with a multi key. */
  lemma EqualsInValue(asset: string, dim: string, value: string, layout: Layout)
    ensures var one := Location(asset, Some(Single([dim + "=" + value])));
      var multi := Location(asset, Some(Multi(map[dim := [value]])));
      one != multi && StorageKey(layout, one) == StorageKey(layout, multi)
  {
    var dims := map[dim := [value]];
    assert dims.Keys == {dim};
    SuffixIgnoresInsertion(dims, [dim]);
    assert Segments([dim], dims) == [dim + "=" + value];
  }

  /** A bar in a value makes one value of a dimension collide with two. */
  lemma BarInValue(asset: string, dim: string, a: string, b: string, layout: Layout)
    ensures var one := Location(asset, Some(Multi(map[dim := [a + "|" + b]])));
      var two := Location(asset, Some(Multi(map[dim := [a, b]])));
      one != two && StorageKey(layout, one) == StorageKey(layout, two)
  {
    var one, two := map[dim := [a + "|" + b]], map[dim := [a, b]];
    assert one[dim] != two[dim];
    assert one.Keys == {dim} && two.Keys == {dim};
    SuffixIgnoresInsertion(one, [dim]);
    SuffixIgnoresInsertion(two, [dim]);
    assert [a, b][1..] == [b];
    assert Strings.Join([a, b], "|") == a + "|" + b == Strings.Join([a + "|" + b], "|");
    assert Segments([dim], one) == Segments([dim], two);
  }

  /** An equals sign in a dimension's name makes it collide with a value. */
  lemma EqualsInDimension(asset: string, a: string, b: string, value: string, layout: Layout)
    ensures var one := Location(asset, Some(Multi(map[a + "=" + b := [value]])));
      var other := Location(asset, Some(Multi(map[a := [b + "=" + value]])));
      one != other && StorageKey(layout, one) == StorageKey(layout, other)
  {
    OneDimension(a + "=" + b, value);
    OneDimension(a, b + "=" + value);
    var one, other := map[a + "=" + b := [value]], map[a := [b + "=" + value]];
    assert |a + "=" + b| != |a|;
    assert a in other && a !in one;
    assert a + "=" + b + "=" + value == a + "=" + (b + "=" + value);
  }

  /** A slash in a dimension's name makes a multi key collide with a single one. */
  lemma SlashInDimension(asset: string, a: string, b: string, value: string, layout: Layout)
    ensures var multi := Location(asset, Some(Multi(map[a + "/" + b := [value]])));
      var single := Location(asset, Some(Single([a, b + "=" + value])));
      multi != single && StorageKey(layout, multi) == StorageKey(layout, single)
  {
    OneDimension(a + "/" + b, value);
    var values := [a, b + "=" + value];
    assert values[1..] == [b + "=" + value];
    assert Strings.Join(values, "/") == a + "/" + (b + "=" + value) == a + "/" + b + "=" + value;
  }

  lemma OneDimension(dim: string, value: string)
    ensures Suffix(Some(Multi(map[dim := [value]]))) == Some(dim + "=" + value)
  {
    var dims := map[dim := [value]];
    assert dims.Keys == {dim};
    SuffixIgnoresInsertion(dims, [dim]);
    assert Segments([dim], dims) == [dim + "=" + value];
  }

  /** A key without values collides with one empty value. */
  lemma NoValues(asset: string, layout: Layout)
    ensures var none, empty := Location(asset, Some(Single([]))), Location(asset, Some(Single([""])));
      none != empty && StorageKey(layout, none) == StorageKey(layout, empty)
  {
  }

  lemma TwoDimensions(a: string, x: string, b: string, y: string)
    requires a != b && Strings.Leq(a, b)
    ensures Suffix(Some(Multi(map[a := [x], b := [y]]))) == Some(a + "=" + x + "/" + (b + "=" + y))
  {
    var dims := map[a := [x], b := [y]];
    SuffixIgnoresInsertion(dims, [a, b]);
    hide Suffix, Strings.Leq;
    var first, second := a + "=" + x, b + "=" + y;
    assert Segments([a, b], dims) == [first, second];
    assert [first, second][1..] == [second];
    assert Strings.Join([first, second], "/") == first + "/" + Strings.Join([second], "/");
  }

  lemma SameSuffixCollides(asset: string, one: Key, other: Key, layout: Layout)
    requires Suffix(Some(one)) == Suffix(Some(other))
    ensures StorageKey(layout, Location(asset, Some(one))) == StorageKey(layout, Location(asset, Some(other)))
  {
  }

  /** A slash in a value of a dimension makes it collide with a further
      dimension. */
  lemma SlashInDimensionValue(asset: string, a: string, b: string, x: string, y: string, layout: Layout)
    requires a != b && Strings.Leq(a, b)
    ensures var one := Location(asset, Some(Multi(map[a := [x + "/" + b + "=" + y]])));
      var two := Location(asset, Some(Multi(map[a := [x], b := [y]])));
      one != two && StorageKey(layout, one) == StorageKey(layout, two)
  {
    hide Suffix, StorageKey, Strings.Leq;
    var one, two := map[a := [x + "/" + b + "=" + y]], map[a := [x], b := [y]];
    OneDimension(a, x + "/" + b + "=" + y);
    TwoDimensions(a, x, b, y);
    assert a + "=" + (x + "/" + b + "=" + y) == a + "=" + x + "/" + (b + "=" + y);
    assert b in two && b !in one;
    SameSuffixCollides(asset, Multi(one), Multi(two), layout);
  }

  /** A dimension without values collides with one empty value. */
  lemma NoValuesInDimension(asset: string, dim: string, layout: Layout)
    ensures var none := Location(asset, Some(Multi(map[dim := []])));
      var empty := Location(asset, Some(Multi(map[dim := [""]])));
      none != empty && StorageKey(layout, none) == StorageKey(layout, empty)
  {
    var none, empty: map<string, seq<string>> := map[dim := []], map[dim := [""]];
    assert none[dim] != empty[dim];
    SuffixIgnoresInsertion(none, [dim]);
    SuffixIgnoresInsertion(empty, [dim]);
    assert Segments([dim], none) == Segments([dim], empty);
  }

  /** A multi key without dimensions collides with one empty value. */
  lemma NoDimensions(asset: string, layout: Layout)
    ensures var none, empty := Location(asset, Some(Multi(map[]))), Location(asset, Some(Single([""])));
      none != empty && StorageKey(layout, none) == StorageKey(layout, empty)
  {
    SuffixIgnoresInsertion(map[], []);
  }

  /** A set of keys has no suffix: it collides with the whole asset. */
  lemma KeySetHasNoSuffix(asset: string, keys: seq<Key>, layout: Layout)
    ensures var many, whole := Location(asset, Some(KeySet(keys))), Location(asset, None);
      many != whole && StorageKey(layout, many) == StorageKey(layout, whole)
  {
  }
}
