/** The SQL text of a predicate, and a parser for the part of the language it
    uses: string literals with doubled quotes (section 5.3 of ISO/IEC
    9075:1992), comparisons, IN lists, parentheses, and AND binding tighter than
    OR (section 8.12 of the same standard).  */
module SqlText {
  import opened Wrappers
  import opened PartitionFilters
  import Strings

  // ------------------------------------------------------------------- rendering

  function Doubled(v: string): string {
    if v == "" then ""
    else (if v[0] == '\'' then "''" else [v[0]]) + Doubled(v[1..])
  }

  /** `_sql_quote`. */
  function Quote(v: string): string {
    "'" + Doubled(v) + "'"
  }

  function QuoteAll(values: seq<string>): (r: seq<string>)
    ensures |r| == |values| && forall i :: 0 <= i < |values| ==> r[i] == Quote(values[i])
  {
    seq(|values|, i requires 0 <= i < |values| => Quote(values[i]))
  }

  function OperatorText(op: Operator): string {
    match op
    case Eq => " = "
    case Ge => " >= "
    case Lt => " < "
  }

  function FilterText(f: Filter): string {
    match f
    case In(col, values) => col + " IN (" + Strings.Join(QuoteAll(values), ", ") + ")"
    case Compare(col, op, value) => col + OperatorText(op) + Quote(value)
  }

  function FilterTexts(fs: seq<Filter>): (r: seq<string>)
    ensures |r| == |fs| && forall i :: 0 <= i < |fs| ==> r[i] == FilterText(fs[i])
  {
    seq(|fs|, i requires 0 <= i < |fs| => FilterText(fs[i]))
  }

  /** `_render`. */
  function Render(fs: seq<Filter>): string {
    Strings.Join(FilterTexts(fs), " AND ")
  }

  function Parenthesised(cs: seq<seq<Filter>>): (r: seq<string>)
    ensures |r| == |cs| && forall i :: 0 <= i < |cs| ==> r[i] == "(" + Render(cs[i]) + ")"
  {
    seq(|cs|, i requires 0 <= i < |cs| => "(" + Render(cs[i]) + ")")
  }

  function PredicateText(p: Predicate): string {
    match p
    case Conjunction(fs) => Render(fs)
    case Disjunction(cs) => Strings.Join(Parenthesised(cs), " OR ")
  }

  // --------------------------------------------------------------------- parsing

  datatype Condition = Atom(filter: Filter) | And(parts: seq<Condition>) | Or(parts: seq<Condition>)

  predicate Starts(s: string, p: string) {
    |p| <= |s| && s[..|p|] == p
  }

  /** The rest of a literal, after its opening quote. */
  function ParseBody(s: string): (r: Option<(string, string)>)
    ensures r.Some? ==> |r.value.1| < |s|
  {
    if s == "" then None
    else if s[0] != '\'' then
      var r := ParseBody(s[1..]);
      if r.None? then None else Some(([s[0]] + r.value.0, r.value.1))
    else if |s| > 1 && s[1] == '\'' then
      var r := ParseBody(s[2..]);
      if r.None? then None else Some((['\''] + r.value.0, r.value.1))
    else Some(("", s[1..]))
  }

  function ParseLiteral(s: string): (r: Option<(string, string)>)
    ensures r.Some? ==> |r.value.1| < |s|
  {
    if Starts(s, "'") then ParseBody(s[1..]) else None
  }

  function ParseItems(s: string): (r: Option<(seq<string>, string)>)
    ensures r.Some? ==> |r.value.1| < |s|
    decreases |s|
  {
    var first := ParseLiteral(s);
    if first.None? then None
    else if Starts(first.value.1, ", ") then
      var more := ParseItems(first.value.1[2..]);
      if more.None? then None else Some(([first.value.0] + more.value.0, more.value.1))
    else if Starts(first.value.1, ")") then Some(([first.value.0], first.value.1[1..]))
    else None
  }

  predicate IdentifierChar(c: char) {
    'a' <= c <= 'z' || 'A' <= c <= 'Z' || '0' <= c <= '9' || c == '_'
  }

  function Upper(c: char): char {
    if 'a' <= c <= 'z' then c - 'a' + 'A' else c
  }

  /** A word of the condition grammar, in any letter case. */
  predicate Keyword(s: string) {
    var upper := seq(|s|, i requires 0 <= i < |s| => Upper(s[i]));
    upper == "AND" || upper == "OR" || upper == "IN"
  }

  predicate IsIdentifier(s: string) {
    && s != "" && !('0' <= s[0] <= '9') && !Keyword(s)
    && forall i :: 0 <= i < |s| ==> IdentifierChar(s[i])
  }

  function IdentifierLength(s: string): (n: nat)
    ensures n <= |s|
  {
    if s == "" || !IdentifierChar(s[0]) then 0 else 1 + IdentifierLength(s[1..])
  }

  function Compared(col: string, op: Operator, value: Option<(string, string)>): Option<(Filter, string)> {
    if value.None? then None else Some((Compare(col, op, value.value.0), value.value.1))
  }

  function ParseComparison(s: string): (r: Option<(Filter, string)>)
    ensures r.Some? ==> |r.value.1| < |s|
  {
    var n := IdentifierLength(s);
    var col, rest := s[..n], s[n..];
    if !IsIdentifier(col) then None
    else if Starts(rest, " IN ()") then Some((In(col, []), rest[6..]))
    else if Starts(rest, " IN (") then
      var items := ParseItems(rest[5..]);
      if items.None? then None else Some((In(col, items.value.0), items.value.1))
    else if Starts(rest, " >= ") then Compared(col, Ge, ParseLiteral(rest[4..]))
    else if Starts(rest, " < ") then Compared(col, Lt, ParseLiteral(rest[3..]))
    else if Starts(rest, " = ") then Compared(col, Eq, ParseLiteral(rest[3..]))
    else None
  }

  function AndOf(parts: seq<Condition>): Condition {
    if |parts| == 1 then parts[0] else And(parts)
  }

  function OrOf(parts: seq<Condition>): Condition {
    if |parts| == 1 then parts[0] else Or(parts)
  }

  function ParsePrimary(s: string): (r: Option<(Condition, string)>)
    ensures r.Some? ==> |r.value.1| < |s|
    decreases |s|, 1
  {
    if Starts(s, "(") then
      var inner := ParseOr(s[1..]);
      if inner.None? || !Starts(inner.value.1, ")") then None
      else Some((OrOf(inner.value.0), inner.value.1[1..]))
    else
      var f := ParseComparison(s);
      if f.None? then None else Some((Atom(f.value.0), f.value.1))
  }

  function ParseAnd(s: string): (r: Option<(seq<Condition>, string)>)
    ensures r.Some? ==> |r.value.1| < |s|
    decreases |s|, 2
  {
    var first := ParsePrimary(s);
    if first.None? then None
    else if Starts(first.value.1, " AND ") then
      var more := ParseAnd(first.value.1[5..]);
      if more.None? then None else Some(([first.value.0] + more.value.0, more.value.1))
    else Some(([first.value.0], first.value.1))
  }

  function ParseOr(s: string): (r: Option<(seq<Condition>, string)>)
    ensures r.Some? ==> |r.value.1| < |s|
    decreases |s|, 3
  {
    var first := ParseAnd(s);
    if first.None? then None
    else if Starts(first.value.1, " OR ") then
      var more := ParseOr(first.value.1[4..]);
      if more.None? then None else Some(([AndOf(first.value.0)] + more.value.0, more.value.1))
    else Some(([AndOf(first.value.0)], first.value.1))
  }

  /** The whole text as one condition. */
  function Parse(s: string): Option<Condition> {
    var r := ParseOr(s);
    if r.Some? && r.value.1 == "" then Some(OrOf(r.value.0)) else None
  }

  // ------------------------------------------------------------------- round trip

  /** The condition a predicate stands for. */
  function Atoms(fs: seq<Filter>): (r: seq<Condition>)
    ensures |r| == |fs| && forall i :: 0 <= i < |fs| ==> r[i] == Atom(fs[i])
  {
    seq(|fs|, i requires 0 <= i < |fs| => Atom(fs[i]))
  }

  function Ands(cs: seq<seq<Filter>>): (r: seq<Condition>)
    ensures |r| == |cs| && forall i :: 0 <= i < |cs| ==> r[i] == AndOf(Atoms(cs[i]))
  {
    seq(|cs|, i requires 0 <= i < |cs| => AndOf(Atoms(cs[i])))
  }

  function ConditionOf(p: Predicate): Condition {
    match p
    case Conjunction(fs) => AndOf(Atoms(fs))
    case Disjunction(cs) => OrOf(Ands(cs))
  }

  lemma StartsConcat(p: string, rest: string)
    ensures Starts(p + rest, p) && (p + rest)[|p|..] == rest
  {
  }

  lemma {:induction false} BodyParses(v: string, rest: string)
    requires rest == "" || rest[0] != '\''
    ensures ParseBody(Doubled(v) + "'" + rest) == Some((v, rest))
  {
    var s := Doubled(v) + "'" + rest;
    if v == "" {
      assert s == "'" + rest;
      assert s[1..] == rest;
    } else {
      BodyParses(v[1..], rest);
      var tail := Doubled(v[1..]) + "'" + rest;
      if v[0] == '\'' {
        assert s == "''" + tail;
        assert s[2..] == tail;
      } else {
        assert s == [v[0]] + tail;
        assert s[1..] == tail;
      }
      assert v == [v[0]] + v[1..];
    }
  }

  lemma LiteralParses(v: string, rest: string)
    requires rest == "" || rest[0] != '\''
    ensures ParseLiteral(Quote(v) + rest) == Some((v, rest))
  {
    BodyParses(v, rest);
    var s := Quote(v) + rest;
    assert s == "'" + (Doubled(v) + "'" + rest);
    StartsConcat("'", Doubled(v) + "'" + rest);
  }

  lemma {:induction false} ItemsParse(values: seq<string>, rest: string)
    requires values != []
    ensures ParseItems(Strings.Join(QuoteAll(values), ", ") + ")" + rest) == Some((values, rest))
  {
    hide ParseLiteral, Quote;
    var s := Strings.Join(QuoteAll(values), ", ") + ")" + rest;
    if |values| == 1 {
      var after := ")" + rest;
      assert s == Quote(values[0]) + after;
      LiteralParses(values[0], after);
      StartsConcat(")", rest);
      assert values == [values[0]];
    } else {
      ItemsParse(values[1..], rest);
      assert QuoteAll(values)[1..] == QuoteAll(values[1..]);
      var tail := Strings.Join(QuoteAll(values[1..]), ", ") + ")" + rest;
      var after := ", " + tail;
      assert after[0] == ',';
      assert s == Quote(values[0]) + after;
      LiteralParses(values[0], after);
      StartsConcat(", ", tail);
      assert values == [values[0]] + values[1..];
    }
  }

  lemma {:induction false} IdentifierParses(col: string, rest: string)
    requires forall i :: 0 <= i < |col| ==> IdentifierChar(col[i])
    requires rest != "" && !IdentifierChar(rest[0])
    ensures IdentifierLength(col + rest) == |col|
    ensures (col + rest)[..|col|] == col && (col + rest)[|col|..] == rest
  {
    if col != "" {
      IdentifierParses(col[1..], rest);
      assert (col + rest)[1..] == col[1..] + rest;
    } else {
      assert col + rest == rest;
    }
  }

  /** What may follow a conjunction: nothing, a closing parenthesis, or OR. */
  predicate EndsConjunction(rest: string) {
    rest == "" || rest[0] == ')' || Starts(rest, " OR ")
  }

  predicate EndsComparison(rest: string) {
    rest == "" || rest[0] == ')' || rest[0] == ' '
  }

  lemma ColumnParses(col: string, rest: string)
    requires IsIdentifier(col) && rest != "" && rest[0] == ' '
    ensures IdentifierLength(col + rest) == |col|
    ensures (col + rest)[..|col|] == col && (col + rest)[|col|..] == rest
  {
    IdentifierParses(col, rest);
  }

  lemma InParses(col: string, values: seq<string>, rest: string)
    requires IsIdentifier(col)
    ensures ParseComparison(FilterText(In(col, values)) + rest) == Some((In(col, values), rest))
  {
    hide ParseItems, Strings.Join, IsIdentifier, IdentifierLength;
    var list := Strings.Join(QuoteAll(values), ", ");
    var after := " IN (" + (list + ")" + rest);
    assert FilterText(In(col, values)) + rest == col + after;
    assert after[0] == ' ';
    ColumnParses(col, after);
    StartsConcat(" IN (", list + ")" + rest);
    if values == [] {
      assert list == "" by { EmptyJoin(", "); assert QuoteAll([]) == []; }
      assert after == " IN ()" + rest;
      StartsConcat(" IN ()", rest);
    } else {
      ItemsParse(values, rest);
      ItemsStart(values);
      assert after[5] == '\'';
      assert !Starts(after, " IN ()");
    }
  }

  lemma EmptyJoin(sep: string)
    ensures Strings.Join([], sep) == ""
  {
  }

  lemma ItemsStart(values: seq<string>)
    requires values != []
    ensures Strings.Join(QuoteAll(values), ", ") != "" && Strings.Join(QuoteAll(values), ", ")[0] == '\''
  {
    assert QuoteAll(values)[0] == Quote(values[0]);
  }

  /** Which of the operators a text starts with. */
  lemma OperatorStarts(op: Operator, tail: string)
    ensures var after := OperatorText(op) + tail;
      && after != "" && after[0] == ' '
      && !Starts(after, " IN ()") && !Starts(after, " IN (")
      && (Starts(after, " >= ") <==> op == Ge) && (Starts(after, " < ") <==> op == Lt)
      && (Starts(after, " = ") <==> op == Eq)
      && after[if op == Ge then 4 else 3..] == tail
  {
    var after := OperatorText(op) + tail;
    StartsConcat(OperatorText(op), tail);
    assert after[1] == if op == Ge then '>' else if op == Lt then '<' else '=';
  }

  lemma CompareText(col: string, op: Operator, value: string, rest: string)
    ensures FilterText(Compare(col, op, value)) + rest == col + (OperatorText(op) + (Quote(value) + rest))
  {
  }

  lemma CompareParses(col: string, op: Operator, value: string, rest: string)
    requires IsIdentifier(col) && EndsComparison(rest)
    ensures ParseComparison(FilterText(Compare(col, op, value)) + rest) == Some((Compare(col, op, value), rest))
  {
    LiteralParses(value, rest);
    CompareText(col, op, value, rest);
    hide ParseLiteral, ParseItems, Quote, Starts, OperatorText, FilterText, IdentifierLength, IsIdentifier;
    var tail := Quote(value) + rest;
    OperatorStarts(op, tail);
    ColumnParses(col, OperatorText(op) + tail);
  }

  lemma FilterStarts(f: Filter, rest: string)
    requires IsIdentifier(f.col)
    ensures FilterText(f) + rest != "" && (FilterText(f) + rest)[0] != '('
  {
    assert (FilterText(f) + rest)[0] == f.col[0];
  }

  lemma PrimaryParses(f: Filter, rest: string)
    requires IsIdentifier(f.col) && EndsComparison(rest)
    ensures ParsePrimary(FilterText(f) + rest) == Some((Atom(f), rest))
  {
    hide ParseComparison, FilterText;
    FilterStarts(f, rest);
    match f
    case In(col, values) => InParses(col, values, rest);
    case Compare(col, op, value) => CompareParses(col, op, value, rest);
  }

  ghost predicate PlainColumns(fs: seq<Filter>) {
    forall i :: 0 <= i < |fs| ==> IsIdentifier(fs[i].col)
  }

  lemma EndsNotAnd(rest: string)
    requires EndsConjunction(rest)
    ensures !Starts(rest, " AND ") && EndsComparison(rest)
  {
    if Starts(rest, " OR ") {
      assert rest[..4][1] == 'O' && rest[..4][0] == ' ';
      if |rest| >= 5 {
        assert rest[..5][1] == rest[1] == 'O';
      }
    }
  }

  lemma {:induction false} ConjunctionParses(fs: seq<Filter>, rest: string)
    requires fs != [] && PlainColumns(fs) && EndsConjunction(rest)
    ensures ParseAnd(Render(fs) + rest) == Some((Atoms(fs), rest))
  {
    hide ParsePrimary, FilterText;
    if |fs| == 1 {
      assert FilterTexts(fs)[0] == FilterText(fs[0]);
      assert Render(fs) + rest == FilterText(fs[0]) + rest;
      EndsNotAnd(rest);
      PrimaryParses(fs[0], rest);
      assert Atoms(fs) == [Atom(fs[0])];
    } else {
      ConjunctionParses(fs[1..], rest);
      assert FilterTexts(fs)[1..] == FilterTexts(fs[1..]);
      var tail := Render(fs[1..]) + rest;
      var after := " AND " + tail;
      assert Render(fs) + rest == FilterText(fs[0]) + after;
      assert after[0] == ' ';
      PrimaryParses(fs[0], after);
      StartsConcat(" AND ", tail);
      assert Atoms(fs) == [Atom(fs[0])] + Atoms(fs[1..]);
    }
  }

  lemma GroupParses(fs: seq<Filter>, rest: string)
    requires fs != [] && PlainColumns(fs)
    ensures ParsePrimary("(" + Render(fs) + ")" + rest) == Some((AndOf(Atoms(fs)), rest))
  {
    hide ParseAnd, Render;
    var after := ")" + rest;
    var inner := Render(fs) + after;
    var s := "(" + Render(fs) + ")" + rest;
    assert s == "(" + inner;
    StartsConcat("(", inner);
    ConjunctionParses(fs, after);
    assert !Starts(after, " OR ");
    StartsConcat(")", rest);
    assert ParseOr(inner) == Some(([AndOf(Atoms(fs))], after));
  }

  lemma {:induction false} DisjunctionParses(cs: seq<seq<Filter>>)
    requires cs != [] && forall i :: 0 <= i < |cs| ==> cs[i] != [] && PlainColumns(cs[i])
    ensures ParseOr(Strings.Join(Parenthesised(cs), " OR ")) == Some((Ands(cs), ""))
  {
    hide ParsePrimary, Render, AndOf;
    var s := Strings.Join(Parenthesised(cs), " OR ");
    var group := "(" + Render(cs[0]) + ")";
    if |cs| == 1 {
      assert s == group + "";
      GroupParses(cs[0], "");
      AndOfOne(AndOf(Atoms(cs[0])));
      assert Ands(cs) == [AndOf(Atoms(cs[0]))];
    } else {
      DisjunctionParses(cs[1..]);
      assert Parenthesised(cs)[1..] == Parenthesised(cs[1..]);
      var tail := Strings.Join(Parenthesised(cs[1..]), " OR ");
      var after := " OR " + tail;
      assert s == group + after;
      GroupParses(cs[0], after);
      StartsConcat(" OR ", tail);
      assert !Starts(after, " AND ") by { assert after[1] == 'O'; }
      AndOfOne(AndOf(Atoms(cs[0])));
      assert Ands(cs) == [AndOf(Atoms(cs[0]))] + Ands(cs[1..]);
    }
  }

  lemma AndOfOne(c: Condition)
    ensures AndOf([c]) == c
  {
  }

  /** Something to write out: at least one filter in each conjunction, and
      columns that are plain identifiers. The values are arbitrary. */
  ghost predicate Writable(p: Predicate) {
    match p
    case Conjunction(fs) => fs != [] && PlainColumns(fs)
    case Disjunction(cs) => cs != [] && forall i :: 0 <= i < |cs| ==> cs[i] != [] && PlainColumns(cs[i])
  }

  /** Parsing the text gives back the structure, whatever the values contain. */
  lemma TextParses(p: Predicate)
    requires Writable(p)
    ensures Parse(PredicateText(p)) == Some(ConditionOf(p))
  {
    match p
    case Conjunction(fs) =>
      hide ParseAnd, Render, AndOf;
      assert Render(fs) + "" == Render(fs);
      ConjunctionParses(fs, "");
    case Disjunction(cs) =>
      hide ParseOr, Strings.Join;
      DisjunctionParses(cs);
  }

  // -------------------------------------------------------------------- meaning

  ghost predicate Eval(less: Order, row: Row, c: Condition) {
    match c
    case Atom(f) => Holds(less, row, f)
    case And(parts) => forall i :: 0 <= i < |parts| ==> Eval(less, row, parts[i])
    case Or(parts) => exists i :: 0 <= i < |parts| && Eval(less, row, parts[i])
  }

  lemma AndMeaning(less: Order, row: Row, fs: seq<Filter>)
    ensures Eval(less, row, AndOf(Atoms(fs))) <==> HoldsAll(less, row, fs)
  {
    hide Holds;
    if |fs| == 1 {
      assert fs[0] in fs;
    }
    if HoldsAll(less, row, fs) {
      forall i | 0 <= i < |fs|
        ensures Eval(less, row, Atoms(fs)[i])
      {
        assert fs[i] in fs;
      }
    }
    if forall i :: 0 <= i < |fs| ==> Eval(less, row, Atoms(fs)[i]) {
      forall f | f in fs
        ensures Holds(less, row, f)
      {
        var i :| 0 <= i < |fs| && fs[i] == f;
        assert Eval(less, row, Atoms(fs)[i]);
      }
    }
  }

  lemma ConditionMeaning(less: Order, row: Row, p: Predicate)
    ensures Eval(less, row, ConditionOf(p)) <==> Accepts(less, row, p)
  {
    match p
    case Conjunction(fs) => AndMeaning(less, row, fs);
    case Disjunction(cs) =>
      hide HoldsAll, AndOf, Atoms;
      forall i | 0 <= i < |cs|
        ensures Eval(less, row, Ands(cs)[i]) <==> HoldsAll(less, row, cs[i])
      {
        AndMeaning(less, row, cs[i]);
      }
  }
}
