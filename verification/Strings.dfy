/** The order of strings, and sets of strings put in that order.  */
module Strings {

  /** Lexicographic order by code point. */
  predicate Leq(a: string, b: string) {
    if a == "" then true
    else if b == "" then false
    else if a[0] == b[0] then Leq(a[1..], b[1..])
    else a[0] < b[0]
  }

  lemma {:induction false} LeqTotal(a: string, b: string)
    ensures Leq(a, b) || Leq(b, a)
  {
    if a != "" && b != "" {
      LeqTotal(a[1..], b[1..]);
    }
  }

  lemma {:induction false} LeqAntisymmetric(a: string, b: string)
    requires Leq(a, b) && Leq(b, a)
    ensures a == b
  {
    if a != "" && b != "" {
      LeqAntisymmetric(a[1..], b[1..]);
      assert a == [a[0]] + a[1..] && b == [b[0]] + b[1..];
    }
  }

  lemma {:induction false} LeqTransitive(a: string, b: string, c: string)
    requires Leq(a, b) && Leq(b, c)
    ensures Leq(a, c)
  {
    if a != "" && b != "" && c != "" && a[0] == b[0] == c[0] {
      LeqTransitive(a[1..], b[1..], c[1..]);
    }
  }

  predicate IsLeast(m: string, s: set<string>) {
    m in s && forall x :: x in s ==> Leq(m, x)
  }

  lemma {:induction false} LeastExists(s: set<string>) returns (m: string)
    requires s != {}
    ensures IsLeast(m, s)
  {
    var x :| x in s;
    LeqTotal(x, x);
    if s == {x} {
      m := x;
    } else {
      var n := LeastExists(s - {x});
      LeqTotal(x, n);
      if Leq(x, n) {
        m := x;
        forall y | y in s
          ensures Leq(x, y)
        {
          if y != x {
            LeqTransitive(x, n, y);
          }
        }
      } else {
        m := n;
      }
    }
  }

  lemma LeastExactlyOne(s: set<string>)
    requires s != {}
    ensures exists m :: m in s && IsLeast(m, s)
    ensures forall m, n :: IsLeast(m, s) && IsLeast(n, s) ==> m == n
  {
    var m := LeastExists(s);
    forall m, n | IsLeast(m, s) && IsLeast(n, s)
      ensures m == n
    {
      LeqAntisymmetric(m, n);
    }
  }

  ghost predicate Ordered(r: seq<string>) {
    forall i, j :: 0 <= i < j < |r| ==> r[i] != r[j] && Leq(r[i], r[j])
  }

  lemma LeastBeforeRest(m: string, s: set<string>, r: seq<string>)
    requires IsLeast(m, s) && Ordered(r) && forall x :: x in r <==> x in s - {m}
    ensures Ordered([m] + r)
  {
    hide Leq;
    assert forall i :: 0 <= i < |r| ==> r[i] in r;
  }

  /** The elements of `s` in ascending order. */
  function Sorted(s: set<string>): (r: seq<string>)
    ensures |r| == |s|
    ensures forall x :: x in r <==> x in s
    ensures Ordered(r)
  {
    if s == {} then []
    else
      LeastExactlyOne(s);
      var m :| m in s && IsLeast(m, s);
      var rest := Sorted(s - {m});
      LeastBeforeRest(m, s, rest);
      [m] + rest
  }

  /** The texts one after the other, with a separator in between. */
  function Join(parts: seq<string>, sep: string): string {
    if parts == [] then ""
    else if |parts| == 1 then parts[0]
    else parts[0] + sep + Join(parts[1..], sep)
  }
}
