/** Decimal text of natural numbers, as Python's `str` writes them.  */
module Decimal {

  function Digit(d: nat): char
    requires d < 10
  {
    '0' + d as char
  }

  function Str(n: nat): (s: string)
    ensures s != ""
  {
    if n < 10 then [Digit(n)] else Str(n / 10) + [Digit(n % 10)]
  }

  /** The number a decimal text stands for. */
  ghost function Value(s: string): int {
    if s == "" then 0 else 10 * Value(s[..|s| - 1]) + (s[|s| - 1] as int - '0' as int)
  }

  lemma {:induction false} ValueOfStr(n: nat)
    ensures Value(Str(n)) == n
  {
    if n < 10 {
      assert Str(n)[..0] == "";
    } else {
      ValueOfStr(n / 10);
      var s := Str(n);
      assert s[..|s| - 1] == Str(n / 10);
    }
  }

  lemma StrInjective(m: nat, n: nat)
    requires Str(m) == Str(n)
    ensures m == n
  {
    ValueOfStr(m);
    ValueOfStr(n);
  }
}
