/** Sizes of finite sets, and sequences without repetitions.  */
module Sets {

  ghost predicate Distinct<T>(q: seq<T>) {
    forall i, j :: 0 <= i < j < |q| ==> q[i] != q[j]
  }

  lemma {:induction false} SubsetSize<T>(a: set<T>, b: set<T>)
    requires a <= b
    ensures |a| <= |b|
  {
    if a != {} {
      var x :| x in a;
      SubsetSize(a - {x}, b - {x});
    }
  }

  lemma {:induction false} BelowSize(a: set<nat>, n: nat)
    requires forall x :: x in a ==> x < n
    ensures |a| <= n
  {
    if n == 0 {
      assert a == {};
    } else {
      BelowSize(a - {n - 1}, n - 1);
      assert a <= (a - {n - 1}) + {n - 1};
      SubsetSize(a, (a - {n - 1}) + {n - 1});
    }
  }
}
