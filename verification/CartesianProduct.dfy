/** Tuples over named dimensions: how many there are, and when a list of
    distinct ones is all of them.  */
module CartesianProduct {
  import opened Sets

  /** A value for each dimension. */
  type Tuple = map<string, string>

  /** The product of the numbers of values, over the dimensions in `dims`. */
  ghost function Count(dims: set<string>, vals: map<string, seq<string>>): nat
    requires dims <= vals.Keys
  {
    if dims == {} then 1
    else
      var d :| d in dims;
      |vals[d]| * Count(dims - {d}, vals)
  }

  /** Any dimension may be multiplied first. */
  lemma {:induction false} CountRemove(dims: set<string>, vals: map<string, seq<string>>, x: string)
    requires dims <= vals.Keys && x in dims
    ensures Count(dims, vals) == |vals[x]| * Count(dims - {x}, vals)
    decreases |dims|
  {
    var d :| d in dims && Count(dims, vals) == |vals[d]| * Count(dims - {d}, vals);
    if d != x {
      CountRemove(dims - {d}, vals, x);
      CountRemove(dims - {x}, vals, d);
      assert dims - {d} - {x} == dims - {x} - {d};
      Commute(|vals[d]|, |vals[x]|, Count(dims - {d} - {x}, vals));
    }
  }

  lemma Commute(a: nat, b: nat, c: nat)
    ensures a * (b * c) == b * (a * c)
  {
  }

  ghost function With(t: Tuple, d: string, v: string): Tuple {
    t[d := v]
  }

  /** Every tuple of `ts` with each of the values for dimension `d`. */
  ghost function Extend(ts: set<Tuple>, d: string, vs: seq<string>): set<Tuple> {
    if vs == [] then {} else (set t | t in ts :: With(t, d, vs[0])) + Extend(ts, d, vs[1..])
  }

  ghost function Tuples(dims: set<string>, vals: map<string, seq<string>>): set<Tuple>
    requires dims <= vals.Keys
  {
    if dims == {} then {map[]}
    else
      var d :| d in dims;
      Extend(Tuples(dims - {d}, vals), d, vals[d])
  }

  lemma {:induction false} ExtendIff(ts: set<Tuple>, d: string, vs: seq<string>, u: Tuple)
    ensures u in Extend(ts, d, vs) <==> exists t, v :: t in ts && v in vs && u == With(t, d, v)
  {
    if vs != [] {
      ExtendIff(ts, d, vs[1..], u);
      assert forall v :: v in vs <==> v == vs[0] || v in vs[1..];
      var first := set t | t in ts :: With(t, d, vs[0]);
      if exists t, v :: t in ts && v in vs && u == With(t, d, v) {
        var t, v :| t in ts && v in vs && u == With(t, d, v);
        if v == vs[0] {
          assert u in first;
        } else {
          assert t in ts && v in vs[1..] && u == With(t, d, v);
        }
      }
      if u in first {
        var t :| t in ts && u == With(t, d, vs[0]);
        assert vs[0] in vs;
      }
    }
  }

  ghost predicate Fits(u: Tuple, dims: set<string>, vals: map<string, seq<string>>)
    requires dims <= vals.Keys
  {
    u.Keys == dims && forall d :: d in dims ==> u[d] in vals[d]
  }

  lemma WithFits(t: Tuple, d: string, v: string, dims: set<string>, vals: map<string, seq<string>>)
    requires dims <= vals.Keys && d in dims && v in vals[d] && Fits(t, dims - {d}, vals)
    ensures Fits(With(t, d, v), dims, vals)
  {
  }

  lemma WithoutFits(u: Tuple, d: string, dims: set<string>, vals: map<string, seq<string>>)
    requires dims <= vals.Keys && d in dims && Fits(u, dims, vals)
    ensures Fits(u - {d}, dims - {d}, vals) && u == With(u - {d}, d, u[d])
  {
  }

  /** The tuples over `dims` are exactly the maps with those dimensions and a
      listed value in each. */
  lemma {:induction false} TuplesIff(dims: set<string>, vals: map<string, seq<string>>, u: Tuple)
    requires dims <= vals.Keys
    ensures u in Tuples(dims, vals) <==> Fits(u, dims, vals)
    decreases |dims|
  {
    if dims == {} {
      assert u.Keys == {} <==> u == map[];
    } else {
      hide Fits, With;
      var d :| d in dims && Tuples(dims, vals) == Extend(Tuples(dims - {d}, vals), d, vals[d]);
      var ts := Tuples(dims - {d}, vals);
      ExtendIff(ts, d, vals[d], u);
      if u in Tuples(dims, vals) {
        var t, v :| t in ts && v in vals[d] && u == With(t, d, v);
        TuplesIff(dims - {d}, vals, t);
        WithFits(t, d, v, dims, vals);
      }
      if Fits(u, dims, vals) {
        TuplesIff(dims - {d}, vals, u - {d});
        WithoutFits(u, d, dims, vals);
        FitsValue(u, d, dims, vals);
      }
    }
  }

  lemma FitsValue(u: Tuple, d: string, dims: set<string>, vals: map<string, seq<string>>)
    requires dims <= vals.Keys && d in dims && Fits(u, dims, vals)
    ensures d in u && u[d] in vals[d]
  {
  }

  lemma WithInjective(t: Tuple, u: Tuple, d: string, v: string)
    requires d !in t && d !in u && With(t, d, v) == With(u, d, v)
    ensures t == u
  {
    assert t == With(t, d, v) - {d};
    assert u == With(u, d, v) - {d};
  }

  lemma {:induction false} SliceSize(ts: set<Tuple>, d: string, v: string)
    requires forall t :: t in ts ==> d !in t
    ensures |set t | t in ts :: With(t, d, v)| == |ts|
  {
    hide With;
    if ts != {} {
      var x :| x in ts;
      SliceSize(ts - {x}, d, v);
      var rest := set t | t in ts - {x} :: With(t, d, v);
      assert (set t | t in ts :: With(t, d, v)) == rest + {With(x, d, v)};
      if With(x, d, v) in rest {
        var t :| t in ts - {x} && With(t, d, v) == With(x, d, v);
        WithInjective(t, x, d, v);
      }
    }
  }

  lemma ExtendValue(ts: set<Tuple>, d: string, vs: seq<string>, u: Tuple)
    requires u in Extend(ts, d, vs)
    ensures d in u && u[d] in vs
  {
    ExtendIff(ts, d, vs, u);
  }

  lemma SliceDisjoint(ts: set<Tuple>, d: string, vs: seq<string>)
    requires Distinct(vs) && vs != []
    ensures (set t | t in ts :: With(t, d, vs[0])) !! Extend(ts, d, vs[1..])
  {
    var first, rest := (set t | t in ts :: With(t, d, vs[0])), Extend(ts, d, vs[1..]);
    forall u | u in first
      ensures u !in rest
    {
      if u in rest {
        ExtendValue(ts, d, vs[1..], u);
      }
    }
  }

  lemma {:induction false} ExtendSize(ts: set<Tuple>, d: string, vs: seq<string>)
    requires Distinct(vs) && forall t :: t in ts ==> d !in t
    ensures |Extend(ts, d, vs)| == |vs| * |ts|
  {
    if vs != [] {
      hide With;
      ExtendSize(ts, d, vs[1..]);
      SliceSize(ts, d, vs[0]);
      SliceDisjoint(ts, d, vs);
      var first, rest := (set t | t in ts :: With(t, d, vs[0])), Extend(ts, d, vs[1..]);
      assert |first + rest| == |first| + |rest|;
      Distribute(|vs| - 1, |ts|);
    }
  }

  lemma Distribute(a: nat, b: nat)
    ensures (a + 1) * b == b + a * b
  {
  }

  lemma {:induction false} TuplesSize(dims: set<string>, vals: map<string, seq<string>>)
    requires dims <= vals.Keys && forall d :: d in dims ==> Distinct(vals[d])
    ensures |Tuples(dims, vals)| == Count(dims, vals)
    decreases |dims|
  {
    if dims != {} {
      var d :| d in dims && Tuples(dims, vals) == Extend(Tuples(dims - {d}, vals), d, vals[d]);
      TuplesSize(dims - {d}, vals);
      forall t | t in Tuples(dims - {d}, vals)
        ensures d !in t
      {
        TuplesIff(dims - {d}, vals, t);
      }
      ExtendSize(Tuples(dims - {d}, vals), d, vals[d]);
      CountRemove(dims, vals, d);
    }
  }

  lemma {:induction false} SubsetOfSameSize<T>(a: set<T>, b: set<T>)
    requires a <= b
    ensures |a| <= |b|
    ensures |a| == |b| ==> a == b
  {
    if a != {} {
      var x :| x in a;
      SubsetOfSameSize(a - {x}, b - {x});
    }
  }

  lemma {:induction false} DistinctSize<T>(q: seq<T>)
    ensures |set x | x in q| <= |q|
    ensures |set x | x in q| == |q| <==> Distinct(q)
  {
    if q != [] {
      var rest := q[1..];
      DistinctSize(rest);
      assert forall i :: 0 <= i < |rest| ==> rest[i] == q[i + 1];
      if q[0] in rest {
        assert (set x | x in q) == (set x | x in rest);
        var i :| 0 <= i < |rest| && rest[i] == q[0];
        assert q[0] == q[i + 1];
      } else {
        assert (set x | x in q) == (set x | x in rest) + {q[0]};
        assert forall i :: 1 <= i < |q| ==> q[i] == rest[i - 1];
        if Distinct(rest) {
          forall i, j | 0 <= i < j < |q|
            ensures q[i] != q[j]
          {
            assert q[j] in rest;
          }
        }
      }
    }
  }

  /** Distinct tuples, drawn from the listed values: there are as many as the
      product says exactly when they are all the tuples there are. */
  lemma CountedIffComplete(tuples: seq<Tuple>, dims: set<string>, vals: map<string, seq<string>>)
    requires dims <= vals.Keys && forall d :: d in dims ==> Distinct(vals[d])
    requires Distinct(tuples) && forall t :: t in tuples ==> t in Tuples(dims, vals)
    ensures |tuples| == Count(dims, vals) <==> (forall t :: t in Tuples(dims, vals) ==> t in tuples)
  {
    var given := set t | t in tuples;
    DistinctSize(tuples);
    TuplesSize(dims, vals);
    SubsetOfSameSize(given, Tuples(dims, vals));
    if forall t :: t in Tuples(dims, vals) ==> t in tuples {
      assert given == Tuples(dims, vals);
    }
  }

  /** With repetitions, the count can be right while tuples are missing. */
  lemma CountedWithRepeats(tuples: seq<Tuple>, dims: set<string>, vals: map<string, seq<string>>)
    requires dims <= vals.Keys && forall d :: d in dims ==> Distinct(vals[d])
    requires |tuples| == Count(dims, vals) && forall t :: t in tuples ==> t in Tuples(dims, vals)
    requires !Distinct(tuples)
    ensures exists t :: t in Tuples(dims, vals) && t !in tuples
  {
    var given := set t | t in tuples;
    DistinctSize(tuples);
    TuplesSize(dims, vals);
    if forall t :: t in Tuples(dims, vals) ==> t in tuples {
      SubsetOfSameSize(Tuples(dims, vals), given);
    }
  }
}
