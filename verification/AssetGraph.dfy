/** The asset dependency graph. Edges point from a node to what it depends on. */
module AssetGraph {
  import Sets

  /** Every node with its dependencies, which are nodes too. */
  type Graph = g: map<string, set<string>> | forall n :: n in g ==> g[n] <= g.Keys

  datatype Direction = Outgoing | Incoming

  function Neighbors(g: Graph, n: string, dir: Direction): (r: set<string>)
    requires n in g
    ensures r <= g.Keys
  {
    match dir
    case Outgoing => g[n]
    case Incoming => set m | m in g && n in g[m]
  }

  // ------------------------------------------------------------ reachability

  ghost predicate Path(g: Graph, dir: Direction, p: seq<string>) {
    && (forall i :: 0 <= i < |p| ==> p[i] in g)
    && (forall i :: 0 < i < |p| ==> p[i] in Neighbors(g, p[i - 1], dir))
  }

  ghost predicate Leads(g: Graph, dir: Direction, p: seq<string>, from: string, to: string) {
    |p| >= 2 && Path(g, dir, p) && p[0] == from && p[|p| - 1] == to
  }

  /** A walk of at least one edge. */
  ghost predicate Reaches(g: Graph, dir: Direction, from: string, to: string) {
    exists p :: Leads(g, dir, p, from, to)
  }

  lemma ReachesNeighbor(g: Graph, dir: Direction, n: string, m: string)
    requires n in g && m in Neighbors(g, n, dir)
    ensures Reaches(g, dir, n, m)
  {
    assert Leads(g, dir, [n, m], n, m);
  }

  lemma ReachesTransitive(g: Graph, dir: Direction, a: string, b: string, c: string)
    requires Reaches(g, dir, a, b) && Reaches(g, dir, b, c)
    ensures Reaches(g, dir, a, c)
  {
    var p :| Leads(g, dir, p, a, b);
    var q :| Leads(g, dir, q, b, c);
    var r := p + q[1..];
    forall i | 0 < i < |r|
      ensures r[i] in Neighbors(g, r[i - 1], dir)
    {
      if i >= |p| {
        assert r[i] == q[i - |p| + 1] && r[i - 1] == q[i - |p|];
      }
    }
    assert Leads(g, dir, r, a, c);
  }

  function Reversed(p: seq<string>): (r: seq<string>)
    ensures |r| == |p| && forall i :: 0 <= i < |p| ==> r[i] == p[|p| - 1 - i]
  {
    seq(|p|, i requires 0 <= i < |p| => p[|p| - 1 - i])
  }

  function Opposite(dir: Direction): Direction {
    if dir.Outgoing? then Incoming else Outgoing
  }

  /** A node is upstream of another exactly when that one is downstream of it. */
  lemma ReachesMirrored(g: Graph, dir: Direction, a: string, b: string)
    requires Reaches(g, dir, a, b)
    ensures Reaches(g, Opposite(dir), b, a)
  {
    var p :| Leads(g, dir, p, a, b);
    var r := Reversed(p);
    forall i | 0 < i < |r|
      ensures r[i] in Neighbors(g, r[i - 1], Opposite(dir))
    {
      assert p[|p| - i] in Neighbors(g, p[|p| - i - 1], dir);
    }
    assert Leads(g, Opposite(dir), r, b, a);
  }

  lemma {:induction false} ClosedHoldsPath(g: Graph, dir: Direction, start: string, closed: set<string>, p: seq<string>)
    requires closed <= g.Keys && start in g && Neighbors(g, start, dir) <= closed
    requires forall n :: n in closed ==> Neighbors(g, n, dir) <= closed
    requires |p| >= 2 && Path(g, dir, p) && p[0] == start
    ensures p[|p| - 1] in closed
  {
    if |p| > 2 {
      ClosedHoldsPath(g, dir, start, closed, p[..|p| - 1]);
      assert p[|p| - 1] in Neighbors(g, p[|p| - 2], dir);
    }
  }

  // ---------------------------------------------------------------- traversal

  /** What the search found so far, and that only stacked nodes are unexplored. */
  ghost predicate Searching(g: Graph, dir: Direction, start: string, found: set<string>, stack: seq<string>) {
    && start in g
    && found <= g.Keys
    && (forall n :: n in found ==> Reaches(g, dir, start, n))
    && (forall n :: n in stack ==> n == start || n in found)
    && (forall n :: (n == start || n in found) && n !in stack ==> Neighbors(g, n, dir) <= found)
  }

  /** One popped node: its new neighbours are found and stacked. */
  method Explore(g: Graph, ghost dir: Direction, ghost start: string, node: string, neighbors: set<string>,
                 found: set<string>, stack: seq<string>)
    returns (found': set<string>, stack': seq<string>)
    requires Searching(g, dir, start, found, stack + [node]) && neighbors == Neighbors(g, node, dir)
    ensures Searching(g, dir, start, found', stack')
    ensures found <= found' && (found' == found ==> stack' == stack)
  {
    found', stack' := found, stack;
    var rest := neighbors;
    assert forall n :: n in stack + [node] <==> n in stack || n == node;
    while rest != {}
      invariant rest <= neighbors && neighbors - rest <= found' && found <= found' <= found + neighbors
      invariant stack <= stack' && (found' == found ==> stack' == stack)
      invariant forall n :: n in stack' <==> n in stack || n in found' - found
    {
      var n :| n in rest;
      rest := rest - {n};
      if n !in found' {
        found' := found' + {n};
        stack' := stack' + [n];
      }
    }
    forall n | n in found'
      ensures Reaches(g, dir, start, n)
    {
      if n !in found {
        ReachesNeighbor(g, dir, node, n);
        if node != start {
          ReachesTransitive(g, dir, start, node, n);
        }
      }
    }
  }

  lemma ShrinksRest<T>(all: set<T>, before: set<T>, after: set<T>)
    requires before < after <= all
    ensures |all - after| < |all - before|
  {
    var x :| x in after && x !in before;
    assert all - after <= all - before - {x};
    Sets.SubsetSize(all - after, all - before - {x});
  }

  /** `traverse`: everything at least one edge away; nothing for an unknown
      name. The start itself is found exactly when it lies on a cycle. */
  method Traverse(g: Graph, name: string, dir: Direction) returns (found: set<string>)
    ensures forall n :: n in found <==> Reaches(g, dir, name, n)
  {
    found := {};
    if name !in g {
      return;
    }
    var stack := [name];
    while stack != []
      invariant Searching(g, dir, name, found, stack)
      decreases |g.Keys - found|, |stack|
    {
      var node := stack[|stack| - 1];
      assert stack == stack[..|stack| - 1] + [node];
      ghost var before := found;
      found, stack := Explore(g, dir, name, node, Neighbors(g, node, dir), found, stack[..|stack| - 1]);
      if before != found {
        ShrinksRest(g.Keys, before, found);
      }
    }
    forall n | Reaches(g, dir, name, n)
      ensures n in found
    {
      var p :| Leads(g, dir, p, name, n);
      ClosedHoldsPath(g, dir, name, found, p);
    }
  }
}
