/** Validating a job against the repository graph and building its plan and
    its node map.  */
module JobPlan {
  import opened Wrappers
  import opened AssetGraph
  import opened NodeExpansion
  import opened ActionPlan

  datatype Error =
    | NodeNotFound(node: string)
    | DependencyNotFound(dep: string)
    | NotInJob(node: string, dep: string)
    | NoIoHandler(node: string, dep: string)
    | ActionNotDefined(target: string)
    | UnknownRetry(key: string)
    | ConflictingOrderings

  // ------------------------------------------------------------- completeness

  ghost predicate KnownNodes(names: seq<string>, repo: Repository, kinds: StepKinds) {
    forall n :: n in names ==> n in repo || n in kinds
  }

  /** A dependency of a job node. */
  ghost predicate Edge(g: Graph, names: seq<string>, n: string, d: string) {
    n in names && n in g && d in g[n]
  }

  /** Orders the node without loading data. */
  predicate LineageOnly(repo: Repository, n: string, d: string) {
    n in repo && d in repo[n].lineageDeps
  }

  /** What is wrong with a dependency outside the job, if anything. */
  function Complaint(repo: Repository, allowIncomplete: bool, n: string, d: string): Option<Error> {
    if d !in repo then Some(DependencyNotFound(d))
    else if repo[d].external then None
    else if !allowIncomplete then Some(NotInJob(n, d))
    else if !LineageOnly(repo, n, d) && !repo[d].ioHandler then Some(NoIoHandler(n, d))
    else None
  }

  /** A dependency that may stay outside the job: an external asset or, where
      incomplete dependencies are allowed, one that only orders the node or that
      a handler can load. */
  ghost predicate MayStayOutside(repo: Repository, allowIncomplete: bool, n: string, d: string) {
    && d in repo
    && (repo[d].external || (allowIncomplete && ((n in repo && d in repo[n].lineageDeps) || repo[d].ioHandler)))
  }

  /** Every dependency outside the job may stay there. */
  ghost predicate Complete(g: Graph, names: seq<string>, repo: Repository, allowIncomplete: bool) {
    forall n, d :: Edge(g, names, n, d) && d !in names ==> MayStayOutside(repo, allowIncomplete, n, d)
  }

  /** What an error about a dependency of a node stands for. */
  ghost predicate Blames(repo: Repository, allowIncomplete: bool, n: string, d: string, e: Error) {
    match e
    case DependencyNotFound(dep) => dep == d && d !in repo
    case NotInJob(node, dep) => node == n && dep == d && d in repo && !repo[d].external && !allowIncomplete
    case NoIoHandler(node, dep) =>
      && node == n && dep == d && d in repo && !repo[d].external && allowIncomplete
      && !(n in repo && d in repo[n].lineageDeps) && !repo[d].ioHandler
    case _ => false
  }

  lemma ComplaintMeaning(repo: Repository, allowIncomplete: bool, n: string, d: string)
    ensures Complaint(repo, allowIncomplete, n, d).None? <==> MayStayOutside(repo, allowIncomplete, n, d)
    ensures Complaint(repo, allowIncomplete, n, d).Some? ==>
      Blames(repo, allowIncomplete, n, d, Complaint(repo, allowIncomplete, n, d).value)
  {
  }

  method FindUnknown(names: seq<string>, repo: Repository, kinds: StepKinds) returns (e: Option<Error>)
    ensures e.None? <==> KnownNodes(names, repo, kinds)
    ensures e.Some? ==> e.value.NodeNotFound? && e.value.node in names
    ensures e.Some? ==> e.value.node !in repo && e.value.node !in kinds
  {
    for i := 0 to |names|
      invariant forall j :: 0 <= j < i ==> names[j] in repo || names[j] in kinds
    {
      if names[i] !in repo && names[i] !in kinds {
        return Some(NodeNotFound(names[i]));
      }
    }
    e := None;
  }

  /** The error names a node that is not there, or complains about a dependency
      outside the job. */
  ghost predicate Justified(g: Graph, names: seq<string>, repo: Repository, kinds: StepKinds, allowIncomplete: bool,
                            e: Error) {
    || (e.NodeNotFound? && e.node in names && e.node !in repo && e.node !in kinds)
    || (exists n, d :: Edge(g, names, n, d) && d !in names && Blames(repo, allowIncomplete, n, d, e))
  }

  method MissingDeps(g: Graph, names: seq<string>, n: string) returns (missing: seq<(string, string)>)
    requires n in names && n in g
    ensures forall m, d :: (m, d) in missing <==> m == n && d in g[n] && d !in names
  {
    missing := [];
    var rest := g[n];
    while rest != {}
      invariant rest <= g[n]
      invariant forall m, d :: (m, d) in missing <==> m == n && d in g[n] - rest && d !in names
    {
      var d :| d in rest;
      rest := rest - {d};
      if d !in names {
        missing := missing + [(n, d)];
      }
    }
  }

  /** `validate_subgraph_completeness`, over the selection in any order. */
  method MissingEdges(g: Graph, names: seq<string>) returns (missing: seq<(string, string)>)
    ensures forall n, d :: (n, d) in missing <==> Edge(g, names, n, d) && d !in names
  {
    missing := [];
    var rest := set n | n in names;
    while rest != {}
      invariant forall n :: n in rest ==> n in names
      invariant forall n, d :: (n, d) in missing <==> n !in rest && Edge(g, names, n, d) && d !in names
    {
      var n :| n in rest;
      rest := rest - {n};
      if n in g {
        var more := MissingDeps(g, names, n);
        missing := missing + more;
      }
    }
  }

  method CheckMissing(missing: seq<(string, string)>, repo: Repository, allowIncomplete: bool)
    returns (e: Option<Error>)
    ensures e.None? <==> forall m :: m in missing ==> Complaint(repo, allowIncomplete, m.0, m.1).None?
    ensures e.Some? ==> exists m :: m in missing && e == Complaint(repo, allowIncomplete, m.0, m.1)
  {
    for i := 0 to |missing|
      invariant forall j :: 0 <= j < i ==> Complaint(repo, allowIncomplete, missing[j].0, missing[j].1).None?
    {
      e := Complaint(repo, allowIncomplete, missing[i].0, missing[i].1);
      if e.Some? {
        assert missing[i] in missing;
        return;
      }
    }
    e := None;
  }

  method CheckComplete(g: Graph, names: seq<string>, repo: Repository, allowIncomplete: bool) returns (e: Option<Error>)
    ensures e.None? <==> Complete(g, names, repo, allowIncomplete)
    ensures e.Some? ==> exists n, d ::
      Edge(g, names, n, d) && d !in names && Blames(repo, allowIncomplete, n, d, e.value)
  {
    hide Complaint, MayStayOutside, Blames;
    var missing := MissingEdges(g, names);
    e := CheckMissing(missing, repo, allowIncomplete);
    if e.Some? {
      ghost var m :| m in missing && e == Complaint(repo, allowIncomplete, m.0, m.1);
      assert (m.0, m.1) in missing;
      ComplaintMeaning(repo, allowIncomplete, m.0, m.1);
      assert Edge(g, names, m.0, m.1) && !MayStayOutside(repo, allowIncomplete, m.0, m.1);
    } else {
      forall n, d | Edge(g, names, n, d) && d !in names
        ensures MayStayOutside(repo, allowIncomplete, n, d)
      {
        assert (n, d) in missing;
        ComplaintMeaning(repo, allowIncomplete, n, d);
      }
    }
  }

  // ---------------------------------------------------------------- node map

  /** The dependency is taken into the node map on behalf of the node. */
  predicate TakenFor(repo: Repository, allowIncomplete: bool, n: string, d: string) {
    d in repo && (repo[d].external || (allowIncomplete && !LineageOnly(repo, n, d)))
  }

  /** A job node needs the dependency at hand: an external asset, or one it
      loads where incomplete dependencies are allowed. */
  ghost predicate NeededBy(repo: Repository, allowIncomplete: bool, n: string, d: string) {
    && d in repo
    && (repo[d].external || (allowIncomplete && !(n in repo && d in repo[n].lineageDeps)))
  }

  ghost predicate Taken(g: Graph, names: seq<string>, repo: Repository, allowIncomplete: bool, d: string) {
    exists n :: Edge(g, names, n, d) && NeededBy(repo, allowIncomplete, n, d)
  }

  /** The node map holds the repository's nodes of the job and of the taken
      dependencies. */
  ghost predicate NodeMapFor(g: Graph, names: seq<string>, repo: Repository, allowIncomplete: bool,
                             subset: Repository) {
    && (forall d :: d in subset <==> d in repo && (d in names || Taken(g, names, repo, allowIncomplete, d)))
    && (forall d :: d in subset ==> subset[d] == repo[d])
  }

  method OwnNodes(names: seq<string>, repo: Repository) returns (subset: Repository)
    ensures forall d :: d in subset <==> d in repo && d in names
    ensures forall d :: d in subset ==> subset[d] == repo[d]
  {
    subset := map[];
    for i := 0 to |names|
      invariant forall d :: d in subset <==> d in repo && d in names[..i]
      invariant forall d :: d in subset ==> subset[d] == repo[d]
    {
      if names[i] in repo {
        subset := subset[names[i] := repo[names[i]]];
      }
    }
  }

  method TakeDeps(g: Graph, n: string, repo: Repository, allowIncomplete: bool, before: Repository)
    returns (subset: Repository)
    requires n in g && forall d :: d in before ==> d in repo && before[d] == repo[d]
    ensures forall d :: d in subset <==> d in before || (d in g[n] && NeededBy(repo, allowIncomplete, n, d))
    ensures forall d :: d in subset ==> d in repo && subset[d] == repo[d]
  {
    subset := before;
    var rest := g[n];
    while rest != {}
      invariant rest <= g[n]
      invariant forall d :: d in subset <==> d in before || (d in g[n] - rest && TakenFor(repo, allowIncomplete, n, d))
      invariant forall d :: d in subset ==> d in repo && subset[d] == repo[d]
    {
      var d :| d in rest;
      rest := rest - {d};
      if d !in subset && TakenFor(repo, allowIncomplete, n, d) {
        subset := subset[d := repo[d]];
      }
    }
  }

  method BuildNodeMap(g: Graph, names: seq<string>, repo: Repository, allowIncomplete: bool)
    returns (subset: Repository)
    ensures NodeMapFor(g, names, repo, allowIncomplete, subset)
  {
    hide NeededBy;
    subset := OwnNodes(names, repo);
    for i := 0 to |names|
      invariant forall d :: d in subset ==> d in repo && subset[d] == repo[d]
      invariant forall d :: d in subset <==> d in repo && (d in names || Taken(g, names[..i], repo, allowIncomplete, d))
    {
      assert names[..i + 1] == names[..i] + [names[i]];
      ghost var before := subset;
      if names[i] in g {
        subset := TakeDeps(g, names[i], repo, allowIncomplete, subset);
      }
      forall d
        ensures d in subset <==> d in repo && (d in names || Taken(g, names[..i + 1], repo, allowIncomplete, d))
      {
        TakenGrows(g, names[..i], names[i], repo, allowIncomplete, d);
      }
    }
    assert names[..|names|] == names;
  }

  lemma TakenGrows(g: Graph, names: seq<string>, last: string, repo: Repository, allowIncomplete: bool, d: string)
    ensures Taken(g, names + [last], repo, allowIncomplete, d) <==>
      (Taken(g, names, repo, allowIncomplete, d)
       || (last in g && d in g[last] && NeededBy(repo, allowIncomplete, last, d)))
    ensures Taken(g, names, repo, allowIncomplete, d) ==> d in repo
  {
    assert forall n :: Edge(g, names + [last], n, d) <==> Edge(g, names, n, d) || (n == last && n in g && d in g[n]);
  }

  // ------------------------------------------------- the two loops agree

  /** In a valid job, whatever a job node loads is run by the job or present in
      the node map, and then external or with a handler to load it from. */
  lemma LoadsAvailable(g: Graph, names: seq<string>, repo: Repository, allowIncomplete: bool, subset: Repository,
                       n: string, d: string)
    requires Complete(g, names, repo, allowIncomplete) && NodeMapFor(g, names, repo, allowIncomplete, subset)
    requires Edge(g, names, n, d) && !(n in repo && d in repo[n].lineageDeps)
    ensures d in names || (d in subset && (repo[d].external || repo[d].ioHandler))
  {
    if d !in names {
      assert MayStayOutside(repo, allowIncomplete, n, d);
      assert NeededBy(repo, allowIncomplete, n, d);
      assert Taken(g, names, repo, allowIncomplete, d);
    }
  }

  /** In a valid job, a node from outside is in the node map only as a
      dependency that is external, or that some job node loads and a handler
      can load. */
  lemma OutsidersNeeded(g: Graph, names: seq<string>, repo: Repository, allowIncomplete: bool, subset: Repository,
                        d: string)
    requires Complete(g, names, repo, allowIncomplete) && NodeMapFor(g, names, repo, allowIncomplete, subset)
    requires d in subset && d !in names
    ensures exists n ::
      && Edge(g, names, n, d)
      && (repo[d].external || (allowIncomplete && !(n in repo && d in repo[n].lineageDeps) && repo[d].ioHandler))
  {
    var n :| Edge(g, names, n, d) && NeededBy(repo, allowIncomplete, n, d);
    assert MayStayOutside(repo, allowIncomplete, n, d);
  }

  // ------------------------------------------------------------------ actions

  /** The first action for the verb. */
  ghost predicate FirstFor(actions: seq<Action>, verb: string, i: int) {
    0 <= i < |actions| && actions[i].verb == verb && forall j :: 0 <= j < i ==> actions[j].verb != verb
  }

  function FindAction(actions: seq<Action>, verb: string): (r: Option<Action>)
    ensures r.None? ==> forall i :: 0 <= i < |actions| ==> actions[i].verb != verb
    ensures r.Some? ==> exists i :: FirstFor(actions, verb, i) && actions[i] == r.value
  {
    if actions == [] then None
    else if actions[0].verb == verb then assert FirstFor(actions, verb, 0); Some(actions[0])
    else
      var r := FindAction(actions[1..], verb);
      assert r.Some? ==> exists i :: FirstFor(actions, verb, i) && actions[i] == r.value by {
        if r.Some? {
          var i :| FirstFor(actions[1..], verb, i) && actions[1..][i] == r.value;
          assert FirstFor(actions, verb, i + 1) && actions[i + 1] == r.value;
        }
      }
      r
  }

  /** The action a target runs, or why it cannot. */
  function TargetAction(target: string, verb: string, repo: Repository, retries: set<string>): Result<Action, Error> {
    if target !in repo then Failure(NodeNotFound(target))
    else
      var found := FindAction(repo[target].actions, verb);
      if found.None? then Failure(ActionNotDefined(target))
      else if found.value.retry.Some? && found.value.retry.value !in retries
      then Failure(UnknownRetry(found.value.retry.value))
      else Success(found.value)
  }

  /** The target runs the verb with this ordering: its first action for the verb
      has it, and names a registered retry policy or none. */
  ghost predicate RunsWith(target: string, verb: string, repo: Repository, retries: set<string>, ordering: Ordering) {
    && target in repo
    && exists i ::
         && FirstFor(repo[target].actions, verb, i)
         && repo[target].actions[i].ordering == ordering
         && (repo[target].actions[i].retry.None? || repo[target].actions[i].retry.value in retries)
  }

  ghost predicate Agree(names: seq<string>, verb: string, repo: Repository, retries: set<string>, ordering: Ordering) {
    && (forall i :: 0 <= i < |names| ==> RunsWith(names[i], verb, repo, retries, ordering))
    && (names == [] ==> ordering == Unordered)
  }

  /** What the error says of a target. */
  ghost predicate Faulty(target: string, verb: string, repo: Repository, retries: set<string>, e: Error) {
    match e
    case NodeNotFound(node) => node == target && target !in repo
    case ActionNotDefined(t) =>
      && t == target && target in repo
      && forall i :: 0 <= i < |repo[target].actions| ==> repo[target].actions[i].verb != verb
    case UnknownRetry(key) =>
      && target in repo && key !in retries
      && exists i :: FirstFor(repo[target].actions, verb, i) && repo[target].actions[i].retry == Some(key)
    case _ => false
  }

  lemma TargetActionMeaning(target: string, verb: string, repo: Repository, retries: set<string>)
    ensures var a := TargetAction(target, verb, repo, retries);
      && (a.Success? ==> RunsWith(target, verb, repo, retries, a.value.ordering))
      && (a.Failure? ==> Faulty(target, verb, repo, retries, a.error))
  {
  }

  lemma OneOrdering(target: string, verb: string, repo: Repository, retries: set<string>, a: Ordering, b: Ordering)
    requires RunsWith(target, verb, repo, retries, a) && RunsWith(target, verb, repo, retries, b)
    ensures a == b
  {
    var i :| FirstFor(repo[target].actions, verb, i) && repo[target].actions[i].ordering == a;
    var j :| FirstFor(repo[target].actions, verb, j) && repo[target].actions[j].ordering == b;
    assert i == j;
  }

  lemma FaultyCannotRun(target: string, verb: string, repo: Repository, retries: set<string>, e: Error)
    requires Faulty(target, verb, repo, retries, e)
    ensures forall o :: !RunsWith(target, verb, repo, retries, o)
  {
    if e.UnknownRetry? {
      var i :| FirstFor(repo[target].actions, verb, i) && repo[target].actions[i].retry == Some(e.key);
      assert forall j :: FirstFor(repo[target].actions, verb, j) ==> j == i;
    }
  }

  /** Two targets run the verb with different orderings. */
  ghost predicate Conflict(names: seq<string>, verb: string, repo: Repository, retries: set<string>) {
    exists i, j, a, b ::
      && 0 <= i < j < |names| && a != b
      && RunsWith(names[i], verb, repo, retries, a) && RunsWith(names[j], verb, repo, retries, b)
  }

  method AgreeOrdering(names: seq<string>, verb: string, repo: Repository, retries: set<string>)
    returns (r: Result<Ordering, Error>)
    ensures r.Success? ==> Agree(names, verb, repo, retries, r.value)
    ensures r.Failure? ==> forall ordering :: !Agree(names, verb, repo, retries, ordering)
    ensures r.Failure? ==>
      if r.error.ConflictingOrderings? then Conflict(names, verb, repo, retries)
      else exists i :: 0 <= i < |names| && Faulty(names[i], verb, repo, retries, r.error)
  {
    hide RunsWith, Faulty, TargetAction;
    var ordering: Option<Ordering> := None;
    for i := 0 to |names|
      invariant ordering.None? <==> i == 0
      invariant ordering.Some? ==> forall j :: 0 <= j < i ==> RunsWith(names[j], verb, repo, retries, ordering.value)
    {
      var a := TargetAction(names[i], verb, repo, retries);
      TargetActionMeaning(names[i], verb, repo, retries);
      if a.Failure? {
        FaultyCannotRun(names[i], verb, repo, retries, a.error);
        FaultIsNoConflict(names[i], verb, repo, retries, a.error);
        return Failure(a.error);
      }
      if ordering.None? {
        ordering := Some(a.value.ordering);
      } else if ordering.value != a.value.ordering {
        forall o
          ensures !(RunsWith(names[0], verb, repo, retries, o) && RunsWith(names[i], verb, repo, retries, o))
        {
          if RunsWith(names[0], verb, repo, retries, o) && RunsWith(names[i], verb, repo, retries, o) {
            OneOrdering(names[0], verb, repo, retries, o, ordering.value);
            OneOrdering(names[i], verb, repo, retries, o, a.value.ordering);
          }
        }
        assert RunsWith(names[0], verb, repo, retries, ordering.value);
        return Failure(ConflictingOrderings);
      }
    }
    r := Success(if ordering.Some? then ordering.value else Unordered);
  }

  lemma FaultIsNoConflict(target: string, verb: string, repo: Repository, retries: set<string>, e: Error)
    requires Faulty(target, verb, repo, retries, e)
    ensures !e.ConflictingOrderings?
  {
  }

  // ---------------------------------------------------------------------- job

  /** A materializing plan is built over a node set; an action plan lists its steps. */
  datatype Plan = Materialize(nodes: set<string>) | ActionRun(verb: string, steps: seq<Step>)

  class Job {
    const action: Option<string>
    const allowIncomplete: bool
    var nodeNames: seq<string>
    var plan: Option<Plan>
    var nodeMap: Option<Repository>

    constructor (nodeNames: seq<string>, action: Option<string>, allowIncomplete: bool)
      ensures this.nodeNames == nodeNames && this.action == action && this.allowIncomplete == allowIncomplete
      ensures plan == None && nodeMap == None
    {
      this.nodeNames, this.action, this.allowIncomplete := nodeNames, action, allowIncomplete;
      plan, nodeMap := None, None;
    }

    /** Expands the declared nodes, which sticks even when validation then
        fails, and plans exactly the complete jobs. */
    method ValidateAndBuildPlan(g: Graph, repo: Repository, kinds: StepKinds, order: seq<string>)
    returns (e: Option<Error>)
      requires action.None? && Lists(order, kinds.Keys)
      modifies this
      ensures nodeNames == Expanded(old(nodeNames), repo, order, kinds)
      ensures e.None? <==> KnownNodes(nodeNames, repo, kinds) && Complete(g, nodeNames, repo, allowIncomplete)
      ensures e.None? ==> plan == Some(Materialize(set n | n in nodeNames))
      ensures e.None? ==> nodeMap.Some? && NodeMapFor(g, nodeNames, repo, allowIncomplete, nodeMap.value)
      ensures e.Some? ==> plan == old(plan) && nodeMap == old(nodeMap)
      ensures e.Some? ==> Justified(g, nodeNames, repo, kinds, allowIncomplete, e.value)
    {
      hide KnownNodes, Complete, NodeMapFor, WithTasks, WithCollects;
      var tasks := ExpandTasks(nodeNames, repo);
      nodeNames := ExpandCollects(tasks, order, kinds);
      e := FindUnknown(nodeNames, repo, kinds);
      if e.Some? {
        return;
      }
      e := CheckComplete(g, nodeNames, repo, allowIncomplete);
      if e.Some? {
        return;
      }
      plan := Some(Materialize(set n | n in nodeNames));
      var subset := BuildNodeMap(g, nodeNames, repo, allowIncomplete);
      nodeMap := Some(subset);
    }

    /** Plans an action run exactly when every target runs the verb with one
        and the same ordering; the declared nodes stay as they are. */
    method ValidateAndBuildActionPlan(g: Graph, repo: Repository, retries: set<string>)
    returns (r: Result<Ordering, Error>)
      requires action.Some?
      modifies this
      ensures nodeNames == old(nodeNames)
      ensures r.Success? ==> Agree(nodeNames, action.value, repo, retries, r.value)
      ensures r.Failure? ==> forall ordering :: !Agree(nodeNames, action.value, repo, retries, ordering)
      ensures r.Success? ==> plan.Some? && plan.value.ActionRun? && plan.value.verb == action.value
      ensures r.Success? ==> PlanFor(g, r.value, WithoutRepeats(nodeNames), plan.value.steps)
      ensures r.Success? ==> nodeMap.Some? && forall d :: d in nodeMap.value <==> d in repo && d in nodeNames
      ensures r.Success? ==> forall d :: d in nodeMap.value ==> nodeMap.value[d] == repo[d]
      ensures r.Failure? ==> plan == old(plan) && nodeMap == old(nodeMap)
      ensures r.Failure? ==>
        if r.error.ConflictingOrderings? then Conflict(nodeNames, action.value, repo, retries)
        else exists i :: 0 <= i < |nodeNames| && Faulty(nodeNames[i], action.value, repo, retries, r.error)
    {
      hide Agree, StepFor, Faulty;
      r := AgreeOrdering(nodeNames, action.value, repo, retries);
      if r.Failure? {
        return;
      }
      var steps := ForAction(g, nodeNames, r.value);
      plan := Some(ActionRun(action.value, steps));
      var subset := OwnNodes(nodeNames, repo);
      nodeMap := Some(subset);
    }
  }
}
