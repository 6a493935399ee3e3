/** Which nodes a job runs: the declared ones, the internal tasks of declared
    graph assets, and the collect steps of fan-outs already included.  */
module NodeExpansion {
  import opened Wrappers

  datatype Ordering = Unordered | UpstreamFirst | DownstreamFirst

  /** A verb an asset supports, with the retry policy it names, if any. */
  datatype Action = Action(verb: string, ordering: Ordering, retry: Option<string>)

  /** A resolved repository node. */
  datatype Node = Node(
    external: bool, ioHandler: bool, lineageDeps: set<string>, graphTasks: seq<string>, actions: seq<Action>)

  datatype StepKind = Normal | FanOut | Collect(mapped: string) | CollectStream(mapped: string)

  type Repository = map<string, Node>
  type StepKinds = map<string, StepKind>

  predicate IsCollect(kind: StepKind) {
    kind.Collect? || kind.CollectStream?
  }

  // ----------------------------------------------------------- specification

  /** `names` with the candidates that are not there yet, in order. */
  function AddNew(names: seq<string>, candidates: seq<string>): (r: seq<string>)
    ensures names <= r
    decreases candidates
  {
    if candidates == [] then names
    else AddNew(if candidates[0] in names then names else names + [candidates[0]], candidates[1..])
  }

  function TasksOf(name: string, repo: Repository): seq<string> {
    if name in repo then repo[name].graphTasks else []
  }

  /** `names` with the graph tasks of the nodes in `declared`. */
  function WithTasks(names: seq<string>, declared: seq<string>, repo: Repository): (r: seq<string>)
    ensures names <= r
    decreases declared
  {
    if declared == [] then names else WithTasks(AddNew(names, TasksOf(declared[0], repo)), declared[1..], repo)
  }

  /** A walk over entries of the step-kind map. */
  ghost predicate Walks(order: seq<string>, kinds: StepKinds) {
    forall step :: step in order ==> step in kinds
  }

  /** `names` with a step that collects over one of them. */
  function AddCollect(names: seq<string>, step: string, kinds: StepKinds): (r: seq<string>)
    requires step in kinds
    ensures names <= r
  {
    if IsCollect(kinds[step]) && kinds[step].mapped in names && step !in names then names + [step] else names
  }

  /** `names` with the collect steps, met in the given order, whose mapped step
      is included when they are met. */
  function WithCollects(names: seq<string>, order: seq<string>, kinds: StepKinds): (r: seq<string>)
    requires Walks(order, kinds)
    ensures names <= r
    decreases order
  {
    if order == [] then names else WithCollects(AddCollect(names, order[0], kinds), order[1..], kinds)
  }

  /** The order in which a hash map of step kinds is walked. */
  ghost predicate Lists<T(!new)>(order: seq<T>, keys: set<T>) {
    && (forall k :: k in order <==> k in keys)
    && (forall i, j :: 0 <= i < j < |order| ==> order[i] != order[j])
  }

  function Expanded(declared: seq<string>, repo: Repository, order: seq<string>, kinds: StepKinds): (r: seq<string>)
    requires Walks(order, kinds)
  {
    WithCollects(WithTasks(declared, declared, repo), order, kinds)
  }

  // ------------------------------------------------------------------ loops

  method AddMissing(names: seq<string>, candidates: seq<string>) returns (r: seq<string>)
    ensures r == AddNew(names, candidates)
  {
    r := names;
    for i := 0 to |candidates|
      invariant AddNew(r, candidates[i..]) == AddNew(names, candidates)
    {
      assert candidates[i..][1..] == candidates[i + 1..];
      if candidates[i] !in r {
        r := r + [candidates[i]];
      }
    }
  }

  method ExpandTasks(declared: seq<string>, repo: Repository) returns (names: seq<string>)
    ensures names == WithTasks(declared, declared, repo)
  {
    names := declared;
    for i := 0 to |declared|
      invariant WithTasks(names, declared[i..], repo) == WithTasks(declared, declared, repo)
    {
      hide AddNew;
      assert declared[i..][1..] == declared[i + 1..];
      names := AddMissing(names, TasksOf(declared[i], repo));
    }
  }

  method ExpandCollects(tasks: seq<string>, order: seq<string>, kinds: StepKinds) returns (names: seq<string>)
    requires Walks(order, kinds)
    ensures names == WithCollects(tasks, order, kinds)
  {
    names := tasks;
    for i := 0 to |order|
      invariant WithCollects(names, order[i..], kinds) == WithCollects(tasks, order, kinds)
    {
      assert order[i..][1..] == order[i + 1..];
      assert order[i..][0] == order[i];
      var step := order[i];
      if IsCollect(kinds[step]) && kinds[step].mapped in names && step !in names {
        names := names + [step];
      }
    }
  }

  // ------------------------------------------------- what expansion promises

  /** No name is added that was there, and none twice. */
  ghost predicate AddsOnce(names: seq<string>, result: seq<string>) {
    && names <= result
    && (forall i, j :: |names| <= j < |result| && 0 <= i < j ==> result[i] != result[j])
  }

  lemma {:induction false} AddNewHolds(names: seq<string>, candidates: seq<string>, n: string)
    ensures n in AddNew(names, candidates) <==> n in names || n in candidates
    decreases candidates
  {
    if candidates != [] {
      AddNewHolds(if candidates[0] in names then names else names + [candidates[0]], candidates[1..], n);
    }
  }

  lemma {:induction false} AddNewOnce(names: seq<string>, candidates: seq<string>)
    ensures AddsOnce(names, AddNew(names, candidates))
    decreases candidates
  {
    if candidates != [] {
      AddNewOnce(if candidates[0] in names then names else names + [candidates[0]], candidates[1..]);
    }
  }

  /** The place in `candidates` where the name is first mentioned. */
  ghost function FirstAt(candidates: seq<string>, name: string): nat
    requires name in candidates
  {
    if candidates[0] == name then 0 else 1 + FirstAt(candidates[1..], name)
  }

  /** `result` goes on after `names` with new candidates, each once, in the order
      in which they are first mentioned. */
  ghost predicate FirstMentions(names: seq<string>, candidates: seq<string>, result: seq<string>) {
    && names <= result
    && (forall i :: |names| <= i < |result| ==> result[i] in candidates && result[i] !in names)
    && (forall i, j :: |names| <= i < j < |result| ==>
          result[i] in candidates && result[j] in candidates
          && FirstAt(candidates, result[i]) < FirstAt(candidates, result[j]))
  }

  lemma {:induction false} AddNewFirstMentions(names: seq<string>, candidates: seq<string>)
    ensures FirstMentions(names, candidates, AddNew(names, candidates))
    decreases candidates
  {
    if candidates != [] {
      var c, rest := candidates[0], candidates[1..];
      var next := if c in names then names else names + [c];
      AddNewFirstMentions(next, rest);
      var result := AddNew(next, rest);
      forall i | |next| <= i < |result|
        ensures result[i] in candidates && result[i] != c
        ensures FirstAt(candidates, result[i]) == 1 + FirstAt(rest, result[i])
      {
        assert result[i] !in next;
      }
    }
  }

  lemma {:induction false} WithTasksOnce(names: seq<string>, declared: seq<string>, repo: Repository)
    ensures AddsOnce(names, WithTasks(names, declared, repo))
    decreases declared
  {
    if declared != [] {
      AddNewOnce(names, TasksOf(declared[0], repo));
      WithTasksOnce(AddNew(names, TasksOf(declared[0], repo)), declared[1..], repo);
    }
  }

  lemma {:induction false} WithCollectsOnce(names: seq<string>, order: seq<string>, kinds: StepKinds)
    requires Walks(order, kinds)
    ensures AddsOnce(names, WithCollects(names, order, kinds))
    decreases order
  {
    if order != [] {
      WithCollectsOnce(AddCollect(names, order[0], kinds), order[1..], kinds);
    }
  }

  /** The declared list stays a prefix and every extra node appears once. */
  lemma ExpansionAddsOnce(declared: seq<string>, repo: Repository, order: seq<string>, kinds: StepKinds)
    requires Walks(order, kinds)
    ensures AddsOnce(declared, Expanded(declared, repo, order, kinds))
  {
    WithTasksOnce(declared, declared, repo);
    WithCollectsOnce(WithTasks(declared, declared, repo), order, kinds);
  }

  lemma {:induction false} WithTasksHolds(names: seq<string>, declared: seq<string>, repo: Repository, n: string)
    ensures n in WithTasks(names, declared, repo)
       <==> n in names || exists d :: d in declared && n in TasksOf(d, repo)
    decreases declared
  {
    if declared != [] {
      AddNewHolds(names, TasksOf(declared[0], repo), n);
      WithTasksHolds(AddNew(names, TasksOf(declared[0], repo)), declared[1..], repo, n);
      assert forall d :: d in declared <==> d == declared[0] || d in declared[1..];
    }
  }

  /** The graph tasks of the nodes, one after the other. */
  ghost function AllTasks(declared: seq<string>, repo: Repository): seq<string> {
    if declared == [] then []
    else (if declared[0] in repo then repo[declared[0]].graphTasks else []) + AllTasks(declared[1..], repo)
  }

  lemma {:induction false} AddNewTwice(names: seq<string>, a: seq<string>, b: seq<string>)
    ensures AddNew(AddNew(names, a), b) == AddNew(names, a + b)
    decreases a
  {
    if a == [] {
      assert a + b == b;
    } else {
      assert (a + b)[1..] == a[1..] + b;
      AddNewTwice(if a[0] in names then names else names + [a[0]], a[1..], b);
    }
  }

  /** The tasks come in the order of the nodes, and of each node's tasks. */
  lemma {:induction false} TasksInOrder(names: seq<string>, declared: seq<string>, repo: Repository)
    ensures WithTasks(names, declared, repo) == AddNew(names, AllTasks(declared, repo))
    ensures FirstMentions(names, AllTasks(declared, repo), WithTasks(names, declared, repo))
    decreases declared
  {
    hide FirstMentions;
    AddNewFirstMentions(names, AllTasks(declared, repo));
    if declared != [] {
      var tasks := TasksOf(declared[0], repo);
      TasksInOrder(AddNew(names, tasks), declared[1..], repo);
      AddNewTwice(names, tasks, AllTasks(declared[1..], repo));
    }
  }

  // --------------------------------------------------- order of the hash map

  /** The collect steps whose mapped step is among `base`. */
  ghost predicate Follows(step: string, base: seq<string>, kinds: StepKinds) {
    step in kinds && IsCollect(kinds[step]) && kinds[step].mapped in base
  }

  /** A collect step outside `base` that maps over a collect step which is
      itself only now being added. */
  ghost predicate Chain(step: string, base: seq<string>, kinds: StepKinds) {
    && step !in base && step in kinds && IsCollect(kinds[step])
    && kinds[step].mapped !in base && Follows(kinds[step].mapped, base, kinds)
  }

  ghost predicate Chained(base: seq<string>, kinds: StepKinds) {
    exists step :: Chain(step, base, kinds)
  }

  /** Names gained so far are collect steps over the base. */
  ghost predicate OneLevel(base: seq<string>, names: seq<string>, kinds: StepKinds) {
    base <= names && forall n :: n in names ==> n in base || Follows(n, base, kinds)
  }

  lemma {:induction false} CollectsOneLevel(base: seq<string>, names: seq<string>, order: seq<string>, kinds: StepKinds)
    requires Walks(order, kinds)
    requires OneLevel(base, names, kinds) && !Chained(base, kinds)
    ensures OneLevel(base, WithCollects(names, order, kinds), kinds)
    decreases order
  {
    if order != [] {
      var step := order[0];
      if IsCollect(kinds[step]) && kinds[step].mapped in names && step !in base {
        assert !Chain(step, base, kinds);
        assert Follows(step, base, kinds);
      }
      CollectsOneLevel(base, AddCollect(names, step, kinds), order[1..], kinds);
    }
  }

  lemma {:induction false} FollowersIncluded(base: seq<string>, names: seq<string>, order: seq<string>,
                                             kinds: StepKinds, step: string)
    requires Walks(order, kinds)
    requires base <= names && step in order && Follows(step, base, kinds)
    ensures step in WithCollects(names, order, kinds)
    decreases order
  {
    var next := AddCollect(names, order[0], kinds);
    if order[0] == step {
      assert step in next;
      assert next <= WithCollects(next, order[1..], kinds);
    } else {
      FollowersIncluded(base, next, order[1..], kinds, step);
    }
  }

  /** Without a chain, the outcome for any order: the base and its collects. */
  lemma UnchainedIncludes(base: seq<string>, order: seq<string>, kinds: StepKinds, n: string)
    requires Lists(order, kinds.Keys) && !Chained(base, kinds)
    ensures n in WithCollects(base, order, kinds) <==> n in base || Follows(n, base, kinds)
  {
    CollectsOneLevel(base, base, order, kinds);
    if Follows(n, base, kinds) {
      FollowersIncluded(base, base, order, kinds, n);
    }
  }

  /** Said for each kind of step: collect steps of either form over the base are
      added, and no other step. */
  lemma CollectsMeaning(base: seq<string>, order: seq<string>, kinds: StepKinds, n: string)
    requires Lists(order, kinds.Keys) && !Chained(base, kinds)
    ensures n in WithCollects(base, order, kinds) <==>
      || n in base
      || (n in kinds && kinds[n].Collect? && kinds[n].mapped in base)
      || (n in kinds && kinds[n].CollectStream? && kinds[n].mapped in base)
  {
    UnchainedIncludes(base, order, kinds, n);
  }

  lemma {:induction false} OnlyListedAdded(names: seq<string>, order: seq<string>, kinds: StepKinds, n: string)
    requires Walks(order, kinds)
    requires n !in names && n !in order
    ensures n !in WithCollects(names, order, kinds)
    decreases order
  {
    if order != [] {
      OnlyListedAdded(AddCollect(names, order[0], kinds), order[1..], kinds, n);
    }
  }

  lemma {:induction false} SomeListing<T(!new)>(keys: set<T>) returns (order: seq<T>)
    ensures Lists(order, keys)
    decreases |keys|
  {
    if keys == {} {
      order := [];
    } else {
      var k :| k in keys;
      order := SomeListing(keys - {k});
      order := [k] + order;
    }
  }

  lemma ListsWithTwo<T(!new)>(a: T, b: T, rest: seq<T>, keys: set<T>)
    requires a in keys && b in keys && a != b && Lists(rest, keys - {a, b})
    ensures Lists([a, b] + rest, keys)
  {
    var order := [a, b] + rest;
    assert forall i :: 2 <= i < |order| ==> order[i] == rest[i - 2];
    assert forall k :: k in order <==> k == a || k == b || k in rest;
  }

  ghost predicate SameNodes(base: seq<string>, one: seq<string>, other: seq<string>, kinds: StepKinds)
    requires Lists(one, kinds.Keys) && Lists(other, kinds.Keys)
  {
    forall n :: n in WithCollects(base, one, kinds) <==> n in WithCollects(base, other, kinds)
  }

  ghost predicate OrderIrrelevant(base: seq<string>, kinds: StepKinds) {
    forall one, other :: Lists(one, kinds.Keys) && Lists(other, kinds.Keys) ==> SameNodes(base, one, other, kinds)
  }

  /** With a chain, walking the mapped step first or last makes a difference. */
  lemma ChainDiffers(base: seq<string>, kinds: StepKinds, step: string) returns (one: seq<string>, other: seq<string>)
    requires Chain(step, base, kinds)
    ensures Lists(one, kinds.Keys) && Lists(other, kinds.Keys)
    ensures step in WithCollects(base, one, kinds) && step !in WithCollects(base, other, kinds)
  {
    var mapped := kinds[step].mapped;
    var rest := SomeListing(kinds.Keys - {step, mapped});
    ListsWithTwo(mapped, step, rest, kinds.Keys);
    ListsWithTwo(step, mapped, rest, kinds.Keys);
    one, other := [mapped, step] + rest, [step, mapped] + rest;
    MappedFirst(base, rest, kinds, step);
    MappedLast(base, rest, kinds, step);
  }

  lemma MappedFirst(base: seq<string>, rest: seq<string>, kinds: StepKinds, step: string)
    requires Chain(step, base, kinds) && Lists(rest, kinds.Keys - {step, kinds[step].mapped})
    ensures step in WithCollects(base, [kinds[step].mapped, step] + rest, kinds)
  {
    var mapped := kinds[step].mapped;
    var order := [mapped, step] + rest;
    assert order[1..] == [step] + rest;
    var next := AddCollect(base, mapped, kinds);
    assert Follows(step, next, kinds);
    FollowersIncluded(next, next, [step] + rest, kinds, step);
  }

  lemma MappedLast(base: seq<string>, rest: seq<string>, kinds: StepKinds, step: string)
    requires Chain(step, base, kinds) && Lists(rest, kinds.Keys - {step, kinds[step].mapped})
    ensures step !in WithCollects(base, [step, kinds[step].mapped] + rest, kinds)
  {
    var order := [step, kinds[step].mapped] + rest;
    assert order[1..] == [kinds[step].mapped] + rest;
    OnlyListedAdded(base, order[1..], kinds, step);
  }

  /** The node set does not depend on the walk of the hash map exactly when no
      new collect step maps over another new collect step. */
  lemma OrderIrrelevantExactlyWhen(base: seq<string>, kinds: StepKinds)
    ensures OrderIrrelevant(base, kinds) <==> !Chained(base, kinds)
  {
    if Chained(base, kinds) {
      var step :| Chain(step, base, kinds);
      var one, other := ChainDiffers(base, kinds, step);
      assert !SameNodes(base, one, other, kinds);
    } else {
      forall one, other | Lists(one, kinds.Keys) && Lists(other, kinds.Keys)
        ensures SameNodes(base, one, other, kinds)
      {
        forall n
          ensures n in WithCollects(base, one, kinds) <==> n in WithCollects(base, other, kinds)
        {
          UnchainedIncludes(base, one, kinds, n);
          UnchainedIncludes(base, other, kinds, n);
        }
      }
    }
  }
}
