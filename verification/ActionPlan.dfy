/** The plan of an action run: one step per target, waiting for the related
    targets the ordering puts first.  */
module ActionPlan {
  import opened AssetGraph
  import opened NodeExpansion

  datatype Step = Step(target: string, waitsFor: seq<string>)

  /** The direction in which a target looks for those it waits for. */
  function Looks(ordering: Ordering): Direction
    requires !ordering.Unordered?
  {
    if ordering.UpstreamFirst? then Outgoing else Incoming
  }

  // ------------------------------------------------------------ who waits for whom

  /** A way along dependencies, of at least one. */
  ghost predicate DependencyPath(g: Graph, p: seq<string>, from: string, to: string) {
    && |p| >= 2 && p[0] == from && p[|p| - 1] == to
    && (forall i :: 0 <= i < |p| ==> p[i] in g)
    && (forall i :: 0 < i < |p| ==> p[i] in g[p[i - 1]])
  }

  /** The node needs the other, directly or not. */
  ghost predicate DependsOn(g: Graph, node: string, other: string) {
    exists p :: DependencyPath(g, p, node, other)
  }

  lemma ReachesUpstream(g: Graph, a: string, b: string)
    ensures Reaches(g, Outgoing, a, b) <==> DependsOn(g, a, b)
  {
    if p :| DependencyPath(g, p, a, b) {
      assert Leads(g, Outgoing, p, a, b);
    }
    if p :| Leads(g, Outgoing, p, a, b) {
      assert DependencyPath(g, p, a, b);
    }
  }

  lemma ReachesDownstream(g: Graph, a: string, b: string)
    ensures Reaches(g, Incoming, a, b) <==> DependsOn(g, b, a)
  {
    ReachesUpstream(g, b, a);
    if Reaches(g, Incoming, a, b) {
      ReachesMirrored(g, Incoming, a, b);
    }
    if Reaches(g, Outgoing, b, a) {
      ReachesMirrored(g, Outgoing, b, a);
    }
  }

  /** Upstream first, a target waits for those it depends on; downstream first,
      for those that depend on it. */
  ghost predicate Waits(g: Graph, ordering: Ordering, target: string, other: string) {
    match ordering
    case Unordered => false
    case UpstreamFirst => DependsOn(g, target, other)
    case DownstreamFirst => DependsOn(g, other, target)
  }

  lemma WaitsReaches(g: Graph, ordering: Ordering, target: string, other: string)
    requires !ordering.Unordered?
    ensures Waits(g, ordering, target, other) <==> Reaches(g, Looks(ordering), target, other)
  {
    ReachesUpstream(g, target, other);
    ReachesDownstream(g, target, other);
  }

  /** Some of the targets, in their order. */
  ghost predicate Picked(targets: seq<string>, picked: seq<string>, from: seq<nat>) {
    && |from| == |picked|
    && (forall k :: 0 <= k < |from| ==> from[k] < |targets| && picked[k] == targets[from[k]])
    && (forall k, l :: 0 <= k < l < |from| ==> from[k] < from[l])
  }

  ghost predicate StepFor(g: Graph, ordering: Ordering, targets: seq<string>, target: string, step: Step) {
    && step.target == target
    && (forall other :: other in step.waitsFor <==> other in targets && Waits(g, ordering, target, other))
    && exists from :: Picked(targets, step.waitsFor, from)
  }

  /** The related targets, in target order. */
  method RelatedTargets(targets: seq<string>, closure: set<string>) returns (related: seq<string>)
    ensures forall t :: t in related <==> t in targets && t in closure
    ensures exists from :: Picked(targets, related, from)
  {
    related := [];
    ghost var from: seq<nat> := [];
    for i := 0 to |targets|
      invariant forall t :: t in related <==> t in targets[..i] && t in closure
      invariant Picked(targets, related, from) && forall k :: 0 <= k < |from| ==> from[k] < i
    {
      if targets[i] in closure {
        related, from := related + [targets[i]], from + [i];
      }
    }
  }

  method StepOf(g: Graph, ordering: Ordering, targets: seq<string>, target: string) returns (step: Step)
    ensures StepFor(g, ordering, targets, target, step)
  {
    hide Reaches, DependsOn;
    if ordering.Unordered? {
      assert Picked(targets, [], []);
      return Step(target, []);
    }
    var closure := Traverse(g, target, Looks(ordering));
    var related := RelatedTargets(targets, closure);
    step := Step(target, related);
    forall other
      ensures Waits(g, ordering, target, other) <==> other in closure
    {
      WaitsReaches(g, ordering, target, other);
    }
  }

  method StepsFor(g: Graph, ordering: Ordering, targets: seq<string>) returns (steps: seq<Step>)
    ensures PlanFor(g, ordering, targets, steps)
  {
    hide StepFor;
    steps := [];
    for i := 0 to |targets|
      invariant |steps| == i
      invariant forall j :: 0 <= j < i ==> StepFor(g, ordering, targets, targets[j], steps[j])
    {
      var step := StepOf(g, ordering, targets, targets[i]);
      steps := steps + [step];
    }
  }

  /** The distinct names, in order of first occurrence. */
  function WithoutRepeats(named: seq<string>): seq<string> {
    AddNew([], named)
  }

  /** `for_action`: a step for every distinct target. */
  method ForAction(g: Graph, named: seq<string>, ordering: Ordering) returns (steps: seq<Step>)
    ensures PlanFor(g, ordering, WithoutRepeats(named), steps)
    ensures FirstMentions([], named, WithoutRepeats(named))
  {
    hide StepFor;
    AddNewFirstMentions([], named);
    var targets := AddMissing([], named);
    steps := StepsFor(g, ordering, targets);
  }

  /** Upstream first: a step waits for exactly the targets it depends on.
      Downstream first: for exactly those that depend on it. Unordered: for
      none. It never waits for anything that is no target. */
  lemma WaitsForWhom(g: Graph, ordering: Ordering, targets: seq<string>, steps: seq<Step>, i: nat, t: string)
    requires PlanFor(g, ordering, targets, steps) && i < |steps|
    ensures steps[i].target == targets[i]
    ensures t in steps[i].waitsFor <==>
      && t in targets
      && match ordering
         case Unordered => false
         case UpstreamFirst => DependsOn(g, targets[i], t)
         case DownstreamFirst => DependsOn(g, t, targets[i])
  {
    hide DependsOn;
    assert StepFor(g, ordering, targets, targets[i], steps[i]);
  }

  /** In particular along a single dependency. */
  lemma WaitsForDependency(g: Graph, targets: seq<string>, steps: seq<Step>, i: nat, j: nat)
    requires i < |targets| && j < |targets| && targets[i] in g && targets[j] in g[targets[i]]
    ensures PlanFor(g, UpstreamFirst, targets, steps) ==> targets[j] in steps[i].waitsFor
    ensures PlanFor(g, DownstreamFirst, targets, steps) ==> targets[i] in steps[j].waitsFor
  {
    assert DependencyPath(g, [targets[i], targets[j]], targets[i], targets[j]);
    if PlanFor(g, UpstreamFirst, targets, steps) {
      WaitsForWhom(g, UpstreamFirst, targets, steps, i, targets[j]);
    }
    if PlanFor(g, DownstreamFirst, targets, steps) {
      WaitsForWhom(g, DownstreamFirst, targets, steps, j, targets[i]);
    }
  }

  /** The targets of a plan: the named ones, each once, in order of first
      mention. */
  lemma TargetsOf(named: seq<string>)
    ensures forall t :: t in WithoutRepeats(named) <==> t in named
    ensures FirstMentions([], named, WithoutRepeats(named))
  {
    forall t
      ensures t in WithoutRepeats(named) <==> t in named
    {
      AddNewHolds([], named, t);
    }
    AddNewFirstMentions([], named);
  }

  // ---------------------------------------------------------------- progress

  /** The two orderings are each other's mirror image. */
  lemma OrderingsMirror(g: Graph, targets: seq<string>, up: seq<Step>, down: seq<Step>, i: nat, j: nat)
    requires PlanFor(g, UpstreamFirst, targets, up) && PlanFor(g, DownstreamFirst, targets, down)
    requires i < |targets| && j < |targets|
    ensures targets[j] in up[i].waitsFor <==> targets[i] in down[j].waitsFor
  {
    hide DependsOn;
    assert StepFor(g, UpstreamFirst, targets, targets[i], up[i]);
    assert StepFor(g, DownstreamFirst, targets, targets[j], down[j]);
  }

  /** The pending target waits for no pending target. */
  ghost predicate Ready(g: Graph, ordering: Ordering, pending: set<string>, target: string) {
    target in pending && forall other :: other in pending ==> !Waits(g, ordering, target, other)
  }

  ghost predicate CanProceed(g: Graph, ordering: Ordering, pending: set<string>) {
    exists target :: Ready(g, ordering, pending, target)
  }

  ghost predicate OnCycle(g: Graph, n: string) {
    DependsOn(g, n, n)
  }

  lemma WaitsForItself(g: Graph, ordering: Ordering, n: string)
    requires !ordering.Unordered?
    ensures Waits(g, ordering, n, n) <==> OnCycle(g, n)
  {
  }

  lemma {:induction false} AcyclicProceeds(g: Graph, ordering: Ordering, pending: set<string>)
    requires !ordering.Unordered? && pending != {} && forall t :: t in pending ==> !OnCycle(g, t)
    ensures CanProceed(g, ordering, pending)
    decreases |pending|
  {
    var n :| n in pending;
    WaitsForItself(g, ordering, n);
    if pending == {n} {
      assert Ready(g, ordering, pending, n);
    } else {
      assert pending - {n} != {};
      AcyclicProceeds(g, ordering, pending - {n});
      var t :| Ready(g, ordering, pending - {n}, t);
      if !Waits(g, ordering, t, n) {
        assert Ready(g, ordering, pending, t);
      } else {
        ReadyBehind(g, ordering, pending, t, n);
      }
    }
  }

  /** If the ready target waits only for `n`, then `n` itself is ready. */
  lemma ReadyBehind(g: Graph, ordering: Ordering, pending: set<string>, t: string, n: string)
    requires n in pending && !Waits(g, ordering, n, n)
    requires Ready(g, ordering, pending - {n}, t) && Waits(g, ordering, t, n)
    ensures CanProceed(g, ordering, pending)
  {
    forall other | other in pending
      ensures !Waits(g, ordering, n, other)
    {
      assert other != n ==> !Waits(g, ordering, t, other);
      if Waits(g, ordering, n, other) {
        WaitsReaches(g, ordering, t, n);
        WaitsReaches(g, ordering, n, other);
        ReachesTransitive(g, Looks(ordering), t, n, other);
        WaitsReaches(g, ordering, t, other);
      }
    }
    assert Ready(g, ordering, pending, n);
  }

  /** Some pending step of the plan has none of those it waits for pending. */
  ghost predicate StepReady(steps: seq<Step>, pending: set<string>, i: int) {
    0 <= i < |steps| && steps[i].target in pending && forall t :: t in steps[i].waitsFor ==> t !in pending
  }

  /** Some of the targets, and at least one. */
  ghost predicate PartOf(pending: set<string>, targets: seq<string>) {
    pending != {} && forall t :: t in pending ==> t in targets
  }

  /** Whatever part of the plan is still pending, one of its steps can go on. */
  ghost predicate NeverStuck(steps: seq<Step>, targets: seq<string>) {
    forall pending :: PartOf(pending, targets) ==> exists i :: StepReady(steps, pending, i)
  }

  ghost predicate PlanFor(g: Graph, ordering: Ordering, targets: seq<string>, steps: seq<Step>) {
    && |steps| == |targets|
    && forall i :: 0 <= i < |steps| ==> StepFor(g, ordering, targets, targets[i], steps[i])
  }

  lemma ReadyStep(g: Graph, ordering: Ordering, targets: seq<string>, steps: seq<Step>, pending: set<string>, i: int)
    requires PlanFor(g, ordering, targets, steps) && 0 <= i < |steps| && PartOf(pending, targets)
    ensures StepReady(steps, pending, i) <==> Ready(g, ordering, pending, targets[i])
  {
    assert StepFor(g, ordering, targets, targets[i], steps[i]);
  }

  /** An ordered plan never gets stuck exactly when none of its targets lies on
      a cycle. */
  lemma NeverStuckExactlyWhen(g: Graph, ordering: Ordering, targets: seq<string>, steps: seq<Step>)
    requires !ordering.Unordered? && PlanFor(g, ordering, targets, steps)
    ensures NeverStuck(steps, targets) <==> forall t :: t in targets ==> !OnCycle(g, t)
  {
    hide Waits, OnCycle, PlanFor, StepReady;
    if t :| t in targets && OnCycle(g, t) {
      WaitsForItself(g, ordering, t);
      StuckAlone(g, ordering, targets, steps, t);
    } else {
      forall pending | PartOf(pending, targets)
        ensures exists i :: StepReady(steps, pending, i)
      {
        AcyclicProceeds(g, ordering, pending);
        var t :| Ready(g, ordering, pending, t);
        StepOfReady(g, ordering, targets, steps, pending, t);
      }
    }
  }

  lemma StepOfReady(g: Graph, ordering: Ordering, targets: seq<string>, steps: seq<Step>, pending: set<string>,
                    t: string)
    requires PlanFor(g, ordering, targets, steps) && PartOf(pending, targets)
    requires Ready(g, ordering, pending, t)
    ensures exists i :: StepReady(steps, pending, i)
  {
    var i :| 0 <= i < |targets| && targets[i] == t;
    ReadyStep(g, ordering, targets, steps, pending, i);
  }

  /** A target that waits for itself is stuck when nothing else is pending. */
  lemma StuckAlone(g: Graph, ordering: Ordering, targets: seq<string>, steps: seq<Step>, t: string)
    requires PlanFor(g, ordering, targets, steps) && t in targets && Waits(g, ordering, t, t)
    ensures !NeverStuck(steps, targets)
  {
    var pending := {t};
    assert t in pending && PartOf(pending, targets);
    forall i
      ensures !StepReady(steps, pending, i)
    {
      if 0 <= i < |steps| {
        ReadyStep(g, ordering, targets, steps, pending, i);
        assert StepFor(g, ordering, targets, targets[i], steps[i]);
      }
    }
  }

  /** An unordered plan waits for nothing. */
  lemma UnorderedNeverStuck(g: Graph, targets: seq<string>, steps: seq<Step>)
    requires PlanFor(g, Unordered, targets, steps)
    ensures NeverStuck(steps, targets)
  {
    forall pending | PartOf(pending, targets)
      ensures exists i :: StepReady(steps, pending, i)
    {
      var t :| t in pending;
      assert Ready(g, Unordered, pending, t);
      StepOfReady(g, Unordered, targets, steps, pending, t);
    }
  }
}
