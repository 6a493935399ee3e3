/** The registry of worker threads of a code location: spawning registers a
    worker's handle, draining takes all handles and joins them.  */
module GilThreads {
  import opened Sets
  import opened Wrappers

  type Worker = nat
  type Drain = nat

  /** The handles without those seen finished. */
  function Retained(handles: seq<Worker>, gone: set<Worker>): (r: seq<Worker>) {
    if handles == [] then []
    else
      var last := handles[|handles| - 1];
      Retained(handles[..|handles| - 1], gone) + if last in gone then [] else [last]
  }

  lemma {:induction false} RetainedHolds(handles: seq<Worker>, gone: set<Worker>)
    ensures forall w :: w in Retained(handles, gone) <==> w in handles && w !in gone
  {
    if handles != [] {
      RetainedHolds(handles[..|handles| - 1], gone);
    }
  }

  lemma {:induction false} RetainedDistinct(handles: seq<Worker>, gone: set<Worker>)
    requires Distinct(handles)
    ensures Distinct(Retained(handles, gone))
  {
    if handles != [] {
      RetainedDistinct(handles[..|handles| - 1], gone);
      RetainedHolds(handles[..|handles| - 1], gone);
    }
  }

  /** The shared vector, under its lock. `tracked` are the workers ever tracked,
      `reaped` those dropped as finished, and `handedOut` those given to a
      drain. */
  class Registry {
    var handles: seq<Worker>
    ghost var tracked: set<Worker>
    ghost var reaped: set<Worker>
    ghost var handedOut: set<Worker>

    /** Each tracked worker is in the vector, reaped or handed out: one of them,
        and in the vector once. */
    ghost predicate Valid()
      reads this
    {
      && Distinct(handles)
      && reaped <= tracked && handedOut <= tracked && reaped !! handedOut
      && forall w :: w in handles <==> w in tracked && w !in reaped && w !in handedOut
    }

    constructor ()
      ensures Valid() && tracked == {} && handles == []
    {
      handles := [];
      tracked, reaped, handedOut := {}, {}, {};
    }

    /** Reaps handles seen finished, and no others, then tracks the new one. */
    method Track(worker: Worker, gone: set<Worker>)
      requires Valid() && worker !in tracked
      modifies this
      ensures Valid() && tracked == old(tracked) + {worker} && handedOut == old(handedOut)
      ensures old(reaped) <= reaped <= old(reaped) + gone
      ensures handles == Retained(old(handles), gone) + [worker]
    {
      var kept := [];
      for i := 0 to |handles|
        invariant handles == old(handles) && tracked == old(tracked)
        invariant reaped == old(reaped) && handedOut == old(handedOut)
        invariant kept == Retained(handles[..i], gone)
      {
        assert handles[..i + 1][..i] == handles[..i];
        if handles[i] !in gone {
          kept := kept + [handles[i]];
        }
      }
      assert handles[..|handles|] == handles;
      RetainedHolds(handles, gone);
      RetainedDistinct(handles, gone);
      reaped := reaped + set w | w in handles && w in gone;
      tracked := tracked + {worker};
      handles := kept + [worker];
    }

    /** A drain gets every tracked worker that was neither reaped nor handed out
        before, each once; no later drain gets it again. */
    method TakeAll() returns (taken: seq<Worker>)
      requires Valid()
      modifies this
      ensures Valid() && tracked == old(tracked) && reaped == old(reaped) && handles == []
      ensures Distinct(taken) && forall w :: w in taken <==> w in tracked && w !in reaped && w !in old(handedOut)
      ensures handedOut == tracked - reaped
      ensures taken == old(handles)
    {
      taken := handles;
      handles := [];
      handedOut := handedOut + set w | w in taken;
    }
  }

  // ------------------------------------------------------- every interleaving

  /** Workers started whose `spawn` has not returned, those whose spawn has,
      those finished, the registry, and what each running drain must still join. */
  datatype State = State(
    starting: set<Worker>, spawned: set<Worker>, finished: set<Worker>,
    handles: seq<Worker>, drains: map<Drain, seq<Worker>>)

  datatype Action =
    | Start(worker: Worker)
    | Track(worker: Worker, gone: set<Worker>)
    | Finish(worker: Worker)
    | Take(drain: Drain)
    | Join(drain: Drain)
    | Return(drain: Drain)

  const Initial := State({}, {}, {}, [], map[])

  predicate Enabled(s: State, a: Action) {
    match a
    case Start(w) => w !in s.starting && w !in s.spawned
    case Track(w, gone) => w in s.starting && gone <= s.finished
    case Finish(w) => (w in s.starting || w in s.spawned) && w !in s.finished
    case Take(d) => d !in s.drains
    case Join(d) => d in s.drains && s.drains[d] != [] && s.drains[d][0] in s.finished
    case Return(d) => d in s.drains && s.drains[d] == []
  }

  function Apply(s: State, a: Action): State
    requires Enabled(s, a)
  {
    match a
    case Start(w) => s.(starting := s.starting + {w})
    case Track(w, gone) =>
      s.(starting := s.starting - {w}, spawned := s.spawned + {w}, handles := Retained(s.handles, gone) + [w])
    case Finish(w) => s.(finished := s.finished + {w})
    case Take(d) => s.(drains := s.drains[d := s.handles], handles := [])
    case Join(d) => s.(drains := s.drains[d := s.drains[d][1..]])
    case Return(d) => s.(drains := s.drains - {d})
  }

  /** Some running drain still has to join the worker. */
  ghost predicate Held(s: State, w: Worker) {
    exists d :: HeldBy(s, d, w)
  }

  ghost predicate HeldBy(s: State, d: Drain, w: Worker) {
    d in s.drains && w in s.drains[d]
  }

  /** An unfinished worker whose spawn returned is in the registry or held. */
  ghost predicate Accounted(s: State) {
    forall w :: w in s.spawned && w !in s.finished ==> w in s.handles || Held(s, w)
  }

  /** Only spawned workers are tracked, and each in one place: once in the
      registry or once in the list of one drain. */
  ghost predicate OnePlace(s: State) {
    && s.starting !! s.spawned
    && Distinct(s.handles)
    && (forall w :: w in s.handles ==> w in s.spawned)
    && (forall d, w :: HeldBy(s, d, w) ==> w in s.spawned && w !in s.handles)
    && (forall d :: d in s.drains ==> Distinct(s.drains[d]))
    && (forall d, e, w :: HeldBy(s, d, w) && HeldBy(s, e, w) ==> d == e)
  }

  ghost predicate Inv(s: State) {
    Accounted(s) && OnePlace(s)
  }

  lemma StepKeepsAccounted(s: State, a: Action)
    requires Inv(s) && Enabled(s, a)
    ensures Accounted(Apply(s, a))
  {
    var s' := Apply(s, a);
    if a.Track? {
      RetainedHolds(s.handles, a.gone);
    }
    forall w | w in s'.spawned && w !in s'.finished
      ensures w in s'.handles || Held(s', w)
    {
      if w in s.handles && a.Take? {
        assert HeldBy(s', a.drain, w);
      } else if w in s.spawned && w !in s.handles {
        var d :| HeldBy(s, d, w);
        assert HeldBy(s', d, w);
      }
    }
  }

  lemma StepKeepsOnePlace(s: State, a: Action)
    requires Inv(s) && Enabled(s, a)
    ensures OnePlace(Apply(s, a))
  {
    var s' := Apply(s, a);
    if a.Track? {
      RetainedHolds(s.handles, a.gone);
      RetainedDistinct(s.handles, a.gone);
    }
    forall d, w | HeldBy(s', d, w)
      ensures if a == Take(d) then w in s.handles else HeldBy(s, d, w)
    {
    }
  }

  // -------------------------------------------------------------------- runs

  /** Where the actions lead, when each is possible in turn. */
  ghost function Run(s: State, actions: seq<Action>): Option<State>
    decreases actions
  {
    if actions == [] then Some(s)
    else if Enabled(s, actions[0]) then Run(Apply(s, actions[0]), actions[1..])
    else None
  }

  /** In every interleaving every unfinished worker stays accounted for. */
  lemma {:induction false} RunKeepsInv(s: State, actions: seq<Action>)
    requires Inv(s) && Run(s, actions).Some?
    ensures Inv(Run(s, actions).value)
    decreases actions
  {
    if actions != [] {
      StepKeepsAccounted(s, actions[0]);
      StepKeepsOnePlace(s, actions[0]);
      RunKeepsInv(Apply(s, actions[0]), actions[1..]);
    }
  }

  /** The workers are finished or the drain has still to join them. */
  ghost predicate Joining(s: State, d: Drain, taken: seq<Worker>) {
    d in s.drains && forall w :: w in taken ==> w in s.finished || w in s.drains[d]
  }

  lemma {:induction false} RunKeepsJoining(s: State, d: Drain, taken: seq<Worker>, actions: seq<Action>)
    requires Joining(s, d, taken) && Run(s, actions).Some? && Return(d) !in actions
    ensures Joining(Run(s, actions).value, d, taken)
    decreases actions
  {
    if actions != [] {
      var a := actions[0];
      assert a != Return(d);
      assert a == Join(d) ==> s.drains[d] == [s.drains[d][0]] + s.drains[d][1..];
      RunKeepsJoining(Apply(s, a), d, taken, actions[1..]);
    }
  }

  lemma {:induction false} FinishedStays(s: State, w: Worker, actions: seq<Action>)
    requires w in s.finished && Run(s, actions).Some?
    ensures w in Run(s, actions).value.finished
    decreases actions
  {
    if actions != [] {
      FinishedStays(Apply(s, actions[0]), w, actions[1..]);
    }
  }

  /** The drain begins in `s`, the actions follow, and then it may return. */
  ghost predicate Drains(s: State, d: Drain, actions: seq<Action>) {
    && Enabled(s, Take(d)) && Return(d) !in actions
    && Run(Apply(s, Take(d)), actions).Some?
    && Enabled(Run(Apply(s, Take(d)), actions).value, Return(d))
  }

  /** A drain returns with every worker finished that was spawned before it,
      except for workers another drain was joining already. */
  lemma DrainJoinsSpawned(s: State, d: Drain, actions: seq<Action>, w: Worker)
    requires Inv(s) && Drains(s, d, actions) && w in s.spawned
    ensures w in Run(Apply(s, Take(d)), actions).value.finished || (Held(s, w) && w !in s.finished)
  {
    var s' := Apply(s, Take(d));
    if w in s.finished {
      FinishedStays(s', w, actions);
    } else if w in s.handles {
      RunKeepsJoining(s', d, s.handles, actions);
    }
  }

  /** So a drain that starts after all spawns have returned, with no other
      drain in progress, returns only once every worker has finished. */
  lemma LoneDrainWaitsForAll(before: seq<Action>, d: Drain, actions: seq<Action>)
    requires Run(Initial, before).Some?
    requires var s := Run(Initial, before).value;
      s.starting == {} && s.drains == map[] && Drains(s, d, actions) && forall w :: Start(w) !in actions
    ensures var end := Run(Apply(Run(Initial, before).value, Take(d)), actions).value;
      end.starting == {} && end.spawned <= end.finished
  {
    RunKeepsInv(Initial, before);
    var s := Run(Initial, before).value;
    var end := Run(Apply(s, Take(d)), actions).value;
    NoStartNoNew(Apply(s, Take(d)), actions);
    forall w | w in end.spawned
      ensures w in end.finished
    {
      DrainJoinsSpawned(s, d, actions, w);
    }
  }

  lemma {:induction false} NoStartNoNew(s: State, actions: seq<Action>)
    requires s.starting == {} && Run(s, actions).Some? && forall w :: Start(w) !in actions
    ensures Run(s, actions).value.starting == {} && Run(s, actions).value.spawned == s.spawned
    decreases actions
  {
    if actions != [] {
      assert actions[0] in actions;
      NoStartNoNew(Apply(s, actions[0]), actions[1..]);
    }
  }

  // ----------------------------------------------------- drains side by side

  /** Whatever happens, the drain returns only after every worker spawned
      before it. */
  ghost predicate WaitsForSpawned(s: State, d: Drain) {
    forall actions, w :: Drains(s, d, actions) && w in s.spawned ==> w in Run(Apply(s, Take(d)), actions).value.finished
  }

  /** Finish the workers to join one by one, and no other. */
  ghost function JoinAll(s: State, d: Drain): seq<Action>
    requires d in s.drains
    decreases |s.drains[d]|
  {
    if s.drains[d] == [] then []
    else
      var w := s.drains[d][0];
      var joined := s.(finished := s.finished + {w}, drains := s.drains[d := s.drains[d][1..]]);
      (if w in s.finished then [] else [Finish(w)]) + [Join(d)] + JoinAll(joined, d)
  }

  lemma {:induction false} RunBoth(s: State, first: seq<Action>, second: seq<Action>)
    requires Run(s, first).Some?
    ensures Run(s, first + second) == Run(Run(s, first).value, second)
    decreases first
  {
    if first == [] {
      assert first + second == second;
    } else {
      assert (first + second)[1..] == first[1..] + second;
      RunBoth(Apply(s, first[0]), first[1..], second);
    }
  }

  lemma {:induction false} JoinAllRuns(s: State, d: Drain)
    requires d in s.drains && forall w :: w in s.drains[d] ==> w in s.spawned
    ensures Return(d) !in JoinAll(s, d)
    ensures var end := Run(s, JoinAll(s, d));
      end == Some(s.(finished := s.finished + (set w | w in s.drains[d]), drains := s.drains[d := []]))
    decreases |s.drains[d]|
  {
    if s.drains[d] != [] {
      var w := s.drains[d][0];
      var joined := s.(finished := s.finished + {w}, drains := s.drains[d := s.drains[d][1..]]);
      var head := (if w in s.finished then [] else [Finish(w)]) + [Join(d)];
      HeadRuns(s, d);
      JoinAllRuns(joined, d);
      RunBoth(s, head, JoinAll(joined, d));
      assert joined.drains[d := []] == s.drains[d := []];
      assert s.drains[d] == [w] + s.drains[d][1..];
      assert joined.finished + (set v | v in joined.drains[d]) == s.finished + (set v | v in s.drains[d]);
    } else {
      assert s.drains[d := []] == s.drains;
      assert s.finished + (set v | v in s.drains[d]) == s.finished;
    }
  }

  lemma HeadRuns(s: State, d: Drain)
    requires d in s.drains && s.drains[d] != [] && s.drains[d][0] in s.spawned
    ensures var w := s.drains[d][0];
      Run(s, (if w in s.finished then [] else [Finish(w)]) + [Join(d)])
      == Some(s.(finished := s.finished + {w}, drains := s.drains[d := s.drains[d][1..]]))
  {
    var w := s.drains[d][0];
    if w in s.finished {
      assert s.finished + {w} == s.finished;
      assert [] + [Join(d)] == [Join(d)];
      assert Run(s, [Join(d)]) == Run(Apply(s, Join(d)), [Join(d)][1..]);
    } else {
      var finished := Apply(s, Finish(w));
      var steps := [Finish(w)] + [Join(d)];
      assert steps[1..] == [Join(d)];
      assert Run(finished, [Join(d)]) == Run(Apply(finished, Join(d)), [Join(d)][1..]);
    }
  }

  /** A drain waits for every worker spawned before it exactly when no other
      drain is still joining an unfinished one. */
  lemma WaitsExactlyWhen(s: State, d: Drain)
    requires Inv(s) && d !in s.drains
    ensures WaitsForSpawned(s, d) <==> forall other, w :: HeldBy(s, other, w) ==> w in s.finished
  {
    if other, w :| HeldBy(s, other, w) && w !in s.finished {
      var taken := Apply(s, Take(d));
      var actions := JoinAll(taken, d);
      JoinAllRuns(taken, d);
      assert Drains(s, d, actions);
      assert w in s.spawned && w !in s.handles;
      assert !WaitsForSpawned(s, d);
    } else {
      forall actions, w | Drains(s, d, actions) && w in s.spawned
        ensures w in Run(Apply(s, Take(d)), actions).value.finished
      {
        DrainJoinsSpawned(s, d, actions, w);
      }
    }
  }

  // --------------------------------------------------------------- a whole life

  lemma {:induction false} RetainedAll(handles: seq<Worker>)
    ensures Retained(handles, {}) == handles
  {
    if handles != [] {
      RetainedAll(handles[..|handles| - 1]);
      assert handles == handles[..|handles| - 1] + [handles[|handles| - 1]];
    }
  }

  ghost function StartAll(workers: seq<Worker>): seq<Action> {
    if workers == [] then [] else [Start(workers[0]), Track(workers[0], {})] + StartAll(workers[1..])
  }

  lemma {:induction false} StartAllRuns(s: State, workers: seq<Worker>)
    requires Distinct(workers) && forall w :: w in workers ==> w !in s.starting && w !in s.spawned
    ensures Run(s, StartAll(workers)) ==
      Some(s.(spawned := s.spawned + (set w | w in workers), handles := s.handles + workers))
    decreases workers
  {
    if workers == [] {
      assert s.handles + workers == s.handles && s.spawned + (set v | v in workers) == s.spawned;
    } else {
      hide Run, Retained;
      var w, rest := workers[0], workers[1..];
      var tracked := s.(spawned := s.spawned + {w}, handles := s.handles + [w]);
      StartOne(s, w);
      TrackedMore(s, workers);
      StartAllRuns(tracked, rest);
      RunBoth(s, [Start(w), Track(w, {})], StartAll(rest));
    }
  }

  lemma TrackedMore(s: State, workers: seq<Worker>)
    requires workers != [] && Distinct(workers)
    ensures workers[0] !in workers[1..] && Distinct(workers[1..])
    ensures s.handles + [workers[0]] + workers[1..] == s.handles + workers
    ensures s.spawned + {workers[0]} + (set v | v in workers[1..]) == s.spawned + (set v | v in workers)
  {
    assert workers == [workers[0]] + workers[1..];
  }

  lemma StartOne(s: State, w: Worker)
    requires w !in s.starting && w !in s.spawned
    ensures Run(s, [Start(w), Track(w, {})]) == Some(s.(spawned := s.spawned + {w}, handles := s.handles + [w]))
  {
    var started := Apply(s, Start(w));
    RetainedAll(s.handles);
    assert s.starting + {w} - {w} == s.starting;
    RunOne(s, Start(w));
    RunOne(started, Track(w, {}));
    RunBoth(s, [Start(w)], [Track(w, {})]);
    assert [Start(w)] + [Track(w, {})] == [Start(w), Track(w, {})];
  }

  /** Start and track the workers, take them, join them all, and return. */
  ghost function WholeLife(workers: seq<Worker>, d: Drain): seq<Action> {
    var taken := Initial.(spawned := (set w | w in workers), drains := map[d := workers]);
    StartAll(workers) + [Take(d)] + (JoinAll(taken, d) + [Return(d)])
  }

  /** Any workers can be started, tracked and drained; then all are finished, and
      neither the registry nor a drain holds anything. */
  lemma DrainedInTheEnd(workers: seq<Worker>, d: Drain)
    requires Distinct(workers)
    ensures Run(Initial, WholeLife(workers, d)) ==
      Some(State({}, (set w | w in workers), (set w | w in workers), [], map[]))
  {
    var all := set w | w in workers;
    var tracked := Initial.(spawned := all, handles := workers);
    var taken := Initial.(spawned := all, drains := map[d := workers]);
    var joined := Initial.(spawned := all, finished := all, drains := map[d := []]);
    StartAllRuns(Initial, workers);
    assert {} + all == all && [] + workers == workers;
    RunOne(tracked, Take(d));
    JoinAllRuns(taken, d);
    assert taken.drains[d := []] == joined.drains;
    RunOne(joined, Return(d));
    assert joined.drains - {d} == map[];
    hide Run, JoinAll, StartAll;
    RunBoth(Initial, StartAll(workers), [Take(d)]);
    RunBoth(taken, JoinAll(taken, d), [Return(d)]);
    RunBoth(Initial, StartAll(workers) + [Take(d)], JoinAll(taken, d) + [Return(d)]);
  }

  lemma RunOne(s: State, a: Action)
    requires Enabled(s, a)
    ensures Run(s, [a]) == Some(Apply(s, a))
  {
    assert [a][1..] == [];
  }

  // ------------------------------------------------------------------ the object

  /** The object stands for the registry of the state. */
  ghost predicate StandsFor(r: Registry, s: State)
    reads r
  {
    r.Valid() && r.handles == s.handles && r.tracked == s.spawned
  }

  /** One step, by the object's own methods. */
  method Perform(r: Registry, s: State, a: Action) returns (taken: seq<Worker>)
    requires StandsFor(r, s) && Inv(s) && Enabled(s, a)
    modifies r
    ensures StandsFor(r, Apply(s, a))
    ensures a.Take? ==> Apply(s, a).drains[a.drain] == taken
  {
    hide Retained;
    taken := [];
    match a {
      case Track(worker, gone) => r.Track(worker, gone);
      case Take(_) => taken := r.TakeAll();
      case _ =>
    }
  }

  /** A new registry, any actions (those not possible are passed over): every
      unfinished worker whose spawn returned is in the object's vector or in the
      list of a running drain. */
  method Follow(actions: seq<Action>) returns (r: Registry, s: State)
    ensures fresh(r) && StandsFor(r, s) && Inv(s)
    ensures forall w :: w in s.spawned && w !in s.finished ==> w in r.handles || Held(s, w)
  {
    hide Apply, Enabled, OnePlace;
    r := new Registry();
    s := Initial;
    StartInv();
    for i := 0 to |actions|
      invariant fresh(r) && StandsFor(r, s) && Inv(s)
    {
      if Enabled(s, actions[i]) {
        StepKeepsAccounted(s, actions[i]);
        StepKeepsOnePlace(s, actions[i]);
        var _ := Perform(r, s, actions[i]);
        s := Apply(s, actions[i]);
      }
    }
  }

  lemma StartInv()
    ensures Inv(Initial)
  {
  }
}
