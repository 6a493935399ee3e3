/** The supervisor object, taken through any run of the composed system by its
    own methods.  */
module SupervisorSteps {
  import opened Wrappers
  import opened Generations
  import opened DevChild
  import opened Handover
  import HandoverRuns
  import HandoverSteps

  /** The active generation, when it still runs. */
  ghost function RetiredPids(w: World): seq<nat> {
    if w.roster.active.Some? && Runs(w.procs, w.roster.active.value.pid) then [w.roster.active.value.pid] else []
  }

  /** What one of the supervisor's steps does to its fields, and which pids it
      terminates in it. */
  method Perform(s: Supervisor, cfg: Config, w: World, a: Handover.Action) returns (terminated: seq<nat>)
    requires s.Valid() && s.Fields() == w.roster && Handover.Enabled(cfg, w, a)
    modifies s
    ensures s.Valid() && s.Fields() == Handover.Apply(cfg, w, a).roster
    ensures a == Acts(Reload) || a == Acts(CallStop) ==>
      Handover.Apply(cfg, w, a).procs == TerminateAll(w.procs, terminated)
    ensures a == Acts(Reload) ==> terminated == RetiredPids(w)
    ensures a == Acts(CallStop) ==> Handover.Apply(cfg, w, a).pc == StopWait(terminated)
    ensures a == Acts(CallStop) ==> forall p :: p in terminated <==> p in HandoverSteps.RunningPids(w)
  {
    hide Numbered, StillRunning;
    terminated := [];
    match a {
      case Drops(ReportExit) => s.ReportExit(AlivePids(w.procs));
      case Drops(Reap(index)) =>
        var _ := s.Reap(index, AlivePids(w.procs));
      case Acts(Reload) =>
        var pid := s.BeginRetire(AlivePids(w.procs));
        terminated := if pid.Some? then [pid.value] else [];
      case Acts(SeesOpen) =>
        var _ := s.Promote(w.pc.pid);
      case Acts(CallStop) =>
        var live := s.BeginStop(AlivePids(w.procs));
        terminated := Pids(live);
        HandoverSteps.StopSignals(cfg, w);
      case _ =>
    }
  }

  /** The process is held once: by the object, or where its method stands. */
  ghost predicate HoldsAll(w: World, r: Roster) {
    forall p: nat :: Runs(w.procs, p) ==> Tracked(w.pc, r)[p] == 1
  }

  /** A new supervisor, any actions (those not possible are passed over): the
      object goes through a run of the system, and at its end holds every
      running process in exactly one place, under numbers in serving order. */
  method Follow(cfg: Config, actions: seq<Handover.Action>) returns (s: Supervisor, w: World, ghost run: seq<World>)
    ensures fresh(s) && s.Valid()
    ensures Handover.IsRun(cfg, run) && w == run[|run| - 1] && s.Fields() == w.roster
    ensures HoldsAll(w, s.Fields())
    ensures w.pc == Stopped ==> forall p: nat :: !Runs(w.procs, p)
  {
    hide Handover.Apply, Handover.Enabled, Numbered, Tracked, Runs;
    s := new Supervisor();
    w := Handover.Initial;
    run := [w];
    for i := 0 to |actions|
      invariant fresh(s) && s.Valid()
      invariant Handover.IsRun(cfg, run) && w == run[|run| - 1] && s.Fields() == w.roster
    {
      if Handover.Enabled(cfg, w, actions[i]) {
        var _ := Perform(s, cfg, w, actions[i]);
        RunGrows(cfg, run, actions[i]);
        w := Handover.Apply(cfg, w, actions[i]);
        run := run + [w];
      }
    }
    forall p: nat | Runs(w.procs, p)
      ensures Tracked(w.pc, w.roster)[p] == 1
    {
      HandoverRuns.EveryProcessAccounted(cfg, run, |run| - 1, p);
    }
    if w.pc == Stopped {
      forall p: nat
        ensures !Runs(w.procs, p)
      {
        HandoverRuns.StopLeavesNothing(cfg, run, |run| - 1, p);
      }
    }
  }

  lemma RunGrows(cfg: Config, run: seq<World>, a: Handover.Action)
    requires Handover.IsRun(cfg, run) && Handover.Enabled(cfg, run[|run| - 1], a)
    ensures Handover.IsRun(cfg, run + [Handover.Apply(cfg, run[|run| - 1], a)])
  {
    var w' := Handover.Apply(cfg, run[|run| - 1], a);
    assert Handover.Next(cfg, run[|run| - 1], w');
    hide Handover.Next, Handover.Apply, Handover.Enabled;
    var longer := run + [w'];
    forall i | 0 <= i < |longer| - 1
      ensures Handover.Next(cfg, longer[i], longer[i + 1])
    {
      if i < |run| - 1 {
        assert Handover.Next(cfg, run[i], run[i + 1]);
      }
    }
  }
}
