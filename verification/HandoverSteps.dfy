/** What the supervisor's steps do to the processes, and where they lead it.  */
module HandoverSteps {
  import opened Wrappers
  import opened Generations
  import opened DevChild
  import opened Handover
  import SD = Shutdown

  // -------------------------------------------------------------------- signals

  /** A termination signal reached the process: one without its handler is gone,
      one with it has one more signal to receive. */
  ghost predicate Signalled(c: Child, d: Child) {
    if !Alive(c) then d == c
    else if c.sd.control.signals == SD.NotInstalled then !Alive(d)
    else
      && Alive(d) && d.sd.control.pending == c.sd.control.pending + 1
      && d == c.(sd := d.sd) && d.sd == c.sd.(control := d.sd.control)
      && d.sd.control == c.sd.control.(pending := d.sd.control.pending)
  }

  lemma TerminatedIsSignalled(c: Child)
    ensures Signalled(c, Terminated(c))
  {
  }

  /** Only the named processes changed, each by a signal. */
  ghost predicate OnlySignalled(before: seq<Child>, after: seq<Child>, pids: set<nat>) {
    && |after| == |before|
    && (forall p :: 0 <= p < |before| && p in pids ==> Signalled(before[p], after[p]))
    && (forall p :: 0 <= p < |before| && p !in pids ==> after[p] == before[p])
  }

  /** A reload signals the active generation, if it still runs, and no other
      process; then it waits for the port. */
  lemma ReloadSignals(cfg: Config, w: World)
    requires Handover.Enabled(cfg, w, Acts(Reload))
    ensures var w' := Handover.Apply(cfg, w, Acts(Reload));
      if w.roster.active.Some? && Runs(w.procs, w.roster.active.value.pid)
      then OnlySignalled(w.procs, w'.procs, {w.roster.active.value.pid}) && w'.pc == RetireWait
      else w'.procs == w.procs && w'.pc == CheckPort(FromReload)
  {
    hide Terminated, Signalled;
    if w.roster.active.Some? && Runs(w.procs, w.roster.active.value.pid) {
      TerminatedIsSignalled(w.procs[w.roster.active.value.pid]);
    }
  }

  /** The pids of the running generations of a roster. */
  ghost function RunningPids(w: World): set<nat> {
    set g | g in All(w.roster) && Runs(w.procs, g.pid) :: g.pid
  }

  lemma {:induction false} RunningHolds(q: seq<Generation>, alive: set<nat>, p: nat)
    ensures p in Pids(Running(q, alive)) <==> p in alive && exists g :: g in q && g.pid == p
  {
    if q != [] {
      RunningHolds(q[1..], alive, p);
      assert q == [q[0]] + q[1..];
      var rest := Running(q[1..], alive);
      if q[0].pid in alive {
        assert Pids([q[0]] + rest) == [q[0].pid] + Pids(rest);
      }
    }
  }

  /** Stopping signals every running generation, and no other process, and waits
      for exactly those. */
  lemma StopSignals(cfg: Config, w: World)
    requires Handover.Enabled(cfg, w, Acts(CallStop))
    ensures var w' := Handover.Apply(cfg, w, Acts(CallStop));
      && OnlySignalled(w.procs, w'.procs, RunningPids(w))
      && w'.pc.StopWait? && forall p :: p in w'.pc.live <==> p in RunningPids(w)
  {
    hide Terminated, Signalled;
    var w' := Handover.Apply(cfg, w, Acts(CallStop));
    forall p: nat
      ensures p in w'.pc.live <==> p in RunningPids(w)
    {
      RunningHolds(All(w.roster), AlivePids(w.procs), p);
    }
    forall p | 0 <= p < |w.procs|
      ensures Signalled(w.procs[p], Terminated(w.procs[p]))
    {
      TerminatedIsSignalled(w.procs[p]);
    }
  }

  /** Giving up on a candidate signals it, and no other process, and waits for
      it; what is then killed is gone. */
  lemma GiveUpSignals(cfg: Config, w: World, o: Outcome)
    requires Handover.Enabled(cfg, w, Acts(GivesUp(o)))
    ensures var w' := Handover.Apply(cfg, w, Acts(GivesUp(o)));
      && OnlySignalled(w.procs, w'.procs, {w.pc.pid}) && w'.roster == w.roster
      && w'.pc == StopChild(w.pc.pid, o, w.pc.caller)
  {
    hide Terminated, Signalled;
    TerminatedIsSignalled(w.procs[w.pc.pid]);
  }

  /** Killing ends that process and touches no other. */
  lemma KillEnds(cfg: Config, w: World, a: Act)
    requires Handover.Enabled(cfg, w, Acts(a)) && (a.StopChildKilled? || a.StopKillsNext?)
    ensures var p := if a.StopChildKilled? then w.pc.pid else w.pc.live[0];
      var procs := Handover.Apply(cfg, w, Acts(a)).procs;
      && |procs| == |w.procs| && !Runs(procs, p)
      && forall q :: 0 <= q < |procs| && q != p ==> procs[q] == w.procs[q]
  {
  }

  /** A process that is signalled or crashes from outside changes alone, and the
      supervisor has yet to notice. */
  lemma OutsideTouchesOne(cfg: Config, w: World, e: Event)
    requires Handover.Enabled(cfg, w, Happens(e)) && (e.Terminate? || e.Crash?)
    ensures var w' := Handover.Apply(cfg, w, Happens(e));
      && w'.pc == w.pc && w'.roster == w.roster && w'.foreign == w.foreign
      && (e.Terminate? ==> OnlySignalled(w.procs, w'.procs, {e.pid}))
      && (e.Crash? ==> |w'.procs| == |w.procs| && !Runs(w'.procs, e.pid))
      && forall q :: 0 <= q < |w.procs| && q != e.pid ==> w'.procs[q] == w.procs[q]
  {
    hide Signalled;
    if e.Terminate? {
      TerminatedIsSignalled(w.procs[e.pid]);
    }
  }

  /** Everything else the supervisor does leaves the processes alone, except
      for starting one. */
  lemma OthersLeaveAlone(cfg: Config, w: World, a: Handover.Action)
    requires Handover.Enabled(cfg, w, a) && (a.Moves? || a.Drops? || a == Acts(SpawnSucceeds) || a == Acts(SeesOpen))
    ensures Handover.Apply(cfg, w, a).procs ==
      if a == Acts(SpawnSucceeds) then w.procs + [Spawned(cfg.noDaemon)] else w.procs
  {
  }

  // ----------------------------------------------------------------- where it is

  /** Inside `run`, from its loop to anything a reload does. */
  predicate InsideRun(pc: Pc) {
    match pc
    case Selecting => true
    case RetireWait => true
    case CheckPort(caller) => caller == FromReload
    case Spawning(caller) => caller == FromReload
    case AwaitServing(_, caller) => caller == FromReload
    case StopChild(_, _, caller) => caller == FromReload
    case _ => false
  }

  /** Inside `start`. */
  predicate InsideStart(pc: Pc) {
    match pc
    case CheckPort(caller) => caller == FromStart
    case Spawning(caller) => caller == FromStart
    case AwaitServing(_, caller) => caller == FromStart
    case StopChild(_, _, caller) => caller == FromStart
    case _ => false
  }

  /** A terminate signal that ends `run`. */
  predicate Interrupts(pc: Pc, a: Handover.Action) {
    || a == Moves(RunEnds)
    || a == Moves(RetireInterrupted)
    || ((a == Drops(StopChildExits) || a == Acts(StopChildKilled)) && pc.StopChild? && pc.outcome == Interrupted)
  }

  /** Only a terminate signal ends `run`; a reload that fails or succeeds comes
      back to its loop, and one that succeeds with the candidate active. */
  lemma RunEndsBySignal(cfg: Config, w: World, a: Handover.Action)
    requires Handover.Enabled(cfg, w, a) && InsideRun(w.pc)
    ensures InsideRun(Handover.Apply(cfg, w, a).pc) <==> !Interrupts(w.pc, a)
    ensures Interrupts(w.pc, a) ==> Handover.Apply(cfg, w, a).pc == Ready
    ensures a == Acts(SeesOpen) ==> Handover.Apply(cfg, w, a).pc == Selecting
    ensures a == Acts(SeesOpen) ==>
      Handover.Apply(cfg, w, a).roster.active == Some(Generation(w.roster.generations, w.pc.pid))
  {
    match a
    case Moves(m) =>
    case Drops(d) =>
    case Acts(x) =>
    case Happens(_) =>
  }

  /** `start` ends only by returning; `run` is entered, and `stop` begun, only by
      calling it. */
  lemma StartReturns(cfg: Config, w: World, a: Handover.Action)
    requires Handover.Enabled(cfg, w, a)
    ensures InsideStart(w.pc) ==> InsideStart(Handover.Apply(cfg, w, a).pc) || Handover.Apply(cfg, w, a).pc == Ready
    ensures !InsideRun(w.pc) && InsideRun(Handover.Apply(cfg, w, a).pc) ==> w.pc == Ready && a == Moves(CallRun)
    ensures !StopPath(w.pc) && StopPath(Handover.Apply(cfg, w, a).pc) ==> w.pc == Ready && a == Acts(CallStop)
    ensures StopPath(w.pc) ==> StopPath(Handover.Apply(cfg, w, a).pc)
  {
    match a
    case Moves(m) =>
    case Drops(d) =>
    case Acts(x) =>
    case Happens(_) =>
  }
}
