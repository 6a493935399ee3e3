/** Who holds the configured port, over every step of the composed system.  */
module HandoverPort {
  import opened Wrappers
  import opened Generations
  import opened DevChild
  import opened Handover

  ghost predicate ChildrenSane(cfg: Config, procs: seq<Child>) {
    forall p :: 0 <= p < |procs| ==> ChildInv(procs[p], cfg.serverFaults) && procs[p].noDaemon == cfg.noDaemon
  }

  /** The kernel gives the configured port to one listener. */
  ghost predicate OneHolder(procs: seq<Child>, foreign: bool) {
    && (forall p, q :: 0 <= p < |procs| && 0 <= q < |procs| && HoldsPort(procs[p]) && HoldsPort(procs[q]) ==> p == q)
    && (foreign ==> forall p :: 0 <= p < |procs| ==> !HoldsPort(procs[p]))
  }

  predicate IsCandidate(pc: Pc, p: nat) {
    (pc.AwaitServing? || pc.StopChild?) && pc.pid == p
  }

  /** Only the candidate may still bind, and while a process is being spawned
      or awaited no other one holds the port; nobody serves elsewhere. */
  ghost predicate OrderlyPort(pc: Pc, procs: seq<Child>) {
    && (forall p :: 0 <= p < |procs| ==> !procs[p].fallback)
    && (forall p :: 0 <= p < |procs| && Alive(procs[p]) && procs[p].boot == Importing ==> IsCandidate(pc, p))
    && (pc.Spawning? || pc.AwaitServing? || pc.StopChild? ==>
          forall p :: 0 <= p < |procs| && HoldsPort(procs[p]) ==> IsCandidate(pc, p))
  }

  ghost predicate PortInv(cfg: Config, w: World) {
    && ChildrenSane(cfg, w.procs)
    && OneHolder(w.procs, w.foreign)
    && (!cfg.foreignBinds ==> !w.foreign && OrderlyPort(w.pc, w.procs))
  }

  ghost predicate AllAdvance(before: seq<Child>, after: seq<Child>) {
    |before| == |after| && forall p :: 0 <= p < |before| ==> Advances(before[p], after[p])
  }

  lemma AdvanceKeepsPort(cfg: Config, w: World, procs: seq<Child>)
    requires PortInv(cfg, w) && AllAdvance(w.procs, procs) && ChildrenSane(cfg, procs)
    ensures PortInv(cfg, w.(procs := procs))
  {
    hide ChildInv;
  }

  lemma OneAdvances(cfg: Config, procs: seq<Child>, p: nat, c: Child)
    requires ChildrenSane(cfg, procs) && p < |procs|
    requires Advances(procs[p], c) && ChildInv(c, cfg.serverFaults)
    ensures AllAdvance(procs, procs[p := c]) && ChildrenSane(cfg, procs[p := c])
  {
    hide ChildInv;
  }

  lemma TerminateKeepsPort(cfg: Config, w: World, p: nat)
    requires PortInv(cfg, w) && p < |w.procs|
    ensures PortInv(cfg, w.(procs := w.procs[p := Terminated(w.procs[p])]))
  {
    hide ChildInv, Terminated;
    TerminatedKeepsInv(w.procs[p], cfg.serverFaults);
    OneAdvances(cfg, w.procs, p, Terminated(w.procs[p]));
    AdvanceKeepsPort(cfg, w, w.procs[p := Terminated(w.procs[p])]);
  }

  lemma KillKeepsPort(cfg: Config, w: World, p: nat)
    requires PortInv(cfg, w) && p < |w.procs|
    ensures PortInv(cfg, w.(procs := w.procs[p := Killed(w.procs[p])]))
  {
    hide ChildInv, Killed;
    KilledKeepsInv(w.procs[p], cfg.serverFaults);
    OneAdvances(cfg, w.procs, p, Killed(w.procs[p]));
    AdvanceKeepsPort(cfg, w, w.procs[p := Killed(w.procs[p])]);
  }

  lemma ChildKeepsPort(cfg: Config, w: World, p: nat, x: ChildAction)
    requires PortInv(cfg, w) && EventEnabled(cfg, w, ChildDoes(p, x))
    ensures PortInv(cfg, AfterEvent(cfg, w, ChildDoes(p, x)))
  {
    hide ChildInv, DevChild.Apply, DevChild.Enabled;
    var c := DevChild.Apply(w.procs[p], x, cfg.serverFaults);
    ChildStep(w.procs[p], x, cfg.serverFaults);
    OneAdvances(cfg, w.procs, p, c);
    AdvanceKeepsPort(cfg, w, w.procs[p := c]);
  }

  lemma TerminateAllKeepsPort(cfg: Config, w: World, pids: seq<nat>)
    requires PortInv(cfg, w)
    ensures PortInv(cfg, w.(procs := TerminateAll(w.procs, pids)))
  {
    hide ChildInv, Terminated;
    var procs := TerminateAll(w.procs, pids);
    forall p | 0 <= p < |procs|
      ensures ChildInv(procs[p], cfg.serverFaults) && Advances(w.procs[p], procs[p])
    {
      TerminatedKeepsInv(w.procs[p], cfg.serverFaults);
    }
    AdvanceKeepsPort(cfg, w, procs);
  }

  /** The supervisor changes place: its old candidate, if any, has bound or
      ended, and it goes on to spawn only when nobody holds the port. */
  lemma PlaceKeepsPort(cfg: Config, w: World, pc: Pc)
    requires PortInv(cfg, w)
    requires forall p :: 0 <= p < |w.procs| && IsCandidate(w.pc, p) && !IsCandidate(pc, p) ==>
               !Alive(w.procs[p]) || w.procs[p].boot != Importing
    requires pc.Spawning? ==> !HeldByChild(w.procs)
    requires pc.AwaitServing? || pc.StopChild? ==> IsCandidate(w.pc, pc.pid)
    ensures PortInv(cfg, w.(pc := pc))
  {
    hide ChildInv;
  }

  lemma BindKeepsPort(cfg: Config, w: World, p: nat)
    requires PortInv(cfg, w) && EventEnabled(cfg, w, ChildBinds(p))
    ensures PortInv(cfg, AfterEvent(cfg, w, ChildBinds(p)))
  {
    hide ChildInv, BindServer;
    var taken := !PortFree(w);
    var c := BindServer(w.procs[p], taken);
    BindKeepsInv(w.procs[p], taken, cfg.serverFaults);
    if !cfg.foreignBinds {
      assert IsCandidate(w.pc, p);
      assert !HoldsPort(w.procs[p]) by { ImportingHoldsNothing(w.procs[p], cfg.serverFaults); }
      assert !taken;
    }
  }

  lemma ImportingHoldsNothing(c: Child, faults: bool)
    requires ChildInv(c, faults) && c.boot == Importing
    ensures !Listening(c)
  {
  }

  lemma ForeignKeepsPort(cfg: Config, w: World, e: Event)
    requires PortInv(cfg, w) && EventEnabled(cfg, w, e) && (e.ForeignTakes? || e.ForeignLeaves?)
    ensures PortInv(cfg, AfterEvent(cfg, w, e))
  {
    hide ChildInv;
  }

  lemma EventKeepsPort(cfg: Config, w: World, e: Event)
    requires PortInv(cfg, w) && EventEnabled(cfg, w, e)
    ensures PortInv(cfg, AfterEvent(cfg, w, e))
  {
    hide PortInv, DevChild.Enabled, DevChild.Apply, Terminated, Killed, BindServer;
    match e
    case ChildBinds(p) => BindKeepsPort(cfg, w, p);
    case ChildDoes(p, x) => ChildKeepsPort(cfg, w, p, x);
    case Terminate(p) => TerminateKeepsPort(cfg, w, p);
    case Crash(p) => KillKeepsPort(cfg, w, p);
    case ForeignTakes => ForeignKeepsPort(cfg, w, e);
    case ForeignLeaves => ForeignKeepsPort(cfg, w, e);
  }

  lemma MoveKeepsPort(cfg: Config, w: World, m: Move)
    requires PortInv(cfg, w) && MoveEnabled(w.pc, PortFree(w), m)
    ensures PortInv(cfg, w.(pc := AfterMove(w.pc, PortFree(w), m)))
  {
    hide PortInv;
    var pc := AfterMove(w.pc, PortFree(w), m);
    match m
    case PortSeenFree => PlaceKeepsPort(cfg, w, pc);
    case _ => PlaceKeepsPort(cfg, w, pc);
  }

  lemma DropKeepsPort(cfg: Config, w: World, d: Drop)
    requires PortInv(cfg, w) && DropEnabled(w, d)
    ensures PortInv(cfg, AfterDrop(w, d))
  {
    hide PortInv;
    match d
    case ReportExit => RosterKeepsPort(cfg, w, AfterDrop(w, d).roster);
    case Reap(i) => RosterKeepsPort(cfg, w, AfterDrop(w, d).roster);
    case SeesExit => PlaceKeepsPort(cfg, w, AfterDrop(w, d).pc);
    case StopChildExits => PlaceKeepsPort(cfg, w, AfterDrop(w, d).pc);
  }

  lemma RosterKeepsPort(cfg: Config, w: World, r: Roster)
    requires PortInv(cfg, w)
    ensures PortInv(cfg, w.(roster := r))
  {
  }

  /** The port is open while a candidate is awaited: without foreign programs
      it is the candidate that listens, so it has bound. */
  lemma OpenMeansBound(cfg: Config, w: World)
    requires PortInv(cfg, w) && ActEnabled(w, SeesOpen) && !cfg.foreignBinds
    requires w.pc.pid < |w.procs|
    ensures w.procs[w.pc.pid].boot != Importing
  {
    hide ChildInv;
    var p :| 0 <= p < |w.procs| && HoldsPort(w.procs[p]);
    assert IsCandidate(w.pc, p);
    if w.procs[p].boot == Importing {
      ImportingHoldsNothing(w.procs[p], cfg.serverFaults);
    }
  }

  lemma PromoteKeepsPort(cfg: Config, w: World)
    requires PortInv(cfg, w) && Accounted(w) && ActEnabled(w, SeesOpen)
    ensures PortInv(cfg, AfterAct(cfg, w, SeesOpen))
  {
    hide ChildInv, HoldsPort;
    var w' := AfterAct(cfg, w, SeesOpen);
    if !cfg.foreignBinds {
      assert w.pc.pid in Tracked(w.pc, w.roster);
      OpenMeansBound(cfg, w);
    }
  }

  lemma SpawnKeepsPort(cfg: Config, w: World)
    requires PortInv(cfg, w) && w.pc.Spawning?
    ensures PortInv(cfg, AfterAct(cfg, w, SpawnSucceeds))
  {
    hide ChildInv;
    SpawnedInv(cfg.noDaemon, cfg.serverFaults);
    var c := Spawned(cfg.noDaemon);
    ImportingHoldsNothing(c, cfg.serverFaults);
    assert Alive(c) && c.boot == Importing && !c.fallback;
  }

  lemma RetireKeepsPort(cfg: Config, w: World)
    requires PortInv(cfg, w) && w.pc == Selecting
    ensures PortInv(cfg, BeginRetire(w))
  {
    hide PortInv, Terminated;
    var w' := BeginRetire(w);
    PlaceKeepsPort(cfg, w, w'.pc);
    RosterKeepsPort(cfg, w.(pc := w'.pc), w'.roster);
    if w.roster.active.Some? && Runs(w.procs, w.roster.active.value.pid) {
      TerminateKeepsPort(cfg, w.(pc := w'.pc, roster := w'.roster), w.roster.active.value.pid);
    }
  }

  lemma StopBeginsKeepsPort(cfg: Config, w: World)
    requires PortInv(cfg, w) && w.pc == Ready
    ensures PortInv(cfg, BeginStop(w))
  {
    hide PortInv, TerminateAll, Running, Pids;
    var w' := BeginStop(w);
    PlaceKeepsPort(cfg, w, w'.pc);
    RosterKeepsPort(cfg, w.(pc := w'.pc), w'.roster);
    TerminateAllKeepsPort(cfg, w.(pc := w'.pc, roster := w'.roster), w'.pc.live);
  }

  lemma KillStepsKeepPort(cfg: Config, w: World, a: Act)
    requires PortInv(cfg, w) && ActEnabled(w, a) && (a.GivesUp? || a.StopChildKilled? || a.StopKillsNext?)
    ensures PortInv(cfg, AfterAct(cfg, w, a))
  {
    hide PortInv, Terminated, Killed;
    var w' := AfterAct(cfg, w, a);
    if a.GivesUp? {
      TerminateKeepsPort(cfg, w, w.pc.pid);
    } else if a.StopChildKilled? {
      KillKeepsPort(cfg, w, w.pc.pid);
    } else {
      KillKeepsPort(cfg, w, w.pc.live[0]);
    }
    PlaceKeepsPort(cfg, w.(procs := w'.procs), w'.pc);
  }

  lemma ActKeepsPort(cfg: Config, w: World, a: Act)
    requires PortInv(cfg, w) && Accounted(w) && ActEnabled(w, a)
    ensures PortInv(cfg, AfterAct(cfg, w, a))
  {
    hide PortInv, BeginRetire, BeginStop, Accounted;
    match a
    case Reload => RetireKeepsPort(cfg, w);
    case SpawnSucceeds => SpawnKeepsPort(cfg, w);
    case SeesOpen => PromoteKeepsPort(cfg, w);
    case GivesUp(_) => KillStepsKeepPort(cfg, w, a);
    case StopChildKilled => KillStepsKeepPort(cfg, w, a);
    case CallStop => StopBeginsKeepsPort(cfg, w);
    case StopKillsNext => KillStepsKeepPort(cfg, w, a);
  }

  lemma ActKeepsAccount(cfg: Config, w: World, a: Act)
    requires Accounted(w) && ActEnabled(w, a)
    ensures Accounted(AfterAct(cfg, w, a))
  {
    hide Accounted, BeginRetire, BeginStop, Terminated, Killed;
    match a
    case Reload => RetireKeepsAccount(w);
    case SpawnSucceeds => SpawnKeepsAccount(cfg, w);
    case SeesOpen => PromoteKeepsAccount(cfg, w);
    case GivesUp(o) => GiveUpKeepsAccount(cfg, w, o);
    case StopChildKilled => KillChildKeepsAccount(cfg, w);
    case CallStop => StopBegins(w);
    case StopKillsNext => StopKillKeepsAccount(cfg, w);
  }

  lemma ChildOnlyEnds(c: Child, a: ChildAction, faults: bool)
    requires DevChild.Enabled(c, a, faults)
    ensures Alive(c)
  {
  }

  lemma EventKeepsAccount(cfg: Config, w: World, e: Event)
    requires Accounted(w) && EventEnabled(cfg, w, e)
    ensures Accounted(AfterEvent(cfg, w, e))
  {
    hide DevChild.Enabled, DevChild.Apply, Terminated, Killed, BindServer, Tracked, Numbered, RosterFits;
    var w' := AfterEvent(cfg, w, e);
    match e {
      case ChildDoes(p, x) => ChildOnlyEnds(w.procs[p], x, cfg.serverFaults);
      case _ =>
    }
    var tracked := Tracked(w.pc, w.roster);
    HeldAfter(tracked, w.procs, multiset{}, w'.procs);
    assert tracked - multiset{} == tracked;
  }

  ghost predicate Inv(cfg: Config, w: World) {
    Accounted(w) && PortInv(cfg, w)
  }

  lemma NextKeepsInv(cfg: Config, w: World, w': World)
    requires Inv(cfg, w) && Next(cfg, w, w')
    ensures Inv(cfg, w')
  {
    hide Accounted, PortInv, AfterMove, AfterDrop, AfterAct, AfterEvent, PortFree;
    hide MoveEnabled, DropEnabled, ActEnabled, EventEnabled;
    var a :| Handover.Enabled(cfg, w, a) && w' == Handover.Apply(cfg, w, a);
    match a {
      case Moves(m) =>
        MoveKeepsAccount(w, PortFree(w), m);
        MoveKeepsPort(cfg, w, m);
      case Drops(d) =>
        DropKeepsAccount(w, d);
        DropKeepsPort(cfg, w, d);
      case Acts(x) =>
        ActKeepsAccount(cfg, w, x);
        ActKeepsPort(cfg, w, x);
      case Happens(e) =>
        EventKeepsAccount(cfg, w, e);
        EventKeepsPort(cfg, w, e);
    }
  }

  lemma InitialInv(cfg: Config)
    ensures Inv(cfg, Initial)
  {
    assert Tracked(Fresh, NoGenerations) == multiset{};
  }

  lemma {:induction false} RunInv(cfg: Config, run: seq<World>, i: nat)
    requires IsRun(cfg, run) && i < |run|
    ensures Inv(cfg, run[i])
  {
    if i == 0 {
      InitialInv(cfg);
    } else {
      hide Inv, Next;
      RunInv(cfg, run, i - 1);
      assert Next(cfg, run[i - 1], run[i - 1 + 1]);
      NextKeepsInv(cfg, run[i - 1], run[i]);
    }
  }
}
