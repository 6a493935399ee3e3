/** What the supervisor can always bring about: a reload that replaces the
    active generation, and a stop that returns.  */
module HandoverProgress {
  import opened Wrappers
  import opened Generations
  import opened DevChild
  import opened Handover
  import opened HandoverPort
  import opened HandoverRuns
  import SD = Shutdown
  import SP = ShutdownProgress

  // ------------------------------------------------------ the children's shutdown

  ghost predicate ChildrenSound(procs: seq<Child>) {
    forall p :: 0 <= p < |procs| ==> SP.Sound(procs[p].sd)
  }

  lemma DoSound(c: Child, boot: Boot, a: SD.Action)
    requires SP.Sound(c.sd) && SD.Inv(c.sd) && SD.Enabled(c.sd, a)
    ensures SP.Sound(Do(c, boot, a).sd)
  {
    SP.StepKeepsSound(c.sd, a);
  }

  lemma SpawnedSound(noDaemon: bool)
    ensures SP.Sound(Spawned(noDaemon).sd)
  {
  }

  lemma EndedSound(c: Child)
    requires SP.Sound(c.sd) && SD.Inv(c.sd)
    ensures SP.Sound(Terminated(c).sd) && SP.Sound(Killed(c).sd)
  {
    hide SP.Sound, SD.Inv;
    if Alive(c) {
      DoSound(c, c.boot, SD.ExitStep(SD.Killed));
      if c.sd.control.signals != SD.NotInstalled {
        DoSound(c, c.boot, SD.ControlStep(SD.Signal));
      }
    }
  }

  lemma BindSound(c: Child, taken: bool)
    requires SP.Sound(c.sd) && SD.Inv(c.sd) && Alive(c) && c.boot == Importing
    ensures SP.Sound(BindServer(c, taken).sd)
  {
    DoSound(c, Bound, SD.ServiceStep(SD.Spawn(SD.Grpc)));
  }

  lemma ChildSound(c: Child, a: ChildAction, faults: bool)
    requires SP.Sound(c.sd) && SD.Inv(c.sd) && DevChild.Enabled(c, a, faults)
    ensures SP.Sound(DevChild.Apply(c, a, faults).sd)
  {
    hide SP.Sound, SD.Inv, SD.Apply;
    match a
    case RegisterServer => DoSound(c, ServerRegistered, SD.ServiceStep(SD.Register(ServerHandle)));
    case StartDaemon => DoSound(c, DaemonStarted, SD.ServiceStep(SD.Spawn(SD.Daemon)));
    case RegisterDaemon => DoSound(c, DaemonRegistered, SD.ServiceStep(SD.Register(DaemonHandle)));
    case InstallHandler => DoSound(c, HandlerInstalled, SD.ControlStep(SD.InstallHandler));
    case Wait => DoSound(c, Waiting, SD.ControlStep(SD.StartCoordinator));
    case Inner(x) => DoSound(c, c.boot, x);
  }

  ghost predicate SaneSound(cfg: Config, procs: seq<Child>) {
    ChildrenSound(procs) && forall p :: 0 <= p < |procs| ==> SD.Inv(procs[p].sd)
  }

  lemma AllEndedSound(cfg: Config, procs: seq<Child>)
    requires SaneSound(cfg, procs)
    ensures forall p :: 0 <= p < |procs| ==> SP.Sound(Terminated(procs[p]).sd) && SP.Sound(Killed(procs[p]).sd)
  {
    hide SP.Sound, SD.Inv;
    forall p | 0 <= p < |procs|
      ensures SP.Sound(Terminated(procs[p]).sd) && SP.Sound(Killed(procs[p]).sd)
    {
      EndedSound(procs[p]);
    }
  }

  lemma ActSound(cfg: Config, w: World, a: Act)
    requires SaneSound(cfg, w.procs) && ActEnabled(w, a)
    ensures ChildrenSound(AfterAct(cfg, w, a).procs)
  {
    AllEndedSound(cfg, w.procs);
    SpawnedSound(cfg.noDaemon);
    hide SP.Sound, SD.Inv, Terminated, Killed, Spawned, HeldByChild;
    match a
    case Reload =>
    case CallStop =>
    case _ =>
  }

  lemma EventSound(cfg: Config, w: World, e: Event)
    requires SaneSound(cfg, w.procs) && EventEnabled(cfg, w, e)
    ensures ChildrenSound(AfterEvent(cfg, w, e).procs)
  {
    AllEndedSound(cfg, w.procs);
    hide SP.Sound, SD.Inv, Terminated, Killed, BindServer, DevChild.Apply, DevChild.Enabled, HeldByChild;
    match e
    case ChildBinds(p) => BindSound(w.procs[p], !PortFree(w));
    case ChildDoes(p, x) => ChildSound(w.procs[p], x, cfg.serverFaults);
    case _ =>
  }

  lemma StepSound(cfg: Config, w: World, a: Handover.Action)
    requires SaneSound(cfg, w.procs) && Handover.Enabled(cfg, w, a)
    ensures ChildrenSound(Handover.Apply(cfg, w, a).procs)
  {
    hide SaneSound, AfterAct, AfterEvent, ActEnabled, EventEnabled;
    match a
    case Moves(_) => assert SaneSound(cfg, w.procs) ==> ChildrenSound(w.procs) by { SoundOf(cfg, w.procs); }
    case Drops(_) => SoundOf(cfg, w.procs);
    case Acts(x) => ActSound(cfg, w, x);
    case Happens(e) => EventSound(cfg, w, e);
  }

  lemma SoundOf(cfg: Config, procs: seq<Child>)
    requires SaneSound(cfg, procs)
    ensures ChildrenSound(procs)
  {
  }

  lemma {:induction false} RunSound(cfg: Config, run: seq<World>, i: nat)
    requires IsRun(cfg, run) && i < |run|
    ensures ChildrenSound(run[i].procs)
  {
    if i > 0 {
      hide SP.Sound, Handover.Apply, Handover.Enabled;
      RunSound(cfg, run, i - 1);
      RunInv(cfg, run, i - 1);
      assert Next(cfg, run[i - 1], run[i - 1 + 1]);
      var a :| Handover.Enabled(cfg, run[i - 1], a) && run[i] == Handover.Apply(cfg, run[i - 1], a);
      assert SaneSound(cfg, run[i - 1].procs) by { InvOfChildren(cfg, run[i - 1]); }
      StepSound(cfg, run[i - 1], a);
    }
  }

  lemma InvOfChildren(cfg: Config, w: World)
    requires HandoverPort.Inv(cfg, w)
    ensures forall p :: 0 <= p < |w.procs| ==> SD.Inv(w.procs[p].sd)
  {
    hide SD.Inv, Accounted;
  }

  lemma ReachedFacts(cfg: Config, w: World)
    requires Reached(cfg, w)
    ensures ChildrenSound(w.procs) && HandoverPort.Inv(cfg, w)
  {
    hide ChildrenSound, HandoverPort.Inv;
    var run :| IsRun(cfg, run) && run[|run| - 1] == w;
    RunSound(cfg, run, |run| - 1);
    RunInv(cfg, run, |run| - 1);
  }

  // ------------------------------------------------------------ a child finishes

  /** A running child whose coordinator waits and that a signal has reached. */
  ghost predicate Told(c: Child) {
    && Alive(c) && c.sd.control.coord != SD.NotStarted && c.sd.control.signals != SD.NotInstalled
    && (c.sd.control.signals == SD.AwaitFirst ==> c.sd.control.pending > 0)
  }

  lemma ToldStepAllowed(c: Child, faults: bool)
    requires Told(c) && SP.Live(c.sd)
    ensures InnerAllowed(SP.NextStep(c.sd), faults)
  {
    hide SD.Inv, SP.Sound;
  }

  ghost predicate Signalled(c: SD.Control) {
    && c.coord != SD.NotStarted && c.signals != SD.NotInstalled
    && (c.signals == SD.AwaitFirst ==> c.pending > 0)
  }

  lemma ControlStaysSignalled(c: SD.Control, v: SD.Services, a: SD.ControlAction)
    requires Signalled(c) && SD.ControlEnabled(c, v, a)
    ensures Signalled(SD.AfterControl(c, v, a))
  {
  }

  lemma DrainStaysSignalled(c: SD.Control, v: SD.Services, a: SD.DrainAction)
    requires Signalled(c) && SD.DrainEnabled(c, v, a)
    ensures Signalled(SD.AfterDrain(c, v, a).0)
  {
  }

  lemma ToldStays(c: Child, a: SD.Action)
    requires Told(c) && SD.Enabled(c.sd, a) && SP.Settling(a)
    ensures Told(Do(c, c.boot, a))
  {
    hide SD.AfterService, SD.AfterControl, SD.AfterDrain, SD.ControlEnabled, SD.ServiceEnabled, SD.DrainEnabled;
    match a
    case ControlStep(x) => ControlStaysSignalled(c.sd.control, c.sd.services, x);
    case ServiceStep(_) =>
    case DrainStep(x) => DrainStaysSignalled(c.sd.control, c.sd.services, x);
  }

  /** It drains, stops serving and returns by itself. */
  lemma {:induction false} ChildFinishes(cfg: Config, w: World, p: nat) returns (d: Child)
    requires Reached(cfg, w) && p < |w.procs| && Told(w.procs[p]) && !SP.Doomed(w.procs[p].sd)
    ensures !Alive(d) && Reached(cfg, w.(procs := w.procs[p := d]))
    decreases SP.Rank(w.procs[p].sd)
  {
    hide Reached, SP.Doomed, SP.Rank, SP.NextStep, SD.Apply;
    var c := w.procs[p];
    if c.sd.control.coord == SD.Complete {
      Take(cfg, w, Happens(ChildDoes(p, Inner(SD.ExitStep(SD.Returned)))));
      d := Do(c, c.boot, SD.ExitStep(SD.Returned));
      assert !Alive(d) by { ReturnedEnds(c); }
    } else {
      assert SP.Live(c.sd) by { LiveChild(cfg, w, p); }
      SP.NextStepHelps(c.sd);
      var a := SP.NextStep(c.sd);
      ToldStepAllowed(c, cfg.serverFaults);
      ToldStays(c, a);
      Take(cfg, w, Happens(ChildDoes(p, Inner(a))));
      var w' := w.(procs := w.procs[p := Do(c, c.boot, a)]);
      d := ChildFinishes(cfg, w', p);
      assert w'.procs[p := d] == w.procs[p := d];
    }
  }

  lemma ReturnedEnds(c: Child)
    requires SD.Enabled(c.sd, SD.ExitStep(SD.Returned))
    ensures !Alive(Do(c, c.boot, SD.ExitStep(SD.Returned)))
  {
  }

  lemma LiveChild(cfg: Config, w: World, p: nat)
    requires Reached(cfg, w) && p < |w.procs| && Told(w.procs[p]) && !SP.Doomed(w.procs[p].sd)
    requires w.procs[p].sd.control.coord != SD.Complete
    ensures SP.Live(w.procs[p].sd)
  {
    hide Reached, SP.Doomed, SP.Sound, SD.Inv;
    ReachedFacts(cfg, w);
    InvOfChildren(cfg, w);
    SP.KnownInRange(w.procs[p].sd);
  }

  // ---------------------------------------------------------------- a child boots

  function Serving(boot: Boot, noDaemon: bool, registered: bool, daemons: seq<SD.Instance>, slot: Option<nat>): Child {
    Child(boot, false, noDaemon,
          SD.State(SD.InitialControl(true),
                   SD.Services([Server(registered, true)] + daemons, slot,
                               if registered then Some(0) else None, {}, []),
                   None))
  }

  /** A booted child: it serves on the configured port, schedules unless it has
      no daemon, and its coordinator waits for a signal. */
  function Booted(noDaemon: bool): Child {
    var c := if noDaemon then Serving(Waiting, true, true, [], None)
             else Serving(Waiting, false, true, [TheDaemon(true)], Some(1));
    c.(sd := c.sd.(control := c.sd.control.(signals := SD.AwaitFirst, coord := SD.AwaitDrain)))
  }

  lemma BootedServes(noDaemon: bool)
    ensures HoldsPort(Booted(noDaemon)) && (Scheduling(Booted(noDaemon)) <==> !noDaemon)
    ensures Booted(noDaemon).boot == Waiting && !SP.Doomed(Booted(noDaemon).sd)
  {
  }

  lemma Does(cfg: Config, w: World, n: nat, a: ChildAction, c: Child)
    requires Reached(cfg, w) && n < |w.procs| && DevChild.Enabled(w.procs[n], a, cfg.serverFaults)
    requires DevChild.Apply(w.procs[n], a, cfg.serverFaults) == c
    ensures Reached(cfg, w.(procs := w.procs[n := c]))
  {
    hide Reached, DevChild.Apply, DevChild.Enabled;
    Take(cfg, w, Happens(ChildDoes(n, a)));
  }

  /** A child spawned while the port is free boots. */
  lemma ChildBoots(cfg: Config, w: World, n: nat)
    requires Reached(cfg, w) && n < |w.procs| && w.procs[n] == Spawned(cfg.noDaemon) && PortFree(w)
    ensures Reached(cfg, w.(procs := w.procs[n := Booted(cfg.noDaemon)]))
  {
    var none, faults := cfg.noDaemon, cfg.serverFaults;
    var c1 := Serving(Bound, none, false, [], None);
    assert BindServer(Spawned(none), false) == c1 by { BindsTo(none); }
    hide Reached, PortFree;
    Take(cfg, w, Happens(ChildBinds(n)));
    var w1 := w.(procs := w.procs[n := c1]);
    var c2 := Serving(ServerRegistered, none, true, [], None);
    RegistersTo(none, faults);
    Does(cfg, w1, n, RegisterServer, c2);
    assert w1.procs[n := c2] == w.procs[n := c2];
    var w2 := w.(procs := w.procs[n := c2]);
    if none {
      HandlesTo(none, faults, c2);
      ChildWaits(cfg, w2, n, c2);
    } else {
      DaemonBoots(cfg, w2, n);
    }
    assert w2.procs[n := Booted(none)] == w.procs[n := Booted(none)];
  }

  lemma DaemonBoots(cfg: Config, w: World, n: nat)
    requires Reached(cfg, w) && n < |w.procs| && !cfg.noDaemon
    requires w.procs[n] == Serving(ServerRegistered, false, true, [], None)
    ensures Reached(cfg, w.(procs := w.procs[n := Booted(false)]))
  {
    DaemonTo(cfg.serverFaults);
    hide Reached, DevChild.Apply, DevChild.Enabled;
    var c3 := Serving(DaemonStarted, false, true, [TheDaemon(false)], None);
    var c4 := Serving(DaemonRegistered, false, true, [TheDaemon(true)], Some(1));
    Does(cfg, w, n, StartDaemon, c3);
    var w3 := w.(procs := w.procs[n := c3]);
    Does(cfg, w3, n, RegisterDaemon, c4);
    var w4 := w.(procs := w.procs[n := c4]);
    assert w3.procs[n := c4] == w4.procs;
    HandlesTo(false, cfg.serverFaults, c4);
    ChildWaits(cfg, w4, n, c4);
    assert w4.procs[n := Booted(false)] == w.procs[n := Booted(false)];
  }

  lemma ChildWaits(cfg: Config, w: World, n: nat, c: Child)
    requires Reached(cfg, w) && n < |w.procs| && w.procs[n] == c
    requires DevChild.Enabled(c, InstallHandler, cfg.serverFaults)
    requires DevChild.Enabled(DevChild.Apply(c, InstallHandler, cfg.serverFaults), Wait, cfg.serverFaults)
    requires DevChild.Apply(DevChild.Apply(c, InstallHandler, cfg.serverFaults), Wait, cfg.serverFaults)
          == Booted(cfg.noDaemon)
    ensures Reached(cfg, w.(procs := w.procs[n := Booted(cfg.noDaemon)]))
  {
    hide Reached, DevChild.Apply, DevChild.Enabled, Booted;
    var c' := DevChild.Apply(c, InstallHandler, cfg.serverFaults);
    Does(cfg, w, n, InstallHandler, c');
    var w' := w.(procs := w.procs[n := c']);
    Does(cfg, w', n, Wait, Booted(cfg.noDaemon));
    assert w'.procs[n := Booted(cfg.noDaemon)] == w.procs[n := Booted(cfg.noDaemon)];
  }

  lemma BindsTo(none: bool)
    ensures Alive(Spawned(none)) && BindServer(Spawned(none), false) == Serving(Bound, none, false, [], None)
  {
  }

  lemma RegistersTo(none: bool, faults: bool)
    ensures DevChild.Enabled(Serving(Bound, none, false, [], None), RegisterServer, faults)
    ensures DevChild.Apply(Serving(Bound, none, false, [], None), RegisterServer, faults)
         == Serving(ServerRegistered, none, true, [], None)
  {
  }

  lemma DaemonTo(faults: bool)
    ensures var c2 := Serving(ServerRegistered, false, true, [], None);
      var c3 := Serving(DaemonStarted, false, true, [TheDaemon(false)], None);
      var c4 := Serving(DaemonRegistered, false, true, [TheDaemon(true)], Some(1));
      && DevChild.Enabled(c2, StartDaemon, faults) && DevChild.Apply(c2, StartDaemon, faults) == c3
      && DevChild.Enabled(c3, RegisterDaemon, faults) && DevChild.Apply(c3, RegisterDaemon, faults) == c4
  {
  }

  lemma HandlesTo(none: bool, faults: bool, c: Child)
    requires c == if none then Serving(ServerRegistered, true, true, [], None)
                  else Serving(DaemonRegistered, false, true, [TheDaemon(true)], Some(1))
    ensures DevChild.Enabled(c, InstallHandler, faults)
    ensures DevChild.Enabled(DevChild.Apply(c, InstallHandler, faults), Wait, faults)
    ensures DevChild.Apply(DevChild.Apply(c, InstallHandler, faults), Wait, faults) == Booted(none)
  {
  }

  // -------------------------------------------------------------- a reload succeeds

  /** The supervisor waits for work with this generation active, booted and
      serving on the configured port, and able to complete its shutdown. */
  ghost predicate Reloadable(w: World) {
    && w.pc == Selecting && w.roster.active.Some? && w.roster.active.value.pid < |w.procs|
    && var c := w.procs[w.roster.active.value.pid];
       && HoldsPort(c) && c.sd.control.coord != SD.NotStarted && c.sd.control.signals != SD.NotInstalled
       && !SP.Doomed(c.sd)
  }

  /** The next generation took over: it is active, booted and serves on the
      port, and the one before has ended. */
  ghost predicate Replaced(cfg: Config, w: World, w': World)
    requires w.roster.active.Some?
  {
    && w'.pc == Selecting && |w'.procs| == |w.procs| + 1
    && w'.roster.active == Some(Generation(w.roster.generations, |w.procs|))
    && HoldsPort(w'.procs[|w.procs|]) && (Scheduling(w'.procs[|w.procs|]) <==> !cfg.noDaemon)
    && !Runs(w'.procs, w.roster.active.value.pid)
  }

  lemma TerminatedTold(c: Child)
    requires Alive(c) && c.sd.control.coord != SD.NotStarted && c.sd.control.signals != SD.NotInstalled
    requires !SP.Doomed(c.sd)
    ensures Told(Terminated(c)) && !SP.Doomed(Terminated(c).sd)
  {
  }

  /** Once the holder of the port ended, the port is free. */
  lemma FreedByEnd(cfg: Config, w: World, p: nat, d: Child)
    requires PortInv(cfg, w) && p < |w.procs| && HoldsPort(w.procs[p]) && !Alive(d)
    ensures PortFree(w.(procs := w.procs[p := d]))
  {
    hide ChildInv;
    var procs := w.procs[p := d];
    forall q | 0 <= q < |procs|
      ensures !HoldsPort(procs[q])
    {
      assert q != p ==> procs[q] == w.procs[q];
    }
  }

  /** The part of a reload after the port is free. */
  lemma SpawnsNext(cfg: Config, w: World) returns (w': World)
    requires Reached(cfg, w) && w.pc == RetireWait && PortFree(w)
    ensures Reached(cfg, w') && w'.pc == Selecting && w'.procs == w.procs + [Booted(cfg.noDaemon)]
    ensures w'.roster.active == Some(Generation(w.roster.generations, |w.procs|))
  {
    hide Reached, Booted, Spawned, HeldByChild;
    Take(cfg, w, Moves(RetireSeesFree));
    Take(cfg, w.(pc := CheckPort(FromReload)), Moves(PortSeenFree));
    Take(cfg, w.(pc := Spawning(FromReload)), Acts(SpawnSucceeds));
    var n := |w.procs|;
    var w1 := w.(pc := AwaitServing(n, FromReload), procs := w.procs + [Spawned(cfg.noDaemon)]);
    assert PortFree(w1) by { StillFree(w, cfg.noDaemon); }
    ChildBoots(cfg, w1, n);
    var w2 := w1.(procs := w.procs + [Booted(cfg.noDaemon)]);
    assert w1.procs[n := Booted(cfg.noDaemon)] == w2.procs;
    assert !PortFree(w2) by { BootedServes(cfg.noDaemon); BootedHolds(w2, n); }
    Take(cfg, w2, Acts(SeesOpen));
    w' := Handover.Apply(cfg, w2, Acts(SeesOpen));
  }

  lemma StillFree(w: World, none: bool)
    requires PortFree(w)
    ensures PortFree(w.(procs := w.procs + [Spawned(none)]))
  {
    var procs := w.procs + [Spawned(none)];
    forall q | 0 <= q < |procs|
      ensures !HoldsPort(procs[q])
    {
      assert q < |w.procs| ==> procs[q] == w.procs[q];
    }
  }

  lemma BootedHolds(w: World, n: nat)
    requires n < |w.procs| && HoldsPort(w.procs[n])
    ensures !PortFree(w)
  {
  }

  /** From every reachable world in which the active generation serves on the
      configured port, a reload can replace it, by the signal it sends alone. */
  lemma ReloadCanReplace(cfg: Config, w: World) returns (w': World)
    requires Reached(cfg, w) && Reloadable(w)
    ensures Reached(cfg, w') && Replaced(cfg, w, w')
  {
    hide Reached, Terminated, SP.Doomed, PortFree, Booted;
    var p := w.roster.active.value.pid;
    var c := w.procs[p];
    Take(cfg, w, Acts(Reload));
    var w1 := World(RetireWait, ActiveRetired(w.roster), w.procs[p := Terminated(c)], w.foreign);
    assert w1 == BeginRetire(w);
    TerminatedTold(c);
    var d := ChildFinishes(cfg, w1, p);
    var w2 := w1.(procs := w.procs[p := d]);
    assert w1.procs[p := d] == w2.procs;
    assert PortFree(w2) by {
      ReachedFacts(cfg, w);
      FreedByEnd(cfg, w, p, d);
      SamePort(w.(procs := w.procs[p := d]), w2);
    }
    w' := SpawnsNext(cfg, w2);
    BootedServes(cfg.noDaemon);
    assert w'.procs[p] == d;
  }

  lemma SamePort(w: World, w': World)
    requires w.procs == w'.procs && w.foreign == w'.foreign && PortFree(w)
    ensures PortFree(w')
  {
  }

  // ---------------------------------------------------------------- a stop returns

  lemma {:induction false} KillsRest(cfg: Config, w: World) returns (w': World)
    requires Reached(cfg, w) && w.pc.StopKill?
    ensures Reached(cfg, w') && w'.pc == Stopped
    decreases if w.pc.StopKill? then |w.pc.live| else 0
  {
    hide Reached, Killed;
    if w.pc.live == [] {
      Take(cfg, w, Moves(StopReturns));
      w' := w.(pc := Stopped);
    } else {
      assert w.pc.live[0] < |w.procs| by { LiveInRange(cfg, w); }
      Take(cfg, w, Acts(StopKillsNext));
      w' := KillsRest(cfg, Handover.Apply(cfg, w, Acts(StopKillsNext)));
    }
  }

  lemma LiveInRange(cfg: Config, w: World)
    requires Reached(cfg, w) && w.pc.StopKill? && w.pc.live != []
    ensures w.pc.live[0] < |w.procs|
  {
    hide Reached, PortInv;
    ReachedFacts(cfg, w);
    assert w.pc.live[0] in Tracked(w.pc, w.roster);
  }

  /** Whenever the supervisor is idle, `stop` can return. */
  lemma StopCanReturn(cfg: Config, w: World) returns (w': World)
    requires Reached(cfg, w) && w.pc == Ready
    ensures Reached(cfg, w') && w'.pc == Stopped
  {
    hide Reached, TerminateAll;
    Take(cfg, w, Acts(CallStop));
    var w1 := BeginStop(w);
    Take(cfg, w1, Moves(StopWaitEnds));
    w' := KillsRest(cfg, w1.(pc := StopKill(w1.pc.live)));
  }
}
