/** What every run of the composed supervisor keeps, and exactly which
    surroundings let two daemons run at the same time.  */
module HandoverRuns {
  import opened Wrappers
  import opened Generations
  import opened DevChild
  import opened Handover
  import opened HandoverPort
  import SD = Shutdown

  /** Two daemons never run at the same time. */
  ghost predicate Exclusive(w: World) {
    forall p, q :: 0 <= p < |w.procs| && 0 <= q < |w.procs| && Scheduling(w.procs[p]) && Scheduling(w.procs[q]) ==>
      p == q
  }

  ghost predicate AlwaysExclusive(cfg: Config) {
    forall run: seq<World>, i :: IsRun(cfg, run) && 0 <= i < |run| ==> Exclusive(run[i])
  }

  lemma NoDaemonNeverSchedules(c: Child, faults: bool)
    requires ChildInv(c, faults) && c.noDaemon
    ensures !Scheduling(c)
  {
  }

  /** Binding gets the configured port exactly when it is free, and then no
      other process has it; either way the port is taken afterwards. */
  lemma BindTakesPort(cfg: Config, run: seq<World>, i: nat, p: nat)
    requires IsRun(cfg, run) && i < |run| && EventEnabled(cfg, run[i], ChildBinds(p))
    ensures var procs := AfterEvent(cfg, run[i], ChildBinds(p)).procs;
      && Listening(procs[p]) && (HoldsPort(procs[p]) <==> PortFree(run[i]))
      && (HoldsPort(procs[p]) ==> forall q :: 0 <= q < |procs| && q != p ==> !HoldsPort(procs[q]))
    ensures !PortFree(AfterEvent(cfg, run[i], ChildBinds(p)))
  {
    hide Next, Accounted, ChildInv;
    RunInv(cfg, run, i);
    var w, free := run[i], PortFree(run[i]);
    var bound := BindServer(w.procs[p], !free);
    BindKeepsInv(w.procs[p], !free, cfg.serverFaults);
    var procs := w.procs[p := bound];
    assert AfterEvent(cfg, w, ChildBinds(p)).procs == procs && procs[p] == bound;
    if !free && !w.foreign {
      var q :| 0 <= q < |w.procs| && HoldsPort(w.procs[q]);
      ImportingHoldsNothing(w.procs[p], cfg.serverFaults);
      assert procs[q] == w.procs[q];
    }
  }

  /** As long as every serving generation serves on the configured port and no
      server fails on its own, whoever else uses the machine. */
  lemma ExclusiveOnOnePort(cfg: Config, run: seq<World>, i: nat)
    requires IsRun(cfg, run) && i < |run| && !cfg.serverFaults
    requires forall p :: 0 <= p < |run[i].procs| && Scheduling(run[i].procs[p]) ==> !run[i].procs[p].fallback
    ensures Exclusive(run[i])
  {
    hide ChildInv, Accounted, Next, Scheduling;
    RunInv(cfg, run, i);
    var procs := run[i].procs;
    forall p, q | 0 <= p < |procs| && 0 <= q < |procs| && Scheduling(procs[p]) && Scheduling(procs[q])
      ensures p == q
    {
      SchedulingListens(procs[p]);
      SchedulingListens(procs[q]);
    }
  }

  /** Without other programs on the port, no generation ever falls back to
      another one, even when servers fail. */
  lemma NeverFallsBack(cfg: Config, run: seq<World>, i: nat)
    requires IsRun(cfg, run) && i < |run| && !cfg.foreignBinds
    ensures forall p :: 0 <= p < |run[i].procs| ==> !run[i].procs[p].fallback
  {
    hide ChildInv, Accounted, Next;
    RunInv(cfg, run, i);
  }

  lemma QuietSurroundingsExclusive(cfg: Config)
    requires cfg.noDaemon || (!cfg.foreignBinds && !cfg.serverFaults)
    ensures AlwaysExclusive(cfg)
  {
    hide Next, ChildInv, Accounted, Scheduling;
    forall run: seq<World>, i | IsRun(cfg, run) && 0 <= i < |run|
      ensures Exclusive(run[i])
    {
      if cfg.noDaemon {
        RunInv(cfg, run, i);
        forall p | 0 <= p < |run[i].procs|
          ensures !Scheduling(run[i].procs[p])
        {
          NoDaemonNeverSchedules(run[i].procs[p], cfg.serverFaults);
        }
      } else {
        NeverFallsBack(cfg, run, i);
        ExclusiveOnOnePort(cfg, run, i);
      }
    }
  }

  // ----------------------------------------------- where the promise is broken

  ghost predicate Reached(cfg: Config, w: World) {
    exists run :: IsRun(cfg, run) && run[|run| - 1] == w
  }

  lemma Take(cfg: Config, w: World, a: Action)
    requires Reached(cfg, w) && Handover.Enabled(cfg, w, a)
    ensures Reached(cfg, Handover.Apply(cfg, w, a))
  {
    var w' := Handover.Apply(cfg, w, a);
    assert Next(cfg, w, w');
    hide Next, Handover.Apply, Handover.Enabled;
    var run :| IsRun(cfg, run) && run[|run| - 1] == w;
    var longer := run + [w'];
    forall i | 0 <= i < |longer| - 1
      ensures Next(cfg, longer[i], longer[i + 1])
    {
      if i < |run| - 1 {
        assert Next(cfg, run[i], run[i + 1]);
      }
    }
    assert IsRun(cfg, longer) && longer[|longer| - 1] == w';
  }

  lemma Begin(cfg: Config)
    ensures Reached(cfg, World(Spawning(FromStart), NoGenerations, [], false))
  {
    assert IsRun(cfg, [Initial]) && [Initial][0] == Initial;
    assert Reached(cfg, Initial);
    Take(cfg, Initial, Moves(CallStart));
    var w := Initial.(pc := CheckPort(FromStart));
    assert PortFree(w);
    Take(cfg, w, Moves(PortSeenFree));
  }

  /** A child that has bound and started its daemon, at each later stage. */
  function Server(registered: bool, listens: bool): SD.Instance {
    SD.Instance(SD.Grpc, registered, listens, false, false, false, false)
  }

  function TheDaemon(registered: bool): SD.Instance {
    SD.Instance(SD.Daemon, registered, true, false, false, false, false)
  }

  function BoundChild(fallback: bool): Child {
    Child(Bound, fallback, false,
          SD.State(SD.InitialControl(true), SD.Services([Server(false, true)], None, None, {}, []), None))
  }

  function RegisteredChild(fallback: bool): Child {
    Child(ServerRegistered, fallback, false,
          SD.State(SD.InitialControl(true), SD.Services([Server(true, true)], None, Some(0), {}, []), None))
  }

  function StartedChild(fallback: bool): Child {
    Child(DaemonStarted, fallback, false,
          SD.State(SD.InitialControl(true),
                   SD.Services([Server(true, true), TheDaemon(false)], None, Some(0), {}, []), None))
  }

  function HandledChild(fallback: bool, listens: bool): Child {
    Child(HandlerInstalled, fallback, false,
          SD.State(SD.InitialControl(true).(signals := SD.AwaitFirst),
                   SD.Services([Server(true, listens), TheDaemon(true)], Some(1), Some(0), {}, []), None))
  }

  /** A freshly spawned child binds and starts its daemon. */
  lemma ChildStartsDaemon(cfg: Config, w: World, p: nat)
    requires Reached(cfg, w) && p < |w.procs| && w.procs[p] == Spawned(false)
    ensures Reached(cfg, w.(procs := w.procs[p := StartedChild(!PortFree(w))]))
  {
    var fb := !PortFree(w);
    hide Reached, PortFree;
    BindIs(fb);
    Take(cfg, w, Happens(ChildBinds(p)));
    var w1 := w.(procs := w.procs[p := BoundChild(fb)]);
    RegisterIs(fb, cfg.serverFaults);
    Take(cfg, w1, Happens(ChildDoes(p, RegisterServer)));
    var w2 := w.(procs := w.procs[p := RegisteredChild(fb)]);
    assert w2 == w1.(procs := w1.procs[p := RegisteredChild(fb)]);
    StartIs(fb, cfg.serverFaults);
    Take(cfg, w2, Happens(ChildDoes(p, StartDaemon)));
    assert w2.procs[p := StartedChild(fb)] == w.procs[p := StartedChild(fb)];
  }

  lemma BindIs(fb: bool)
    ensures Alive(Spawned(false)) && BindServer(Spawned(false), fb) == BoundChild(fb)
  {
  }

  lemma RegisterIs(fb: bool, faults: bool)
    ensures DevChild.Enabled(BoundChild(fb), RegisterServer, faults)
    ensures DevChild.Apply(BoundChild(fb), RegisterServer, faults) == RegisteredChild(fb)
  {
  }

  lemma StartIs(fb: bool, faults: bool)
    ensures DevChild.Enabled(RegisteredChild(fb), StartDaemon, faults)
    ensures DevChild.Apply(RegisteredChild(fb), StartDaemon, faults) == StartedChild(fb)
  {
  }

  function DaemonKnownChild(fallback: bool): Child {
    Child(DaemonRegistered, fallback, false,
          SD.State(SD.InitialControl(true),
                   SD.Services([Server(true, true), TheDaemon(true)], Some(1), Some(0), {}, []), None))
  }

  lemma RegisterDaemonIs(fb: bool, faults: bool)
    ensures DevChild.Enabled(StartedChild(fb), RegisterDaemon, faults)
    ensures DevChild.Apply(StartedChild(fb), RegisterDaemon, faults) == DaemonKnownChild(fb)
  {
  }

  lemma InstallIs(fb: bool, faults: bool)
    ensures DevChild.Enabled(DaemonKnownChild(fb), InstallHandler, faults)
    ensures DevChild.Apply(DaemonKnownChild(fb), InstallHandler, faults) == HandledChild(fb, true)
  {
  }

  /** It registers the daemon and installs the signal handler. */
  lemma ChildInstallsHandler(cfg: Config, w: World, p: nat, fb: bool)
    requires Reached(cfg, w) && p < |w.procs| && w.procs[p] == StartedChild(fb)
    ensures Reached(cfg, w.(procs := w.procs[p := HandledChild(fb, true)]))
  {
    hide Reached;
    RegisterDaemonIs(fb, cfg.serverFaults);
    Take(cfg, w, Happens(ChildDoes(p, RegisterDaemon)));
    var w1 := w.(procs := w.procs[p := DaemonKnownChild(fb)]);
    InstallIs(fb, cfg.serverFaults);
    Take(cfg, w1, Happens(ChildDoes(p, InstallHandler)));
    assert w1.procs[p := HandledChild(fb, true)] == w.procs[p := HandledChild(fb, true)];
  }

  /** The supervisor is idle and its active generation is `c`. */
  function IdleWith(c: Child): World {
    World(Ready, Roster(Some(Generation(0, 0)), [], 1), [c], false)
  }

  /** Another program takes the port before the first generation binds, and
      leaves later: that generation schedules while the port is free. */
  lemma FreePortByForeigner(cfg: Config)
    requires cfg.foreignBinds && !cfg.noDaemon
    ensures Reached(cfg, IdleWith(HandledChild(true, true)))
  {
    hide Reached;
    Begin(cfg);
    var w := World(Spawning(FromStart), NoGenerations, [], false);
    Take(cfg, w, Acts(SpawnSucceeds));
    var w1 := World(AwaitServing(0, FromStart), NoGenerations, [Spawned(false)], false);
    assert w1 == Handover.Apply(cfg, w, Acts(SpawnSucceeds));
    assert PortFree(w1);
    Take(cfg, w1, Happens(ForeignTakes));
    var w2 := w1.(foreign := true);
    ChildStartsDaemon(cfg, w2, 0);
    var w3 := w2.(procs := [StartedChild(true)]);
    assert w2.procs[0 := StartedChild(true)] == [StartedChild(true)];
    ChildInstallsHandler(cfg, w3, 0, true);
    var w4 := w2.(procs := [HandledChild(true, true)]);
    assert w3.procs[0 := HandledChild(true, true)] == [HandledChild(true, true)];
    Take(cfg, w4, Acts(SeesOpen));
    var w5 := World(Ready, Roster(Some(Generation(0, 0)), [], 1), [HandledChild(true, true)], true);
    Take(cfg, w5, Happens(ForeignLeaves));
  }

  lemma FaultIs(c: Child)
    requires c == HandledChild(false, true)
    ensures DevChild.Enabled(c, Inner(SD.ServiceStep(SD.ServerFault(0))), true)
    ensures DevChild.Apply(c, Inner(SD.ServiceStep(SD.ServerFault(0))), true) == HandledChild(false, false)
  {
  }

  /** The first generation serves, then its server fails: it schedules while
      the port is free. */
  lemma FreePortByFault(cfg: Config)
    requires cfg.serverFaults && !cfg.noDaemon
    ensures Reached(cfg, IdleWith(HandledChild(false, false)))
  {
    hide Reached;
    Begin(cfg);
    var w := World(Spawning(FromStart), NoGenerations, [], false);
    Take(cfg, w, Acts(SpawnSucceeds));
    var w1 := World(AwaitServing(0, FromStart), NoGenerations, [Spawned(false)], false);
    assert w1 == Handover.Apply(cfg, w, Acts(SpawnSucceeds));
    assert PortFree(w1);
    ChildStartsDaemon(cfg, w1, 0);
    var w3 := w1.(procs := [StartedChild(false)]);
    assert w1.procs[0 := StartedChild(false)] == [StartedChild(false)];
    ChildInstallsHandler(cfg, w3, 0, false);
    var w4 := w1.(procs := [HandledChild(false, true)]);
    assert w3.procs[0 := HandledChild(false, true)] == [HandledChild(false, true)];
    assert HoldsPort(w4.procs[0]);
    Take(cfg, w4, Acts(SeesOpen));
    var w5 := IdleWith(HandledChild(false, true));
    FaultIs(w5.procs[0]);
    Take(cfg, w5, Happens(ChildDoes(0, Inner(SD.ServiceStep(SD.ServerFault(0))))));
    assert w5.procs[0 := HandledChild(false, false)] == [HandledChild(false, false)];
  }

  lemma TerminatedStillSchedules(fb: bool, listens: bool)
    ensures var c := HandledChild(fb, listens);
      Alive(c) && Scheduling(Terminated(c)) && (fb || !listens ==> !HoldsPort(Terminated(c)))
  {
  }

  /** From there a reload starts a second daemon beside the first. */
  lemma ReloadOverlaps(cfg: Config, fb: bool, listens: bool)
    requires !cfg.noDaemon && (fb || !listens)
    requires Reached(cfg, IdleWith(HandledChild(fb, listens)))
    ensures exists w :: Reached(cfg, w) && !Exclusive(w)
  {
    hide Reached, HandledChild, Terminated;
    var w := IdleWith(HandledChild(fb, listens));
    var old_ := Terminated(HandledChild(fb, listens));
    TerminatedStillSchedules(fb, listens);
    Take(cfg, w, Moves(CallRun));
    var w1 := w.(pc := Selecting);
    Take(cfg, w1, Acts(Reload));
    var r := Roster(None, [Generation(0, 0)], 1);
    var w2 := World(RetireWait, r, [old_], false);
    assert w1.procs[0 := old_] == [old_];
    assert w2 == BeginRetire(w1);
    assert PortFree(w2);
    Take(cfg, w2, Moves(RetireSeesFree));
    var w3 := w2.(pc := CheckPort(FromReload));
    Take(cfg, w3, Moves(PortSeenFree));
    var w4 := w2.(pc := Spawning(FromReload));
    Take(cfg, w4, Acts(SpawnSucceeds));
    var w5 := World(AwaitServing(1, FromReload), r, [old_, Spawned(false)], false);
    assert [old_] + [Spawned(false)] == [old_, Spawned(false)];
    ChildStartsDaemon(cfg, w5, 1);
    var fb' := !PortFree(w5);
    var w6 := w5.(procs := w5.procs[1 := StartedChild(fb')]);
    assert Scheduling(w6.procs[0]) && Scheduling(w6.procs[1]);
    assert !Exclusive(w6);
  }

  lemma ReachedRefutes(cfg: Config, w: World)
    requires Reached(cfg, w) && !Exclusive(w)
    ensures !AlwaysExclusive(cfg)
  {
    hide Next, Exclusive;
    var run :| IsRun(cfg, run) && run[|run| - 1] == w;
    assert !Exclusive(run[|run| - 1]);
  }

  /** Two daemons never run at the same time, in any run, exactly when the
      code location has no daemon or the port is left to it alone and its
      servers do not fail by themselves. */
  lemma ExclusiveExactlyWhen(cfg: Config)
    ensures AlwaysExclusive(cfg) <==> cfg.noDaemon || (!cfg.foreignBinds && !cfg.serverFaults)
  {
    hide AlwaysExclusive, Reached, Exclusive, IdleWith, HandledChild;
    if cfg.noDaemon || (!cfg.foreignBinds && !cfg.serverFaults) {
      QuietSurroundingsExclusive(cfg);
    } else {
      if cfg.foreignBinds {
        FreePortByForeigner(cfg);
        ReloadOverlaps(cfg, true, true);
      } else {
        FreePortByFault(cfg);
        ReloadOverlaps(cfg, false, false);
      }
      var w :| Reached(cfg, w) && !Exclusive(w);
      ReachedRefutes(cfg, w);
    }
  }

  // -------------------------------------------------------------- bookkeeping

  /** Every process still running is held in exactly one place: as the active
      generation, in `retiring`, as the candidate, or by `stop`. */
  lemma EveryProcessAccounted(cfg: Config, run: seq<World>, i: nat, p: nat)
    requires IsRun(cfg, run) && i < |run| && Runs(run[i].procs, p)
    ensures Tracked(run[i].pc, run[i].roster)[p] == 1
  {
    hide Next, PortInv, Tracked, Numbered;
    RunInv(cfg, run, i);
  }

  lemma GenerationsNumbered(cfg: Config, run: seq<World>, i: nat)
    requires IsRun(cfg, run) && i < |run|
    ensures Numbered(run[i].roster)
  {
    hide Next, PortInv, Held, Numbered;
    RunInv(cfg, run, i);
  }

  /** When `stop` returns nothing that was ever spawned still runs. */
  lemma StopLeavesNothing(cfg: Config, run: seq<World>, i: nat, p: nat)
    requires IsRun(cfg, run) && i < |run| && run[i].pc == Stopped
    ensures !Runs(run[i].procs, p)
  {
    hide Next, PortInv, Numbered;
    RunInv(cfg, run, i);
    assert Tracked(Stopped, run[i].roster) == multiset{} by {
      assert run[i].roster.retiring == [] && run[i].roster.active == None;
      assert Pids([]) == [];
    }
  }
}
