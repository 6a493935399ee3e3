/** Retire mode frees the gRPC port "as soon as the daemon cannot dispatch any
    more". How many daemons a process may start, and when it must have
    registered them, for that to be true of all of them.  */
module QuietShutdown {
  import Sets
  import opened Wrappers
  import opened Shutdown
  import opened ShutdownRuns

  function DaemonHandles(v: Services): set<nat> {
    set h | 0 <= h < |v.instances| && v.instances[h].kind == Daemon
  }

  /** Every daemon is registered. */
  ghost predicate AllRegistered(v: Services) {
    forall h :: h in DaemonHandles(v) ==> v.instances[h].registered
  }

  /** At most `n` daemons were started; unless they may be `late`, each was
      registered before the coordinator looked. */
  ghost predicate Disciplined(s: State, n: nat, late: bool) {
    && |DaemonHandles(s.services)| <= n
    && (!late && PastLook(s.control.coord) ==> AllRegistered(s.services))
  }

  ghost predicate DisciplinedRun(run: seq<State>, n: nat, late: bool) {
    IsRun(true, run) && forall i :: 0 <= i < |run| ==> Disciplined(run[i], n, late)
  }

  /** Once the shutdown token is cancelled, no daemon can dispatch. */
  ghost predicate QuietAtShutdown(s: State) {
    s.control.shutdown ==> forall h :: h in DaemonHandles(s.services) ==> !s.services.instances[h].active
  }

  ghost predicate AlwaysQuiet(n: nat, late: bool) {
    forall run, i :: DisciplinedRun(run, n, late) && 0 <= i < |run| ==> QuietAtShutdown(run[i])
  }

  /** The only daemon is the one in the slot, then the one waited for. */
  ghost predicate Sole(s: State) {
    forall h :: h in DaemonHandles(s.services) ==>
      if PastLook(s.control.coord) then s.control.awaited == Some(h)
      else s.services.instances[h].registered ==> s.services.daemonSlot == Some(h)
  }

  lemma OnlyOne(v: Services, g: nat, h: nat)
    requires |DaemonHandles(v)| <= 1 && g in DaemonHandles(v) && h in DaemonHandles(v)
    ensures g == h
  {
    assert g != h ==> |{g, h}| == 2;
    Sets.SubsetSize({g, h}, DaemonHandles(v));
  }

  lemma ControlKeepsSole(s: State, a: ControlAction)
    requires Enabled(s, ControlStep(a)) && s.control.retire && Sole(s) && Inv(s)
    requires Disciplined(s, 1, false) && Disciplined(Apply(s, ControlStep(a)), 1, false)
    ensures Sole(Apply(s, ControlStep(a)))
  {
    hide OneOwner, Escalation;
    match a {
      case ReadSlot =>
      case ObserveDrain =>
      case _ =>
    }
  }

  lemma ServiceKeepsSole(s: State, a: ServiceAction)
    requires Enabled(s, ServiceStep(a)) && s.control.retire && Sole(s) && Inv(s)
    requires Disciplined(s, 1, false) && Disciplined(Apply(s, ServiceStep(a)), 1, false)
    ensures Sole(Apply(s, ServiceStep(a)))
  {
    hide OneOwner, Escalation;
    ServiceGrows(s.control, s.services, a);
    var s' := Apply(s, ServiceStep(a));
    forall h | h in DaemonHandles(s'.services)
      ensures if PastLook(s'.control.coord) then s'.control.awaited == Some(h)
              else s'.services.instances[h].registered ==> s'.services.daemonSlot == Some(h)
    {
      if a.Register? && s.services.instances[a.handle].kind == Daemon {
        OnlyOne(s'.services, h, a.handle);
      }
    }
  }

  lemma DrainKeepsSole(s: State, a: DrainAction)
    requires Enabled(s, DrainStep(a)) && s.control.retire && Sole(s) && Inv(s)
    ensures Sole(Apply(s, DrainStep(a)))
  {
    hide OneOwner, Escalation;
    DrainLooks(s.control, s.services, a);
    assert DaemonHandles(Apply(s, DrainStep(a)).services) == DaemonHandles(s.services);
  }

  lemma NextKeepsSole(s: State, s': State)
    requires Next(s, s') && s.control.retire && Sole(s) && Inv(s)
    requires Disciplined(s, 1, false) && Disciplined(s', 1, false)
    ensures Sole(s')
  {
    hide Sole, Inv, Disciplined;
    var a :| Enabled(s, a) && s' == Apply(s, a);
    match a
    case ControlStep(x) => ControlKeepsSole(s, x);
    case ServiceStep(x) => ServiceKeepsSole(s, x);
    case DrainStep(x) => DrainKeepsSole(s, x);
    case ExitStep(_) => ExitKeepsSole(s, s');
  }

  lemma ExitKeepsSole(s: State, s': State)
    requires Sole(s) && s'.control == s.control && s'.services == s.services
    ensures Sole(s')
  {
  }

  lemma StartSole(run: seq<State>)
    requires DisciplinedRun(run, 1, false)
    ensures Sole(run[0])
  {
    hide Next, Inv, Enabled, Apply;
  }

  lemma {:induction false} RunSole(run: seq<State>, i: nat)
    requires DisciplinedRun(run, 1, false) && i < |run|
    ensures Sole(run[i])
  {
    hide Next, Sole, Disciplined, Inv;
    if i == 0 {
      StartSole(run);
    } else {
      RunSole(run, i - 1);
      RunInv(true, run, i - 1);
      assert Next(run[i - 1], run[i - 1 + 1]);
      NextKeepsSole(run[i - 1], run[i]);
    }
  }

  /** One daemon, registered before the coordinator looks, is quiet by the time
      the shutdown token is cancelled. */
  lemma OneDaemonQuiet(run: seq<State>, i: nat)
    requires DisciplinedRun(run, 1, false) && i < |run|
    ensures QuietAtShutdown(run[i])
  {
    hide Next, OneOwner, Escalation, Disciplined;
    RunSole(run, i);
    RunInv(true, run, i);
  }

  // ------------------------------------------------------------------ reaching

  ghost predicate Reached(n: nat, late: bool, s: State) {
    exists run :: DisciplinedRun(run, n, late) && run[|run| - 1] == s
  }

  lemma Take(n: nat, late: bool, s: State, a: Action)
    requires Reached(n, late, s) && Enabled(s, a) && Disciplined(Apply(s, a), n, late)
    ensures Reached(n, late, Apply(s, a))
  {
    var s' := Apply(s, a);
    assert Next(s, s');
    hide Next, Apply, Enabled, Disciplined;
    var run :| DisciplinedRun(run, n, late) && run[|run| - 1] == s;
    var longer := run + [s'];
    forall i | 0 <= i < |longer| - 1
      ensures Next(longer[i], longer[i + 1])
    {
      if i < |run| - 1 {
        assert Next(run[i], run[i + 1]);
      }
    }
    assert DisciplinedRun(longer, n, late) && longer[|longer| - 1] == s';
  }

  lemma StartsReached(n: nat, late: bool)
    ensures Reached(n, late, Initial(true))
  {
    var s := Initial(true);
    assert DaemonHandles(s.services) == {};
    assert DisciplinedRun([s], n, late) && [s][0] == s;
  }

  /** Few instances, registered unless they may be late. */
  lemma Allowed(n: nat, late: bool, s: State)
    requires |s.services.instances| <= n
    requires late || !PastLook(s.control.coord) || AllRegistered(s.services)
    ensures Disciplined(s, n, late)
  {
    Sets.BelowSize(DaemonHandles(s.services), n);
  }

  lemma TakeControl(n: nat, late: bool, c: Control, v: Services, a: ControlAction)
    requires |v.instances| <= n && (late || AllRegistered(v))
    requires Reached(n, late, State(c, v, None)) && ControlEnabled(c, v, a)
    ensures Reached(n, late, State(AfterControl(c, v, a), v, None))
  {
    hide Reached, AfterControl, ControlEnabled, AllRegistered;
    Allowed(n, late, State(AfterControl(c, v, a), v, None));
    Take(n, late, State(c, v, None), ControlStep(a));
  }

  /** The coordinator is about to look. */
  const Looking := InitialControl(true).(signals := AwaitMore, coord := Reading, received := 1, drain := true)

  /** A signal takes the coordinator there, whatever services there are. */
  lemma ReachesLook(n: nat, late: bool, v: Services)
    requires |v.instances| <= n && (late || AllRegistered(v))
    requires Reached(n, late, State(InitialControl(true), v, None))
    ensures Reached(n, late, State(Looking, v, None))
  {
    hide Reached, AllRegistered;
    var c := InitialControl(true);
    TakeControl(n, late, c, v, InstallHandler);
    var c1 := c.(signals := AwaitFirst);
    TakeControl(n, late, c1, v, StartCoordinator);
    var c2 := c1.(coord := AwaitDrain);
    TakeControl(n, late, c2, v, Signal);
    var c3 := c2.(pending := 1);
    TakeControl(n, late, c3, v, Receive);
    var c4 := c2.(received := 1, signals := Firing);
    TakeControl(n, late, c4, v, FireDrain);
    var c5 := c4.(drain := true, signals := AwaitMore);
    TakeControl(n, late, c5, v, ObserveDrain);
  }

  // ------------------------------------------------------ two daemons are many

  const FreshDaemon := Instance(Daemon, false, true, false, false, false, false)
  const KnownDaemon := Instance(Daemon, true, true, false, false, false, false)
  const ReplacedDaemon := Instance(Daemon, true, true, false, false, true, true)

  /** A second daemon replaces the first in its slot; the first is told to stop
      and still runs. */
  lemma ReplacesDaemon(n: nat, late: bool)
    requires n >= 2
    ensures Reached(n, late, Initial(true).(services := Services([ReplacedDaemon, KnownDaemon], Some(1), None, {}, [])))
  {
    hide Reached;
    var s0 := Initial(true);
    StartsReached(n, late);
    var s1 := s0.(services := Services([FreshDaemon], None, None, {}, []));
    Allowed(n, late, s1);
    assert [] + [FreshDaemon] == [FreshDaemon];
    assert Apply(s0, ServiceStep(Spawn(Daemon))) == s1;
    Take(n, late, s0, ServiceStep(Spawn(Daemon)));
    var s2 := s0.(services := Services([KnownDaemon], Some(0), None, {}, []));
    Allowed(n, late, s2);
    assert [FreshDaemon][0 := KnownDaemon] == [KnownDaemon];
    assert Apply(s1, ServiceStep(Register(0))) == s2;
    Take(n, late, s1, ServiceStep(Register(0)));
    var s3 := s0.(services := Services([KnownDaemon, FreshDaemon], Some(0), None, {}, []));
    Allowed(n, late, s3);
    assert [KnownDaemon] + [FreshDaemon] == [KnownDaemon, FreshDaemon];
    assert Apply(s2, ServiceStep(Spawn(Daemon))) == s3;
    Take(n, late, s2, ServiceStep(Spawn(Daemon)));
    var s4 := s0.(services := Services([ReplacedDaemon, KnownDaemon], Some(1), None, {}, []));
    Allowed(n, late, s4);
    assert [KnownDaemon, FreshDaemon][1 := KnownDaemon][0 := ReplacedDaemon] == [ReplacedDaemon, KnownDaemon];
    Take(n, late, s3, ServiceStep(Register(1)));
  }

  /** The coordinator waits for the second daemon only. */
  lemma FirstStillRuns(n: nat, late: bool)
    requires n >= 2
    ensures exists s :: Reached(n, late, s) && !QuietAtShutdown(s)
  {
    hide Reached;
    ReplacesDaemon(n, late);
    var v := Services([ReplacedDaemon, KnownDaemon], Some(1), None, {}, []);
    ReachesLook(n, late, v);
    TakeControl(n, late, Looking, v, ReadSlot);
    var c7 := Looking.(awaited := Some(1), coord := AwaitQuiet(1));
    var v' := Services([ReplacedDaemon, KnownDaemon.(active := false, quiet := true)], Some(1), None, {}, []);
    Allowed(n, late, State(c7, v', None));
    assert v.instances[1 := v'.instances[1]] == v'.instances;
    Take(n, late, State(c7, v, None), ServiceStep(Quiesce(1)));
    TakeControl(n, late, c7, v', ObserveQuiet);
    var c8 := c7.(coord := Stopping);
    TakeControl(n, late, c8, v', CancelShutdown);
    var s := State(c8.(shutdown := true, coord := Phase2(ToTake, ToTake)), v', None);
    assert 0 in DaemonHandles(s.services);
    assert !QuietAtShutdown(s);
  }

  // --------------------------------------------------------- one that comes late

  /** The coordinator finds no daemon; then one is started and registered, and
      nothing waits for it. */
  lemma LateStillRuns(n: nat)
    requires n >= 1
    ensures exists s :: Reached(n, true, s) && !QuietAtShutdown(s)
  {
    hide Reached;
    StartsReached(n, true);
    ReachesLook(n, true, NoServices);
    TakeControl(n, true, Looking, NoServices, ReadSlot);
    var c := Looking.(coord := Stopping);
    var v1 := Services([FreshDaemon], None, None, {}, []);
    Allowed(n, true, State(c, v1, None));
    assert NoServices.instances + [FreshDaemon] == v1.instances;
    Take(n, true, State(c, NoServices, None), ServiceStep(Spawn(Daemon)));
    var v2 := Services([KnownDaemon], Some(0), None, {}, []);
    Allowed(n, true, State(c, v2, None));
    assert v1.instances[0 := KnownDaemon] == v2.instances;
    Take(n, true, State(c, v1, None), ServiceStep(Register(0)));
    TakeControl(n, true, c, v2, CancelShutdown);
    var s := State(c.(shutdown := true, coord := Phase2(ToTake, ToTake)), v2, None);
    assert 0 in DaemonHandles(s.services);
    assert !QuietAtShutdown(s);
  }

  // ------------------------------------------------------------------- exactly

  lemma NoDaemonQuiet(run: seq<State>, i: nat, late: bool)
    requires DisciplinedRun(run, 0, late) && i < |run|
    ensures QuietAtShutdown(run[i])
  {
    hide Next;
    assert Disciplined(run[i], 0, late);
  }

  lemma NotAlwaysQuiet(n: nat, late: bool, s: State)
    requires Reached(n, late, s) && !QuietAtShutdown(s)
    ensures !AlwaysQuiet(n, late)
  {
    hide QuietAtShutdown, Disciplined, Next;
    var run :| DisciplinedRun(run, n, late) && run[|run| - 1] == s;
    assert !QuietAtShutdown(run[|run| - 1]);
  }

  /** Cancelling the shutdown token leaves no daemon dispatching, in every run,
      exactly when the process starts no daemon, or one and registers it before
      the coordinator looks. */
  lemma QuietExactlyWhen(n: nat, late: bool)
    ensures AlwaysQuiet(n, late) <==> n == 0 || (n == 1 && !late)
  {
    if n == 0 || (n == 1 && !late) {
      hide DisciplinedRun, QuietAtShutdown, Reached;
      forall run, i | DisciplinedRun(run, n, late) && 0 <= i < |run|
        ensures QuietAtShutdown(run[i])
      {
        if n == 0 {
          NoDaemonQuiet(run, i, late);
        } else {
          OneDaemonQuiet(run, i);
        }
      }
    } else {
      hide QuietAtShutdown, Reached, AlwaysQuiet;
      if n >= 2 {
        FirstStillRuns(n, late);
      } else {
        LateStillRuns(n);
      }
      var s :| Reached(n, late, s) && !QuietAtShutdown(s);
      NotAlwaysQuiet(n, late, s);
    }
  }
}
