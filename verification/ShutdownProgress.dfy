/** From which states a shutdown can still complete by itself, without a new
    service being started and without a forced exit.  */
module ShutdownProgress {
  import opened Wrappers
  import opened Shutdown

  /** Steps that neither start or register a service nor end the process. */
  predicate Settling(a: Action) {
    match a
    case ServiceStep(x) => !x.Spawn? && !x.Register?
    case ExitStep(_) => false
    case _ => true
  }

  ghost predicate Settles(s: State, s': State) {
    exists a :: Enabled(s, a) && Settling(a) && s' == Apply(s, a)
  }

  ghost predicate Continues(run: seq<State>) {
    |run| > 0 && forall i :: 0 <= i < |run| - 1 ==> Settles(run[i], run[i + 1])
  }

  ghost predicate CanComplete(s: State) {
    exists run: seq<State> :: Continues(run) && run[0] == s && run[|run| - 1].control.coord == Complete
  }

  /** A daemon whose task panicked before it had stopped scheduling: joining it
      returns, and its token is never cancelled. */
  predicate Hung(v: Services, h: nat) {
    h < |v.instances| && v.instances[h].resolved && !v.instances[h].quiet
  }

  predicate BeforeLook(c: Coordinator) {
    c.NotStarted? || c.AwaitDrain? || c.Reading?
  }

  /** In retire mode, the coordinator waits for such a daemon, or will. */
  predicate Doomed(s: State) {
    && s.control.retire
    && (|| (s.control.coord.AwaitQuiet? && Hung(s.services, s.control.coord.handle))
        || (BeforeLook(s.control.coord) && s.services.daemonSlot.Some?
            && Hung(s.services, s.services.daemonSlot.value)))
  }

  // ------------------------------------------------------------ never from there

  lemma HungStays(c: Control, v: Services, a: ServiceAction, h: nat)
    requires ServiceEnabled(c, v, a) && Hung(v, h)
    ensures Hung(AfterService(c, v, a), h)
  {
  }

  lemma DoomedStays(s: State, a: Action)
    requires Doomed(s) && Inv(s) && Enabled(s, a) && Settling(a)
    ensures Doomed(Apply(s, a)) && Apply(s, a).control.coord != Complete
  {
    hide OneOwner, Escalation;
    match a
    case ControlStep(x) =>
    case ServiceStep(x) =>
      var h := if s.control.coord.AwaitQuiet? then s.control.coord.handle else s.services.daemonSlot.value;
      HungStays(s.control, s.services, x, h);
    case DrainStep(x) =>
  }

  lemma {:induction false} DoomedForever(run: seq<State>, i: nat)
    requires Continues(run) && i < |run| && Doomed(run[0]) && Inv(run[0])
    ensures Doomed(run[i]) && Inv(run[i]) && run[i].control.coord != Complete
  {
    hide Doomed, Inv, Apply, Enabled;
    if i == 0 {
      DoomedWaits(run[0]);
    } else {
      DoomedForever(run, i - 1);
      assert Settles(run[i - 1], run[i - 1 + 1]);
      var a :| Enabled(run[i - 1], a) && Settling(a) && run[i] == Apply(run[i - 1], a);
      DoomedStays(run[i - 1], a);
      StepKeepsInv(run[i - 1], a);
    }
  }

  lemma DoomedWaits(s: State)
    requires Doomed(s)
    ensures s.control.coord != Complete
  {
  }

  // ------------------------------------------------------- always from elsewhere

  /** A daemon dispatches, has stopped scheduling, or panicked. */
  ghost predicate DaemonsSound(v: Services) {
    forall h :: 0 <= h < |v.instances| && v.instances[h].kind == Daemon ==>
      v.instances[h].active || v.instances[h].quiet || v.instances[h].resolved
  }

  /** And the one waited for is a registered daemon. */
  ghost predicate Sound(s: State) {
    && DaemonsSound(s.services)
    && (s.control.coord.AwaitQuiet? ==> Known(s.services, s.control.coord.handle, Daemon))
    && (s.control.signals == NotInstalled ==> s.control.pending == 0)
  }

  lemma ServiceKeepsDaemons(c: Control, v: Services, a: ServiceAction)
    requires DaemonsSound(v) && ServiceEnabled(c, v, a)
    ensures DaemonsSound(AfterService(c, v, a))
  {
  }

  lemma ControlKeepsSound(s: State, a: ControlAction)
    requires Sound(s) && OneOwner(s.control.coord, s.services) && ControlEnabled(s.control, s.services, a)
    ensures Sound(s.(control := AfterControl(s.control, s.services, a)))
  {
    hide DaemonsSound;
  }

  lemma ServiceKeepsSound(s: State, a: ServiceAction)
    requires Sound(s) && ServiceEnabled(s.control, s.services, a)
    ensures Sound(s.(services := AfterService(s.control, s.services, a)))
  {
    ServiceKeepsDaemons(s.control, s.services, a);
    ServiceGrows(s.control, s.services, a);
    hide DaemonsSound, AfterService, ServiceEnabled;
  }

  lemma DrainKeepsSound(s: State, a: DrainAction)
    requires Sound(s) && DrainEnabled(s.control, s.services, a)
    ensures var (c, v) := AfterDrain(s.control, s.services, a); Sound(s.(control := c, services := v))
  {
  }

  lemma StepKeepsSound(s: State, a: Action)
    requires Sound(s) && Inv(s) && Enabled(s, a)
    ensures Sound(Apply(s, a))
  {
    hide OneOwner, Ordered, Escalation, DaemonsSound, AfterControl, AfterService, AfterDrain;
    hide ControlEnabled, ServiceEnabled, DrainEnabled;
    match a
    case ControlStep(x) => ControlKeepsSound(s, x);
    case ServiceStep(x) => ServiceKeepsSound(s, x);
    case DrainStep(x) => DrainKeepsSound(s, x);
    case ExitStep(_) =>
  }

  lemma {:induction false} RunSound(retire: bool, run: seq<State>, i: nat)
    requires IsRun(retire, run) && i < |run|
    ensures Sound(run[i]) && Inv(run[i])
  {
    RunInv(retire, run, i);
    if i > 0 {
      hide Inv, Sound, Apply, Enabled;
      RunSound(retire, run, i - 1);
      assert Next(run[i - 1], run[i - 1 + 1]);
      var a :| Enabled(run[i - 1], a) && run[i] == Apply(run[i - 1], a);
      StepKeepsSound(run[i - 1], a);
    }
  }

  function InstanceRank(v: Services, h: nat): nat {
    if h >= |v.instances| then 0
    else (if v.instances[h].active then 1 else 0) + (if v.instances[h].resolved then 0 else 1)
  }

  function WaitRank(v: Services, w: Wait): nat {
    match w
    case ToTake => 16
    case Joining(h) => 8 + InstanceRank(v, h)
    case Done => 0
  }

  /** How far the coordinator still has to go. */
  function CoordinatorRank(c: Coordinator, v: Services): nat {
    match c
    case NotStarted => 100
    case AwaitDrain => 90
    case Reading => 80
    case Arming => 80
    case AwaitQuiet(h) => 70 + InstanceRank(v, h)
    case TakingFirst => 70
    case JoiningFirst(h) => 60 + InstanceRank(v, h)
    case Stopping => 50
    case Phase2(d, g) => 1 + WaitRank(v, d) + WaitRank(v, g)
    case Complete => 0
  }

  function SignalRank(c: Control): nat {
    match c.signals
    case NotInstalled => 4
    case AwaitFirst => if c.pending == 0 then 3 else 2
    case Firing => 1
    case _ => 0
  }

  function Rank(s: State): nat {
    SignalRank(s.control) + CoordinatorRank(s.control.coord, s.services)
  }

  /** The services step that brings a waited-for instance on. */
  function StopStep(v: Services, h: nat): Action
    requires h < |v.instances|
  {
    ServiceStep(if v.instances[h].active then Quiesce(h) else Resolve(h))
  }

  /** What to do next. */
  function NextStep(s: State): Action
    requires s.control.coord.AwaitQuiet? ==> s.control.coord.handle < |s.services.instances|
    requires s.control.coord.JoiningFirst? ==> s.control.coord.handle < |s.services.instances|
    requires s.control.coord.Phase2? && s.control.coord.daemon.Joining? ==>
      s.control.coord.daemon.handle < |s.services.instances|
    requires s.control.coord.Phase2? && s.control.coord.grpc.Joining? ==>
      s.control.coord.grpc.handle < |s.services.instances|
  {
    var c, v := s.control, s.services;
    if c.signals == NotInstalled then ControlStep(InstallHandler)
    else if c.signals == AwaitFirst then ControlStep(if c.pending == 0 then Signal else Receive)
    else if c.signals == Firing then ControlStep(FireDrain)
    else
      match c.coord
      case NotStarted => ControlStep(StartCoordinator)
      case AwaitDrain => ControlStep(ObserveDrain)
      case Reading => ControlStep(ReadSlot)
      case Arming => ControlStep(Arm)
      case AwaitQuiet(h) => if v.instances[h].quiet then ControlStep(ObserveQuiet) else ServiceStep(Quiesce(h))
      case TakingFirst => DrainStep(TakeFirst)
      case JoiningFirst(h) => if v.instances[h].resolved then DrainStep(JoinFirst) else StopStep(v, h)
      case Stopping => ControlStep(CancelShutdown)
      case Phase2(d, g) =>
        if d.ToTake? then DrainStep(Take(Daemon))
        else if d.Joining? then
          if v.instances[d.handle].resolved then DrainStep(Join(Daemon)) else StopStep(v, d.handle)
        else if g.ToTake? then DrainStep(Take(Grpc))
        else if g.Joining? then
          if v.instances[g.handle].resolved then DrainStep(Join(Grpc)) else StopStep(v, g.handle)
        else ControlStep(Finish)
      case Complete => ControlStep(Finish)
  }

  /** The handles the coordinator waits for exist. */
  ghost predicate InRange(s: State) {
    && (s.control.coord.AwaitQuiet? ==> s.control.coord.handle < |s.services.instances|)
    && (s.control.coord.JoiningFirst? ==> s.control.coord.handle < |s.services.instances|)
    && (s.control.coord.Phase2? && s.control.coord.daemon.Joining? ==>
          s.control.coord.daemon.handle < |s.services.instances|)
    && (s.control.coord.Phase2? && s.control.coord.grpc.Joining? ==>
          s.control.coord.grpc.handle < |s.services.instances|)
  }

  lemma KnownInRange(s: State)
    requires Inv(s) && Sound(s)
    ensures InRange(s)
  {
    hide Ordered, Escalation;
  }

  ghost predicate Live(s: State) {
    Inv(s) && Sound(s) && InRange(s) && s.exit == None && s.control.coord != Complete && !Doomed(s)
  }

  /** The step is possible, brings the shutdown closer and dooms nothing. */
  ghost predicate Helps(s: State, a: Action) {
    && Enabled(s, a) && Settling(a)
    && Rank(Apply(s, a)) < Rank(s) && Apply(s, a).exit == None && !Doomed(Apply(s, a))
  }

  lemma SignalHelps(s: State)
    requires Live(s) && SignalRank(s.control) > 0
    ensures Helps(s, NextStep(s))
  {
    hide OneOwner, Ordered, Escalation;
  }

  lemma ControlHelps(s: State)
    requires Live(s) && SignalRank(s.control) == 0
    requires BeforeLook(s.control.coord) || s.control.coord.Arming? || s.control.coord.Stopping?
    ensures Helps(s, NextStep(s))
  {
    hide OneOwner, Escalation;
  }

  lemma QuietHelps(s: State)
    requires Live(s) && SignalRank(s.control) == 0 && s.control.coord.AwaitQuiet?
    ensures Helps(s, NextStep(s))
  {
    hide OneOwner, Escalation;
  }

  lemma FirstHelps(s: State)
    requires Live(s) && SignalRank(s.control) == 0 && (s.control.coord.TakingFirst? || s.control.coord.JoiningFirst?)
    ensures Helps(s, NextStep(s))
  {
    hide Escalation;
  }

  /** A service that was told to stop comes closer to it. */
  lemma StopStepHelps(c: Control, v: Services, h: nat)
    requires h < |v.instances| && !v.instances[h].resolved && ToldToStop(c, v.instances[h])
    ensures StopStep(v, h).ServiceStep? && ServiceEnabled(c, v, StopStep(v, h).service)
    ensures var w := AfterService(c, v, StopStep(v, h).service);
      && InstanceRank(w, h) < InstanceRank(v, h) && |w.instances| == |v.instances|
      && forall g :: g != h ==> InstanceRank(w, g) == InstanceRank(v, g)
  {
  }

  lemma LastTakes(s: State)
    requires Live(s) && SignalRank(s.control) == 0 && s.control.coord.Phase2?
    requires s.control.coord.daemon.ToTake? || (s.control.coord.daemon.Done? && s.control.coord.grpc.ToTake?)
    ensures Helps(s, NextStep(s))
  {
    hide OneOwner, Escalation, Ordered;
  }

  lemma LastJoins(s: State, k: Kind)
    requires Live(s) && SignalRank(s.control) == 0 && s.control.coord.Phase2? && WaitOf(s.control.coord, k).Joining?
    requires k == Daemon || s.control.coord.daemon.Done?
    ensures Helps(s, NextStep(s))
  {
    var h := WaitOf(s.control.coord, k).handle;
    assert Known(s.services, h, k) && s.control.shutdown && s.control.drain;
    hide OneOwner, Escalation, Ordered;
    if !s.services.instances[h].resolved {
      StopStepHelps(s.control, s.services, h);
      hide StopStep, AfterService, ServiceEnabled, InstanceRank;
      assert NextStep(s) == StopStep(s.services, h);
    }
  }

  lemma LastHelps(s: State)
    requires Live(s) && SignalRank(s.control) == 0 && s.control.coord.Phase2?
    ensures Helps(s, NextStep(s))
  {
    var d, g := s.control.coord.daemon, s.control.coord.grpc;
    if d.ToTake? || (d.Done? && g.ToTake?) {
      LastTakes(s);
    } else if d.Joining? {
      LastJoins(s, Daemon);
    } else if g.Joining? {
      LastJoins(s, Grpc);
    } else {
      hide OneOwner, Escalation, Ordered;
    }
  }

  lemma NextStepHelps(s: State)
    requires Live(s)
    ensures Helps(s, NextStep(s))
  {
    hide Helps, NextStep;
    if SignalRank(s.control) > 0 {
      SignalHelps(s);
    } else if s.control.coord.AwaitQuiet? {
      QuietHelps(s);
    } else if s.control.coord.TakingFirst? || s.control.coord.JoiningFirst? {
      FirstHelps(s);
    } else if s.control.coord.Phase2? {
      LastHelps(s);
    } else {
      ControlHelps(s);
    }
  }

  lemma {:induction false} Completes(s: State) returns (run: seq<State>)
    requires Inv(s) && Sound(s) && s.exit == None && !Doomed(s)
    ensures Continues(run) && run[0] == s && run[|run| - 1].control.coord == Complete
    decreases Rank(s)
  {
    hide Inv, Sound, Doomed, Apply, Enabled, Rank, NextStep, Settling;
    if s.control.coord == Complete {
      run := [s];
    } else {
      KnownInRange(s);
      NextStepHelps(s);
      var a := NextStep(s);
      StepKeepsInv(s, a);
      StepKeepsSound(s, a);
      var s' := Apply(s, a);
      var rest := Completes(s');
      assert Settles(s, s');
      run := [s] + rest;
      forall i | 0 <= i < |run| - 1
        ensures Settles(run[i], run[i + 1])
      {
        assert i > 0 ==> Settles(rest[i - 1], rest[i - 1 + 1]);
      }
    }
  }

  /** A running process can complete its shutdown exactly when, in retire mode,
      it does not wait for a daemon that panicked before it stopped scheduling,
      nor has such a daemon in the slot it is going to look at. */
  lemma CompletesExactlyWhen(retire: bool, run: seq<State>, i: nat)
    requires IsRun(retire, run) && i < |run| && run[i].exit == None
    ensures CanComplete(run[i]) <==> !Doomed(run[i])
  {
    RunSound(retire, run, i);
    hide Inv, Sound, Doomed, IsRun;
    if Doomed(run[i]) {
      forall more: seq<State> | Continues(more) && more[0] == run[i]
        ensures more[|more| - 1].control.coord != Complete
      {
        DoomedForever(more, |more| - 1);
      }
    } else {
      var more := Completes(run[i]);
    }
  }

  // ------------------------------------------------------------------- afterwards

  /** Completing aborts the watchdog: nothing times out any more. */
  lemma CompletionDisarms(s: State, s': State)
    requires Next(s, s') && s.control.coord != Complete && s'.control.coord == Complete
    ensures !s'.control.watchdog && !Enabled(s', ExitStep(TimedOut))
  {
    var a :| Enabled(s, a) && s' == Apply(s, a);
    OnlyFinishCompletes(s, a);
  }

  lemma OnlyFinishCompletes(s: State, a: Action)
    requires Enabled(s, a) && s.control.coord != Complete && Apply(s, a).control.coord == Complete
    ensures a == ControlStep(Finish)
  {
    hide AfterService, ServiceEnabled;
    match a
    case ControlStep(x) => FinishAlone(s.control, s.services, x);
    case DrainStep(x) =>
    case _ =>
  }

  lemma FinishAlone(c: Control, v: Services, a: ControlAction)
    requires ControlEnabled(c, v, a) && c.coord != Complete && AfterControl(c, v, a).coord == Complete
    ensures a == Finish
  {
  }

  /** A process that timed out had its watchdog armed, and one that returned had
      completed. */
  lemma {:induction false} ExitHadCause(retire: bool, run: seq<State>, i: nat)
    requires IsRun(retire, run) && i < |run| && run[i].exit.Some?
    ensures run[i].exit.value.TimedOut? ==> run[i].control.watchdog && run[i].control.arms > 0
    ensures run[i].exit.value.Returned? ==> run[i].control.coord == Complete
  {
    RunInv(retire, run, i - 1);
    RunArms(retire, run, i);
    assert Next(run[i - 1], run[i - 1 + 1]);
    var a :| Enabled(run[i - 1], a) && run[i] == Apply(run[i - 1], a);
  }

  lemma {:induction false} RunArms(retire: bool, run: seq<State>, i: nat)
    requires IsRun(retire, run) && i < |run|
    ensures run[i].control.watchdog ==> run[i].control.arms > 0
  {
    if i > 0 {
      RunArms(retire, run, i - 1);
      assert Next(run[i - 1], run[i - 1 + 1]);
      var a :| Enabled(run[i - 1], a) && run[i] == Apply(run[i - 1], a);
      ArmsCounted(run[i - 1], a);
    }
  }

  lemma ArmsCounted(s: State, a: Action)
    requires Enabled(s, a) && (s.control.watchdog ==> s.control.arms > 0)
    ensures Apply(s, a).control.watchdog ==> Apply(s, a).control.arms > 0
  {
  }

  /** `stop_grpc` cancels the server it takes, and replacing a handle the one it
      replaces: each can stop without the tokens. */
  lemma TakenIsTold(c: Control, v: Services)
    requires OneOwner(c.coord, v) && ServiceEnabled(c, v, StopGrpcTake)
    ensures var h, w := v.grpcSlot.value, AfterService(c, v, StopGrpcTake);
      w.grpcSlot == None && h in w.stoppers && ToldToStop(c, w.instances[h])
  {
  }

  lemma ReplacedIsTold(c: Control, v: Services, h: nat)
    requires OneOwner(c.coord, v) && ServiceEnabled(c, v, Register(h)) && SlotOf(v, v.instances[h].kind).Some?
    ensures var k, w := v.instances[h].kind, AfterService(c, v, Register(h));
      && SlotOf(w, k) == Some(h) && w.instances[h].registered
      && ToldToStop(c, w.instances[SlotOf(v, k).value])
  {
  }

  /** A service stops because it was told to, by its own token or by that of the
      shutdown, unless it is a server that failed; and a task ends only once it
      has stopped, unless it is a daemon's. */
  lemma StopsForCause(s: State, s': State, h: nat)
    requires Next(s, s') && h < |s.services.instances|
    ensures |s'.services.instances| >= |s.services.instances|
    ensures var i, j := s.services.instances[h], s'.services.instances[h];
      && (i.active && !j.active && i.kind == Daemon ==> i.cancelled || s.control.drain)
      && (!i.resolved && j.resolved ==> !i.active || i.kind == Daemon)
      && (!i.quiet && j.quiet ==> i.active && !j.active && i.kind == Daemon)
  {
    hide AfterService, ServiceEnabled, ControlEnabled, AfterControl;
    var a :| Enabled(s, a) && s' == Apply(s, a);
    match a
    case ServiceStep(x) => InstanceStep(s.control, s.services, x, h);
    case ControlStep(_) =>
    case DrainStep(_) =>
    case ExitStep(_) =>
  }

  lemma InstanceStep(c: Control, v: Services, a: ServiceAction, h: nat)
    requires ServiceEnabled(c, v, a) && h < |v.instances|
    ensures |AfterService(c, v, a).instances| >= |v.instances|
    ensures var i, j := v.instances[h], AfterService(c, v, a).instances[h];
      && (i.active && !j.active ==> (ToldToStop(c, i) && a == Quiesce(h)) || (i.kind == Grpc && a == ServerFault(h)))
      && (!i.resolved && j.resolved ==> !i.active || i.kind == Daemon)
      && (!i.quiet && j.quiet ==> i.active && !j.active && i.kind == Daemon)
  {
  }

  ghost predicate Becomes(s: State, h: nat, i: Instance) {
    exists s' :: Next(s, s') && h < |s'.services.instances| && s'.services.instances[h] == i
  }

  /** While the process runs, a server can fail untold, and a daemon's task can
      panic in the middle of its work. */
  lemma FaultsHappen(s: State, h: nat)
    requires s.exit.None? && h < |s.services.instances|
    ensures var i := s.services.instances[h];
      && (i.kind == Grpc && i.active ==> Becomes(s, h, i.(active := false)))
      && (i.kind == Daemon && !i.resolved ==> Becomes(s, h, i.(resolved := true)))
  {
    var i := s.services.instances[h];
    var fault := ServiceStep(if i.kind == Grpc then ServerFault(h) else Panic(h));
    if Enabled(s, fault) {
      assert Next(s, Apply(s, fault));
    }
  }

  /** The process ends in the way its state allows, and then nothing follows. */
  lemma ExitsExactlyWhen(s: State, cause: Exit)
    requires s.exit.None?
    ensures (exists s' :: Next(s, s') && s'.exit == Some(cause)) <==>
      match cause
      case Killed => true
      case Forced(n, completed) =>
        && s.control.signals == Escalating && s.control.watchdog && n == s.control.received
        && completed == (s.control.coord == Complete)
      case TimedOut => s.control.watchdog
      case Returned => s.control.coord == Complete
    ensures forall s', s'' :: Next(s, s') && s'.exit.Some? ==> !Next(s', s'')
  {
    if CanExit(s.control, cause) {
      assert Enabled(s, ExitStep(cause));
      assert Next(s, Apply(s, ExitStep(cause)));
    }
    forall s' | Next(s, s') && s'.exit == Some(cause)
      ensures CanExit(s.control, cause)
    {
      var a :| Enabled(s, a) && s' == Apply(s, a);
      assert a == ExitStep(cause);
    }
  }
}
