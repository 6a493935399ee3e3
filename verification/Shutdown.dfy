/** The two-phase graceful shutdown of one process, as a transition system.

    The actors are the signal task, the shutdown coordinator, the service
    instances (daemon tasks and gRPC server threads), the threads that register
    services or stop the gRPC server, and the environment that sends signals.
    An action is one actor's step between two points where another actor can
    run; a run is any interleaving of enabled actions.  */
module Shutdown {
  import opened Sets
  import opened Wrappers

  datatype Kind = Daemon | Grpc

  /** One service instance; its position in `Services.instances` is its handle.
      - `active`: the daemon's loops can dispatch, or the server listens;
      - `quiet`: the daemon's `scheduling_stopped` token is cancelled;
      - `resolved`: joining the handle returns;
      - `cancelled`: the instance's own cancel token is cancelled;
      - `superseded`: a later registration replaced the handle in its slot.  */
  datatype Instance = Instance(kind: Kind, registered: bool, active: bool, quiet: bool,
                               resolved: bool, cancelled: bool, superseded: bool)

  /** The instances, the two slots, the handles that callers of `stop_grpc`
      took and still join, and every join that returned, in order. */
  datatype Services = Services(
    instances: seq<Instance>,
    daemonSlot: Option<nat>,
    grpcSlot: Option<nat>,
    stoppers: set<nat>,
    joins: seq<nat>)

  datatype SignalTask =
    | NotInstalled
    | AwaitFirst
    | Firing       // the first signal is received, the drain token not yet cancelled
    | AwaitMore
    | Escalating   // a further signal is received, the watchdog not yet consulted

  /** Where one `drain_service` call of phase 2 stands. */
  datatype Wait = ToTake | Joining(handle: nat) | Done

  datatype Coordinator =
    | NotStarted
    | AwaitDrain
    | Reading               // retire mode: about to read the daemon's slot
    | AwaitQuiet(handle: nat)
    | Arming                // default mode: about to arm the watchdog
    | TakingFirst
    | JoiningFirst(handle: nat)
    | Stopping              // about to cancel the shutdown token
    | Phase2(daemon: Wait, grpc: Wait)
    | Complete

  /** The tokens, the signal task, the coordinator and the watchdog. `received`
      counts the signals the signal task received, `arms` how often the
      watchdog was armed, and `awaited` is the daemon the coordinator found
      registered when it looked. */
  datatype Control = Control(
    retire: bool,
    drain: bool,
    shutdown: bool,
    signals: SignalTask,
    pending: nat,
    received: nat,
    coord: Coordinator,
    awaited: Option<nat>,
    watchdog: bool,
    arms: nat)

  datatype Exit =
    | Killed                                    // from outside, or by a signal before the handler
    | Forced(received: nat, completed: bool)    // by the signal task
    | TimedOut                                  // by the watchdog
    | Returned                                  // shutdown completed and the process ended

  datatype State = State(control: Control, services: Services, exit: Option<Exit>)

  /** Steps of the environment and the control tasks; no handle moves. */
  datatype ControlAction =
    | Signal
    | InstallHandler
    | StartCoordinator
    | Receive
    | FireDrain
    | Escalate
    | ObserveDrain
    | ReadSlot
    | ObserveQuiet
    | Arm
    | CancelShutdown
    | Finish

  /** Steps of the services and of the threads that own them. */
  datatype ServiceAction =
    | Spawn(kind: Kind)
    | Register(handle: nat)
    | Quiesce(handle: nat)
    | Resolve(handle: nat)
    | Panic(handle: nat)
    | ServerFault(handle: nat)
    | StopGrpcTake
    | StopGrpcJoin(handle: nat)

  /** The coordinator's `drain_service` steps. */
  datatype DrainAction =
    | TakeFirst
    | JoinFirst
    | Take(kind: Kind)
    | Join(kind: Kind)

  datatype Action =
    | ControlStep(control: ControlAction)
    | ServiceStep(service: ServiceAction)
    | DrainStep(drain: DrainAction)
    | ExitStep(cause: Exit)

  const InitialControl := (retire: bool) =>
    Control(retire, false, false, NotInstalled, 0, 0, NotStarted, None, false, 0)

  const NoServices := Services([], None, None, {}, [])

  function Initial(retire: bool): State {
    State(InitialControl(retire), NoServices, None)
  }

  // ------------------------------------------------------------ control steps

  predicate ControlEnabled(c: Control, v: Services, a: ControlAction) {
    match a
    case Signal => c.signals != NotInstalled
    case InstallHandler => c.signals == NotInstalled
    case StartCoordinator => c.signals != NotInstalled && c.coord == NotStarted
    case Receive => c.pending > 0 && c.signals in {AwaitFirst, AwaitMore}
    case FireDrain => c.signals == Firing
    case Escalate => c.signals == Escalating && !c.watchdog
    case ObserveDrain => c.coord == AwaitDrain && c.drain
    case ReadSlot => c.coord == Reading
    case ObserveQuiet => c.coord.AwaitQuiet? && c.coord.handle < |v.instances| && v.instances[c.coord.handle].quiet
    case Arm => c.coord == Arming
    case CancelShutdown => c.coord == Stopping
    case Finish => c.coord == Phase2(Done, Done)
  }

  /** `arm_watchdog`: no effect when already armed. */
  function Armed(c: Control): Control {
    if c.watchdog then c else c.(watchdog := true, arms := c.arms + 1)
  }

  function AfterControl(c: Control, v: Services, a: ControlAction): Control
    requires ControlEnabled(c, v, a)
  {
    match a
    case Signal => c.(pending := c.pending + 1)
    case InstallHandler => c.(signals := AwaitFirst)
    case StartCoordinator => c.(coord := AwaitDrain)
    case Receive =>
      c.(pending := c.pending - 1, received := c.received + 1,
         signals := if c.signals == AwaitFirst then Firing else Escalating)
    case FireDrain => c.(drain := true, signals := AwaitMore)
    case Escalate => Armed(c).(signals := AwaitMore)
    case ObserveDrain => c.(coord := if c.retire then Reading else Arming)
    case ReadSlot =>
      c.(awaited := v.daemonSlot,
         coord := if v.daemonSlot.Some? then AwaitQuiet(v.daemonSlot.value) else Stopping)
    case ObserveQuiet => c.(coord := Stopping)
    case Arm => Armed(c).(coord := TakingFirst)
    case CancelShutdown => c.(shutdown := true, coord := Phase2(ToTake, ToTake))
    case Finish => c.(coord := Complete, watchdog := false)
  }

  // ------------------------------------------------------------ service steps

  /** Whether the instance has been told to stop: a daemon's token is a child
      of the drain token, a server's a child of the shutdown token. */
  predicate ToldToStop(c: Control, i: Instance) {
    i.cancelled || (if i.kind == Daemon then c.drain else c.shutdown)
  }

  predicate ServiceEnabled(c: Control, v: Services, a: ServiceAction) {
    match a
    case Spawn(_) => true
    case Register(h) => h < |v.instances| && !v.instances[h].registered
    case Quiesce(h) => h < |v.instances| && v.instances[h].active && ToldToStop(c, v.instances[h])
    case Resolve(h) => h < |v.instances| && !v.instances[h].active && !v.instances[h].resolved
    case Panic(h) => h < |v.instances| && v.instances[h].kind == Daemon && !v.instances[h].resolved
    case ServerFault(h) => h < |v.instances| && v.instances[h].kind == Grpc && v.instances[h].active
    case StopGrpcTake => v.grpcSlot.Some? && v.grpcSlot.value < |v.instances|
    case StopGrpcJoin(h) => h in v.stoppers && h < |v.instances| && v.instances[h].resolved
  }

  function SlotOf(v: Services, k: Kind): Option<nat> {
    if k == Daemon then v.daemonSlot else v.grpcSlot
  }

  function WithSlot(v: Services, k: Kind, slot: Option<nat>): Services {
    if k == Daemon then v.(daemonSlot := slot) else v.(grpcSlot := slot)
  }

  function WithInstance(v: Services, h: nat, i: Instance): Services
    requires h < |v.instances|
  {
    v.(instances := v.instances[h := i])
  }

  /** `replace_handle`: the previous holder of the slot is cancelled. */
  function Registered(v: Services, h: nat): Services
    requires h < |v.instances|
  {
    var k := v.instances[h].kind;
    var taken := WithInstance(v, h, v.instances[h].(registered := true));
    var prev := SlotOf(v, k);
    var replaced :=
      if prev.Some? && prev.value < |v.instances|
      then WithInstance(taken, prev.value, taken.instances[prev.value].(cancelled := true, superseded := true))
      else taken;
    WithSlot(replaced, k, Some(h))
  }

  function AfterService(c: Control, v: Services, a: ServiceAction): Services
    requires ServiceEnabled(c, v, a)
  {
    match a
    case Spawn(k) => v.(instances := v.instances + [Instance(k, false, true, false, false, false, false)])
    case Register(h) => Registered(v, h)
    case Quiesce(h) =>
      // A panicked daemon's loops still stop, but nothing cancels its token.
      var i := v.instances[h];
      WithInstance(v, h, i.(active := false, quiet := i.quiet || (i.kind == Daemon && !i.resolved)))
    case Resolve(h) => WithInstance(v, h, v.instances[h].(resolved := true))
    case Panic(h) => WithInstance(v, h, v.instances[h].(resolved := true))
    case ServerFault(h) => WithInstance(v, h, v.instances[h].(active := false))
    case StopGrpcTake =>
      var h := v.grpcSlot.value;
      WithInstance(v, h, v.instances[h].(cancelled := true)).(grpcSlot := None, stoppers := v.stoppers + {h})
    case StopGrpcJoin(h) => v.(stoppers := v.stoppers - {h}, joins := v.joins + [h])
  }

  // -------------------------------------------------------------- drain steps

  function WaitOf(c: Coordinator, k: Kind): Wait
    requires c.Phase2?
  {
    if k == Daemon then c.daemon else c.grpc
  }

  function WithWait(c: Coordinator, k: Kind, w: Wait): Coordinator
    requires c.Phase2?
  {
    if k == Daemon then c.(daemon := w) else c.(grpc := w)
  }

  predicate DrainEnabled(c: Control, v: Services, a: DrainAction) {
    match a
    case TakeFirst => c.coord == TakingFirst
    case JoinFirst => c.coord.JoiningFirst? && c.coord.handle < |v.instances| && v.instances[c.coord.handle].resolved
    case Take(k) => c.coord.Phase2? && WaitOf(c.coord, k) == ToTake
    case Join(k) =>
      && c.coord.Phase2?
      && WaitOf(c.coord, k).Joining?
      && WaitOf(c.coord, k).handle < |v.instances|
      && v.instances[WaitOf(c.coord, k).handle].resolved
  }

  function AfterDrain(c: Control, v: Services, a: DrainAction): (r: (Control, Services))
    requires DrainEnabled(c, v, a)
  {
    match a
    case TakeFirst =>
      (c.(awaited := v.daemonSlot,
          coord := if v.daemonSlot.Some? then JoiningFirst(v.daemonSlot.value) else Stopping),
       v.(daemonSlot := None))
    case JoinFirst => (c.(coord := Stopping), v.(joins := v.joins + [c.coord.handle]))
    case Take(k) =>
      var slot := SlotOf(v, k);
      (c.(coord := WithWait(c.coord, k, if slot.Some? then Joining(slot.value) else Done)),
       WithSlot(v, k, None))
    case Join(k) =>
      (c.(coord := WithWait(c.coord, k, Done)), v.(joins := v.joins + [WaitOf(c.coord, k).handle]))
  }

  // --------------------------------------------------------------- all steps

  /** How the process can end now. */
  predicate CanExit(c: Control, cause: Exit) {
    match cause
    case Killed => true
    case Forced(n, completed) =>
      c.signals == Escalating && c.watchdog && n == c.received && completed == (c.coord == Complete)
    case TimedOut => c.watchdog
    case Returned => c.coord == Complete
  }

  predicate Enabled(s: State, a: Action) {
    && s.exit == None
    && match a
       case ControlStep(x) => ControlEnabled(s.control, s.services, x)
       case ServiceStep(x) => ServiceEnabled(s.control, s.services, x)
       case DrainStep(x) => DrainEnabled(s.control, s.services, x)
       case ExitStep(cause) => CanExit(s.control, cause)
  }

  function Apply(s: State, a: Action): State
    requires Enabled(s, a)
  {
    match a
    case ControlStep(x) => s.(control := AfterControl(s.control, s.services, x))
    case ServiceStep(x) => s.(services := AfterService(s.control, s.services, x))
    case DrainStep(x) =>
      var (c, v) := AfterDrain(s.control, s.services, x);
      s.(control := c, services := v)
    case ExitStep(cause) => s.(exit := Some(cause))
  }

  ghost predicate Next(s: State, s': State) {
    exists a :: Enabled(s, a) && s' == Apply(s, a)
  }

  /** A run: a non-empty sequence of states from the initial one. */
  ghost predicate IsRun(retire: bool, run: seq<State>) {
    && |run| > 0
    && run[0] == Initial(retire)
    && forall i :: 0 <= i < |run| - 1 ==> Next(run[i], run[i + 1])
  }

  // --------------------------------------------------------------- ownership

  /** The handles the coordinator took from a slot and has not joined yet. */
  function Held(c: Coordinator): set<nat> {
    match c
    case JoiningFirst(h) => {h}
    case Phase2(d, g) =>
      (if d.Joining? then {d.handle} else {}) + (if g.Joining? then {g.handle} else {})
    case _ => {}
  }

  ghost predicate Known(v: Services, h: nat, k: Kind) {
    h < |v.instances| && v.instances[h].kind == k && v.instances[h].registered
  }

  /** A handle has one owner: its slot, the coordinator, a stopper, or the
      list of finished joins. */
  ghost predicate OneOwner(c: Coordinator, v: Services) {
    && (v.daemonSlot.Some? ==>
          Known(v, v.daemonSlot.value, Daemon) && v.daemonSlot.value !in Held(c) && v.daemonSlot.value !in v.joins)
    && (v.grpcSlot.Some? ==>
          Known(v, v.grpcSlot.value, Grpc) && v.grpcSlot.value !in Held(c) && v.grpcSlot.value !in v.joins
          && v.grpcSlot.value !in v.stoppers)
    && (c.JoiningFirst? ==> Known(v, c.handle, Daemon))
    && (c.Phase2? && c.daemon.Joining? ==> Known(v, c.daemon.handle, Daemon))
    && (c.Phase2? && c.grpc.Joining? ==> Known(v, c.grpc.handle, Grpc))
    && (forall h :: h in v.stoppers ==> Known(v, h, Grpc) && h !in Held(c) && h !in v.joins)
    && (forall h :: h in Held(c) ==> h !in v.joins)
    && Distinct(v.joins)
    && (forall h :: h in v.joins ==> h < |v.instances| && v.instances[h].resolved && v.instances[h].registered)
  }

  lemma ControlKeepsHeld(c: Control, v: Services, a: ControlAction)
    requires ControlEnabled(c, v, a)
    ensures Held(AfterControl(c, v, a).coord) == Held(c.coord)
    ensures var c' := AfterControl(c, v, a).coord;
      c' == c.coord || (!c'.JoiningFirst? && (c'.Phase2? ==> c' == Phase2(ToTake, ToTake)))
  {
  }

  lemma ControlKeepsOwner(c: Control, v: Services, a: ControlAction)
    requires OneOwner(c.coord, v) && ControlEnabled(c, v, a)
    ensures OneOwner(AfterControl(c, v, a).coord, v)
  {
    ControlKeepsHeld(c, v, a);
  }

  lemma AppendFresh(q: seq<nat>, x: nat)
    requires Distinct(q) && x !in q
    ensures Distinct(q + [x])
    ensures forall h :: h in q + [x] <==> h in q || h == x
  {
  }

  /** Instances are only added, and keep their kind; registration and
      resolution are never undone. */
  ghost predicate Grows(v: seq<Instance>, w: seq<Instance>) {
    && |v| <= |w|
    && forall h :: 0 <= h < |v| ==>
         && w[h].kind == v[h].kind
         && (v[h].registered ==> w[h].registered)
         && (v[h].resolved ==> w[h].resolved)
         && (v[h].quiet ==> w[h].quiet)
         && (!v[h].active ==> !w[h].active)
         && (v[h].superseded ==> w[h].superseded)
  }

  lemma ServiceGrows(c: Control, v: Services, a: ServiceAction)
    requires ServiceEnabled(c, v, a)
    ensures Grows(v.instances, AfterService(c, v, a).instances)
  {
  }

  lemma GrowthKeepsOwner(c: Coordinator, v: Services, w: seq<Instance>)
    requires OneOwner(c, v) && Grows(v.instances, w)
    ensures OneOwner(c, v.(instances := w))
  {
  }

  lemma RegisterKeepsOwner(c: Control, v: Services, h: nat)
    requires OneOwner(c.coord, v) && ServiceEnabled(c, v, Register(h))
    ensures OneOwner(c.coord, AfterService(c, v, Register(h)))
  {
    var w := AfterService(c, v, Register(h));
    ServiceGrows(c, v, Register(h));
    GrowthKeepsOwner(c.coord, v, w.instances);
  }

  lemma StopGrpcKeepsOwner(c: Control, v: Services, a: ServiceAction)
    requires OneOwner(c.coord, v) && ServiceEnabled(c, v, a) && (a.StopGrpcTake? || a.StopGrpcJoin?)
    ensures OneOwner(c.coord, AfterService(c, v, a))
  {
    var w := AfterService(c, v, a);
    ServiceGrows(c, v, a);
    GrowthKeepsOwner(c.coord, v, w.instances);
    if a.StopGrpcJoin? {
      AppendFresh(v.joins, a.handle);
    }
  }

  lemma ServiceKeepsOwner(c: Control, v: Services, a: ServiceAction)
    requires OneOwner(c.coord, v) && ServiceEnabled(c, v, a)
    ensures OneOwner(c.coord, AfterService(c, v, a))
  {
    var w := AfterService(c, v, a);
    if a.Register? {
      RegisterKeepsOwner(c, v, a.handle);
    } else if a.StopGrpcTake? || a.StopGrpcJoin? {
      StopGrpcKeepsOwner(c, v, a);
    } else {
      ServiceGrows(c, v, a);
      GrowthKeepsOwner(c.coord, v, w.instances);
      assert w == v.(instances := w.instances);
    }
  }

  function SlotHandle(slot: Option<nat>): set<nat> {
    if slot.Some? then {slot.value} else {}
  }

  /** What was in the slot is held by the coordinator now. */
  lemma TakeHolds(c: Control, v: Services, a: DrainAction)
    requires DrainEnabled(c, v, a) && (a.TakeFirst? || a.Take?)
    ensures var k := if a.TakeFirst? then Daemon else a.kind;
      && AfterDrain(c, v, a).1 == WithSlot(v, k, None)
      && Held(AfterDrain(c, v, a).0.coord) == Held(c.coord) + SlotHandle(SlotOf(v, k))
  {
  }

  lemma TakeFirstKeepsOwner(c: Control, v: Services)
    requires OneOwner(c.coord, v) && DrainEnabled(c, v, TakeFirst)
    ensures OneOwner(AfterDrain(c, v, TakeFirst).0.coord, AfterDrain(c, v, TakeFirst).1)
  {
    TakeHolds(c, v, TakeFirst);
  }

  lemma TakeDaemonKeepsOwner(c: Control, v: Services)
    requires OneOwner(c.coord, v) && DrainEnabled(c, v, Take(Daemon))
    ensures OneOwner(AfterDrain(c, v, Take(Daemon)).0.coord, AfterDrain(c, v, Take(Daemon)).1)
  {
    TakeHolds(c, v, Take(Daemon));
    hide Held;
  }

  lemma TakeGrpcKeepsOwner(c: Control, v: Services)
    requires OneOwner(c.coord, v) && DrainEnabled(c, v, Take(Grpc))
    ensures OneOwner(AfterDrain(c, v, Take(Grpc)).0.coord, AfterDrain(c, v, Take(Grpc)).1)
  {
    TakeHolds(c, v, Take(Grpc));
    hide Held;
  }

  lemma TakeKeepsOwner(c: Control, v: Services, a: DrainAction)
    requires OneOwner(c.coord, v) && DrainEnabled(c, v, a) && (a.TakeFirst? || a.Take?)
    ensures OneOwner(AfterDrain(c, v, a).0.coord, AfterDrain(c, v, a).1)
  {
    hide OneOwner, AfterDrain;
    match a
    case TakeFirst => TakeFirstKeepsOwner(c, v);
    case Take(Daemon) => TakeDaemonKeepsOwner(c, v);
    case Take(Grpc) => TakeGrpcKeepsOwner(c, v);
  }

  lemma JoinKeepsOwner(c: Control, v: Services, a: DrainAction)
    requires OneOwner(c.coord, v) && DrainEnabled(c, v, a) && (a.JoinFirst? || a.Join?)
    ensures OneOwner(AfterDrain(c, v, a).0.coord, AfterDrain(c, v, a).1)
  {
    var h := if a.JoinFirst? then c.coord.handle else WaitOf(c.coord, a.kind).handle;
    AppendFresh(v.joins, h);
    var (c', w) := AfterDrain(c, v, a);
    assert h in Held(c.coord);
    assert w == v.(joins := v.joins + [h]);
    assert Held(c'.coord) == Held(c.coord) - {h};
  }

  // ---------------------------------------------------------- order of phases

  predicate PastDrain(c: Coordinator) {
    !c.NotStarted? && !c.AwaitDrain?
  }

  predicate PastWait(c: Coordinator) {
    c.Stopping? || c.Phase2? || c.Complete?
  }

  /** The daemon the coordinator found registered has stopped scheduling
      (retire mode), or its handle has been joined (default mode). */
  ghost predicate WaitedFor(c: Control, v: Services) {
    c.awaited.Some? ==>
      && c.awaited.value < |v.instances|
      && (if c.retire
          then v.instances[c.awaited.value].quiet && !v.instances[c.awaited.value].active
          else c.awaited.value in v.joins)
  }

  ghost predicate Ordered(c: Control, v: Services) {
    && (c.drain <==> c.signals in {AwaitMore, Escalating})
    && (PastDrain(c.coord) ==> c.drain)
    && (c.shutdown <==> c.coord.Phase2? || c.coord.Complete?)
    && (c.coord.Reading? || c.coord.AwaitQuiet? ==> c.retire)
    && (c.coord.Arming? || c.coord.TakingFirst? || c.coord.JoiningFirst? ==> !c.retire)
    && (c.coord.AwaitQuiet? || c.coord.JoiningFirst? ==> c.awaited == Some(c.coord.handle))
    && (PastWait(c.coord) ==> WaitedFor(c, v))
    && (forall h :: 0 <= h < |v.instances| && v.instances[h].quiet ==> !v.instances[h].active)
  }

  lemma ControlKeepsOrder(c: Control, v: Services, a: ControlAction)
    requires Ordered(c, v) && ControlEnabled(c, v, a)
    ensures Ordered(AfterControl(c, v, a), v)
  {
  }

  lemma ServiceKeepsOrder(c: Control, v: Services, a: ServiceAction)
    requires Ordered(c, v) && ServiceEnabled(c, v, a)
    ensures Ordered(c, AfterService(c, v, a))
  {
    ServiceGrows(c, v, a);
    var w := AfterService(c, v, a);
    assert forall h :: h in v.joins ==> h in w.joins;
  }

  lemma DrainKeepsOrder(c: Control, v: Services, a: DrainAction)
    requires Ordered(c, v) && DrainEnabled(c, v, a)
    ensures Ordered(AfterDrain(c, v, a).0, AfterDrain(c, v, a).1)
  {
  }

  // -------------------------------------------------------------- escalation

  /** Received signals against the watchdog, until the coordinator completes. */
  ghost predicate Escalation(c: Control) {
    && (c.signals in {NotInstalled, AwaitFirst} ==> c.received == 0)
    && (c.signals == Firing ==> c.received == 1)
    && (c.signals == AwaitMore ==> c.received >= 1)
    && (c.signals == Escalating ==> c.received >= 2)
    && (c.coord != Complete ==>
          && c.arms == (if c.watchdog then 1 else 0)
          && (c.watchdog ==> c.drain)
          && (PastDrain(c.coord) && !c.retire && !c.coord.Arming? ==> c.watchdog)
          && (c.signals == AwaitMore && c.received >= 2 ==> c.watchdog && c.received == 2)
          && (c.signals == Escalating && c.received >= 3 ==> c.watchdog && c.received == 3)
          && (c.retire && c.received == 1 ==> !c.watchdog)
          && (c.retire && c.received == 2 && c.signals == Escalating ==> !c.watchdog))
  }

  lemma ControlKeepsEscalation(c: Control, v: Services, a: ControlAction)
    requires Ordered(c, v) && Escalation(c) && ControlEnabled(c, v, a)
    ensures Escalation(AfterControl(c, v, a))
  {
  }

  lemma DrainKeepsEscalation(c: Control, v: Services, a: DrainAction)
    requires Ordered(c, v) && Escalation(c) && DrainEnabled(c, v, a)
    ensures Escalation(AfterDrain(c, v, a).0)
  {
  }

  /** A forced exit before completion comes on the signal the mode allows. */
  ghost predicate ExitSane(s: State) {
    s.exit.Some? && s.exit.value.Forced? && !s.exit.value.completed ==>
      if s.control.retire then s.exit.value.received == 3 else 2 <= s.exit.value.received <= 3
  }

  ghost predicate Inv(s: State) {
    && OneOwner(s.control.coord, s.services)
    && Ordered(s.control, s.services)
    && Escalation(s.control)
    && ExitSane(s)
  }

  lemma StepKeepsInv(s: State, a: Action)
    requires Inv(s) && Enabled(s, a)
    ensures Inv(Apply(s, a))
  {
    match a
    case ControlStep(x) =>
      ControlKeepsOwner(s.control, s.services, x);
      ControlKeepsOrder(s.control, s.services, x);
      ControlKeepsEscalation(s.control, s.services, x);
    case ServiceStep(x) =>
      ServiceKeepsOwner(s.control, s.services, x);
      ServiceKeepsOrder(s.control, s.services, x);
    case DrainStep(x) =>
      if x.TakeFirst? || x.Take? {
        TakeKeepsOwner(s.control, s.services, x);
      } else {
        JoinKeepsOwner(s.control, s.services, x);
      }
      DrainKeepsOrder(s.control, s.services, x);
      DrainKeepsEscalation(s.control, s.services, x);
    case ExitStep(_) =>
  }

  lemma StepKeepsMode(s: State, a: Action)
    requires Enabled(s, a)
    ensures Apply(s, a).control.retire == s.control.retire
  {
  }

  lemma NextKeepsInv(s: State, s': State)
    requires Inv(s) && Next(s, s')
    ensures Inv(s') && s'.control.retire == s.control.retire
  {
    var a :| Enabled(s, a) && s' == Apply(s, a);
    StepKeepsInv(s, a);
    StepKeepsMode(s, a);
  }

  lemma {:induction false} RunInv(retire: bool, run: seq<State>, i: nat)
    requires IsRun(retire, run) && i < |run|
    ensures Inv(run[i]) && run[i].control.retire == retire
  {
    if i > 0 {
      RunInv(retire, run, i - 1);
      assert Next(run[i - 1], run[i - 1 + 1]);
      NextKeepsInv(run[i - 1], run[i]);
    }
  }
}
