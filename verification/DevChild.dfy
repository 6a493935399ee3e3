/** One generation of the code location: the child process that
    `serve_dev_code_location` runs, around its own copy of the shutdown
    machinery in retire mode. Its main thread binds the gRPC port, registers the
    server, starts and registers the daemon, installs the signal handler and
    waits, in that order. (The code registers the server's handle while the
    server still binds, and goes on when it has bound; nothing looks at the
    handle before the main thread waits.)  */
module DevChild {
  import opened Wrappers
  import SD = Shutdown

  datatype Boot =
    | Importing          // import, connect to storage, resolve
    | Bound              // the gRPC server listens
    | ServerRegistered
    | DaemonStarted
    | DaemonRegistered
    | HandlerInstalled
    | Waiting            // inside `run_shutdown(retire = true)`

  datatype Child = Child(boot: Boot, fallback: bool, noDaemon: bool, sd: SD.State)

  datatype ChildAction =
    | RegisterServer
    | StartDaemon
    | RegisterDaemon
    | InstallHandler
    | Wait
    | Inner(action: SD.Action)

  const ServerHandle: nat := 0
  const DaemonHandle: nat := 1

  function Spawned(noDaemon: bool): Child {
    Child(Importing, false, noDaemon, SD.Initial(true))
  }

  predicate Alive(c: Child) {
    c.sd.exit == None
  }

  function Instances(c: Child): seq<SD.Instance> {
    c.sd.services.instances
  }

  /** The gRPC server accepts connections, on whichever port it bound. */
  predicate Listening(c: Child) {
    Alive(c) && |Instances(c)| > ServerHandle && Instances(c)[ServerHandle].active
  }

  /** The gRPC server accepts connections on the configured port. */
  predicate HoldsPort(c: Child) {
    Listening(c) && !c.fallback
  }

  /** The daemon's loops can dispatch work. */
  predicate Scheduling(c: Child) {
    Alive(c) && |Instances(c)| > DaemonHandle && Instances(c)[DaemonHandle].active
  }

  /** What the running shutdown machinery may do; the main thread does the
      rest. The server fails on its own only when `faults` allows it. */
  predicate InnerAllowed(a: SD.Action, faults: bool) {
    match a
    case ControlStep(x) => !x.InstallHandler? && !x.StartCoordinator?
    case ServiceStep(x) => x.Quiesce? || x.Resolve? || x.Panic? || (x.ServerFault? && faults)
    case DrainStep(_) => true
    case ExitStep(_) => true
  }

  predicate Enabled(c: Child, a: ChildAction, faults: bool) {
    && Alive(c)
    && match a
       case RegisterServer => c.boot == Bound && SD.Enabled(c.sd, SD.ServiceStep(SD.Register(ServerHandle)))
       case StartDaemon => c.boot == ServerRegistered && !c.noDaemon
       case RegisterDaemon =>
         c.boot == DaemonStarted && SD.Enabled(c.sd, SD.ServiceStep(SD.Register(DaemonHandle)))
       case InstallHandler =>
         && (c.boot == DaemonRegistered || (c.boot == ServerRegistered && c.noDaemon))
         && SD.Enabled(c.sd, SD.ControlStep(SD.InstallHandler))
       case Wait => c.boot == HandlerInstalled && SD.Enabled(c.sd, SD.ControlStep(SD.StartCoordinator))
       case Inner(x) => InnerAllowed(x, faults) && SD.Enabled(c.sd, x)
  }

  function Do(c: Child, boot: Boot, a: SD.Action): Child
    requires SD.Enabled(c.sd, a)
  {
    c.(boot := boot, sd := SD.Apply(c.sd, a))
  }

  function Apply(c: Child, a: ChildAction, faults: bool): Child
    requires Enabled(c, a, faults)
  {
    match a
    case RegisterServer => Do(c, ServerRegistered, SD.ServiceStep(SD.Register(ServerHandle)))
    case StartDaemon => Do(c, DaemonStarted, SD.ServiceStep(SD.Spawn(SD.Daemon)))
    case RegisterDaemon => Do(c, DaemonRegistered, SD.ServiceStep(SD.Register(DaemonHandle)))
    case InstallHandler => Do(c, HandlerInstalled, SD.ControlStep(SD.InstallHandler))
    case Wait => Do(c, Waiting, SD.ControlStep(SD.StartCoordinator))
    case Inner(x) => Do(c, c.boot, x)
  }

  /** What the rest of the system relies on when a child takes a step: a
      process that ended stays ended, one that bound never binds again, and its
      port is fixed. */
  ghost predicate Advances(c: Child, d: Child) {
    && (Alive(d) ==> Alive(c))
    && (c.boot == Importing <==> d.boot == Importing)
    && d.fallback == c.fallback
    && d.noDaemon == c.noDaemon
    && (Listening(d) ==> Listening(c))
  }

  /** `find_available_port`: the configured port, or another one when it is taken. */
  function BindServer(c: Child, taken: bool): (d: Child)
    requires Alive(c) && c.boot == Importing
    ensures Alive(d) && d.boot == Bound && d.fallback == taken && d.noDaemon == c.noDaemon
  {
    Do(c, Bound, SD.ServiceStep(SD.Spawn(SD.Grpc))).(fallback := taken)
  }

  /** SIGTERM: received by the handler, or fatal before it is installed. */
  function Terminated(c: Child): (d: Child)
    ensures Advances(c, d)
  {
    if !Alive(c) then c
    else if c.sd.control.signals == SD.NotInstalled then Killed(c)
    else Do(c, c.boot, SD.ControlStep(SD.Signal))
  }

  /** The process is gone: killed, crashed, or exited by an exception. */
  function Killed(c: Child): (d: Child)
    ensures Advances(c, d) && !Alive(d)
  {
    if Alive(c) then Do(c, c.boot, SD.ExitStep(SD.Killed)) else c
  }

  // ---------------------------------------------------------------- invariant

  /** How many services the main thread has started. */
  function Started(c: Child): nat {
    match c.boot
    case Importing => 0
    case Bound => 1
    case ServerRegistered => 1
    case _ => if c.noDaemon then 1 else 2
  }

  predicate BeforeLook(k: SD.Coordinator) {
    k.NotStarted? || k.AwaitDrain? || k.Reading?
  }

  ghost predicate Shape(c: Child) {
    && |Instances(c)| == Started(c)
    && (c.boot.DaemonStarted? || c.boot.DaemonRegistered? ==> !c.noDaemon)
    && (|Instances(c)| > ServerHandle ==>
          Instances(c)[ServerHandle].kind == SD.Grpc && !Instances(c)[ServerHandle].cancelled)
    && (|Instances(c)| > DaemonHandle ==>
          Instances(c)[DaemonHandle].kind == SD.Daemon && !Instances(c)[DaemonHandle].cancelled)
    && (c.boot == Bound ==> !Instances(c)[ServerHandle].registered)
    && (c.boot.Importing? || c.boot.Bound? ==> c.sd.services.grpcSlot == None)
    && (c.boot == DaemonStarted ==> !Instances(c)[DaemonHandle].registered)
    && (c.boot.Importing? || c.boot.Bound? || c.boot.ServerRegistered? || c.boot.DaemonStarted? ==>
          c.sd.services.daemonSlot == None)
    && (!c.boot.HandlerInstalled? && !c.boot.Waiting? ==> c.sd.control.signals == SD.NotInstalled)
    && (!c.boot.Waiting? ==> c.sd.control.coord == SD.NotStarted)
  }

  /** The coordinator looks at, and waits for, the one daemon there is. */
  ghost predicate LooksAtDaemon(c: Child) {
    !c.noDaemon && (c.boot.DaemonRegistered? || c.boot.HandlerInstalled? || c.boot.Waiting?) ==>
      if BeforeLook(c.sd.control.coord)
      then c.sd.services.daemonSlot == Some(DaemonHandle)
      else c.sd.control.awaited == Some(DaemonHandle)
  }

  /** Unless the server fails on its own, it listens until phase 2. */
  ghost predicate ServesUntilShutdown(c: Child) {
    |Instances(c)| > ServerHandle ==> Instances(c)[ServerHandle].active || c.sd.control.shutdown
  }

  ghost predicate ChildInv(c: Child, faults: bool) {
    && c.sd.control.retire
    && SD.Inv(c.sd)
    && Shape(c)
    && LooksAtDaemon(c)
    && (!faults ==> ServesUntilShutdown(c))
  }

  lemma SpawnedInv(noDaemon: bool, faults: bool)
    ensures ChildInv(Spawned(noDaemon), faults)
  {
  }

  /** A generation that schedules holds a listening port. */
  lemma SchedulingListens(c: Child)
    requires ChildInv(c, false) && Scheduling(c)
    ensures Listening(c)
  {
  }

  lemma InnerKeepsShape(c: Child, a: SD.Action, faults: bool)
    requires ChildInv(c, faults) && Enabled(c, Inner(a), faults)
    ensures Shape(Apply(c, Inner(a), faults))
  {
    hide SD.OneOwner, SD.Escalation, SD.ExitSane;
  }

  lemma InnerKeepsLook(c: Child, a: SD.Action, faults: bool)
    requires ChildInv(c, faults) && Enabled(c, Inner(a), faults)
    ensures LooksAtDaemon(Apply(c, Inner(a), faults))
  {
    hide SD.OneOwner, SD.Escalation, SD.ExitSane;
  }

  lemma InnerKeepsServing(c: Child, a: SD.Action)
    requires ChildInv(c, false) && Enabled(c, Inner(a), false)
    ensures ServesUntilShutdown(Apply(c, Inner(a), false))
  {
    hide SD.OneOwner, SD.Escalation, SD.ExitSane;
  }

  /** The shutdown action behind a step of the main thread. */
  function BootAction(a: ChildAction): SD.Action
    requires !a.Inner?
  {
    match a
    case RegisterServer => SD.ServiceStep(SD.Register(ServerHandle))
    case StartDaemon => SD.ServiceStep(SD.Spawn(SD.Daemon))
    case RegisterDaemon => SD.ServiceStep(SD.Register(DaemonHandle))
    case InstallHandler => SD.ControlStep(SD.InstallHandler)
    case Wait => SD.ControlStep(SD.StartCoordinator)
  }

  lemma BootKeepsShape(c: Child, a: ChildAction, faults: bool)
    requires ChildInv(c, faults) && Enabled(c, a, faults) && !a.Inner?
    ensures var d := Apply(c, a, faults);
      Shape(d) && LooksAtDaemon(d) && (!faults ==> ServesUntilShutdown(d))
  {
    hide SD.Inv;
  }

  lemma BootKeepsInv(c: Child, a: ChildAction, faults: bool)
    requires ChildInv(c, faults) && Enabled(c, a, faults) && !a.Inner?
    ensures ChildInv(Apply(c, a, faults), faults)
  {
    hide SD.Inv, SD.Apply, Shape, LooksAtDaemon, ServesUntilShutdown;
    BootKeepsShape(c, a, faults);
    SD.StepKeepsInv(c.sd, BootAction(a));
    SD.StepKeepsMode(c.sd, BootAction(a));
  }

  lemma ChildStep(c: Child, a: ChildAction, faults: bool)
    requires ChildInv(c, faults) && Enabled(c, a, faults)
    ensures ChildInv(Apply(c, a, faults), faults)
    ensures Advances(c, Apply(c, a, faults))
  {
    hide SD.Inv, SD.Apply, Shape, LooksAtDaemon, ServesUntilShutdown, Advances;
    if a.Inner? {
      SD.StepKeepsInv(c.sd, a.action);
      SD.StepKeepsMode(c.sd, a.action);
      InnerKeepsShape(c, a.action, faults);
      InnerKeepsLook(c, a.action, faults);
      if !faults {
        InnerKeepsServing(c, a.action);
      }
    } else {
      BootKeepsInv(c, a, faults);
    }
    StepAdvances(c, a, faults);
  }

  lemma StepAdvances(c: Child, a: ChildAction, faults: bool)
    requires ChildInv(c, faults) && Enabled(c, a, faults)
    ensures Advances(c, Apply(c, a, faults))
  {
  }

  lemma BindKeepsInv(c: Child, taken: bool, faults: bool)
    requires ChildInv(c, faults) && Alive(c) && c.boot == Importing
    ensures ChildInv(BindServer(c, taken), faults)
    ensures Listening(BindServer(c, taken))
  {
    SD.StepKeepsInv(c.sd, SD.ServiceStep(SD.Spawn(SD.Grpc)));
  }

  lemma KilledKeepsInv(c: Child, faults: bool)
    requires ChildInv(c, faults)
    ensures ChildInv(Killed(c), faults) && Advances(c, Killed(c)) && !Alive(Killed(c))
  {
    if Alive(c) {
      ChildStep(c, Inner(SD.ExitStep(SD.Killed)), faults);
    }
  }

  lemma TerminatedKeepsInv(c: Child, faults: bool)
    requires ChildInv(c, faults)
    ensures ChildInv(Terminated(c), faults) && Advances(c, Terminated(c))
  {
    if Alive(c) && c.sd.control.signals != SD.NotInstalled {
      ChildStep(c, Inner(SD.ControlStep(SD.Signal)), faults);
    } else {
      KilledKeepsInv(c, faults);
    }
  }
}
