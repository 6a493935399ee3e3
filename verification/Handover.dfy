/** The dev supervisor composed with every process it spawned, the configured
    gRPC port and the rest of the machine, as a transition system.  */
module Handover {
  import opened Wrappers
  import opened Generations
  import opened DevChild

  /** What the surroundings may do: whether the code location runs a daemon,
      whether some other program may bind the configured port, and whether a
      gRPC server may fail on its own. */
  datatype Config = Config(noDaemon: bool, foreignBinds: bool, serverFaults: bool)

  datatype Caller = FromStart | FromReload

  datatype Outcome = Up | Down | Interrupted

  /** Where the supervisor stands. `spawn_and_wait` is the part from
      `CheckPort` to `StopChild`, `stop` the part from `StopWait` on. */
  datatype Pc =
    | Fresh
    | Ready                                                   // no method runs
    | Selecting                                               // in the loop of `run`
    | RetireWait                                              // polling for the port in `retire`
    | CheckPort(caller: Caller)
    | Spawning(caller: Caller)
    | AwaitServing(pid: nat, caller: Caller)
    | StopChild(pid: nat, outcome: Outcome, caller: Caller)   // terminated, being waited for
    | StopWait(live: seq<nat>)
    | StopKill(live: seq<nat>)                                // those not yet seen dead
    | Stopped

  datatype World = World(pc: Pc, roster: Roster, procs: seq<Child>, foreign: bool)

  /** The supervisor goes on without touching a generation. */
  datatype Move =
    | CallStart
    | CallRun
    | RunEnds
    | RetireSeesFree
    | RetireInterrupted
    | PortSeenFree
    | PortSeenBusy
    | SpawnFails
    | StopWaitEnds
    | StopReturns

  /** The supervisor drops a process it sees dead. */
  datatype Drop =
    | ReportExit
    | Reap(index: nat)
    | SeesExit
    | StopChildExits

  /** The supervisor starts, promotes, terminates or kills. */
  datatype Act =
    | Reload
    | SpawnSucceeds
    | SeesOpen
    | GivesUp(outcome: Outcome)
    | StopChildKilled
    | CallStop
    | StopKillsNext

  /** The children and the rest of the machine. */
  datatype Event =
    | ChildBinds(pid: nat)
    | ChildDoes(pid: nat, action: ChildAction)
    | Terminate(pid: nat)
    | Crash(pid: nat)
    | ForeignTakes
    | ForeignLeaves

  datatype Action = Moves(move: Move) | Drops(drop: Drop) | Acts(act: Act) | Happens(event: Event)

  const Initial := World(Fresh, NoGenerations, [], false)

  predicate HeldByChild(procs: seq<Child>) {
    exists p :: 0 <= p < |procs| && HoldsPort(procs[p])
  }

  predicate PortFree(w: World) {
    !w.foreign && !HeldByChild(w.procs)
  }

  predicate Runs(procs: seq<Child>, pid: nat) {
    pid < |procs| && Alive(procs[pid])
  }

  function AlivePids(procs: seq<Child>): set<nat> {
    set p | 0 <= p < |procs| && Alive(procs[p])
  }

  /** Where the supervisor continues when `spawn_and_wait` returns. */
  function Back(caller: Caller, o: Outcome): Pc {
    if caller == FromStart || o == Interrupted then Ready else Selecting
  }

  // -------------------------------------------------------------------- moves

  predicate MoveEnabled(pc: Pc, free: bool, m: Move) {
    match m
    case CallStart => pc == Fresh
    case CallRun => pc == Ready
    case RunEnds => pc == Selecting
    case RetireSeesFree => pc == RetireWait && free
    case RetireInterrupted => pc == RetireWait
    case PortSeenFree => pc.CheckPort? && free
    case PortSeenBusy => pc.CheckPort?
    case SpawnFails => pc.Spawning?
    case StopWaitEnds => pc.StopWait?
    case StopReturns => pc == StopKill([])
  }

  function AfterMove(pc: Pc, free: bool, m: Move): Pc
    requires MoveEnabled(pc, free, m)
  {
    match m
    case CallStart => CheckPort(FromStart)
    case CallRun => Selecting
    case RunEnds => Ready
    case RetireSeesFree => CheckPort(FromReload)
    case RetireInterrupted => Ready
    case PortSeenFree => Spawning(pc.caller)
    case PortSeenBusy => Back(pc.caller, Down)
    case SpawnFails => Back(pc.caller, Down)
    case StopWaitEnds => StopKill(pc.live)
    case StopReturns => Stopped
  }

  // -------------------------------------------------------------------- drops

  predicate DropEnabled(w: World, d: Drop) {
    match d
    case ReportExit => w.pc == Selecting && w.roster.active.Some? && !Runs(w.procs, w.roster.active.value.pid)
    case Reap(i) => w.pc == Selecting && i < |w.roster.retiring| && !Runs(w.procs, w.roster.retiring[i].pid)
    case SeesExit => w.pc.AwaitServing? && !Runs(w.procs, w.pc.pid)
    case StopChildExits => w.pc.StopChild? && !Runs(w.procs, w.pc.pid)
  }

  function Dropped(w: World, d: Drop): nat
    requires DropEnabled(w, d)
  {
    match d
    case ReportExit => w.roster.active.value.pid
    case Reap(i) => w.roster.retiring[i].pid
    case SeesExit => w.pc.pid
    case StopChildExits => w.pc.pid
  }

  function AfterDrop(w: World, d: Drop): World
    requires DropEnabled(w, d)
  {
    match d
    case ReportExit => w.(roster := ActiveGone(w.roster))
    case Reap(i) => w.(roster := Reaped(w.roster, i))
    case SeesExit => w.(pc := Back(w.pc.caller, Down))
    case StopChildExits => w.(pc := Back(w.pc.caller, w.pc.outcome))
  }

  // --------------------------------------------------------------------- acts

  predicate ActEnabled(w: World, a: Act) {
    match a
    case Reload => w.pc == Selecting
    case SpawnSucceeds => w.pc.Spawning?
    case SeesOpen => w.pc.AwaitServing? && !PortFree(w)
    case GivesUp(o) => w.pc.AwaitServing? && w.pc.pid < |w.procs| && o != Up
    case StopChildKilled => w.pc.StopChild? && w.pc.pid < |w.procs|
    case CallStop => w.pc == Ready
    case StopKillsNext => w.pc.StopKill? && |w.pc.live| > 0 && w.pc.live[0] < |w.procs|
  }

  /** `retire` up to its first poll. */
  function BeginRetire(w: World): World {
    if w.roster.active.None? then w.(pc := CheckPort(FromReload))
    else
      var pid := w.roster.active.value.pid;
      if !Runs(w.procs, pid) then w.(pc := CheckPort(FromReload), roster := ActiveGone(w.roster))
      else
        World(RetireWait, ActiveRetired(w.roster), w.procs[pid := Terminated(w.procs[pid])], w.foreign)
  }

  function TerminateAll(procs: seq<Child>, pids: seq<nat>): (r: seq<Child>)
    ensures |r| == |procs|
    ensures forall p :: 0 <= p < |procs| ==> r[p] == if p in pids then Terminated(procs[p]) else procs[p]
  {
    seq(|procs|, p requires 0 <= p < |procs| => if p in pids then Terminated(procs[p]) else procs[p])
  }

  /** `stop` up to its wait. */
  function BeginStop(w: World): World {
    var live := Pids(Running(All(w.roster), AlivePids(w.procs)));
    World(StopWait(live), Roster(None, [], w.roster.generations), TerminateAll(w.procs, live), w.foreign)
  }

  function AfterAct(cfg: Config, w: World, a: Act): World
    requires ActEnabled(w, a)
  {
    match a
    case Reload => BeginRetire(w)
    case SpawnSucceeds =>
      w.(procs := w.procs + [Spawned(cfg.noDaemon)], pc := AwaitServing(|w.procs|, w.pc.caller))
    case SeesOpen => w.(pc := Back(w.pc.caller, Up), roster := Promoted(w.roster, w.pc.pid))
    case GivesUp(o) =>
      w.(procs := w.procs[w.pc.pid := Terminated(w.procs[w.pc.pid])],
         pc := StopChild(w.pc.pid, o, w.pc.caller))
    case StopChildKilled =>
      w.(procs := w.procs[w.pc.pid := Killed(w.procs[w.pc.pid])], pc := Back(w.pc.caller, w.pc.outcome))
    case CallStop => BeginStop(w)
    case StopKillsNext =>
      w.(procs := w.procs[w.pc.live[0] := Killed(w.procs[w.pc.live[0]])], pc := StopKill(w.pc.live[1..]))
  }

  // ------------------------------------------------------------------- events

  predicate EventEnabled(cfg: Config, w: World, e: Event) {
    match e
    case ChildBinds(p) => Runs(w.procs, p) && w.procs[p].boot == Importing
    case ChildDoes(p, x) => p < |w.procs| && DevChild.Enabled(w.procs[p], x, cfg.serverFaults)
    case Terminate(p) => p < |w.procs|
    case Crash(p) => p < |w.procs|
    case ForeignTakes => cfg.foreignBinds && PortFree(w)
    case ForeignLeaves => w.foreign
  }

  function AfterEvent(cfg: Config, w: World, e: Event): World
    requires EventEnabled(cfg, w, e)
  {
    match e
    case ChildBinds(p) => w.(procs := w.procs[p := BindServer(w.procs[p], !PortFree(w))])
    case ChildDoes(p, x) => w.(procs := w.procs[p := DevChild.Apply(w.procs[p], x, cfg.serverFaults)])
    case Terminate(p) => w.(procs := w.procs[p := Terminated(w.procs[p])])
    case Crash(p) => w.(procs := w.procs[p := Killed(w.procs[p])])
    case ForeignTakes => w.(foreign := true)
    case ForeignLeaves => w.(foreign := false)
  }

  // --------------------------------------------------------------------- runs

  predicate Enabled(cfg: Config, w: World, a: Action) {
    match a
    case Moves(m) => MoveEnabled(w.pc, PortFree(w), m)
    case Drops(d) => DropEnabled(w, d)
    case Acts(x) => ActEnabled(w, x)
    case Happens(e) => EventEnabled(cfg, w, e)
  }

  function Apply(cfg: Config, w: World, a: Action): World
    requires Enabled(cfg, w, a)
  {
    match a
    case Moves(m) => w.(pc := AfterMove(w.pc, PortFree(w), m))
    case Drops(d) => AfterDrop(w, d)
    case Acts(x) => AfterAct(cfg, w, x)
    case Happens(e) => AfterEvent(cfg, w, e)
  }

  ghost predicate Next(cfg: Config, w: World, w': World) {
    exists a :: Enabled(cfg, w, a) && w' == Apply(cfg, w, a)
  }

  ghost predicate IsRun(cfg: Config, run: seq<World>) {
    && |run| > 0
    && run[0] == Initial
    && forall i :: 0 <= i < |run| - 1 ==> Next(cfg, run[i], run[i + 1])
  }

  // --------------------------------------------------------------- accounting

  function ActiveBag(r: Roster): multiset<nat> {
    if r.active.Some? then multiset{r.active.value.pid} else multiset{}
  }

  function CandidateBag(pc: Pc): multiset<nat> {
    if pc.AwaitServing? || pc.StopChild? then multiset{pc.pid} else multiset{}
  }

  function StopBag(pc: Pc): multiset<nat> {
    if pc.StopWait? || pc.StopKill? then multiset(pc.live) else multiset{}
  }

  /** The pids the supervisor holds, with multiplicity: as the active
      generation, in `retiring`, as the candidate, or in the list of `stop`. */
  function Tracked(pc: Pc, r: Roster): multiset<nat> {
    ActiveBag(r) + multiset(Pids(r.retiring)) + CandidateBag(pc) + StopBag(pc)
  }

  predicate SpawnPath(pc: Pc) {
    pc.RetireWait? || pc.CheckPort? || pc.Spawning? || pc.AwaitServing? || pc.StopChild?
  }

  predicate StopPath(pc: Pc) {
    pc.StopWait? || pc.StopKill? || pc.Stopped?
  }

  ghost predicate RosterFits(pc: Pc, r: Roster) {
    && (SpawnPath(pc) ==> r.active == None)
    && (pc.Fresh? || StopPath(pc) ==> r.active == None && r.retiring == [])
  }

  /** Every running process is held in exactly one place. */
  ghost predicate Held(tracked: multiset<nat>, procs: seq<Child>) {
    && (forall p :: tracked[p] <= 1)
    && (forall p :: p in tracked ==> p < |procs|)
    && (forall p :: 0 <= p < |procs| && Alive(procs[p]) ==> p in tracked)
  }

  ghost predicate Accounted(w: World) {
    && RosterFits(w.pc, w.roster)
    && Numbered(w.roster)
    && Held(Tracked(w.pc, w.roster), w.procs)
  }

  /** Nothing that ended runs again. */
  ghost predicate OnlyEnds(before: seq<Child>, after: seq<Child>) {
    |before| == |after| && forall p :: 0 <= p < |before| && Alive(after[p]) ==> Alive(before[p])
  }

  lemma HeldAfter(tracked: multiset<nat>, procs: seq<Child>, gone: multiset<nat>, procs': seq<Child>)
    requires Held(tracked, procs) && OnlyEnds(procs, procs')
    requires forall p :: p in gone ==> !Runs(procs', p)
    ensures Held(tracked - gone, procs')
  {
  }

  /** The places of `Tracked` that a move leaves as they are. */
  lemma MoveKeepsPlaces(pc: Pc, free: bool, m: Move)
    requires MoveEnabled(pc, free, m)
    ensures var pc' := AfterMove(pc, free, m);
      && !pc.AwaitServing? && !pc.StopChild? && !pc'.AwaitServing? && !pc'.StopChild?
      && (pc.StopWait? || pc.StopKill? ==> pc' == StopKill(pc.live) || (pc' == Stopped && pc.live == []))
      && (pc'.StopWait? || pc'.StopKill? ==> pc.StopWait?)
  {
    hide Back;
    if pc.CheckPort? || pc.Spawning? {
      BackIsOut(pc.caller, Down);
    }
  }

  lemma BackIsOut(caller: Caller, o: Outcome)
    ensures Back(caller, o) == Ready || Back(caller, o) == Selecting
  {
  }

  lemma MoveKeepsFit(pc: Pc, r: Roster, free: bool, m: Move)
    requires MoveEnabled(pc, free, m) && RosterFits(pc, r)
    ensures RosterFits(AfterMove(pc, free, m), r)
  {
  }

  lemma MoveKeepsAccount(w: World, free: bool, m: Move)
    requires Accounted(w) && MoveEnabled(w.pc, free, m)
    ensures Accounted(w.(pc := AfterMove(w.pc, free, m)))
  {
    hide AfterMove, MoveEnabled, RosterFits, Numbered;
    MoveKeepsPlaces(w.pc, free, m);
    MoveKeepsFit(w.pc, w.roster, free, m);
    var pc' := AfterMove(w.pc, free, m);
    assert StopBag(pc') == StopBag(w.pc);
    assert Tracked(pc', w.roster) == Tracked(w.pc, w.roster);
  }

  lemma ReapBag(r: Roster, i: nat)
    requires i < |r.retiring|
    ensures multiset(Pids(Reaped(r, i).retiring)) == multiset(Pids(r.retiring)) - multiset{r.retiring[i].pid}
  {
    assert Pids(SwapRemove(r.retiring, i)) == SwapRemove(Pids(r.retiring), i);
    SwapRemoveBag(Pids(r.retiring), i);
  }

  lemma ReapTracked(pc: Pc, r: Roster, i: nat)
    requires i < |r.retiring| && pc == Selecting
    ensures Tracked(pc, Reaped(r, i)) == Tracked(pc, r) - multiset{r.retiring[i].pid}
  {
    ReapBag(r, i);
    assert r.retiring[i].pid == Pids(r.retiring)[i];
    assert multiset{r.retiring[i].pid} <= multiset(Pids(r.retiring));
  }

  lemma ActiveTracked(r: Roster)
    requires r.active.Some?
    ensures Tracked(Selecting, ActiveGone(r)) == Tracked(Selecting, r) - multiset{r.active.value.pid}
  {
    var rest := multiset(Pids(r.retiring));
    assert rest == multiset{r.active.value.pid} + rest - multiset{r.active.value.pid};
  }

  lemma DropBag(w: World, d: Drop)
    requires DropEnabled(w, d)
    ensures var w' := AfterDrop(w, d); Tracked(w'.pc, w'.roster) == Tracked(w.pc, w.roster) - multiset{Dropped(w, d)}
  {
    hide Tracked;
    match d
    case ReportExit => ActiveTracked(w.roster);
    case Reap(i) => ReapTracked(w.pc, w.roster, i);
    case SeesExit => CandidateBagGone(w.roster, w.pc);
    case StopChildExits => CandidateBagGone(w.roster, w.pc);
  }

  lemma CandidateBagGone(r: Roster, pc: Pc)
    requires pc.AwaitServing? || pc.StopChild?
    ensures Tracked(Ready, r) == Tracked(Selecting, r) == Tracked(pc, r) - multiset{pc.pid}
  {
    var rest := ActiveBag(r) + multiset(Pids(r.retiring));
    assert rest == rest + multiset{pc.pid} - multiset{pc.pid};
  }

  lemma DropKeepsAccount(w: World, d: Drop)
    requires Accounted(w) && DropEnabled(w, d)
    ensures Accounted(AfterDrop(w, d))
  {
    DropBag(w, d);
    HeldAfter(Tracked(w.pc, w.roster), w.procs, multiset{Dropped(w, d)}, w.procs);
    DropFits(w, d);
  }

  lemma DropFits(w: World, d: Drop)
    requires RosterFits(w.pc, w.roster) && Numbered(w.roster) && DropEnabled(w, d)
    ensures RosterFits(AfterDrop(w, d).pc, AfterDrop(w, d).roster) && Numbered(AfterDrop(w, d).roster)
    ensures AfterDrop(w, d).procs == w.procs
  {
    if d.Reap? {
      ReapedNumbered(w.roster, d.index);
    }
  }

  lemma PidsAppend(q: seq<Generation>, g: Generation)
    ensures Pids(q + [g]) == Pids(q) + [g.pid]
  {
  }

  lemma PidsPrepend(g: Generation, q: seq<Generation>)
    ensures multiset(Pids([g] + q)) == multiset{g.pid} + multiset(Pids(q))
  {
    assert Pids([g] + q) == [g.pid] + Pids(q);
  }

  lemma {:induction false} RunningBag(q: seq<Generation>, alive: set<nat>)
    ensures multiset(Pids(Running(q, alive))) <= multiset(Pids(q))
    ensures forall p :: p in multiset(Pids(q)) && p in alive ==> p in multiset(Pids(Running(q, alive)))
  {
    if q != [] {
      hide Pids;
      RunningBag(q[1..], alive);
      assert q == [q[0]] + q[1..];
      PidsPrepend(q[0], q[1..]);
      PidsPrepend(q[0], Running(q[1..], alive));
    }
  }

  lemma RetireBag(r: Roster)
    requires r.active.Some?
    ensures Tracked(RetireWait, ActiveRetired(r)) == Tracked(Selecting, r)
  {
    hide Pids;
    var g := r.active.value;
    PidsAppend(r.retiring, g);
  }

  lemma RetireKeepsAccount(w: World)
    requires Accounted(w) && w.pc == Selecting
    ensures Accounted(BeginRetire(w))
  {
    hide Terminated, Tracked, Numbered, Held;
    var w' := BeginRetire(w);
    var tracked := Tracked(w.pc, w.roster);
    if w.roster.active.Some? {
      var pid := w.roster.active.value.pid;
      if Runs(w.procs, pid) {
        RetireBag(w.roster);
        RetiredNumbered(w.roster);
        HeldAfter(tracked, w.procs, multiset{}, w'.procs);
        assert tracked - multiset{} == tracked;
      } else {
        ActiveTracked(w.roster);
        NoActiveBag(ActiveGone(w.roster));
        GoneNumbered(w.roster);
        HeldAfter(tracked, w.procs, multiset{pid}, w'.procs);
      }
    } else {
      NoActiveBag(w.roster);
    }
  }

  lemma NoActiveBag(r: Roster)
    ensures Tracked(CheckPort(FromReload), r) == Tracked(Selecting, r)
  {
  }

  lemma GoneNumbered(r: Roster)
    requires Numbered(r)
    ensures Numbered(ActiveGone(r))
  {
  }

  lemma SpawnKeepsAccount(cfg: Config, w: World)
    requires Accounted(w) && w.pc.Spawning?
    ensures Accounted(AfterAct(cfg, w, SpawnSucceeds))
  {
    var w' := AfterAct(cfg, w, SpawnSucceeds);
    assert Tracked(w'.pc, w'.roster) == Tracked(w.pc, w.roster) + multiset{|w.procs|};
    assert |w.procs| !in Tracked(w.pc, w.roster);
  }

  lemma PromoteBag(pc: Pc, r: Roster, caller: Caller)
    requires pc.AwaitServing? && r.active == None
    ensures Tracked(Back(caller, Up), Promoted(r, pc.pid)) == Tracked(pc, r)
  {
  }

  lemma PromoteKeepsAccount(cfg: Config, w: World)
    requires Accounted(w) && ActEnabled(w, SeesOpen)
    ensures Accounted(AfterAct(cfg, w, SeesOpen))
  {
    PromoteBag(w.pc, w.roster, w.pc.caller);
    PromotedNumbered(w.roster, w.pc.pid);
  }

  lemma GiveUpTracked(pid: nat, o: Outcome, caller: Caller, r: Roster)
    ensures Tracked(StopChild(pid, o, caller), r) == Tracked(AwaitServing(pid, caller), r)
  {
  }

  lemma GiveUpKeepsAccount(cfg: Config, w: World, o: Outcome)
    requires Accounted(w) && ActEnabled(w, GivesUp(o))
    ensures Accounted(AfterAct(cfg, w, GivesUp(o)))
  {
    hide Killed, Terminated, Held, Numbered, Tracked;
    var tracked := Tracked(w.pc, w.roster);
    GiveUpTracked(w.pc.pid, o, w.pc.caller, w.roster);
    HeldAfter(tracked, w.procs, multiset{}, AfterAct(cfg, w, GivesUp(o)).procs);
    assert tracked - multiset{} == tracked;
  }

  lemma KillChildKeepsAccount(cfg: Config, w: World)
    requires Accounted(w) && ActEnabled(w, StopChildKilled)
    ensures Accounted(AfterAct(cfg, w, StopChildKilled))
  {
    hide Killed, Terminated, Held, Numbered;
    var w' := AfterAct(cfg, w, StopChildKilled);
    CandidateBagGone(w.roster, w.pc);
    HeldAfter(Tracked(w.pc, w.roster), w.procs, multiset{w.pc.pid}, w'.procs);
  }

  lemma RosterTracked(r: Roster)
    ensures multiset(Pids(All(r))) == Tracked(Ready, r)
  {
    assert Pids(All(r)) == Pids(ActiveList(r)) + Pids(r.retiring);
    if r.active.Some? {
      assert Pids(ActiveList(r)) == [r.active.value.pid];
    }
  }

  lemma StopTracked(live: seq<nat>, generations: nat)
    ensures Tracked(StopWait(live), Roster(None, [], generations)) == multiset(live)
  {
    assert Pids([]) == [];
  }

  lemma TerminateAllOnlyEnds(procs: seq<Child>, pids: seq<nat>)
    ensures OnlyEnds(procs, TerminateAll(procs, pids))
  {
    hide Terminated;
  }

  lemma StopHeld(r: Roster, procs: seq<Child>)
    requires Held(Tracked(Ready, r), procs)
    ensures var live := Pids(Running(All(r), AlivePids(procs)));
      Held(multiset(live), TerminateAll(procs, live))
  {
    hide Terminated, TerminateAll, Running, Held, Tracked, Pids, All;
    var live := Pids(Running(All(r), AlivePids(procs)));
    RosterTracked(r);
    RunningBag(All(r), AlivePids(procs));
    TerminateAllOnlyEnds(procs, live);
    HeldByRunning(Tracked(Ready, r), procs, multiset(live), TerminateAll(procs, live));
  }

  lemma StopBegins(w: World)
    requires Accounted(w) && w.pc == Ready
    ensures Accounted(BeginStop(w))
  {
    hide TerminateAll, Running, Held, Tracked, Pids, All, AlivePids;
    StopHeld(w.roster, w.procs);
    StopTracked(Pids(Running(All(w.roster), AlivePids(w.procs))), w.roster.generations);
  }

  lemma HeldByRunning(tracked: multiset<nat>, procs: seq<Child>, live: multiset<nat>, procs': seq<Child>)
    requires Held(tracked, procs) && OnlyEnds(procs, procs')
    requires live <= tracked && forall p :: p in tracked && p in AlivePids(procs) ==> p in live
    ensures Held(live, procs')
  {
  }

  lemma StopListBag(live: seq<nat>, r: Roster)
    requires |live| > 0 && r.active == None && r.retiring == []
    ensures Tracked(StopKill(live[1..]), r) == Tracked(StopKill(live), r) - multiset{live[0]}
  {
    assert live == [live[0]] + live[1..];
  }

  lemma StopKillKeepsAccount(cfg: Config, w: World)
    requires Accounted(w) && ActEnabled(w, StopKillsNext)
    ensures Accounted(AfterAct(cfg, w, StopKillsNext))
  {
    hide Killed, Tracked;
    var w' := AfterAct(cfg, w, StopKillsNext);
    StopListBag(w.pc.live, w.roster);
    HeldAfter(Tracked(w.pc, w.roster), w.procs, multiset{w.pc.live[0]}, w'.procs);
  }
}
