/** What every run of the shutdown machinery keeps.  */
module ShutdownRuns {
  import opened Sets
  import opened Wrappers
  import opened Shutdown

  // ------------------------------------------------------ the order of phases

  predicate PastLook(c: Coordinator) {
    c.AwaitQuiet? || c.JoiningFirst? || PastWait(c)
  }

  /** The step in which the coordinator consults the daemon's slot. */
  ghost predicate Looks(s: State, s': State) {
    !PastLook(s.control.coord) && PastLook(s'.control.coord)
  }

  /** The daemon in `slot` has stopped scheduling (retire mode), or its handle
      has been joined (default mode). */
  ghost predicate Released(retire: bool, slot: Option<nat>, v: Services) {
    slot.Some? ==>
      && slot.value < |v.instances|
      && (if retire then v.instances[slot.value].quiet && !v.instances[slot.value].active
          else slot.value in v.joins && v.instances[slot.value].resolved)
  }

  /** What the step from `c` to `d` does to the coordinator's look. */
  ghost predicate LooksOnce(c: Control, slot: Option<nat>, d: Control) {
    && (PastLook(c.coord) ==> PastLook(d.coord) && d.awaited == c.awaited)
    && (!PastLook(c.coord) && PastLook(d.coord) ==> d.awaited == slot)
  }

  lemma ControlLooks(c: Control, v: Services, a: ControlAction)
    requires ControlEnabled(c, v, a)
    ensures LooksOnce(c, v.daemonSlot, AfterControl(c, v, a))
  {
  }

  lemma DrainLooks(c: Control, v: Services, a: DrainAction)
    requires DrainEnabled(c, v, a)
    ensures LooksOnce(c, v.daemonSlot, AfterDrain(c, v, a).0)
  {
  }

  lemma LookStep(s: State, a: Action)
    requires Enabled(s, a)
    ensures LooksOnce(s.control, s.services.daemonSlot, Apply(s, a).control)
  {
    hide AfterControl, AfterService, AfterDrain, ControlEnabled, ServiceEnabled, DrainEnabled;
    match a
    case ControlStep(x) => ControlLooks(s.control, s.services, x);
    case ServiceStep(x) =>
    case DrainStep(x) => DrainLooks(s.control, s.services, x);
    case ExitStep(_) =>
  }

  lemma NextLook(s: State, s': State)
    requires Next(s, s')
    ensures PastLook(s.control.coord) ==>
              PastLook(s'.control.coord) && s'.control.awaited == s.control.awaited
    ensures Looks(s, s') ==> s'.control.awaited == s.services.daemonSlot
  {
    var a :| Enabled(s, a) && s' == Apply(s, a);
    LookStep(s, a);
  }

  lemma {:induction false} AwaitedWasRegistered(retire: bool, run: seq<State>, i: nat)
    requires IsRun(retire, run) && i < |run| && PastLook(run[i].control.coord)
    ensures exists j :: 0 <= j < i && Looks(run[j], run[j + 1]) && run[i].control.awaited == run[j].services.daemonSlot
  {
    hide Next;
    assert i > 0;
    assert Next(run[i - 1], run[i - 1 + 1]);
    NextLook(run[i - 1], run[i]);
    if PastLook(run[i - 1].control.coord) {
      AwaitedWasRegistered(retire, run, i - 1);
      var j :| 0 <= j < i - 1 && Looks(run[j], run[j + 1])
               && run[i - 1].control.awaited == run[j].services.daemonSlot;
      assert Looks(run[j], run[j + 1]);
    } else {
      assert Looks(run[i - 1], run[i - 1 + 1]);
    }
  }

  /** When the shutdown token is cancelled the drain token has been, and the
      daemon the coordinator found registered has stopped scheduling or, in
      default mode, been joined. */
  lemma ShutdownAfterDrain(retire: bool, run: seq<State>, i: nat)
    requires IsRun(retire, run) && i + 1 < |run|
    requires !run[i].control.shutdown && run[i + 1].control.shutdown
    ensures run[i].control.drain
    ensures exists j :: 0 <= j < i && Looks(run[j], run[j + 1])
                        && Released(retire, run[j].services.daemonSlot, run[i].services)
  {
    hide Next, OneOwner, Escalation, Looks;
    RunInv(retire, run, i);
    assert Next(run[i], run[i + 1]);
    ShutdownStep(run[i], run[i + 1]);
    AwaitedWasRegistered(retire, run, i);
    JoinedResolved(run[i]);
  }

  lemma ShutdownStep(s: State, s': State)
    requires Next(s, s') && !s.control.shutdown && s'.control.shutdown
    ensures s.control.coord == Stopping
  {
    var a :| Enabled(s, a) && s' == Apply(s, a);
  }

  lemma JoinedResolved(s: State)
    requires Inv(s)
    ensures forall h :: h in s.services.joins ==>
              h < |s.services.instances| && s.services.instances[h].resolved
  {
  }

  // --------------------------------------------------------- joins of handles

  predicate PastTake(c: Coordinator, k: Kind) {
    c.Complete? || (c.Phase2? && WaitOf(c, k) != ToTake)
  }

  /** What can have become of a handle that was registered before phase 2
      took its slot. */
  ghost predicate Answered(s: State, k: Kind, h: nat) {
    && h < |s.services.instances|
    && (|| (SlotOf(s.services, k) == Some(h) && !PastTake(s.control.coord, k))
        || h in Held(s.control.coord)
        || h in s.services.joins
        || h in s.services.stoppers
        || s.services.instances[h].superseded)
  }

  lemma ControlAnswers(s: State, a: ControlAction, k: Kind, h: nat)
    requires Answered(s, k, h) && Enabled(s, ControlStep(a))
    ensures Answered(Apply(s, ControlStep(a)), k, h)
  {
    ControlKeepsHeld(s.control, s.services, a);
  }

  lemma ServiceAnswers(s: State, a: ServiceAction, k: Kind, h: nat)
    requires Inv(s) && Answered(s, k, h) && Enabled(s, ServiceStep(a))
    ensures Answered(Apply(s, ServiceStep(a)), k, h)
  {
    hide Escalation, Ordered;
    ServiceGrows(s.control, s.services, a);
  }

  lemma DrainAnswers(s: State, a: DrainAction, k: Kind, h: nat)
    requires Inv(s) && Answered(s, k, h) && Enabled(s, DrainStep(a))
    ensures Answered(Apply(s, DrainStep(a)), k, h)
  {
    hide Escalation, Ordered, OneOwner;
  }

  lemma NextAnswers(s: State, s': State, k: Kind, h: nat)
    requires Inv(s) && Answered(s, k, h) && Next(s, s')
    ensures Answered(s', k, h)
  {
    hide Inv, Answered;
    var a :| Enabled(s, a) && s' == Apply(s, a);
    match a
    case ControlStep(x) => ControlAnswers(s, x, k, h);
    case ServiceStep(x) => ServiceAnswers(s, x, k, h);
    case DrainStep(x) => DrainAnswers(s, x, k, h);
    case ExitStep(_) => ExitAnswers(s, s', k, h);
  }

  lemma ExitAnswers(s: State, s': State, k: Kind, h: nat)
    requires Answered(s, k, h) && s'.control == s.control && s'.services == s.services
    ensures Answered(s', k, h)
  {
  }

  lemma {:induction false} RunAnswers(retire: bool, run: seq<State>, i: nat, j: nat, k: Kind, h: nat)
    requires IsRun(retire, run) && i <= j < |run| && Answered(run[i], k, h)
    ensures Answered(run[j], k, h)
    decreases j
  {
    hide Next, Answered, Inv;
    if i < j {
      RunAnswers(retire, run, i, j - 1, k, h);
      RunInv(retire, run, j - 1);
      assert Next(run[j - 1], run[j - 1 + 1]);
      NextAnswers(run[j - 1], run[j], k, h);
    }
  }

  /** Shutdown completes only after every handle that was in a slot when
      phase 2 came to it resolved and was joined, unless a later registration
      replaced it or a caller of `stop_grpc` took it over. */
  lemma CompletionJoinsRegistered(retire: bool, run: seq<State>, i: nat, j: nat, k: Kind, h: nat)
    requires IsRun(retire, run) && i <= j < |run|
    requires SlotOf(run[i].services, k) == Some(h) && !PastTake(run[i].control.coord, k)
    requires run[j].control.coord == Complete
    ensures h < |run[j].services.instances|
    ensures || (h in run[j].services.joins && run[j].services.instances[h].resolved)
            || run[j].services.instances[h].superseded
            || h in run[j].services.stoppers
  {
    hide Next, Ordered, Escalation;
    RunInv(retire, run, i);
    RunInv(retire, run, j);
    assert Answered(run[i], k, h);
    RunAnswers(retire, run, i, j, k, h);
    JoinedResolved(run[j]);
  }

  /** No handle is joined twice, by whichever of the callers. */
  lemma JoinedOnce(retire: bool, run: seq<State>, i: nat)
    requires IsRun(retire, run) && i < |run|
    ensures Distinct(run[i].services.joins)
  {
    hide Next, Ordered, Escalation;
    RunInv(retire, run, i);
  }

  // -------------------------------------------------------- signal escalation

  /** Before completion the watchdog is armed at most once, after the drain,
      and in retire mode on the second signal. */
  lemma WatchdogArmedOnce(retire: bool, run: seq<State>, i: nat)
    requires IsRun(retire, run) && i + 1 < |run| && run[i + 1].control.arms != run[i].control.arms
    requires run[i].control.coord != Complete
    ensures run[i].control.arms == 0 && run[i + 1].control.arms == 1
    ensures run[i].control.drain
    ensures if retire then run[i].control.received == 2 else 1 <= run[i].control.received <= 2
  {
    hide Next, OneOwner;
    RunInv(retire, run, i);
    assert Next(run[i], run[i + 1]);
    ArmStep(run[i], run[i + 1]);
  }

  lemma ControlArms(c: Control, v: Services, a: ControlAction)
    requires ControlEnabled(c, v, a)
    ensures var d := AfterControl(c, v, a);
      d.arms == c.arms ||
      (d.arms == c.arms + 1 && !c.watchdog && (c.signals == Escalating || c.coord == Arming))
  {
  }

  lemma DrainArms(c: Control, v: Services, a: DrainAction)
    requires DrainEnabled(c, v, a)
    ensures AfterDrain(c, v, a).0.arms == c.arms
  {
  }

  lemma ArmStep(s: State, s': State)
    requires Next(s, s') && s'.control.arms != s.control.arms
    ensures s'.control.arms == s.control.arms + 1 && !s.control.watchdog
    ensures s.control.signals == Escalating || s.control.coord == Arming
  {
    hide AfterControl, AfterService, AfterDrain, ControlEnabled, ServiceEnabled, DrainEnabled;
    var a :| Enabled(s, a) && s' == Apply(s, a);
    match a
    case ControlStep(x) => ControlArms(s.control, s.services, x);
    case ServiceStep(x) =>
    case DrainStep(x) => DrainArms(s.control, s.services, x);
    case ExitStep(_) =>
  }

  lemma ForcedExitBySignal(retire: bool, run: seq<State>, i: nat)
    requires IsRun(retire, run) && i < |run|
    requires run[i].exit.Some? && run[i].exit.value.Forced? && !run[i].exit.value.completed
    ensures if retire then run[i].exit.value.received == 3 else 2 <= run[i].exit.value.received <= 3
  {
    hide Next, OneOwner, Ordered, Escalation;
    RunInv(retire, run, i);
  }

  /** What a further signal does before completion, once received: it either
      arms the watchdog or forces the exit, never both, and in retire mode the
      second arms while the third exits. */
  lemma FurtherSignal(retire: bool, run: seq<State>, i: nat)
    requires IsRun(retire, run) && i < |run| && run[i].exit == None
    requires run[i].control.signals == Escalating && run[i].control.coord != Complete
    ensures var n := run[i].control.received;
      && 2 <= n <= 3
      && (Enabled(run[i], ControlStep(Escalate)) <==> !Enabled(run[i], ExitStep(Forced(n, false))))
      && (retire ==> (Enabled(run[i], ControlStep(Escalate)) <==> n == 2))
  {
    hide Next, OneOwner, Ordered;
    RunInv(retire, run, i);
  }
}
