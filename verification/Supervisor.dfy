/** The generations a supervisor keeps track of: the active one, the retiring
    ones, and the count that numbers them.  */
module Generations {
  import opened Wrappers

  /** A serving process: `number` is its place in serving order, `pid` its
      position in spawn order. */
  datatype Generation = Generation(number: nat, pid: nat)

  datatype Roster = Roster(active: Option<Generation>, retiring: seq<Generation>, generations: nat)

  const NoGenerations := Roster(None, [], 0)

  function ActiveList(r: Roster): seq<Generation> {
    if r.active.Some? then [r.active.value] else []
  }

  function All(r: Roster): seq<Generation> {
    ActiveList(r) + r.retiring
  }

  function Pids(q: seq<Generation>): (pids: seq<nat>)
    ensures |pids| == |q|
    ensures forall i :: 0 <= i < |q| ==> pids[i] == q[i].pid
  {
    seq(|q|, i requires 0 <= i < |q| => q[i].pid)
  }

  /** `Vec::swap_remove`. */
  function SwapRemove<T>(q: seq<T>, i: nat): seq<T>
    requires i < |q|
  {
    q[i := q[|q| - 1]][..|q| - 1]
  }

  function Promoted(r: Roster, pid: nat): Roster {
    r.(active := Some(Generation(r.generations, pid)), generations := r.generations + 1)
  }

  function ActiveGone(r: Roster): Roster {
    r.(active := None)
  }

  function ActiveRetired(r: Roster): Roster
    requires r.active.Some?
  {
    r.(active := None, retiring := r.retiring + [r.active.value])
  }

  function Reaped(r: Roster, i: nat): Roster
    requires i < |r.retiring|
  {
    r.(retiring := SwapRemove(r.retiring, i))
  }

  function Running(q: seq<Generation>, alive: set<nat>): seq<Generation> {
    if q == [] then []
    else if q[0].pid in alive then [q[0]] + Running(q[1..], alive)
    else Running(q[1..], alive)
  }

  lemma {:induction false} RunningAppend(q: seq<Generation>, g: Generation, alive: set<nat>)
    ensures Running(q + [g], alive) == Running(q, alive) + (if g.pid in alive then [g] else [])
  {
    if q == [] {
      assert Running([g], alive) == if g.pid in alive then [g] else [];
    } else {
      RunningAppend(q[1..], g, alive);
      assert (q + [g])[1..] == q[1..] + [g];
    }
  }

  /** Numbers are distinct, below the count, and newest on the active one. */
  ghost predicate Numbered(r: Roster) {
    && (r.active.Some? ==> r.active.value.number < r.generations)
    && (forall i :: 0 <= i < |r.retiring| ==> r.retiring[i].number < r.generations)
    && (forall i, j :: 0 <= i < j < |r.retiring| ==> r.retiring[i].number != r.retiring[j].number)
    && (r.active.Some? ==> forall i :: 0 <= i < |r.retiring| ==> r.retiring[i].number < r.active.value.number)
  }

  lemma PromotedNumbered(r: Roster, pid: nat)
    requires Numbered(r)
    ensures Numbered(Promoted(r, pid))
  {
  }

  lemma RetiredNumbered(r: Roster)
    requires Numbered(r) && r.active.Some?
    ensures Numbered(ActiveRetired(r))
  {
  }

  lemma ReapedNumbered(r: Roster, i: nat)
    requires Numbered(r) && i < |r.retiring|
    ensures Numbered(Reaped(r, i))
  {
  }

  // ------------------------------------------------------------- what still runs

  lemma {:induction false} RunningCount(q: seq<Generation>, alive: set<nat>, g: Generation)
    ensures multiset(Running(q, alive))[g] == if g.pid in alive then multiset(q)[g] else 0
  {
    if q != [] {
      RunningCount(q[1..], alive, g);
      assert q == [q[0]] + q[1..];
    }
  }

  lemma SwapRemoveBag<T>(q: seq<T>, i: nat)
    requires i < |q|
    ensures multiset(SwapRemove(q, i)) == multiset(q) - multiset{q[i]}
  {
    var last := |q| - 1;
    assert q == q[..last] + [q[last]];
    if i < last {
      assert q[..last] == q[..i] + [q[i]] + q[i + 1..last];
      assert SwapRemove(q, i) == q[..i] + [q[last]] + q[i + 1..last];
    } else {
      assert SwapRemove(q, i) == q[..last];
    }
  }

  /** The running generations the roster holds. */
  ghost function StillRunning(r: Roster, alive: set<nat>): multiset<Generation> {
    multiset(Running(All(r), alive))
  }

  /** Rosters that hold the same generations, apart from some that ended. */
  lemma SameRunning(r: Roster, r': Roster, alive: set<nat>)
    requires forall g: Generation :: g.pid in alive ==> multiset(All(r'))[g] == multiset(All(r))[g]
    ensures StillRunning(r', alive) == StillRunning(r, alive)
  {
    forall g
      ensures StillRunning(r', alive)[g] == StillRunning(r, alive)[g]
    {
      RunningCount(All(r), alive, g);
      RunningCount(All(r'), alive, g);
    }
  }

  lemma GoneKeepsRunning(r: Roster, alive: set<nat>)
    requires r.active.Some? ==> r.active.value.pid !in alive
    ensures StillRunning(ActiveGone(r), alive) == StillRunning(r, alive)
  {
    SameRunning(r, ActiveGone(r), alive);
  }

  lemma RetiredKeepsRunning(r: Roster, alive: set<nat>)
    requires r.active.Some?
    ensures StillRunning(ActiveRetired(r), alive) == StillRunning(r, alive)
  {
    SameRunning(r, ActiveRetired(r), alive);
  }

  lemma ReapedKeepsRunning(r: Roster, i: nat, alive: set<nat>)
    requires i < |r.retiring| && r.retiring[i].pid !in alive
    ensures StillRunning(Reaped(r, i), alive) == StillRunning(r, alive)
  {
    SwapRemoveBag(r.retiring, i);
    SameRunning(r, Reaped(r, i), alive);
  }

  // ------------------------------------------------------------------- the object

  /** The supervisor's own fields, changed by the parts of its methods that
      run between two awaits. What the operating system reports about the
      children comes in as `alive`, the pids that still run. */
  class Supervisor {
    var active: Option<Generation>
    var retiring: seq<Generation>
    var generations: nat

    ghost function Fields(): Roster
      reads this
    {
      Roster(active, retiring, generations)
    }

    ghost predicate Valid()
      reads this
    {
      Numbered(Fields())
    }

    constructor ()
      ensures Valid() && Fields() == NoGenerations
    {
      active := None;
      retiring := [];
      generations := 0;
    }

    /** The candidate serves: it becomes the active generation, newer than every
        generation the supervisor holds. */
    method Promote(pid: nat) returns (number: nat)
      requires Valid()
      modifies this
      ensures Valid() && Fields() == Promoted(old(Fields()), pid)
      ensures active == Some(Generation(number, pid))
      ensures forall i :: 0 <= i < |old(All(Fields()))| ==> old(All(Fields()))[i].number < number
    {
      number := generations;
      generations := generations + 1;
      active := Some(Generation(number, pid));
    }

    /** The start of `retire`: take the active generation; when it still runs
        it is to be terminated and moves to `retiring`. Nothing that runs is
        lost. */
    method BeginRetire(alive: set<nat>) returns (terminate: Option<nat>)
      requires Valid()
      modifies this
      ensures Valid() && active == None && StillRunning(Fields(), alive) == old(StillRunning(Fields(), alive))
      ensures old(active).None? ==> Fields() == old(Fields()) && terminate == None
      ensures old(active).Some? && old(active).value.pid !in alive ==>
                Fields() == ActiveGone(old(Fields())) && terminate == None
      ensures old(active).Some? && old(active).value.pid in alive ==>
                Fields() == ActiveRetired(old(Fields())) && terminate == Some(old(active).value.pid)
    {
      terminate := None;
      if active.Some? {
        var generation := active.value;
        active := None;
        if generation.pid in alive {
          RetiredKeepsRunning(old(Fields()), alive);
          terminate := Some(generation.pid);
          retiring := retiring + [generation];
        } else {
          GoneKeepsRunning(old(Fields()), alive);
        }
      }
    }

    /** The active generation was seen to exit. Nothing that runs is lost. */
    method ReportExit(ghost alive: set<nat>)
      requires Valid() && active.Some? && active.value.pid !in alive
      modifies this`active
      ensures Valid() && StillRunning(Fields(), alive) == old(StillRunning(Fields(), alive))
      ensures Fields() == ActiveGone(old(Fields()))
    {
      GoneKeepsRunning(Fields(), alive);
      active := None;
    }

    /** A retiring generation was seen to exit. It leaves, and nothing that runs
        is lost. */
    method Reap(index: nat, ghost alive: set<nat>) returns (generation: Generation)
      requires Valid() && index < |retiring| && retiring[index].pid !in alive
      modifies this`retiring
      ensures Valid() && StillRunning(Fields(), alive) == old(StillRunning(Fields(), alive))
      ensures generation == old(retiring)[index]
      ensures multiset(retiring) == old(multiset(retiring)) - multiset{generation}
      ensures Fields() == Reaped(old(Fields()), index)
    {
      ReapedKeepsRunning(Fields(), index, alive);
      SwapRemoveBag(retiring, index);
      ReapedNumbered(Fields(), index);
      generation := retiring[index];
      retiring := retiring[index := retiring[|retiring| - 1]][..|retiring| - 1];
    }

    /** The start of `stop`: empty the fields and keep what still runs. */
    method BeginStop(alive: set<nat>) returns (live: seq<Generation>)
      requires Valid()
      modifies this
      ensures Valid() && live == Running(old(All(Fields())), alive)
      ensures active == None && retiring == [] && generations == old(generations)
    {
      var all := (if active.Some? then [active.value] else []) + retiring;
      active := None;
      retiring := [];
      live := [];
      for i := 0 to |all|
        invariant live == Running(all[..i], alive)
        invariant active == None && retiring == [] && generations == old(generations)
      {
        RunningAppend(all[..i], all[i], alive);
        assert all[..i + 1] == all[..i] + [all[i]];
        if all[i].pid in alive {
          live := live + [all[i]];
        }
      }
      assert all[..|all|] == all;
    }
  }
}
