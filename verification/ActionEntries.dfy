/** Class-form assets: the action attributes of a class and its bases, where a
    more derived class overrides an attribute of a base.  */
module ActionEntries {
  import opened Wrappers

  /** An attribute of a class body: a function marked as an action (an empty
      name stands for none), a ready-made action object, or anything else. */
  datatype Value =
    | Marker(name: string, isClassMethod: bool, meta: int)
    | Ready(id: int, name: string)
    | Plain

  /** The items of a class body's dictionary. */
  type Namespace = s: seq<(string, Value)> | forall i, j :: 0 <= i < j < |s| ==> s[i].0 != s[j].0

  datatype Item = ActionItem(id: int, verb: string) | OtherItem

  /** The value of an `actions` attribute. */
  datatype Listing = NoneListing | NotIterable | Items(items: seq<Item>)

  datatype Class = Class(body: Namespace, actions: Option<Listing>)

  /** The classes looked up in turn, the most derived first. */
  type Mro = seq<Class>

  type ActionValue = v: Value | !v.Plain? witness Ready(0, "")

  datatype Entry = Entry(attr: string, verb: string, depth: nat, value: ActionValue)

  datatype Error =
    | NotClassMethod(attr: string)
    | ShadowsAction(attr: string)
    | ActionsNotIterable
    | ActionsHoldOther
    | DeclaredTwice(attr: string, verb: string)

  function VerbOf(attr: string, value: Value): string
    requires !value.Plain?
  {
    if value.Marker? && value.name == "" then attr else value.name
  }

  predicate Dunder(attr: string) {
    "__" <= attr
  }

  // ------------------------------------------------------------ declarations

  /** The class at the depth binds the attribute. */
  ghost predicate Binds(mro: Mro, depth: nat, attr: string, value: Value) {
    depth < |mro| && (attr, value) in mro[depth].body
  }

  ghost predicate Declares(mro: Mro, depth: nat, attr: string, value: Value) {
    Binds(mro, depth, attr, value) && !value.Plain?
  }

  /** Declared as an action here and in no more derived class. */
  ghost predicate Survives(mro: Mro, depth: nat, attr: string, value: Value) {
    && Declares(mro, depth, attr, value)
    && (forall d, v :: Declares(mro, d, attr, v) ==> depth <= d)
  }

  ghost predicate MarkersAreClassMethods(mro: Mro) {
    forall d, attr, v :: Declares(mro, d, attr, v) && v.Marker? ==> v.isClassMethod
  }

  /** No inherited action is hidden behind an ordinary attribute. */
  ghost predicate NothingShadowed(mro: Mro) {
    forall d, attr, base, v ::
      Binds(mro, d, attr, Plain) && !("__" <= attr) && Declares(mro, base, attr, v) ==> base <= d
  }

  /** What an error about an attribute stands for. */
  ghost predicate Misdeclared(mro: Mro, e: Error) {
    match e
    case NotClassMethod(attr) => exists d, v :: Declares(mro, d, attr, v) && v.Marker? && !v.isClassMethod
    case ShadowsAction(attr) =>
      && !("__" <= attr)
      && exists d, base, v :: d < base && Binds(mro, d, attr, Plain) && Declares(mro, base, attr, v)
    case _ => false
  }

  // ------------------------------------------------------------------- loops

  /** Bound in a base below `depth`, or among the first `k` attributes there. */
  ghost predicate Visited(mro: Mro, depth: nat, k: nat, d: nat, attr: string, v: Value)
    requires depth < |mro| && k <= |mro[depth].body|
  {
    Binds(mro, d, attr, v) && (d > depth || (d == depth && (attr, v) in mro[depth].body[..k]))
  }

  ghost predicate HasEntry(entries: seq<Entry>, attr: string, depth: nat) {
    exists i :: 0 <= i < |entries| && entries[i].attr == attr && entries[i].depth <= depth
  }

  ghost predicate DistinctAttrs(entries: seq<Entry>) {
    forall i, j :: 0 <= i < j < |entries| ==> entries[i].attr != entries[j].attr
  }

  /** The entries stand for what was visited. */
  ghost predicate Collected(mro: Mro, depth: nat, k: nat, entries: seq<Entry>)
    requires depth < |mro| && k <= |mro[depth].body|
  {
    && DistinctAttrs(entries)
    && (forall i :: 0 <= i < |entries| ==>
          && Visited(mro, depth, k, entries[i].depth, entries[i].attr, entries[i].value)
          && entries[i].verb == VerbOf(entries[i].attr, entries[i].value))
    && (forall d, attr, v :: Visited(mro, depth, k, d, attr, v) && !v.Plain? ==> HasEntry(entries, attr, d))
  }

  /** A visited plain attribute hides a visited action of a base. */
  ghost predicate Hides(mro: Mro, depth: nat, k: nat, d: nat, attr: string, base: nat, v: Value)
    requires depth < |mro| && k <= |mro[depth].body|
  {
    && Visited(mro, depth, k, d, attr, Plain) && !Dunder(attr)
    && Visited(mro, depth, k, base, attr, v) && !v.Plain? && d < base
  }

  /** No error among what was visited. */
  ghost predicate Sound(mro: Mro, depth: nat, k: nat)
    requires depth < |mro| && k <= |mro[depth].body|
  {
    && (forall d, attr, v :: Visited(mro, depth, k, d, attr, v) && v.Marker? ==> v.isClassMethod)
    && (forall d, attr, base, v :: !Hides(mro, depth, k, d, attr, base, v))
  }

  function EntryOf(item: (string, Value), depth: nat): Entry
    requires !item.1.Plain?
  {
    Entry(item.0, VerbOf(item.0, item.1), depth, item.1)
  }

  /** Where the attribute has its entry, if it has one. */
  ghost predicate Located(entries: seq<Entry>, attr: string, slot: Option<nat>) {
    match slot
    case Some(i) => i < |entries| && entries[i].attr == attr
    case None => forall i :: 0 <= i < |entries| ==> entries[i].attr != attr
  }

  function PutAt(entries: seq<Entry>, slot: Option<nat>, added: Entry): seq<Entry>
    requires slot.Some? ==> slot.value < |entries|
  {
    if slot.Some? then entries[slot.value := added] else entries + [added]
  }

  method Locate(entries: seq<Entry>, attr: string) returns (slot: Option<nat>)
    ensures Located(entries, attr, slot)
  {
    for i := 0 to |entries|
      invariant forall j :: 0 <= j < i ==> entries[j].attr != attr
    {
      if entries[i].attr == attr {
        return Some(i);
      }
    }
    slot := None;
  }

  /** Visiting one more attribute of the class at `depth`. */
  lemma VisitOneMore(mro: Mro, depth: nat, k: nat, d: nat, attr: string, v: Value)
    requires depth < |mro| && k < |mro[depth].body|
    ensures Visited(mro, depth, k + 1, d, attr, v) <==>
      Visited(mro, depth, k, d, attr, v) || (d == depth && (attr, v) == mro[depth].body[k])
  {
    var body := mro[depth].body;
    assert body[..k + 1] == body[..k] + [body[k]];
  }

  /** The attribute at hand was not visited in this class before. */
  lemma NotYetHere(mro: Mro, depth: nat, k: nat, v: Value)
    requires depth < |mro| && k < |mro[depth].body|
    ensures !Visited(mro, depth, k, depth, mro[depth].body[k].0, v)
  {
  }

  /** A plain attribute leaves the entries alone. */
  lemma PlainVisited(mro: Mro, depth: nat, k: nat, entries: seq<Entry>)
    requires depth < |mro| && k < |mro[depth].body| && mro[depth].body[k].1.Plain?
    requires Collected(mro, depth, k, entries)
    ensures Collected(mro, depth, k + 1, entries)
  {
    var next := k + 1;
    forall d, attr, v: Value | !v.Plain?
      ensures Visited(mro, depth, next, d, attr, v) <==> Visited(mro, depth, k, d, attr, v)
    {
      VisitOneMore(mro, depth, k, d, attr, v);
    }
  }

  lemma PutKeepsDistinct(entries: seq<Entry>, slot: Option<nat>, added: Entry)
    requires DistinctAttrs(entries) && Located(entries, added.attr, slot)
    ensures DistinctAttrs(PutAt(entries, slot, added))
  {
  }

  lemma PutKeepsEntries(entries: seq<Entry>, slot: Option<nat>, added: Entry, attr: string, depth: nat)
    requires Located(entries, added.attr, slot)
    requires if attr == added.attr then added.depth <= depth else HasEntry(entries, attr, depth)
    ensures HasEntry(PutAt(entries, slot, added), attr, depth)
  {
    var entries' := PutAt(entries, slot, added);
    if attr == added.attr {
      var place := if slot.Some? then slot.value else |entries|;
      assert entries'[place] == added;
    } else {
      var i :| 0 <= i < |entries| && entries[i].attr == attr && entries[i].depth <= depth;
      assert entries'[i] == entries[i];
    }
  }

  /** An action attribute takes over the slot of its name, or a new one. */
  lemma ActionVisited(mro: Mro, depth: nat, k: nat, entries: seq<Entry>, slot: Option<nat>)
    requires depth < |mro| && k < |mro[depth].body| && !mro[depth].body[k].1.Plain?
    requires Collected(mro, depth, k, entries) && Located(entries, mro[depth].body[k].0, slot)
    ensures Collected(mro, depth, k + 1, PutAt(entries, slot, EntryOf(mro[depth].body[k], depth)))
  {
    hide HasEntry, DistinctAttrs;
    var next := k + 1;
    var added := EntryOf(mro[depth].body[k], depth);
    var entries' := PutAt(entries, slot, added);
    PutKeepsDistinct(entries, slot, added);
    forall i | 0 <= i < |entries'|
      ensures Visited(mro, depth, next, entries'[i].depth, entries'[i].attr, entries'[i].value)
    {
      VisitOneMore(mro, depth, k, entries'[i].depth, entries'[i].attr, entries'[i].value);
    }
    forall d, attr, v | Visited(mro, depth, next, d, attr, v) && !v.Plain?
      ensures HasEntry(entries', attr, d)
    {
      VisitOneMore(mro, depth, k, d, attr, v);
      PutKeepsEntries(entries, slot, added, attr, d);
    }
  }

  /** A plain attribute is in order unless it hides an entry. */
  lemma PlainSound(mro: Mro, depth: nat, k: nat, entries: seq<Entry>, slot: Option<nat>)
    requires depth < |mro| && k < |mro[depth].body| && mro[depth].body[k].1.Plain?
    requires Collected(mro, depth, k, entries) && Sound(mro, depth, k)
    requires Located(entries, mro[depth].body[k].0, slot)
    ensures Sound(mro, depth, k + 1) <==> slot.None? || Dunder(mro[depth].body[k].0)
  {
    var next := k + 1;
    var attr := mro[depth].body[k].0;
    forall d, a, v
      ensures Visited(mro, depth, next, d, a, v) <==>
        Visited(mro, depth, k, d, a, v) || (d == depth && (a, v) == (attr, Plain))
    {
      VisitOneMore(mro, depth, k, d, a, v);
    }
    if slot.Some? {
      var e := entries[slot.value];
      NotYetHere(mro, depth, k, e.value);
      assert Visited(mro, depth, next, depth, attr, Plain);
      assert !Dunder(attr) ==> Hides(mro, depth, next, depth, attr, e.depth, e.value);
    }
    forall d, a, base, v | Hides(mro, depth, next, d, a, base, v)
      ensures a == attr && HasEntry(entries, attr, base)
    {
      assert !Hides(mro, depth, k, d, a, base, v);
      assert Visited(mro, depth, k, base, a, v);
    }
  }

  /** An action attribute is in order when a marked one is a classmethod. */
  lemma ActionSound(mro: Mro, depth: nat, k: nat)
    requires depth < |mro| && k < |mro[depth].body| && !mro[depth].body[k].1.Plain?
    requires Sound(mro, depth, k)
    ensures Sound(mro, depth, k + 1) <==> (mro[depth].body[k].1.Marker? ==> mro[depth].body[k].1.isClassMethod)
  {
    var next := k + 1;
    var item := mro[depth].body[k];
    forall d, a, v
      ensures Visited(mro, depth, next, d, a, v) <==>
        Visited(mro, depth, k, d, a, v) || (d == depth && (a, v) == item)
    {
      VisitOneMore(mro, depth, k, d, a, v);
    }
    assert Visited(mro, depth, next, depth, item.0, item.1);
    forall d, a, base, v
      ensures !Hides(mro, depth, next, d, a, base, v)
    {
      assert !Hides(mro, depth, k, d, a, base, v);
    }
  }

  ghost predicate WellFormed(mro: Mro) {
    MarkersAreClassMethods(mro) && NothingShadowed(mro)
  }

  lemma PartSound(mro: Mro, depth: nat, k: nat)
    requires depth < |mro| && k <= |mro[depth].body| && WellFormed(mro)
    ensures Sound(mro, depth, k)
  {
    forall d, attr, v | Visited(mro, depth, k, d, attr, v) && !v.Plain?
      ensures Declares(mro, d, attr, v)
    {
    }
  }

  /** An attribute that declares an action, by its class and its place there. */
  ghost predicate DeclaredIn(mro: Mro, d: nat, k: nat, attr: string) {
    d < |mro| && k < |mro[d].body| && mro[d].body[k].0 == attr && !mro[d].body[k].1.Plain?
  }

  /** Where the attribute was first declared: no further base declares it. */
  ghost predicate FirstDeclared(mro: Mro, at: (nat, nat), attr: string) {
    DeclaredIn(mro, at.0, at.1, attr) && forall d: nat, v :: Declares(mro, d, attr, v) ==> d <= at.0
  }

  /** Visited before: further down the bases, or earlier in the same class. */
  ghost predicate Earlier(a: (nat, nat), b: (nat, nat)) {
    a.0 > b.0 || (a.0 == b.0 && a.1 < b.1)
  }

  /** The entries are in the order in which their attributes were first declared. */
  ghost predicate InOrder(mro: Mro, entries: seq<Entry>, first: seq<(nat, nat)>) {
    && |first| == |entries|
    && (forall i :: 0 <= i < |first| ==> FirstDeclared(mro, first[i], entries[i].attr))
    && (forall i, j :: 0 <= i < j < |first| ==> Earlier(first[i], first[j]))
  }

  /** They were all first declared before this place. */
  ghost predicate OrderedSoFar(mro: Mro, depth: nat, k: nat, entries: seq<Entry>, first: seq<(nat, nat)>) {
    InOrder(mro, entries, first) && forall i :: 0 <= i < |first| ==> Earlier(first[i], (depth, k))
  }

  /** An attribute without an entry is declared here for the first time. */
  lemma DeclaredHereFirst(mro: Mro, depth: nat, k: nat, entries: seq<Entry>)
    requires depth < |mro| && k < |mro[depth].body| && !mro[depth].body[k].1.Plain?
    requires Collected(mro, depth, k, entries) && Located(entries, mro[depth].body[k].0, None)
    ensures FirstDeclared(mro, (depth, k), mro[depth].body[k].0)
  {
    var attr := mro[depth].body[k].0;
    forall d: nat, v | Declares(mro, d, attr, v)
      ensures d <= depth
    {
      assert d > depth ==> Visited(mro, depth, k, d, attr, v);
      assert !HasEntry(entries, attr, d);
    }
  }

  /** A taken slot keeps its place, and a new one comes last. */
  lemma PutKeepsOrder(mro: Mro, depth: nat, k: nat, entries: seq<Entry>, slot: Option<nat>, first: seq<(nat, nat)>)
    requires depth < |mro| && k < |mro[depth].body| && !mro[depth].body[k].1.Plain?
    requires Collected(mro, depth, k, entries) && Located(entries, mro[depth].body[k].0, slot)
    requires OrderedSoFar(mro, depth, k, entries, first)
    ensures OrderedSoFar(mro, depth, k + 1, PutAt(entries, slot, EntryOf(mro[depth].body[k], depth)),
                         if slot.Some? then first else first + [(depth, k)])
  {
    hide FirstDeclared, Collected;
    if slot.None? {
      DeclaredHereFirst(mro, depth, k, entries);
    }
  }

  /** The attributes of one class, on top of those of its bases. */
  method CollectClass(mro: Mro, depth: nat, before: seq<Entry>, ghost firstBefore: seq<(nat, nat)>)
    returns (r: Result<seq<Entry>, Error>, ghost first: seq<(nat, nat)>)
    requires depth < |mro| && Collected(mro, depth, 0, before) && Sound(mro, depth, 0)
    requires OrderedSoFar(mro, depth, 0, before, firstBefore)
    ensures r.Success? ==> Collected(mro, depth, |mro[depth].body|, r.value) && Sound(mro, depth, |mro[depth].body|)
    ensures r.Success? ==> OrderedSoFar(mro, depth, |mro[depth].body|, r.value, first)
    ensures r.Failure? ==> !WellFormed(mro) && Misdeclared(mro, r.error)
  {
    hide Collected, Sound, Located, WellFormed, Dunder, Misdeclared, OrderedSoFar;
    var body := mro[depth].body;
    var entries := before;
    first := firstBefore;
    for k := 0 to |body|
      invariant Collected(mro, depth, k, entries) && Sound(mro, depth, k)
      invariant OrderedSoFar(mro, depth, k, entries, first)
    {
      var attr, value := body[k].0, body[k].1;
      var slot := Locate(entries, attr);
      if value.Plain? {
        PlainSound(mro, depth, k, entries, slot);
        PlainVisited(mro, depth, k, entries);
        PlainKeepsOrder(mro, depth, k, entries, first);
        if slot.Some? && !Dunder(attr) {
          if WellFormed(mro) { PartSound(mro, depth, k + 1); }
          Shadowed(mro, depth, k, entries, slot);
          return Failure(ShadowsAction(attr)), first;
        }
      } else {
        ActionSound(mro, depth, k);
        if value.Marker? && !value.isClassMethod {
          if WellFormed(mro) { PartSound(mro, depth, k + 1); }
          NoClassMethod(mro, depth, k);
          return Failure(NotClassMethod(attr)), first;
        }
        ActionVisited(mro, depth, k, entries, slot);
        LocatedInRange(entries, attr, slot);
        PutKeepsOrder(mro, depth, k, entries, slot, first);
        entries := PutAt(entries, slot, EntryOf(body[k], depth));
        first := if slot.Some? then first else first + [(depth, k)];
      }
    }
    r := Success(entries);
  }

  lemma PlainKeepsOrder(mro: Mro, depth: nat, k: nat, entries: seq<Entry>, first: seq<(nat, nat)>)
    requires OrderedSoFar(mro, depth, k, entries, first)
    ensures OrderedSoFar(mro, depth, k + 1, entries, first)
  {
  }

  lemma Shadowed(mro: Mro, depth: nat, k: nat, entries: seq<Entry>, slot: Option<nat>)
    requires depth < |mro| && k < |mro[depth].body| && mro[depth].body[k].1.Plain? && !Dunder(mro[depth].body[k].0)
    requires Collected(mro, depth, k, entries) && Located(entries, mro[depth].body[k].0, slot) && slot.Some?
    ensures Misdeclared(mro, ShadowsAction(mro[depth].body[k].0))
  {
    var attr, e := mro[depth].body[k].0, entries[slot.value];
    NotYetHere(mro, depth, k, e.value);
    assert (attr, Plain) == mro[depth].body[k];
    assert Binds(mro, depth, attr, Plain) && Declares(mro, e.depth, attr, e.value);
  }

  lemma NoClassMethod(mro: Mro, depth: nat, k: nat)
    requires depth < |mro| && k < |mro[depth].body|
    requires mro[depth].body[k].1.Marker? && !mro[depth].body[k].1.isClassMethod
    ensures Misdeclared(mro, NotClassMethod(mro[depth].body[k].0))
  {
    var attr, v := mro[depth].body[k].0, mro[depth].body[k].1;
    assert (attr, v) == mro[depth].body[k];
    assert Declares(mro, depth, attr, v);
  }

  lemma LocatedInRange(entries: seq<Entry>, attr: string, slot: Option<nat>)
    requires Located(entries, attr, slot)
    ensures slot.Some? ==> slot.value < |entries|
  {
  }

  lemma FirstClass(mro: Mro)
    requires mro != []
    ensures Collected(mro, |mro| - 1, 0, []) && Sound(mro, |mro| - 1, 0)
  {
  }

  lemma NextClass(mro: Mro, depth: nat, entries: seq<Entry>)
    requires 0 < depth < |mro|
    requires Collected(mro, depth, |mro[depth].body|, entries) && Sound(mro, depth, |mro[depth].body|)
    ensures Collected(mro, depth - 1, 0, entries) && Sound(mro, depth - 1, 0)
  {
    var up := depth - 1;
    var n := |mro[depth].body|;
    assert mro[depth].body[..n] == mro[depth].body;
    forall d, attr, v
      ensures Visited(mro, depth, n, d, attr, v) <==> Visited(mro, up, 0, d, attr, v)
    {
    }
    forall d, attr, base, v
      ensures !Hides(mro, up, 0, d, attr, base, v)
    {
      assert !Hides(mro, depth, n, d, attr, base, v);
    }
  }

  // ------------------------------------------------------- what is collected

  /** Exactly the surviving declarations, one entry for an attribute. */
  ghost predicate EntriesOf(mro: Mro, entries: seq<Entry>) {
    && DistinctAttrs(entries)
    && (forall i :: 0 <= i < |entries| ==>
          && Survives(mro, entries[i].depth, entries[i].attr, entries[i].value)
          && IsVerb(entries[i].attr, entries[i].value, entries[i].verb))
    && (forall d, attr, v :: Survives(mro, d, attr, v) ==> HasEntryFor(entries, d, attr, v))
  }

  /** An action is called by its own name, a marked function without one by that
      of its attribute. */
  ghost predicate IsVerb(attr: string, value: ActionValue, verb: string) {
    match value
    case Marker(name, _, _) => verb == if name == "" then attr else name
    case Ready(_, name) => verb == name
  }

  ghost predicate HasEntryFor(entries: seq<Entry>, depth: nat, attr: string, value: Value) {
    exists i ::
      0 <= i < |entries| && entries[i].depth == depth && entries[i].attr == attr && entries[i].value == value
  }

  lemma SameAttrSameEntry(entries: seq<Entry>, i: nat, attr: string, depth: nat)
    requires DistinctAttrs(entries) && i < |entries| && entries[i].attr == attr && HasEntry(entries, attr, depth)
    ensures entries[i].depth <= depth
  {
  }

  lemma SameBinding(mro: Mro, depth: nat, attr: string, v: Value, w: Value)
    requires Binds(mro, depth, attr, v) && Binds(mro, depth, attr, w)
    ensures v == w
  {
  }

  lemma VisitedIsBound(mro: Mro, d: nat, attr: string, v: Value)
    requires mro != []
    ensures Visited(mro, 0, |mro[0].body|, d, attr, v) <==> Binds(mro, d, attr, v)
  {
    assert mro[0].body[..|mro[0].body|] == mro[0].body;
  }

  lemma SoundIsWellFormed(mro: Mro)
    requires mro != [] && Sound(mro, 0, |mro[0].body|)
    ensures WellFormed(mro)
  {
    hide Visited;
    var n := |mro[0].body|;
    forall d, attr, v | Declares(mro, d, attr, v)
      ensures Visited(mro, 0, n, d, attr, v)
    {
      VisitedIsBound(mro, d, attr, v);
    }
    forall d, attr, base, v | Binds(mro, d, attr, Plain) && !Dunder(attr) && Declares(mro, base, attr, v)
      ensures base <= d
    {
      VisitedIsBound(mro, d, attr, Plain);
      assert !Hides(mro, 0, n, d, attr, base, v);
    }
  }

  lemma CollectedSurvives(mro: Mro, entries: seq<Entry>, i: nat)
    requires mro != [] && Collected(mro, 0, |mro[0].body|, entries) && i < |entries|
    ensures Survives(mro, entries[i].depth, entries[i].attr, entries[i].value)
  {
    hide Visited, HasEntry, DistinctAttrs;
    VisitedIsBound(mro, entries[i].depth, entries[i].attr, entries[i].value);
    forall d: nat, v | Declares(mro, d, entries[i].attr, v)
      ensures entries[i].depth <= d
    {
      VisitedIsBound(mro, d, entries[i].attr, v);
      SameAttrSameEntry(entries, i, entries[i].attr, d);
    }
  }

  lemma SurvivorCollected(mro: Mro, entries: seq<Entry>, d: nat, attr: string, v: Value)
    requires mro != [] && Collected(mro, 0, |mro[0].body|, entries) && Survives(mro, d, attr, v)
    ensures HasEntryFor(entries, d, attr, v)
  {
    hide Visited, DistinctAttrs;
    VisitedIsBound(mro, d, attr, v);
    assert HasEntry(entries, attr, d);
    var i :| 0 <= i < |entries| && entries[i].attr == attr && entries[i].depth <= d;
    VisitedIsBound(mro, entries[i].depth, attr, entries[i].value);
    assert Declares(mro, entries[i].depth, attr, entries[i].value);
    SameBinding(mro, d, attr, v, entries[i].value);
  }

  lemma AllVisited(mro: Mro, entries: seq<Entry>)
    requires mro != [] && Collected(mro, 0, |mro[0].body|, entries) && Sound(mro, 0, |mro[0].body|)
    ensures WellFormed(mro)
    ensures EntriesOf(mro, entries)
  {
    hide Visited, WellFormed, Survives, Sound;
    SoundIsWellFormed(mro);
    forall i | 0 <= i < |entries|
      ensures Survives(mro, entries[i].depth, entries[i].attr, entries[i].value)
    {
      CollectedSurvives(mro, entries, i);
    }
    forall d: nat, attr, v | Survives(mro, d, attr, v)
      ensures HasEntryFor(entries, d, attr, v)
    {
      SurvivorCollected(mro, entries, d, attr, v);
    }
  }

  lemma OrderFromNext(mro: Mro, depth: nat, k: nat, entries: seq<Entry>, first: seq<(nat, nat)>)
    requires depth > 0 && OrderedSoFar(mro, depth, k, entries, first)
    ensures OrderedSoFar(mro, depth - 1, 0, entries, first)
  {
  }

  lemma OrderOfNone(mro: Mro, depth: nat)
    ensures InOrder(mro, [], []) && OrderedSoFar(mro, depth, 0, [], [])
  {
  }

  lemma NoClasses()
    ensures WellFormed([]) && EntriesOf([], []) && InOrder([], [], [])
  {
  }

  lemma OrderedAtEnd(mro: Mro, depth: nat, k: nat, entries: seq<Entry>, first: seq<(nat, nat)>)
    requires OrderedSoFar(mro, depth, k, entries, first)
    ensures InOrder(mro, entries, first)
  {
  }

  /** The walk from the bases up to the class collects the surviving action
      attributes, in the order of their first declarations, and fails exactly
      for a badly formed class. */
  method CollectEntries(mro: Mro) returns (r: Result<seq<Entry>, Error>, ghost first: seq<(nat, nat)>)
    ensures r.Success? <==> WellFormed(mro)
    ensures r.Success? ==> EntriesOf(mro, r.value) && InOrder(mro, r.value, first)
    ensures r.Failure? ==> Misdeclared(mro, r.error)
  {
    hide Collected, Sound, WellFormed, EntriesOf, OrderedSoFar, InOrder, Misdeclared;
    if mro == [] {
      NoClasses();
      return Success([]), [];
    }
    var entries := [];
    first := [];
    FirstClass(mro);
    var depth := |mro| - 1;
    OrderOfNone(mro, depth);
    while depth > 0
      invariant 0 <= depth < |mro| && Collected(mro, depth, 0, entries) && Sound(mro, depth, 0)
      invariant OrderedSoFar(mro, depth, 0, entries, first)
    {
      var next;
      next, first := CollectClass(mro, depth, entries, first);
      if next.Failure? {
        return next, first;
      }
      entries := next.value;
      NextClass(mro, depth, entries);
      OrderFromNext(mro, depth, |mro[depth].body|, entries, first);
      depth := depth - 1;
    }
    r, first := CollectClass(mro, 0, entries, first);
    if r.Success? {
      AllVisited(mro, r.value);
      OrderedAtEnd(mro, 0, |mro[0].body|, r.value, first);
    }
  }
}
