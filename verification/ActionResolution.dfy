/** Class-form assets: which actions an asset class ends up with, from its
    action attributes and the `actions` list of its most derived class that has
    one. A verb belongs to the most derived class declaring it.  */
module ActionResolution {
  import opened Wrappers
  import opened ActionEntries
  import opened ActionNearest

  // ------------------------------------------------------------------ the list

  /** The `actions` list in effect and the class it comes from. */
  ghost predicate InEffect(mro: Mro, depth: nat, listing: Option<Listing>) {
    match listing
    case Some(_) =>
      depth < |mro| && mro[depth].actions == listing && forall d :: 0 <= d < depth ==> mro[d].actions.None?
    case None => depth == 0 && forall d :: 0 <= d < |mro| ==> mro[d].actions.None?
  }

  method FindListing(mro: Mro) returns (depth: nat, listing: Option<Listing>)
    ensures InEffect(mro, depth, listing)
  {
    for d := 0 to |mro|
      invariant forall i :: 0 <= i < d ==> mro[i].actions.None?
    {
      if mro[d].actions.Some? {
        return d, mro[d].actions;
      }
    }
    depth, listing := 0, None;
  }

  /** An absent list and `actions = None` declare nothing. */
  function ItemsOf(listing: Option<Listing>): seq<Item> {
    match listing
    case Some(Items(items)) => items
    case _ => []
  }

  /** Absent, `None`, or a sequence of action objects. */
  ghost predicate Readable(listing: Option<Listing>) {
    listing.Some? ==> match listing.value
                      case NoneListing => true
                      case NotIterable => false
                      case Items(items) => forall i :: 0 <= i < |items| ==> items[i].ActionItem?
  }

  /** The items a readable list declares. */
  ghost predicate Lists(listing: Option<Listing>, items: seq<Item>) {
    if listing.Some? && listing.value.Items? then items == listing.value.items else items == []
  }

  method ReadListing(listing: Option<Listing>) returns (r: Result<seq<Item>, Error>)
    ensures r.Success? <==> Readable(listing)
    ensures r.Success? ==> Lists(listing, r.value)
    ensures r.Failure? ==>
      r.error == if listing == Some(NotIterable) then ActionsNotIterable else ActionsHoldOther
  {
    if listing == Some(NotIterable) {
      return Failure(ActionsNotIterable);
    }
    var items := ItemsOf(listing);
    var listed := [];
    for i := 0 to |items|
      invariant listed == items[..i] && forall j :: 0 <= j < i ==> items[j].ActionItem?
    {
      if items[i].OtherItem? {
        return Failure(ActionsHoldOther);
      }
      listed := listed + [items[i]];
    }
    r := Success(listed);
  }

  // ------------------------------------------------------------ building them

  /** An existing action object, or one made of a marked function, whose body
      is looked up on the class and found at some depth. */
  datatype Built =
    | Existing(id: int, verb: string)
    | Wrapped(attr: string, verb: string, meta: int, body: Option<nat>)

  /** The depth at which looking up the attribute on the class finds it. */
  function Lookup(mro: Mro, attr: string, depth: nat): Option<nat>
    requires depth <= |mro|
    decreases |mro| - depth
  {
    if depth == |mro| then None
    else if exists i :: 0 <= i < |mro[depth].body| && mro[depth].body[i].0 == attr then Some(depth)
    else Lookup(mro, attr, depth + 1)
  }

  function BuildEntry(mro: Mro, e: Entry): (r: Built)
    ensures r.verb == e.verb
  {
    match e.value
    case Marker(_, _, meta) => Wrapped(e.attr, e.verb, meta, Lookup(mro, e.attr, 0))
    case Ready(id, _) => Existing(id, e.verb)
  }

  function BuiltFromList(all: Declared, listed: Listed): seq<Built> {
    if listed == [] then []
    else
      (if ListWins(all, listed[0].verb) then [Existing(listed[0].id, listed[0].verb)] else [])
      + BuiltFromList(all, listed[1..])
  }

  function BuiltFromEntries(mro: Mro, all: Declared, entries: seq<Entry>): seq<Built> {
    if entries == [] then []
    else
      (if EntryWins(all, entries[0]) then [BuildEntry(mro, entries[0])] else [])
      + BuiltFromEntries(mro, all, entries[1..])
  }

  function BuiltFrom(mro: Mro, all: Declared): seq<Built> {
    BuiltFromList(all, all.listed) + BuiltFromEntries(mro, all, all.entries)
  }

  method BuildListed(all: Declared) returns (built: seq<Built>)
    ensures built == BuiltFromList(all, all.listed)
  {
    built := [];
    for i := 0 to |all.listed|
      invariant built + BuiltFromList(all, all.listed[i..]) == BuiltFromList(all, all.listed)
    {
      hide ListWins;
      var rest := all.listed[i..];
      assert rest[1..] == all.listed[i + 1..];
      if ListWins(all, all.listed[i].verb) {
        built := built + [Existing(all.listed[i].id, all.listed[i].verb)];
      }
    }
  }

  /** Looking up the attribute on the class finds it at this depth. */
  ghost predicate FoundAt(mro: Mro, attr: string, found: Option<nat>) {
    match found
    case Some(depth) =>
      && depth < |mro| && (exists v :: (attr, v) in mro[depth].body)
      && forall d, v :: 0 <= d < depth ==> (attr, v) !in mro[d].body
    case None => forall d, v :: 0 <= d < |mro| ==> (attr, v) !in mro[d].body
  }

  /** What an entry becomes: the object itself, or an action made of the marked
      function, with its settings and the body looked up under its name. */
  ghost predicate MadeOf(mro: Mro, e: Entry, b: Built) {
    match e.value
    case Marker(_, _, meta) =>
      b.Wrapped? && b.attr == e.attr && b.verb == e.verb && b.meta == meta && FoundAt(mro, e.attr, b.body)
    case Ready(id, _) => b == Existing(id, e.verb)
  }

  /** The items from place `n` on that are taken, in their order. */
  ghost predicate ListPart(all: Declared, n: nat, built: seq<Built>, from: seq<nat>) {
    && |from| == |built|
    && (forall k :: 0 <= k < |from| ==> n <= from[k] < |all.listed| && TakenFromList(all, all.listed[from[k]].verb))
    && (forall k :: 0 <= k < |from| ==> built[k] == Existing(all.listed[from[k]].id, all.listed[from[k]].verb))
    && (forall k, l :: 0 <= k < l < |from| ==> from[k] < from[l])
    && (forall i: nat :: n <= i < |all.listed| && TakenFromList(all, all.listed[i].verb) ==> i in from)
  }

  /** The entries from place `n` on that are taken, in their order. */
  ghost predicate EntryPart(mro: Mro, all: Declared, n: nat, built: seq<Built>, from: seq<nat>) {
    && |from| == |built|
    && (forall k :: 0 <= k < |from| ==> n <= from[k] < |all.entries| && TakenFromEntry(all, all.entries[from[k]]))
    && (forall k :: 0 <= k < |from| ==> MadeOf(mro, all.entries[from[k]], built[k]))
    && (forall k, l :: 0 <= k < l < |from| ==> from[k] < from[l])
    && (forall i: nat :: n <= i < |all.entries| && TakenFromEntry(all, all.entries[i]) ==> i in from)
  }

  lemma {:induction false} LookupMeaning(mro: Mro, attr: string, depth: nat)
    requires depth <= |mro| && forall d, v :: 0 <= d < depth ==> (attr, v) !in mro[d].body
    ensures FoundAt(mro, attr, Lookup(mro, attr, depth))
    decreases |mro| - depth
  {
    if depth < |mro| {
      if i :| 0 <= i < |mro[depth].body| && mro[depth].body[i].0 == attr {
        assert (attr, mro[depth].body[i].1) == mro[depth].body[i];
      } else {
        forall v
          ensures (attr, v) !in mro[depth].body
        {
          assert forall i :: 0 <= i < |mro[depth].body| && mro[depth].body[i] == (attr, v) ==>
            mro[depth].body[i].0 == attr;
        }
        LookupMeaning(mro, attr, depth + 1);
      }
    }
  }

  lemma BuildEntryMeaning(mro: Mro, e: Entry)
    ensures MadeOf(mro, e, BuildEntry(mro, e))
  {
    LookupMeaning(mro, e.attr, 0);
  }

  lemma {:induction false} ListPartMeaning(all: Declared, n: nat) returns (from: seq<nat>)
    requires n <= |all.listed|
    ensures ListPart(all, n, BuiltFromList(all, all.listed[n..]), from)
    decreases |all.listed| - n
  {
    hide ListWins, TakenFromList, FindListed, Nearest;
    if n == |all.listed| {
      from := [];
    } else {
      var next := n + 1;
      var later := ListPartMeaning(all, next);
      assert all.listed[n..][1..] == all.listed[next..];
      var rest := BuiltFromList(all, all.listed[next..]);
      ListWinsMeaning(all, all.listed[n].verb);
      if ListWins(all, all.listed[n].verb) {
        from := [n] + later;
        ListPartMore(all, n, rest, later);
      } else {
        assert [] + rest == rest;
        from := later;
      }
    }
  }

  lemma ListPartMore(all: Declared, n: nat, rest: seq<Built>, later: seq<nat>)
    requires n < |all.listed| && TakenFromList(all, all.listed[n].verb) && ListPart(all, n + 1, rest, later)
    ensures ListPart(all, n, [Existing(all.listed[n].id, all.listed[n].verb)] + rest, [n] + later)
  {
    hide TakenFromList;
    var from := [n] + later;
    assert from[0] == n;
    forall i: nat | n < i < |all.listed| && TakenFromList(all, all.listed[i].verb)
      ensures i in from
    {
      assert i in later;
    }
  }

  lemma {:induction false} EntryPartMeaning(mro: Mro, all: Declared, n: nat) returns (from: seq<nat>)
    requires n <= |all.entries|
    ensures EntryPart(mro, all, n, BuiltFromEntries(mro, all, all.entries[n..]), from)
    decreases |all.entries| - n
  {
    hide EntryWins, TakenFromEntry, MadeOf, BuildEntry;
    if n == |all.entries| {
      from := [];
    } else {
      var next := n + 1;
      var later := EntryPartMeaning(mro, all, next);
      assert all.entries[n..][1..] == all.entries[next..];
      var rest := BuiltFromEntries(mro, all, all.entries[next..]);
      EntryWinsMeaning(all, all.entries[n]);
      if EntryWins(all, all.entries[n]) {
        from := [n] + later;
        BuildEntryMeaning(mro, all.entries[n]);
        EntryPartMore(mro, all, n, BuildEntry(mro, all.entries[n]), rest, later);
      } else {
        assert [] + rest == rest;
        from := later;
      }
    }
  }

  lemma EntryPartMore(mro: Mro, all: Declared, n: nat, b: Built, rest: seq<Built>, later: seq<nat>)
    requires n < |all.entries| && TakenFromEntry(all, all.entries[n]) && MadeOf(mro, all.entries[n], b)
    requires EntryPart(mro, all, n + 1, rest, later)
    ensures EntryPart(mro, all, n, [b] + rest, [n] + later)
  {
    hide TakenFromEntry, MadeOf;
    var from := [n] + later;
    assert from[0] == n;
    forall i: nat | n < i < |all.entries| && TakenFromEntry(all, all.entries[i])
      ensures i in from
    {
      assert i in later;
    }
  }

  method BuildEntries(mro: Mro, all: Declared) returns (r: Result<seq<Built>, Error>)
    ensures r.Success? <==> forall i :: 0 <= i < |all.entries| ==> !DeclaresTwice(all, all.entries[i])
    ensures r.Success? ==> r.value == BuiltFromEntries(mro, all, all.entries)
    ensures r.Failure? ==> exists i ::
      && 0 <= i < |all.entries| && DeclaresTwice(all, all.entries[i])
      && r.error == DeclaredTwice(all.entries[i].attr, all.entries[i].verb)
  {
    hide ListWins, BuildEntry, Nearest, FindListed, DeclaresTwice;
    var built := [];
    for i := 0 to |all.entries|
      invariant forall j :: 0 <= j < i ==> !DeclaresTwice(all, all.entries[j])
      invariant built + BuiltFromEntries(mro, all, all.entries[i..]) == BuiltFromEntries(mro, all, all.entries)
    {
      var e := all.entries[i];
      var rest := all.entries[i..];
      ClashesMeaning(all, e);
      assert rest[0] == e && rest[1..] == all.entries[i + 1..];
      if Nearest(all, e.verb) == Some(e.depth) {
        if ListWins(all, e.verb) {
          if Clashes(all, e) {
            return Failure(DeclaredTwice(e.attr, e.verb));
          }
        } else {
          built := built + [BuildEntry(mro, e)];
        }
      }
    }
    r := Success(built);
  }

  /** Everything a class declares, when it can be read. */
  ghost predicate DeclaredBy(mro: Mro, all: Declared) {
    && EntriesOf(mro, all.entries)
    && exists listing :: InEffect(mro, all.listDepth, listing) && Readable(listing) && Lists(listing, all.listed)
  }

  ghost predicate ListReadable(mro: Mro) {
    forall depth, listing :: InEffect(mro, depth, listing) ==> Readable(listing)
  }

  /** What each error says of the class. */
  ghost predicate Faulty(mro: Mro, all: Declared, e: Error) {
    match e
    case ActionsNotIterable => exists depth :: InEffect(mro, depth, Some(NotIterable))
    case ActionsHoldOther =>
      exists depth, items: seq<Item> :: InEffect(mro, depth, Some(Items(items))) && OtherItem in items
    case DeclaredTwice(attr, verb) =>
      && DeclaredBy(mro, all)
      && exists i ::
           && 0 <= i < |all.entries| && DeclaresTwice(all, all.entries[i])
           && all.entries[i].attr == attr && all.entries[i].verb == verb
    case _ => Misdeclared(mro, e)
  }

  /** `collect_actions`: the listed actions that are taken, then the attributes. */
  method CollectActions(mro: Mro)
    returns (r: Result<seq<Built>, Error>, ghost all: Declared, ghost listed: seq<nat>, ghost attributes: seq<nat>)
    ensures r.Success? ==> WellFormed(mro) && ListReadable(mro)
    ensures WellFormed(mro) && ListReadable(mro) ==> DeclaredBy(mro, all)
    ensures WellFormed(mro) && ListReadable(mro) ==>
      (r.Success? <==> forall i :: 0 <= i < |all.entries| ==> !DeclaresTwice(all, all.entries[i]))
    ensures r.Success? ==> r.value == BuiltFrom(mro, all)
    ensures r.Success? ==> |listed| <= |r.value| && ListPart(all, 0, r.value[..|listed|], listed)
    ensures r.Success? ==> |listed| <= |r.value| && EntryPart(mro, all, 0, r.value[|listed|..], attributes)
    ensures r.Failure? ==> Faulty(mro, all, r.error)
  {
    hide WellFormed, EntriesOf, DeclaresTwice, BuiltFromList, BuiltFromEntries, ListPart, EntryPart, Misdeclared;
    all, listed, attributes := Declared([], [], 0), [], [];
    var entries, _ := CollectEntries(mro);
    if entries.Failure? {
      FaultyEntries(mro, all, entries.error);
      return Failure(entries.error), all, listed, attributes;
    }
    var listDepth, listing := FindListing(mro);
    OneInEffect(mro, listDepth, listing);
    var items := ReadListing(listing);
    if items.Failure? {
      FaultyList(mro, all, listDepth, listing);
      return Failure(items.error), all, listed, attributes;
    }
    var declared := Declared(entries.value, items.value, listDepth);
    all := declared;
    var built := BuildListed(declared);
    r := BuildEntries(mro, declared);
    if r.Success? {
      listed, attributes := Parts(mro, declared, built, r.value);
      r := Success(built + r.value);
    }
  }

  lemma FaultyEntries(mro: Mro, all: Declared, e: Error)
    requires Misdeclared(mro, e)
    ensures Faulty(mro, all, e)
  {
  }

  lemma FaultyList(mro: Mro, all: Declared, depth: nat, listing: Option<Listing>)
    requires InEffect(mro, depth, listing) && !Readable(listing)
    ensures Faulty(mro, all, if listing == Some(NotIterable) then ActionsNotIterable else ActionsHoldOther)
  {
    hide InEffect;
    if listing.value.Items? {
      var i :| 0 <= i < |listing.value.items| && !listing.value.items[i].ActionItem?;
      assert InEffect(mro, depth, Some(Items(listing.value.items))) && listing.value.items[i] == OtherItem;
    }
  }

  lemma Parts(mro: Mro, all: Declared, built: seq<Built>, rest: seq<Built>)
    returns (listed: seq<nat>, attributes: seq<nat>)
    requires built == BuiltFromList(all, all.listed) && rest == BuiltFromEntries(mro, all, all.entries)
    ensures |listed| == |built| && (built + rest)[..|listed|] == built && (built + rest)[|listed|..] == rest
    ensures ListPart(all, 0, built, listed) && EntryPart(mro, all, 0, rest, attributes)
  {
    assert all.listed[0..] == all.listed && all.entries[0..] == all.entries;
    listed := ListPartMeaning(all, 0);
    attributes := EntryPartMeaning(mro, all, 0);
  }

  lemma OneInEffect(mro: Mro, depth: nat, listing: Option<Listing>)
    requires InEffect(mro, depth, listing)
    ensures forall d, l :: InEffect(mro, d, l) ==> d == depth && l == listing
  {
  }
}
