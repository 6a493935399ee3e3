/** Class-form assets: the class a verb belongs to, which is the most derived one
    that declares it in its `actions` list in effect or as an attribute.  */
module ActionNearest {
  import opened Wrappers
  import opened ActionEntries

  type Listed = items: seq<Item> | forall i :: 0 <= i < |items| ==> items[i].ActionItem?

  /** The first listed item for the verb. */
  function FindListed(listed: Listed, verb: string): (r: Option<Item>)
    ensures r.Some? ==> r.value.ActionItem? && r.value.verb == verb
  {
    if listed == [] then None else if listed[0].verb == verb then Some(listed[0]) else FindListed(listed[1..], verb)
  }

  function Nearer(a: Option<nat>, b: Option<nat>): Option<nat> {
    if a.None? then b else if b.None? || a.value <= b.value then a else b
  }

  /** The least depth of an entry for the verb. */
  function NearestEntry(entries: seq<Entry>, verb: string): Option<nat> {
    if entries == [] then None
    else Nearer(if entries[0].verb == verb then Some(entries[0].depth) else None, NearestEntry(entries[1..], verb))
  }

  /** What a class brings along: its entries, and its list in effect. */
  datatype Declared = Declared(entries: seq<Entry>, listed: Listed, listDepth: nat)

  function Nearest(all: Declared, verb: string): Option<nat> {
    Nearer(if FindListed(all.listed, verb).Some? then Some(all.listDepth) else None, NearestEntry(all.entries, verb))
  }

  /** The list in effect belongs to the nearest class declaring the verb. */
  predicate ListWins(all: Declared, verb: string) {
    FindListed(all.listed, verb).Some? && Nearest(all, verb) == Some(all.listDepth)
  }

  /** The attribute belongs to the nearest class, which does not list the verb. */
  predicate EntryWins(all: Declared, e: Entry) {
    Nearest(all, e.verb) == Some(e.depth) && !ListWins(all, e.verb)
  }

  /** One class both lists a verb and declares it as another attribute. */
  predicate Clashes(all: Declared, e: Entry) {
    && Nearest(all, e.verb) == Some(e.depth) && ListWins(all, e.verb)
    && !(e.value.Ready? && e.value.id == FindListed(all.listed, e.verb).value.id)
  }

  // --------------------------------------------------- said of the declarations

  /** The class at the depth declares the verb, in the list in effect or as a
      surviving attribute. */
  ghost predicate DeclaredAt(all: Declared, verb: string, depth: nat) {
    || (depth == all.listDepth && exists i :: 0 <= i < |all.listed| && all.listed[i].verb == verb)
    || (exists i :: 0 <= i < |all.entries| && all.entries[i].verb == verb && all.entries[i].depth == depth)
  }

  /** The most derived class that declares the verb. */
  ghost predicate BelongsTo(all: Declared, verb: string, depth: nat) {
    DeclaredAt(all, verb, depth) && forall d :: DeclaredAt(all, verb, d) ==> depth <= d
  }

  ghost predicate FirstListed(listed: Listed, verb: string, i: int) {
    0 <= i < |listed| && listed[i].verb == verb && forall j :: 0 <= j < i ==> listed[j].verb != verb
  }

  /** The class the verb belongs to is that of the list in effect, which names it. */
  ghost predicate TakenFromList(all: Declared, verb: string) {
    BelongsTo(all, verb, all.listDepth) && exists i :: 0 <= i < |all.listed| && all.listed[i].verb == verb
  }

  /** The class the verb belongs to has it as this attribute and does not list it. */
  ghost predicate TakenFromEntry(all: Declared, e: Entry) {
    && BelongsTo(all, e.verb, e.depth)
    && !(e.depth == all.listDepth && exists i :: 0 <= i < |all.listed| && all.listed[i].verb == e.verb)
  }

  /** The class the verb belongs to lists it and has it as this attribute, which
      is not the object listed first for it. */
  ghost predicate DeclaresTwice(all: Declared, e: Entry) {
    && BelongsTo(all, e.verb, e.depth) && e.depth == all.listDepth
    && exists i :: FirstListed(all.listed, e.verb, i) && !(e.value.Ready? && e.value.id == all.listed[i].id)
  }

  lemma {:induction false} FindListedIs(listed: Listed, verb: string)
    ensures var r := FindListed(listed, verb);
      && (r.None? ==> forall i :: 0 <= i < |listed| ==> listed[i].verb != verb)
      && (r.Some? ==> exists i :: FirstListed(listed, verb, i) && listed[i] == r.value)
  {
    if listed != [] {
      FindListedIs(listed[1..], verb);
      if listed[0].verb == verb {
        assert FirstListed(listed, verb, 0);
      } else if FindListed(listed[1..], verb).Some? {
        var i :| FirstListed(listed[1..], verb, i) && listed[1..][i] == FindListed(listed[1..], verb).value;
        assert FirstListed(listed, verb, i + 1);
      }
    }
  }

  /** The nearest entry exists, and none is nearer. */
  lemma {:induction false} NearestEntryIs(entries: seq<Entry>, verb: string)
    ensures var r := NearestEntry(entries, verb);
      && (r.Some? ==> exists i :: 0 <= i < |entries| && entries[i].verb == verb && entries[i].depth == r.value)
      && (forall i :: 0 <= i < |entries| && entries[i].verb == verb ==> r.Some? && r.value <= entries[i].depth)
  {
    if entries != [] {
      var rest := entries[1..];
      NearestEntryIs(rest, verb);
      forall i | 1 <= i < |entries|
        ensures entries[i] == rest[i - 1]
      {
      }
      if NearestEntry(rest, verb).Some? {
        var i :| 0 <= i < |rest| && rest[i].verb == verb && rest[i].depth == NearestEntry(rest, verb).value;
        assert entries[i + 1] == rest[i];
      }
    }
  }

  /** The verb belongs to the nearest class, and to none when it is not declared. */
  lemma NearestDeclares(all: Declared, verb: string, depth: nat)
    ensures Nearest(all, verb) == Some(depth) <==> BelongsTo(all, verb, depth)
    ensures Nearest(all, verb).None? <==> forall d :: !DeclaredAt(all, verb, d)
  {
    FindListedIs(all.listed, verb);
    NearestEntryIs(all.entries, verb);
    assert FindListed(all.listed, verb).Some? ==> DeclaredAt(all, verb, all.listDepth);
    var n := Nearest(all, verb);
    assert n.Some? ==> DeclaredAt(all, verb, n.value);
    assert forall d :: DeclaredAt(all, verb, d) ==> n.Some? && n.value <= d;
  }

  lemma ListWinsMeaning(all: Declared, verb: string)
    ensures ListWins(all, verb) <==> TakenFromList(all, verb)
  {
    NearestDeclares(all, verb, all.listDepth);
    FindListedIs(all.listed, verb);
  }

  lemma EntryWinsMeaning(all: Declared, e: Entry)
    ensures EntryWins(all, e) <==> TakenFromEntry(all, e)
  {
    NearestDeclares(all, e.verb, e.depth);
    NearestDeclares(all, e.verb, all.listDepth);
    ListWinsMeaning(all, e.verb);
  }

  lemma ClashesMeaning(all: Declared, e: Entry)
    ensures Clashes(all, e) <==> DeclaresTwice(all, e)
  {
    NearestDeclares(all, e.verb, e.depth);
    FindListedIs(all.listed, e.verb);
    hide Nearest, BelongsTo;
    if i :| FirstListed(all.listed, e.verb, i) {
      assert forall j :: FirstListed(all.listed, e.verb, j) ==> j == i;
    }
  }
}
