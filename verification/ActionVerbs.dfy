/** What action resolution promises about every verb.  */
module ActionVerbs {
  import opened Wrappers
  import opened ActionEntries
  import opened ActionNearest
  import opened ActionResolution

  /** How often a verb was built. */
  ghost function Times(built: seq<Built>, verb: string): nat {
    if built == [] then 0 else (if built[0].verb == verb then 1 else 0) + Times(built[1..], verb)
  }

  /** How often the list in effect declares a verb. */
  ghost function TimesListed(listed: Listed, verb: string): nat {
    if listed == [] then 0 else (if listed[0].verb == verb then 1 else 0) + TimesListed(listed[1..], verb)
  }

  /** How many attributes of the class at the depth declare a verb. */
  ghost function TimesAt(entries: seq<Entry>, verb: string, depth: nat): nat {
    if entries == [] then 0
    else (if entries[0].verb == verb && entries[0].depth == depth then 1 else 0) + TimesAt(entries[1..], verb, depth)
  }

  lemma {:induction false} TimesOfBoth(a: seq<Built>, b: seq<Built>, verb: string)
    ensures Times(a + b, verb) == Times(a, verb) + Times(b, verb)
  {
    if a == [] {
      assert a + b == b;
    } else {
      assert (a + b)[1..] == a[1..] + b;
      TimesOfBoth(a[1..], b, verb);
    }
  }

  lemma {:induction false} TimesFromList(all: Declared, listed: Listed, verb: string)
    ensures Times(BuiltFromList(all, listed), verb) == if ListWins(all, verb) then TimesListed(listed, verb) else 0
  {
    hide ListWins;
    if listed != [] {
      TimesFromList(all, listed[1..], verb);
      var head := if ListWins(all, listed[0].verb) then [Existing(listed[0].id, listed[0].verb)] else [];
      TimesOfBoth(head, BuiltFromList(all, listed[1..]), verb);
    }
  }

  /** How often the entries build a verb. */
  ghost function EntryTimes(all: Declared, entries: seq<Entry>, verb: string): nat {
    var nearest := Nearest(all, verb);
    if nearest.None? || ListWins(all, verb) then 0 else TimesAt(entries, verb, nearest.value)
  }

  lemma {:induction false} TimesFromEntries(mro: Mro, all: Declared, entries: seq<Entry>, verb: string)
    ensures Times(BuiltFromEntries(mro, all, entries), verb) == EntryTimes(all, entries, verb)
  {
    hide ListWins, Nearest, BuildEntry;
    if entries != [] {
      TimesFromEntries(mro, all, entries[1..], verb);
      var head := if EntryWins(all, entries[0]) then [BuildEntry(mro, entries[0])] else [];
      TimesOfBoth(head, BuiltFromEntries(mro, all, entries[1..]), verb);
    }
  }

  /** How often each verb is built: as often as the nearest class lists it, or,
      when that class does not list it, as it has attributes for it. */
  lemma BuiltTimes(mro: Mro, all: Declared, verb: string)
    ensures Times(BuiltFrom(mro, all), verb) ==
      if ListWins(all, verb) then TimesListed(all.listed, verb) else EntryTimes(all, all.entries, verb)
  {
    hide ListWins, Nearest;
    TimesOfBoth(BuiltFromList(all, all.listed), BuiltFromEntries(mro, all, all.entries), verb);
    TimesFromList(all, all.listed, verb);
    TimesFromEntries(mro, all, all.entries, verb);
  }

  // ------------------------------------------------------------- at least once

  ghost predicate DeclaresVerb(all: Declared, verb: string) {
    || (exists i :: 0 <= i < |all.listed| && all.listed[i].verb == verb)
    || (exists i :: 0 <= i < |all.entries| && all.entries[i].verb == verb)
  }

  lemma {:induction false} ListedTimes(listed: Listed, verb: string)
    ensures TimesListed(listed, verb) > 0 <==> exists i :: 0 <= i < |listed| && listed[i].verb == verb
  {
    if listed != [] {
      ListedTimes(listed[1..], verb);
      if i :| 0 <= i < |listed| && listed[i].verb == verb && i > 0 {
        assert listed[1..][i - 1].verb == verb;
      }
      if i :| 0 <= i < |listed[1..]| && listed[1..][i].verb == verb {
        assert listed[i + 1].verb == verb;
      }
    }
  }

  /** Every declared verb is built, and no other. */
  lemma EveryVerbBuilt(mro: Mro, all: Declared, verb: string)
    ensures Times(BuiltFrom(mro, all), verb) > 0 <==> DeclaresVerb(all, verb)
  {
    BuiltTimes(mro, all, verb);
    ListedTimes(all.listed, verb);
    FindListedIs(all.listed, verb);
    NearestEntryIs(all.entries, verb);
    if NearestEntry(all.entries, verb).Some? {
      TimesAtSome(all.entries, verb, NearestEntry(all.entries, verb).value);
    }
  }

  // -------------------------------------------------------------- exactly once

  /** The class a verb is taken from declares it once: one list item, or one
      attribute when it does not list the verb. An object that is both listed
      and an attribute is one declaration. */
  ghost predicate DeclaredOnce(all: Declared, verb: string) {
    if ListWins(all, verb) then TimesListed(all.listed, verb) == 1 else EntryTimes(all, all.entries, verb) == 1
  }

  ghost predicate SameVerb(built: seq<Built>, i: int, j: int) {
    0 <= i < j < |built| && built[i].verb == built[j].verb
  }

  lemma {:induction false} TimesTwice(built: seq<Built>, verb: string)
    ensures Times(built, verb) > 0 <==> exists i :: 0 <= i < |built| && built[i].verb == verb
    ensures Times(built, verb) > 1 <==> exists i, j :: SameVerb(built, i, j) && built[i].verb == verb
  {
    if built != [] {
      var rest := built[1..];
      TimesTwice(rest, verb);
      if Times(rest, verb) > 0 {
        var i :| 0 <= i < |rest| && rest[i].verb == verb;
        assert built[i + 1].verb == verb;
        assert built[0].verb == verb ==> SameVerb(built, 0, i + 1);
      }
      if Times(rest, verb) > 1 {
        var i, j :| SameVerb(rest, i, j) && rest[i].verb == verb;
        assert SameVerb(built, i + 1, j + 1);
      }
      if i, j :| SameVerb(built, i, j) && built[i].verb == verb {
        assert rest[j - 1].verb == verb;
        assert i > 0 ==> SameVerb(rest, i - 1, j - 1);
      }
      if i :| 0 <= i < |built| && built[i].verb == verb {
        assert i > 0 ==> rest[i - 1].verb == verb;
      }
    }
  }

  /** No verb is built twice exactly when every declared verb is declared once
      by the class it is taken from. */
  lemma BuiltOnceExactlyWhen(mro: Mro, all: Declared)
    ensures (forall i, j :: !SameVerb(BuiltFrom(mro, all), i, j))
       <==> (forall verb :: DeclaresVerb(all, verb) ==> DeclaredOnce(all, verb))
  {
    hide BuiltFrom, DeclaresVerb, ListWins;
    var built := BuiltFrom(mro, all);
    forall verb
      ensures DeclaresVerb(all, verb) ==> (DeclaredOnce(all, verb) <==> Times(built, verb) <= 1)
    {
      BuiltTimes(mro, all, verb);
      EveryVerbBuilt(mro, all, verb);
    }
    if i, j :| SameVerb(built, i, j) {
      TimesTwice(built, built[i].verb);
      EveryVerbBuilt(mro, all, built[i].verb);
    }
    if verb :| DeclaresVerb(all, verb) && !DeclaredOnce(all, verb) {
      TimesTwice(built, verb);
    }
  }

  /** No class body gives one verb to two attributes. */
  ghost predicate BodiesDeclareOnce(mro: Mro) {
    forall d, a, v, b, w :: Declares(mro, d, a, v) && Declares(mro, d, b, w) && VerbOf(a, v) == VerbOf(b, w) ==> a == b
  }

  ghost predicate ListsOnce(listed: Listed) {
    forall i, j :: 0 <= i < j < |listed| ==> listed[i].verb != listed[j].verb
  }

  lemma {:induction false} ListedAtMostOnce(listed: Listed, verb: string)
    requires ListsOnce(listed)
    ensures TimesListed(listed, verb) <= 1
  {
    if listed != [] {
      ListedAtMostOnce(listed[1..], verb);
      ListedTimes(listed[1..], verb);
    }
  }

  lemma {:induction false} EntriesAtMostOnce(mro: Mro, entries: seq<Entry>, verb: string, depth: nat)
    requires BodiesDeclareOnce(mro) && DistinctAttrs(entries)
    requires forall i :: 0 <= i < |entries| ==>
      && Declares(mro, entries[i].depth, entries[i].attr, entries[i].value)
      && entries[i].verb == VerbOf(entries[i].attr, entries[i].value)
    ensures TimesAt(entries, verb, depth) <= 1
  {
    if entries != [] {
      var rest := entries[1..];
      EntriesAtMostOnce(mro, rest, verb, depth);
      if TimesAt(rest, verb, depth) > 0 {
        TimesAtSome(rest, verb, depth);
        var i :| 0 <= i < |rest| && rest[i].verb == verb && rest[i].depth == depth;
        assert entries[i + 1] == rest[i];
        assert entries[0].attr != rest[i].attr;
      }
    }
  }

  lemma {:induction false} TimesAtSome(entries: seq<Entry>, verb: string, depth: nat)
    ensures TimesAt(entries, verb, depth) > 0 <==>
      exists i :: 0 <= i < |entries| && entries[i].verb == verb && entries[i].depth == depth
  {
    if entries != [] {
      var rest := entries[1..];
      TimesAtSome(rest, verb, depth);
      if i :| 0 <= i < |entries| && entries[i].verb == verb && entries[i].depth == depth && i > 0 {
        assert rest[i - 1] == entries[i];
      }
      if i :| 0 <= i < |rest| && rest[i].verb == verb && rest[i].depth == depth {
        assert entries[i + 1] == rest[i];
      }
    }
  }

  /** When neither a class body nor the list in effect repeats a verb, each
      declared verb is built exactly once. */
  lemma OnceWhenDeclaredOnce(mro: Mro, all: Declared, verb: string)
    requires DeclaredBy(mro, all) && BodiesDeclareOnce(mro) && ListsOnce(all.listed)
    ensures Times(BuiltFrom(mro, all), verb) == if DeclaresVerb(all, verb) then 1 else 0
  {
    hide ListWins, BuiltFrom, DeclaresVerb;
    BuiltTimes(mro, all, verb);
    EveryVerbBuilt(mro, all, verb);
    ListedAtMostOnce(all.listed, verb);
    if Nearest(all, verb).Some? {
      EntriesAtMostOnce(mro, all.entries, verb, Nearest(all, verb).value);
    }
  }

  // ------------------------------------------------- only the nearest declarer

  /** Built from the list in effect, or from an entry, of the nearest class. */
  ghost predicate FromNearest(mro: Mro, all: Declared, b: Built) {
    || (exists i :: 0 <= i < |all.listed| && b == Existing(all.listed[i].id, all.listed[i].verb)
          && Nearest(all, b.verb) == Some(all.listDepth))
    || (exists i :: 0 <= i < |all.entries| && b == BuildEntry(mro, all.entries[i])
          && Nearest(all, b.verb) == Some(all.entries[i].depth))
  }

  lemma {:induction false} ListFromNearest(mro: Mro, all: Declared, k: nat, b: Built)
    requires k <= |all.listed| && b in BuiltFromList(all, all.listed[k..])
    ensures FromNearest(mro, all, b)
    decreases |all.listed| - k
  {
    var rest := all.listed[k..];
    if ListWins(all, rest[0].verb) && b == Existing(rest[0].id, rest[0].verb) {
      assert b == Existing(all.listed[k].id, all.listed[k].verb);
    } else {
      assert rest[1..] == all.listed[k + 1..];
      ListFromNearest(mro, all, k + 1, b);
    }
  }

  lemma {:induction false} EntriesFromNearest(mro: Mro, all: Declared, k: nat, b: Built)
    requires k <= |all.entries| && b in BuiltFromEntries(mro, all, all.entries[k..])
    ensures FromNearest(mro, all, b)
    decreases |all.entries| - k
  {
    hide ListWins, Nearest, BuildEntry;
    var rest := all.entries[k..];
    if EntryWins(all, rest[0]) && b == BuildEntry(mro, rest[0]) {
      assert b == BuildEntry(mro, all.entries[k]);
    } else {
      assert rest[1..] == all.entries[k + 1..];
      EntriesFromNearest(mro, all, k + 1, b);
    }
  }

  /** Nothing is built from a class when a more derived one declares the verb. */
  lemma OnlyFromNearest(mro: Mro, all: Declared, b: Built)
    requires b in BuiltFrom(mro, all)
    ensures FromNearest(mro, all, b)
  {
    hide FromNearest;
    assert all.listed[0..] == all.listed && all.entries[0..] == all.entries;
    if b in BuiltFromList(all, all.listed) {
      ListFromNearest(mro, all, 0, b);
    } else {
      EntriesFromNearest(mro, all, 0, b);
    }
  }

  // ------------------------------------------------------ the body of an action

  lemma {:induction false} LookupFinds(mro: Mro, attr: string, depth: nat, found: nat, v: Value)
    requires depth <= found < |mro| && Binds(mro, found, attr, v)
    requires forall d: nat, w :: Binds(mro, d, attr, w) ==> found <= d
    ensures Lookup(mro, attr, depth) == Some(found)
    decreases found - depth
  {
    var k :| 0 <= k < |mro[found].body| && mro[found].body[k] == (attr, v);
    if depth < found {
      forall i | 0 <= i < |mro[depth].body|
        ensures mro[depth].body[i].0 != attr
      {
        assert (mro[depth].body[i].0, mro[depth].body[i].1) in mro[depth].body;
        assert Binds(mro, depth, mro[depth].body[i].0, mro[depth].body[i].1);
      }
      LookupFinds(mro, attr, depth + 1, found, v);
    }
  }

  /** The body looked up for a surviving attribute is its own, unless its name
      starts with two underscores. */
  lemma BodyIsOwn(mro: Mro, depth: nat, attr: string, v: Value)
    requires NothingShadowed(mro) && Survives(mro, depth, attr, v) && !Dunder(attr)
    ensures Lookup(mro, attr, 0) == Some(depth)
  {
    forall d: nat, w | Binds(mro, d, attr, w)
      ensures depth <= d
    {
      if w != Plain {
        assert Declares(mro, d, attr, w);
      }
    }
    LookupFinds(mro, attr, 0, depth, v);
  }

  /** With such a name, a plain attribute may come in between unnoticed. */
  lemma DunderBodyHidden(attr: string) returns (mro: Mro, v: Value)
    requires Dunder(attr)
    ensures WellFormed(mro) && Survives(mro, 1, attr, v) && v.Marker?
    ensures Lookup(mro, attr, 0) == Some(0)
  {
    v := Marker("", true, 0);
    var plain, marked := Class([(attr, Plain)], None), Class([(attr, v)], None);
    mro := [plain, marked];
    assert plain.body[0] == (attr, Plain) && marked.body[0] == (attr, v);
    assert mro[0].body[0].0 == attr;
  }
}
