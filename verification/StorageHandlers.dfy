/** The in-memory and the pickle handler, each over one string-keyed store.  */
module StorageHandlers {
  import opened Wrappers
  import opened PartitionFilters
  import opened StorageKeys

  function Lookup<K, T>(store: map<K, T>, key: K): Option<T> {
    if key in store then Some(store[key]) else None
  }

  ghost predicate OnlyPlain<T>(written: map<Location, T>) {
    forall at :: at in written ==> PlainLocation(at)
  }

  /** The store answers for every plain location what was written there. */
  ghost predicate Represents<T>(layout: Layout, store: map<string, T>, written: map<Location, T>) {
    forall at :: PlainLocation(at) ==> Lookup(store, StorageKey(layout, at)) == Lookup(written, at)
  }

  lemma WriteRepresents<T>(layout: Layout, store: map<string, T>, written: map<Location, T>, at: Location, obj: T)
    requires Represents(layout, store, written) && PlainLocation(at)
    ensures Represents(layout, store[StorageKey(layout, at) := obj], written[at := obj])
  {
    hide StorageKey, PlainLocation;
    forall other | PlainLocation(other)
      ensures Lookup(store[StorageKey(layout, at) := obj], StorageKey(layout, other))
           == Lookup(written[at := obj], other)
    {
      if StorageKey(layout, at) == StorageKey(layout, other) {
        KeysInjective(layout, at, other);
      }
    }
  }

  /** A handler over its store. `written` is what a caller wrote: a map from
      assets and partitions. Values are kept as they are; the store of a pickle
      handler holds the bytes that stand for them. */
  class Handler<T> {
    const layout: Layout
    var store: map<string, T>
    ghost var written: map<Location, T>

    /** As long as only plain locations were written, the handler is that map. */
    ghost predicate Valid()
      reads this
    {
      OnlyPlain(written) ==> Represents(layout, store, written)
    }

    constructor (layout: Layout)
      ensures Valid() && this.layout == layout && written == map[]
    {
      this.layout := layout;
      store := map[];
      written := map[];
    }

    method HandleOutput(at: Location, obj: T)
      requires Valid()
      modifies this
      ensures Valid() && written == old(written)[at := obj]
      ensures store == old(store)[StorageKey(layout, at) := obj]
    {
      var key := StorageKey(layout, at);
      assert OnlyPlain(written[at := obj]) ==> OnlyPlain(written) && PlainLocation(at) by {
        assert forall l :: l in written ==> l in written[at := obj];
        assert at in written[at := obj];
      }
      if OnlyPlain(written[at := obj]) {
        WriteRepresents(layout, store, written, at, obj);
      }
      store := store[key := obj];
      written := written[at := obj];
    }

    /** The last value written for exactly that asset and partition; `None`
        stands for the lookup error. */
    method LoadInput(at: Location) returns (obj: Option<T>)
      requires Valid()
      ensures OnlyPlain(written) && PlainLocation(at) ==> obj == Lookup(written, at)
      ensures obj == Lookup(store, StorageKey(layout, at))
    {
      var key := StorageKey(layout, at);
      obj := if key in store then Some(store[key]) else None;
    }
  }

  // ----------------------------------------------------- every sequence of writes

  datatype Write<T> = Write(at: Location, obj: T)

  /** What writes mean: the last one for a location wins. */
  ghost function Meaning<T>(writes: seq<Write<T>>): map<Location, T> {
    if writes == [] then map[]
    else
      var last := writes[|writes| - 1];
      Meaning(writes[..|writes| - 1])[last.at := last.obj]
  }

  lemma {:induction false} MeaningPlain<T>(writes: seq<Write<T>>)
    requires forall i :: 0 <= i < |writes| ==> PlainLocation(writes[i].at)
    ensures OnlyPlain(Meaning(writes))
  {
    if writes != [] {
      MeaningPlain(writes[..|writes| - 1]);
    }
  }

  /** A new handler, any writes to plain locations and a load: it answers the
      last value written for exactly that asset and partition. */
  method WriteThenLoad<T>(layout: Layout, writes: seq<Write<T>>, at: Location) returns (obj: Option<T>)
    requires PlainLocation(at) && forall i :: 0 <= i < |writes| ==> PlainLocation(writes[i].at)
    ensures obj == Lookup(Meaning(writes), at)
  {
    var handler := new Handler<T>(layout);
    for i := 0 to |writes|
      invariant handler.Valid() && handler.written == Meaning(writes[..i])
    {
      assert writes[..i + 1][..i] == writes[..i];
      handler.HandleOutput(writes[i].at, writes[i].obj);
    }
    assert writes[..|writes|] == writes;
    MeaningPlain(writes);
    obj := handler.LoadInput(at);
  }
}
