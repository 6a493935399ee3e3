/** Streaming collect: completed mapping keys travel through a channel that
    ends with a sentinel, and a generator yields their results, either as they
    complete or in index order.  */
module Streaming {
  import opened Wrappers
  import opened Decimal

  // ------------------------------------------------------------- the channel

  /** How the receiving side stands: still iterating, stopped by the sentinel,
      or stopped because every sender was dropped. */
  datatype Iteration = Running | SawSentinel | Disconnected

  /** The channel (`Some(key)` for a completed instance, `None` for the
      sentinel), whether a sender is left, and what the receiver saw. */
  datatype Queue = Queue(channel: seq<Option<string>>, connected: bool, received: seq<string>, iteration: Iteration)

  const Empty := Queue([], true, [], Running)

  /** Steps of the senders and of the iterating receiver, interleaved. Any
      number of cloned senders share the channel; `Dropped` is the last of them
      going away. */
  datatype Event = Put(key: string) | Done | Dropped | Receive

  /** The receiver blocks while the channel is empty and a sender is left. */
  predicate Enabled(q: Queue, e: Event) {
    if e.Receive? then q.iteration.Running? && (q.channel != [] || !q.connected) else q.connected
  }

  function After(q: Queue, e: Event): Queue
    requires Enabled(q, e)
  {
    match e
    case Put(key) => q.(channel := q.channel + [Some(key)])
    case Done => q.(channel := q.channel + [None])
    case Dropped => q.(connected := false)
    case Receive =>
      if q.channel == [] then q.(iteration := Disconnected)
      else if q.channel[0].Some?
      then q.(channel := q.channel[1..], received := q.received + [q.channel[0].value])
      else q.(channel := q.channel[1..], iteration := SawSentinel)
  }

  /** The queue after the events, when each was possible in turn. */
  ghost function Run(events: seq<Event>): Option<Queue> {
    if events == [] then Some(Empty)
    else
      var before, e := Run(events[..|events| - 1]), events[|events| - 1];
      if before.Some? && Enabled(before.value, e) then Some(After(before.value, e)) else None
  }

  /** What the senders sent, in channel order. */
  ghost function Sent(events: seq<Event>): seq<Option<string>> {
    if events == [] then []
    else
      var before := Sent(events[..|events| - 1]);
      match events[|events| - 1]
      case Put(key) => before + [Some(key)]
      case Done => before + [None]
      case Dropped => before
      case Receive => before
  }

  /** The keys sent before the first sentinel. */
  ghost function UpToSentinel(sent: seq<Option<string>>): seq<string> {
    if sent == [] || sent[0].None? then [] else [sent[0].value] + UpToSentinel(sent[1..])
  }

  function Somes(keys: seq<string>): (r: seq<Option<string>>)
    ensures |r| == |keys| && forall i :: 0 <= i < |keys| ==> r[i] == Some(keys[i])
  {
    seq(|keys|, i requires 0 <= i < |keys| => Some(keys[i]))
  }

  /** What was sent is what was received, then the sentinel when it was seen,
      then what is still in the channel. */
  ghost predicate Conserves(q: Queue, sent: seq<Option<string>>) {
    && sent == Somes(q.received) + (if q.iteration.SawSentinel? then [None] else []) + q.channel
    && (q.iteration.Disconnected? ==> q.channel == [] && !q.connected)
  }

  ghost function Message(e: Event): seq<Option<string>> {
    match e
    case Put(key) => [Some(key)]
    case Done => [None]
    case _ => []
  }

  lemma StepConserves(q: Queue, e: Event, sent: seq<Option<string>>)
    requires Conserves(q, sent) && Enabled(q, e)
    ensures Conserves(After(q, e), sent + Message(e))
  {
    if e.Receive? && q.channel != [] {
      assert q.channel == [q.channel[0]] + q.channel[1..];
      if q.channel[0].Some? {
        assert Somes(After(q, e).received) == Somes(q.received) + [q.channel[0]];
      }
    }
  }

  /** Nothing is lost, repeated or reordered on the way. */
  lemma {:induction false} ChannelConserves(events: seq<Event>)
    requires Run(events).Some?
    ensures Conserves(Run(events).value, Sent(events))
  {
    if events != [] {
      var n := |events| - 1;
      ChannelConserves(events[..n]);
      StepConserves(Run(events[..n]).value, events[n], Sent(events[..n]));
      assert Sent(events) == Sent(events[..n]) + Message(events[n]);
    }
  }

  lemma {:induction false} KeysComeFirst(keys: seq<string>, rest: seq<Option<string>>)
    ensures UpToSentinel(Somes(keys) + rest) == keys + UpToSentinel(rest)
  {
    if keys == [] {
      assert Somes(keys) + rest == rest;
    } else {
      var sent := Somes(keys) + rest;
      assert sent[1..] == Somes(keys[1..]) + rest;
      KeysComeFirst(keys[1..], rest);
      assert sent[0] == Some(keys[0]);
      assert keys == [keys[0]] + keys[1..];
    }
  }

  lemma ConservedReceived(q: Queue, sent: seq<Option<string>>)
    requires Conserves(q, sent)
    ensures q.received <= UpToSentinel(sent)
    ensures !q.iteration.Running? ==> q.received == UpToSentinel(sent)
  {
    var rest := (if q.iteration.SawSentinel? then [None] else []) + q.channel;
    assert sent == Somes(q.received) + rest;
    KeysComeFirst(q.received, rest);
  }

  /** In every interleaving the receiver gets a prefix of the keys sent before
      the sentinel, and all of them by the time the iteration ends. */
  lemma ReceivesSent(events: seq<Event>)
    requires Run(events).Some?
    ensures Run(events).value.received <= UpToSentinel(Sent(events))
    ensures !Run(events).value.iteration.Running? ==> Run(events).value.received == UpToSentinel(Sent(events))
  {
    ChannelConserves(events);
    ConservedReceived(Run(events).value, Sent(events));
  }

  // --------------------------------------------------------------- the object

  /** The shared queue object. Its methods take the steps above; `sent` is all
      that was ever sent through it. */
  class CompletionQueue {
    var channel: seq<Option<string>>
    var connected: bool
    ghost var sent: seq<Option<string>>
    ghost var received: seq<string>
    ghost var iteration: Iteration

    ghost function State(): Queue
      reads this
    {
      Queue(channel, connected, received, iteration)
    }

    ghost predicate Valid()
      reads this
    {
      Conserves(State(), sent)
    }

    constructor ()
      ensures Valid() && State() == Empty && sent == []
    {
      channel, connected := [], true;
      sent, received, iteration := [], [], Running;
    }

    /** A key, or the sentinel, goes behind all that was sent before. */
    method Send(message: Option<string>)
      requires Valid() && connected
      modifies this
      ensures Valid() && sent == old(sent) + [message] && connected
      ensures received == old(received) && iteration == old(iteration)
      ensures State() == After(old(State()), if message.Some? then Put(message.value) else Done)
    {
      StepConserves(State(), if message.Some? then Put(message.value) else Done, sent);
      channel := channel + [message];
      sent := sent + [message];
    }

    /** The last sender goes away. */
    method Disconnect()
      requires Valid() && connected
      modifies this
      ensures Valid() && !connected && sent == old(sent)
      ensures State() == After(old(State()), Dropped)
    {
      StepConserves(State(), Dropped, sent);
      connected := false;
    }

    /** Answers the next of the keys sent before the sentinel, or `None` when
        all of them were received. */
    method Next() returns (key: Option<string>)
      requires Valid() && Enabled(State(), Receive)
      modifies this
      ensures Valid() && sent == old(sent) && State() == After(old(State()), Receive)
      ensures key.Some? ==> received == old(received) + [key.value] && received <= UpToSentinel(sent)
      ensures key.None? ==> received == old(received) == UpToSentinel(sent)
      ensures key.None? <==> !iteration.Running?
    {
      StepConserves(State(), Receive, sent);
      ConservedReceived(After(State(), Receive), sent);
      assert sent + [] == sent;
      if channel == [] {
        iteration := Disconnected;
        return None;
      }
      key := channel[0];
      channel := channel[1..];
      if key.Some? {
        received := received + [key.value];
      } else {
        iteration := SawSentinel;
      }
    }
  }

  lemma {:induction false} RunPrefix(events: seq<Event>, i: nat)
    requires Run(events).Some? && i <= |events|
    ensures Run(events[..i]).Some?
    decreases |events|
  {
    if i == |events| {
      assert events[..i] == events;
    } else {
      RunPrefix(events[..|events| - 1], i);
      assert events[..|events| - 1][..i] == events[..i];
    }
  }

  /** A new queue, taken through any interleaving by its own methods. */
  method Follow(events: seq<Event>) returns (q: CompletionQueue)
    requires Run(events).Some?
    ensures fresh(q) && q.Valid() && q.State() == Run(events).value && q.sent == Sent(events)
  {
    hide Conserves;
    q := new CompletionQueue();
    for i := 0 to |events|
      invariant fresh(q) && q.Valid() && Run(events[..i]) == Some(q.State()) && q.sent == Sent(events[..i])
    {
      RunPrefix(events, i + 1);
      assert events[..i + 1][..i] == events[..i];
      match events[i] {
        case Put(key) => q.Send(Some(key));
        case Done => q.Send(None);
        case Dropped => q.Disconnect();
        case Receive =>
          var _ := q.Next();
      }
    }
    assert events[..|events|] == events;
  }

  /** `for key in queue`, once the sentinel was sent or no sender is left: all
      the keys sent before the sentinel, in order. */
  method Iterate(q: CompletionQueue) returns (keys: seq<string>)
    requires q.Valid() && q.received == [] && q.iteration.Running? && (None in q.channel || !q.connected)
    modifies q
    ensures q.Valid() && q.sent == old(q.sent) && keys == UpToSentinel(q.sent)
  {
    hide Conserves, UpToSentinel;
    keys := [];
    var key := q.Next();
    while key.Some?
      invariant q.Valid() && q.sent == old(q.sent)
      invariant q.iteration.Running? <==> key.Some?
      invariant q.iteration.Running? ==> None in q.channel || !q.connected
      invariant q.received == if key.Some? then keys + [key.value] else keys
      invariant key.None? ==> keys == UpToSentinel(q.sent)
      decreases |q.channel|, if key.Some? then 1 else 0
    {
      keys := keys + [key.value];
      key := q.Next();
    }
  }

  // ------------------------------------------------------------ the generators

  /** How many of the keys come before one without a result. */
  ghost function KnownPrefix<T>(keys: seq<string>, results: map<string, T>): nat {
    if keys == [] || keys[0] !in results then 0 else 1 + KnownPrefix(keys[1..], results)
  }

  lemma {:induction false} KnownPrefixIs<T>(keys: seq<string>, results: map<string, T>, n: nat)
    requires n <= |keys| && forall i :: 0 <= i < n ==> keys[i] in results
    requires n < |keys| ==> keys[n] !in results
    ensures KnownPrefix(keys, results) == n
  {
    if n > 0 {
      KnownPrefixIs(keys[1..], results, n - 1);
    }
  }

  /** `_make_stream_generator`: the values yielded, and whether a key without
      a result then raised `KeyError`. */
  method StreamGenerator<T>(keys: seq<string>, results: map<string, T>) returns (output: seq<T>, failed: bool)
    ensures var n := KnownPrefix(keys, results);
      n <= |keys| && |output| == n && (failed <==> n < |keys|)
      && forall i :: 0 <= i < n ==> keys[i] in results && output[i] == results[keys[i]]
  {
    output, failed := [], false;
    for i := 0 to |keys|
      invariant |output| == i
      invariant forall j :: 0 <= j < i ==> keys[j] in results && output[j] == results[keys[j]]
    {
      if keys[i] !in results {
        KnownPrefixIs(keys, results, i);
        return output, true;
      }
      output := output + [results[keys[i]]];
    }
    KnownPrefixIs(keys, results, |keys|);
  }

  /** The least index whose text is not among the keys, counting from `i`. */
  ghost function Span(keys: set<string>, i: nat): nat
    decreases |keys|
  {
    if Str(i) in keys then 1 + Span(keys - {Str(i)}, i + 1) else 0
  }

  ghost function LeastMissing(keys: seq<string>): nat {
    Span(set k | k in keys, 0)
  }

  lemma {:induction false} SpanIs(keys: set<string>, i: nat, m: nat)
    requires forall j :: i <= j < i + m ==> Str(j) in keys
    requires Str(i + m) !in keys
    ensures Span(keys, i) == m
    decreases m
  {
    if m > 0 {
      forall j | i + 1 <= j < i + m
        ensures Str(j) in keys - {Str(i)}
      {
        if Str(j) == Str(i) {
          StrInjective(i, j);
        }
      }
      SpanIs(keys - {Str(i)}, i + 1, m - 1);
    }
  }

  lemma {:induction false} SpanFacts(keys: set<string>, i: nat)
    ensures forall j :: i <= j < i + Span(keys, i) ==> Str(j) in keys
    ensures Str(i + Span(keys, i)) !in keys
    decreases |keys|
  {
    if Str(i) in keys {
      SpanFacts(keys - {Str(i)}, i + 1);
      var m := Span(keys, i);
      if Str(i + m) == Str(i) {
        StrInjective(i, i + m);
      }
    }
  }

  /** The state of the ordered generator between two arrivals. */
  ghost predicate Settled<T>(keys: seq<string>, results: map<string, T>, buffer: map<string, T>, output: seq<T>) {
    && (forall k :: k in buffer ==> k in keys && k in results && buffer[k] == results[k])
    && (forall i :: 0 <= i < |output| ==> Str(i) in keys && Str(i) in results && output[i] == results[Str(i)])
    && (forall i :: i >= |output| && Str(i) in keys ==> Str(i) in buffer)
  }

  lemma StartsSettled<T>(results: map<string, T>)
    ensures Settled([], results, map[], [])
  {
  }

  lemma Arrives<T>(keys: seq<string>, results: map<string, T>, buffer: map<string, T>, output: seq<T>, key: string)
    requires Settled(keys, results, buffer, output) && key in results
    ensures Settled(keys + [key], results, buffer[key := results[key]], output)
  {
  }

  lemma NothingLeft<T>(keys: seq<string>, results: map<string, T>, buffer: map<string, T>, output: seq<T>)
    requires Settled(keys, results, buffer, output) && Str(|output|) !in keys
    ensures Str(|output|) !in buffer
    ensures |output| == LeastMissing(keys)
    ensures forall i :: 0 <= i < |output| ==> Str(i) in results && output[i] == results[Str(i)]
  {
    SpanIs(set k | k in keys, 0, |output|);
  }

  /** Pop the next expected results from the buffer, as long as there are any. */
  method Flush<T>(ghost keys: seq<string>, ghost results: map<string, T>, buffer: map<string, T>, output: seq<T>)
    returns (buffer': map<string, T>, output': seq<T>)
    requires Settled(keys, results, buffer, output)
    ensures Settled(keys, results, buffer', output')
    ensures Str(|output'|) !in keys
    ensures Str(|output|) !in buffer ==> output' == output
  {
    buffer', output' := buffer, output;
    while Str(|output'|) in buffer'
      invariant Settled(keys, results, buffer', output')
      invariant |output'| >= |output| && (Str(|output|) !in buffer ==> output' == output && buffer' == buffer)
      decreases |buffer'|
    {
      var next := Str(|output'|);
      var n := |output'|;
      forall i | i >= n + 1 && Str(i) in keys
        ensures Str(i) in buffer' - {next}
      {
        if Str(i) == next {
          StrInjective(i, n);
        }
      }
      assert |buffer' - {next}| < |buffer'| by {
        assert (buffer' - {next}).Keys == buffer'.Keys - {next};
        assert |(buffer' - {next}).Keys| == |buffer'.Keys| - 1;
      }
      output' := output' + [buffer'[next]];
      buffer' := buffer' - {next};
    }
  }

  /** `_make_ordered_stream_generator`. Also tells how many values only the
      final flush yielded. */
  method OrderedStreamGenerator<T>(keys: seq<string>, results: map<string, T>)
    returns (output: seq<T>, failed: bool, flushed: nat)
    ensures var n := KnownPrefix(keys, results);
      && n <= |keys| && (failed <==> n < |keys|)
      && |output| == LeastMissing(keys[..n])
      && (forall i :: 0 <= i < |output| ==> Str(i) in results && output[i] == results[Str(i)])
      && flushed == 0
  {
    hide Settled, LeastMissing;
    output, failed, flushed := [], false, 0;
    var buffer: map<string, T> := map[];
    StartsSettled(results);
    for i := 0 to |keys|
      invariant forall j :: 0 <= j < i ==> keys[j] in results
      invariant Settled(keys[..i], results, buffer, output)
      invariant Str(|output|) !in keys[..i]
    {
      var key := keys[i];
      if key !in results {
        KnownPrefixIs(keys, results, i);
        NothingLeft(keys[..i], results, buffer, output);
        return output, true, 0;
      }
      assert keys[..i + 1] == keys[..i] + [key];
      Arrives(keys[..i], results, buffer, output, key);
      buffer := buffer[key := results[key]];
      buffer, output := Flush(keys[..i + 1], results, buffer, output);
    }
    assert keys[..|keys|] == keys;
    KnownPrefixIs(keys, results, |keys|);
    NothingLeft(keys, results, buffer, output);
    var before := |output|;
    buffer, output := Flush(keys, results, buffer, output);
    flushed := |output| - before;
    NothingLeft(keys, results, buffer, output);
  }

  // ------------------------------------------------------- both orders agree

  ghost predicate Known<T>(keys: seq<string>, results: map<string, T>) {
    forall i :: 0 <= i < |keys| ==> keys[i] in results
  }

  /** What the plain generator yields for the keys. */
  ghost function Values<T>(keys: seq<string>, results: map<string, T>): (r: seq<T>)
    requires Known(keys, results)
    ensures |r| == |keys| && forall i :: 0 <= i < |keys| ==> r[i] == results[keys[i]]
  {
    seq(|keys|, i requires 0 <= i < |keys| => results[keys[i]])
  }

  /** The mapping keys of a fan-out over `n` instances. */
  ghost function Indices(n: nat): (r: seq<string>)
    ensures |r| == n && forall i :: 0 <= i < n ==> r[i] == Str(i)
  {
    seq(n, i requires 0 <= i < n => Str(i))
  }

  ghost function Removed<T>(s: seq<T>, k: nat): seq<T>
    requires k < |s|
  {
    s[..k] + s[k + 1..]
  }

  lemma Without<T>(s: seq<T>, k: nat)
    requires k < |s|
    ensures multiset(s) == multiset{s[k]} + multiset(Removed(s, k))
    ensures multiset(Removed(s, k)) == multiset(s) - multiset{s[k]}
  {
    assert s == s[..k] + [s[k]] + s[k + 1..];
  }

  lemma ValuesWithout<T>(keys: seq<string>, k: nat, results: map<string, T>)
    requires k < |keys| && Known(keys, results)
    ensures Known(Removed(keys, k), results)
    ensures multiset(Values(keys, results)) == multiset{results[keys[k]]} + multiset(Values(Removed(keys, k), results))
  {
    Without(Values(keys, results), k);
    assert Removed(Values(keys, results), k) == Values(Removed(keys, k), results);
  }

  lemma {:induction false} RearrangedValues<T>(a: seq<string>, b: seq<string>, results: map<string, T>)
    requires multiset(a) == multiset(b) && Known(a, results) && Known(b, results)
    ensures multiset(Values(a, results)) == multiset(Values(b, results))
    decreases |a|
  {
    if a == [] {
      assert |multiset(b)| == 0;
      assert b == [];
    } else {
      assert a[0] in multiset(b);
      var k :| 0 <= k < |b| && b[k] == a[0];
      Without(a, 0);
      Without(b, k);
      assert multiset(Removed(a, 0)) == multiset(Removed(b, k));
      RearrangedValues(Removed(a, 0), Removed(b, k), results);
      ValuesWithout(a, 0, results);
      ValuesWithout(b, k, results);
    }
  }

  lemma PermutationLeavesNoGap(keys: seq<string>, n: nat)
    requires multiset(keys) == multiset(Indices(n))
    ensures LeastMissing(keys) == n
  {
    forall j | 0 <= j < n
      ensures Str(j) in keys
    {
      assert Indices(n)[j] in multiset(keys);
    }
    if Str(n) in keys {
      assert Str(n) in multiset(Indices(n));
      var j :| 0 <= j < n && Indices(n)[j] == Str(n);
      StrInjective(j, n);
    }
    SpanIs(set k | k in keys, 0, n);
  }

  /** A later arrival never takes back what the ordered generator yielded. */
  lemma LeastMissingGrows(keys: seq<string>, more: seq<string>)
    ensures LeastMissing(keys) <= LeastMissing(keys + more)
  {
    var now, later := (set k | k in keys), (set k | k in keys + more);
    SpanFacts(now, 0);
    SpanFacts(later, 0);
    assert LeastMissing(keys) > LeastMissing(keys + more) ==> Str(LeastMissing(keys + more)) in now;
  }

  /** Once every instance of a fan-out was sent, in whatever order and however
      the receiver interleaved, the plain generator yields each result once in
      completion order and the ordered one the same results by index. */
  lemma CollectsEveryResult<T>(events: seq<Event>, n: nat, results: map<string, T>)
    requires Run(events).Some? && !Run(events).value.iteration.Running?
    requires multiset(UpToSentinel(Sent(events))) == multiset(Indices(n))
    requires Known(Indices(n), results)
    ensures var keys := Run(events).value.received;
      && Known(keys, results)
      && KnownPrefix(keys, results) == |keys| == LeastMissing(keys) == n
      && multiset(Values(keys, results)) == multiset(Values(Indices(n), results))
  {
    ReceivesSent(events);
    var keys := Run(events).value.received;
    forall i | 0 <= i < |keys|
      ensures keys[i] in results
    {
      assert keys[i] in multiset(Indices(n));
    }
    assert |multiset(keys)| == |multiset(Indices(n))|;
    KnownPrefixIs(keys, results, |keys|);
    PermutationLeavesNoGap(keys, n);
    RearrangedValues(keys, Indices(n), results);
  }
}
