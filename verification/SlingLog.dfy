/** Running a sling replication: its log drives which outputs are materialized
    as they succeed; the rest follow when sling exits well.  */
module SlingLog {
  import opened Wrappers

  /** A log message by its meaning for the run: a stream starts, rows are
      written (perhaps to a named object), the current execution succeeds or
      fails, or anything else. */
  datatype Event = StreamStart(stream: string) | Rows(count: nat, target: string) | Succeeded | Failed | Otherwise

  datatype Metadata = Metadata(stream: Option<string>, rows: Option<nat>, target: Option<string>)

  datatype Materialization = Materialization(output: string, metadata: Metadata)

  /** The output is named at `i`, and no later one has its stream. */
  ghost predicate LastAt(selection: seq<string>, streams: map<string, string>, o: string, i: int) {
    && 0 <= i < |selection| && selection[i] == o && o in streams
    && forall j :: i < j < |selection| ==> selection[j] in streams && streams[selection[j]] != streams[o]
  }

  ghost predicate LastOfStream(selection: seq<string>, streams: map<string, string>, o: string) {
    exists i :: LastAt(selection, streams, o, i)
  }

  /** The streams of the selection, the last output winning a shared stream. */
  function OutputsOf(selection: seq<string>, streams: map<string, string>): (r: map<string, string>)
    requires forall o :: o in selection ==> o in streams
    ensures forall s :: s in r ==> r[s] in selection && streams[r[s]] == s
    ensures forall o :: o in selection ==> streams[o] in r
  {
    if selection == [] then map[]
    else
      var last := selection[|selection| - 1];
      OutputsOf(selection[..|selection| - 1], streams)[streams[last] := last]
  }

  lemma LastOfMore(before: seq<string>, last: string, streams: map<string, string>, o: string)
    requires last in streams
    ensures LastOfStream(before + [last], streams, o) <==>
      o == last || (LastOfStream(before, streams, o) && streams[o] != streams[last])
  {
    var n, all := |before|, before + [last];
    assert LastAt(all, streams, last, n);
    if i :| LastAt(all, streams, o, i) && i != n {
      assert all[n] == last;
      assert LastAt(before, streams, o, i) by {
        assert forall j :: i < j < n ==> all[j] == before[j];
      }
    }
    if i :| LastAt(before, streams, o, i) && streams[o] != streams[last] {
      assert LastAt(all, streams, o, i);
    }
  }

  /** A stream belongs to the last selected output that has it. */
  lemma {:induction false} OutputsOfMeaning(selection: seq<string>, streams: map<string, string>, s: string, o: string)
    requires forall p :: p in selection ==> p in streams
    ensures s in OutputsOf(selection, streams) && OutputsOf(selection, streams)[s] == o <==>
      LastOfStream(selection, streams, o) && streams[o] == s
  {
    if selection == [] {
      assert forall i :: !LastAt(selection, streams, o, i);
    } else {
      hide LastOfStream, LastAt;
      var n := |selection| - 1;
      var before, last := selection[..n], selection[n];
      OutputsOfMeaning(before, streams, s, o);
      assert selection == before + [last];
      LastOfMore(before, last, streams, o);
    }
  }

  function WithRows(m: Metadata, e: Event): Metadata {
    if e.Rows? then m.(rows := Some(e.count), target := if e.target == "" then m.target else Some(e.target)) else m
  }

  // ------------------------------------------------------------ what counts

  /** At event `n`, the stream of the output that started at `i` is running. */
  ghost predicate Open(outputs: map<string, string>, events: seq<Event>, i: nat, n: nat, output: string) {
    && i < n <= |events|
    && events[i].StreamStart? && events[i].stream in outputs && outputs[events[i].stream] == output && output != ""
    && forall k :: i < k < n ==> !events[k].StreamStart? && !events[k].Succeeded? && !events[k].Failed?
  }

  /** The stream of the output that started at `i` succeeds at `j`. */
  ghost predicate SucceedsAt(outputs: map<string, string>, events: seq<Event>, i: nat, j: nat, output: string) {
    j < |events| && events[j].Succeeded? && Open(outputs, events, i, j, output)
  }

  ghost predicate SucceedsBefore(outputs: map<string, string>, events: seq<Event>, n: nat, output: string) {
    exists i: nat, j: nat :: j < n && SucceedsAt(outputs, events, i, j, output)
  }

  /** The stream at `i`, with what the rows up to `n` tell. */
  ghost function MetadataAt(events: seq<Event>, i: nat, n: nat): Metadata
    requires i < n <= |events| && events[i].StreamStart?
  {
    if n == i + 1 then Metadata(Some(events[i].stream), None, None)
    else WithRows(MetadataAt(events, i, n - 1), events[n - 1])
  }

  /** Materialized for the first success of its stream, at event `j`, with the
      metadata of that stream run. */
  ghost predicate MaterializedAt(outputs: map<string, string>, events: seq<Event>, j: nat, m: Materialization) {
    && (exists i :: SucceedsAt(outputs, events, i, j, m.output) && m.metadata == MetadataAt(events, i, j))
    && !SucceedsBefore(outputs, events, j, m.output)
  }

  /** The materializations of the first `n` events and where they happened. */
  ghost predicate Follows(outputs: map<string, string>, events: seq<Event>, n: nat, done: seq<Materialization>,
                          at: seq<nat>) {
    && |at| == |done|
    && (forall k :: 0 <= k < |at| ==> at[k] < n && MaterializedAt(outputs, events, at[k], done[k]))
    && (forall k, l :: 0 <= k < l < |at| ==> at[k] < at[l])
    && (forall o :: SucceedsBefore(outputs, events, n, o) ==> Yielded(done, o))
  }

  ghost predicate Yielded(done: seq<Materialization>, output: string) {
    exists k :: 0 <= k < |done| && done[k].output == output
  }

  /** The current output is that of the open stream. */
  ghost predicate Tracks(outputs: map<string, string>, events: seq<Event>, n: nat, current: Option<string>,
                         metadata: Metadata, start: nat) {
    && (current.Some? && current.value != "" ==>
          Open(outputs, events, start, n, current.value) && metadata == MetadataAt(events, start, n))
    && (forall i, o :: Open(outputs, events, i, n, o) ==> current == Some(o) && i == start)
  }

  // ----------------------------------------- said of the selection and the log

  /** A start of the stream at `i`, and no start or end of a stream until `n`. */
  ghost predicate RunsFrom(events: seq<Event>, stream: string, i: nat, n: nat) {
    && i < n <= |events| && events[i] == StreamStart(stream)
    && forall k :: i < k < n ==> events[k].Rows? || events[k].Otherwise?
  }

  /** The stream of the output, which is the last one selected for it, starts at
      `i` and succeeds at `j`. */
  ghost predicate Reported(selection: seq<string>, streams: map<string, string>, events: seq<Event>, i: nat, j: nat,
                           o: string) {
    && o != "" && LastOfStream(selection, streams, o) && o in streams
    && j < |events| && events[j] == Succeeded && RunsFrom(events, streams[o], i, j)
  }

  /** The last report of rows between `i` and `n`, or the last that names an object. */
  ghost predicate LastRows(events: seq<Event>, i: int, n: int, named: bool, k: int) {
    && 0 <= i < k < n <= |events| && events[k].Rows? && (named ==> events[k].target != "")
    && forall l :: k < l < n && events[l].Rows? ==> named && events[l].target == ""
  }

  /** The metadata of the stream run between `i` and `n`. */
  ghost predicate Describes(events: seq<Event>, i: nat, n: nat, m: Metadata) {
    && i < n <= |events| && events[i].StreamStart? && m.stream == Some(events[i].stream)
    && (m.rows.None? ==> forall k :: i < k < n ==> !events[k].Rows?)
    && (m.rows.Some? ==> exists k :: LastRows(events, i, n, false, k) && events[k].count == m.rows.value)
    && (m.target.None? ==> forall k :: i < k < n && events[k].Rows? ==> events[k].target == "")
    && (m.target.Some? ==> exists k :: LastRows(events, i, n, true, k) && events[k].target == m.target.value)
  }

  ghost predicate ReportedFirst(selection: seq<string>, streams: map<string, string>, events: seq<Event>, j: nat,
                                m: Materialization) {
    && (exists i :: Reported(selection, streams, events, i, j, m.output) && Describes(events, i, j, m.metadata))
    && (forall a: nat, b: nat :: b < j ==> !Reported(selection, streams, events, a, b, m.output))
  }

  /** What the log materializes, in its order: every output it reports, at the
      first report. */
  ghost predicate LogYields(selection: seq<string>, streams: map<string, string>, events: seq<Event>,
                            done: seq<Materialization>, at: seq<nat>) {
    && |at| == |done|
    && (forall k :: 0 <= k < |at| ==> ReportedFirst(selection, streams, events, at[k], done[k]))
    && (forall k, l :: 0 <= k < l < |at| ==> at[k] < at[l])
    && (forall o :: Yielded(done, o) <==> exists i, j :: Reported(selection, streams, events, i, j, o))
  }

  lemma ReportedMeaning(selection: seq<string>, streams: map<string, string>, events: seq<Event>, i: nat, j: nat,
                        o: string)
    requires forall p :: p in selection ==> p in streams
    ensures SucceedsAt(OutputsOf(selection, streams), events, i, j, o) <==>
      Reported(selection, streams, events, i, j, o)
  {
    if i < |events| && events[i].StreamStart? {
      OutputsOfMeaning(selection, streams, events[i].stream, o);
    }
    hide OutputsOf, LastOfStream;
  }

  lemma {:induction false} MetadataMeaning(events: seq<Event>, i: nat, n: nat)
    requires i < n <= |events| && events[i].StreamStart?
    ensures Describes(events, i, n, MetadataAt(events, i, n))
    decreases n
  {
    if n > i + 1 {
      MetadataMeaning(events, i, n - 1);
      RowsDescribed(events, i, n - 1, MetadataAt(events, i, n - 1));
    }
  }

  lemma RowsDescribed(events: seq<Event>, i: nat, n: nat, m: Metadata)
    requires n < |events| && Describes(events, i, n, m)
    ensures Describes(events, i, n + 1, WithRows(m, events[n]))
  {
    var next := n + 1;
    if events[n].Rows? {
      assert LastRows(events, i, next, false, n);
      if events[n].target != "" {
        assert LastRows(events, i, next, true, n);
      }
    }
    forall k, named | LastRows(events, i, n, named, k) && (events[n].Rows? ==> named && events[n].target == "")
      ensures LastRows(events, i, next, named, k)
    {
    }
  }

  lemma LogYieldsMeaning(selection: seq<string>, streams: map<string, string>, events: seq<Event>,
                         done: seq<Materialization>, at: seq<nat>)
    requires forall p :: p in selection ==> p in streams
    requires Follows(OutputsOf(selection, streams), events, |events|, done, at)
    ensures LogYields(selection, streams, events, done, at)
  {
    hide OutputsOf, SucceedsAt, Reported, Describes, MetadataAt;
    var outputs := OutputsOf(selection, streams);
    forall i: nat, j: nat, o
      ensures SucceedsAt(outputs, events, i, j, o) <==> Reported(selection, streams, events, i, j, o)
    {
      ReportedMeaning(selection, streams, events, i, j, o);
    }
    forall k | 0 <= k < |at|
      ensures ReportedFirst(selection, streams, events, at[k], done[k])
    {
      FirstMeaning(selection, streams, events, at[k], done[k]);
    }
    forall o
      ensures Yielded(done, o) <==> exists i, j :: Reported(selection, streams, events, i, j, o)
    {
      YieldedExactlyWhen(outputs, events, done, at, o);
    }
  }

  lemma FirstMeaning(selection: seq<string>, streams: map<string, string>, events: seq<Event>, j: nat,
                     m: Materialization)
    requires forall p :: p in selection ==> p in streams
    requires MaterializedAt(OutputsOf(selection, streams), events, j, m)
    ensures ReportedFirst(selection, streams, events, j, m)
  {
    hide OutputsOf, Reported, Describes, MetadataAt;
    var outputs := OutputsOf(selection, streams);
    var i: nat :| SucceedsAt(outputs, events, i, j, m.output) && m.metadata == MetadataAt(events, i, j);
    ReportedMeaning(selection, streams, events, i, j, m.output);
    MetadataMeaning(events, i, j);
    forall a: nat, b: nat | b < j
      ensures !Reported(selection, streams, events, a, b, m.output)
    {
      ReportedMeaning(selection, streams, events, a, b, m.output);
    }
  }

  // ------------------------------------------------------------------ the steps

  lemma OpenAfter(outputs: map<string, string>, events: seq<Event>, i: nat, n: nat, o: string)
    requires n < |events|
    ensures Open(outputs, events, i, n + 1, o) <==>
      if i == n then events[n].StreamStart? && events[n].stream in outputs && outputs[events[n].stream] == o && o != ""
      else Open(outputs, events, i, n, o) && !events[n].StreamStart? && !events[n].Succeeded? && !events[n].Failed?
  {
  }

  function Started(outputs: map<string, string>, stream: string): Option<string> {
    if stream in outputs then Some(outputs[stream]) else None
  }

  lemma Starts(outputs: map<string, string>, events: seq<Event>, n: nat)
    requires n < |events| && events[n].StreamStart?
    ensures Tracks(outputs, events, n + 1, Started(outputs, events[n].stream),
                   Metadata(Some(events[n].stream), None, None), n)
  {
    var next := n + 1;
    forall i: nat, o
      ensures Open(outputs, events, i, next, o) <==> i == n && Started(outputs, events[n].stream) == Some(o) && o != ""
    {
      OpenAfter(outputs, events, i, n, o);
    }
  }

  /** A success or a failure closes the open stream. */
  lemma Closes(outputs: map<string, string>, events: seq<Event>, n: nat, current: Option<string>, metadata: Metadata,
               start: nat)
    requires n < |events| && (events[n].Failed? || events[n].Succeeded?)
    requires current.None? || current == Some("")
    ensures Tracks(outputs, events, n + 1, current, metadata, start)
  {
    var next := n + 1;
    forall i: nat, o
      ensures !Open(outputs, events, i, next, o)
    {
      OpenAfter(outputs, events, i, n, o);
    }
  }

  /** Any other event lets it run on. */
  lemma RunsOn(outputs: map<string, string>, events: seq<Event>, n: nat, current: Option<string>, metadata: Metadata,
               start: nat)
    requires n < |events| && Tracks(outputs, events, n, current, metadata, start)
    requires events[n].Rows? || events[n].Otherwise?
    ensures Tracks(outputs, events, n + 1, current, WithRows(metadata, events[n]), start)
  {
    var next := n + 1;
    forall i: nat, o
      ensures Open(outputs, events, i, next, o) <==> Open(outputs, events, i, n, o)
    {
      OpenAfter(outputs, events, i, n, o);
    }
  }

  lemma NoNewSuccess(outputs: map<string, string>, events: seq<Event>, n: nat, done: seq<Materialization>, at: seq<nat>)
    requires n < |events| && Follows(outputs, events, n, done, at)
    requires forall i, o :: SucceedsAt(outputs, events, i, n, o) ==> Yielded(done, o)
    ensures Follows(outputs, events, n + 1, done, at)
  {
    var next := n + 1;
    forall o | SucceedsBefore(outputs, events, next, o)
      ensures Yielded(done, o)
    {
      var i: nat, j: nat :| j < next && SucceedsAt(outputs, events, i, j, o);
      if j < n {
        assert SucceedsBefore(outputs, events, n, o);
      }
    }
  }

  lemma NewSuccess(outputs: map<string, string>, events: seq<Event>, n: nat, done: seq<Materialization>, at: seq<nat>,
                   m: Materialization)
    requires n < |events| && Follows(outputs, events, n, done, at)
    requires MaterializedAt(outputs, events, n, m)
    requires forall i, o :: SucceedsAt(outputs, events, i, n, o) ==> o == m.output
    ensures Follows(outputs, events, n + 1, done + [m], at + [n])
  {
    var next := n + 1;
    forall o | SucceedsBefore(outputs, events, next, o)
      ensures Yielded(done + [m], o)
    {
      var i: nat, j: nat :| j < next && SucceedsAt(outputs, events, i, j, o);
      if j < n {
        assert SucceedsBefore(outputs, events, n, o);
        var k :| 0 <= k < |done| && done[k].output == o;
        assert (done + [m])[k].output == o;
      } else {
        assert (done + [m])[|done|].output == o;
      }
    }
  }

  /** The open stream succeeds for the first time. */
  lemma FirstSuccess(outputs: map<string, string>, events: seq<Event>, n: nat, o: string, metadata: Metadata,
                     start: nat,
                     done: seq<Materialization>, at: seq<nat>)
    requires n < |events| && events[n].Succeeded? && Tracks(outputs, events, n, Some(o), metadata, start) && o != ""
    requires Follows(outputs, events, n, done, at) && !Yielded(done, o)
    ensures Follows(outputs, events, n + 1, done + [Materialization(o, metadata)], at + [n])
  {
    var m := Materialization(o, metadata);
    assert SucceedsAt(outputs, events, start, n, o);
    assert MaterializedAt(outputs, events, n, m);
    NewSuccess(outputs, events, n, done, at, m);
  }

  // ------------------------------------------------------------- following it

  /** The loop over sling's log. */
  method FollowLog(outputs: map<string, string>, events: seq<Event>)
    returns (done: seq<Materialization>, materialized: set<string>, ghost at: seq<nat>)
    ensures Follows(outputs, events, |events|, done, at)
    ensures forall o :: o in materialized <==> Yielded(done, o)
  {
    hide Tracks, Follows;
    done, materialized, at := [], {}, [];
    var current: Option<string>, metadata := None, Metadata(None, None, None);
    ghost var start := 0;
    NothingYet(outputs, events);
    for n := 0 to |events|
      invariant Follows(outputs, events, n, done, at)
      invariant forall o :: o in materialized <==> Yielded(done, o)
      invariant Tracks(outputs, events, n, current, metadata, start)
    {
      var e := events[n];
      if e.Succeeded? {
        if current.Some? && current.value != "" {
          if current.value !in materialized {
            FirstSuccess(outputs, events, n, current.value, metadata, start, done, at);
            YieldedMore(done, Materialization(current.value, metadata));
            materialized := materialized + {current.value};
            done, at := done + [Materialization(current.value, metadata)], at + [n];
          } else {
            SucceedsAgain(outputs, events, n, current, metadata, start, done);
            NoNewSuccess(outputs, events, n, done, at);
          }
          current := None;
        } else {
          SucceedsAgain(outputs, events, n, current, metadata, start, done);
          NoNewSuccess(outputs, events, n, done, at);
        }
        Closes(outputs, events, n, current, metadata, start);
      } else {
        NoNewSuccess(outputs, events, n, done, at);
        match e {
          case StreamStart(stream) =>
            Starts(outputs, events, n);
            current, metadata, start := Started(outputs, stream), Metadata(Some(stream), None, None), n;
          case Failed =>
            current := None;
            Closes(outputs, events, n, current, metadata, start);
          case Rows(_, _) =>
            RunsOn(outputs, events, n, current, metadata, start);
            metadata := WithRows(metadata, e);
          case Otherwise =>
            RunsOn(outputs, events, n, current, metadata, start);
        }
      }
    }
  }

  lemma NothingYet(outputs: map<string, string>, events: seq<Event>)
    ensures Follows(outputs, events, 0, [], [])
    ensures Tracks(outputs, events, 0, None, Metadata(None, None, None), 0)
  {
  }

  lemma YieldedMore(done: seq<Materialization>, m: Materialization)
    ensures forall o :: Yielded(done + [m], o) <==> Yielded(done, o) || o == m.output
  {
    var more := done + [m];
    forall o
      ensures Yielded(more, o) <==> Yielded(done, o) || o == m.output
    {
      if k :| 0 <= k < |done| && done[k].output == o {
        assert more[k].output == o;
      }
      assert more[|done|].output == m.output;
    }
  }

  /** A success counts only for the current output. */
  lemma SucceedsAgain(outputs: map<string, string>, events: seq<Event>, n: nat, current: Option<string>,
                      metadata: Metadata,
                      start: nat, done: seq<Materialization>)
    requires n < |events| && events[n].Succeeded? && Tracks(outputs, events, n, current, metadata, start)
    requires current.Some? && current.value != "" ==> Yielded(done, current.value)
    ensures forall i, o :: SucceedsAt(outputs, events, i, n, o) ==> Yielded(done, o)
  {
  }

  // ---------------------------------------------------------------- replicate

  /** The run ended well, sling failed, or a selected output has no stream. */
  datatype Outcome = Completed | SlingError | UnknownOutput

  /** The selected outputs the log did not materialize. */
  function Remaining(selection: seq<string>, materialized: set<string>,
                     streams: map<string, string>): seq<Materialization>
    requires forall o :: o in selection ==> o in streams
  {
    if selection == [] then []
    else
      (if selection[0] in materialized then []
       else [Materialization(selection[0], Metadata(Some(streams[selection[0]]), None, None))])
      + Remaining(selection[1..], materialized, streams)
  }

  /** What is yielded at the end: the output at this place, with its stream alone. */
  ghost predicate LeftAt(selection: seq<string>, streams: map<string, string>, materialized: set<string>, i: int,
                         m: Materialization) {
    && 0 <= i < |selection| && selection[i] in streams && selection[i] !in materialized
    && m == Materialization(selection[i], Metadata(Some(streams[selection[i]]), None, None))
  }

  /** In the order of the selection, every output from place `n` on that the log
      did not materialize. */
  ghost predicate Leftover(selection: seq<string>, n: nat, streams: map<string, string>, materialized: set<string>,
                           rest: seq<Materialization>, from: seq<nat>) {
    && |from| == |rest|
    && (forall k :: 0 <= k < |from| ==> n <= from[k] && LeftAt(selection, streams, materialized, from[k], rest[k]))
    && (forall k, l :: 0 <= k < l < |from| ==> from[k] < from[l])
    && (forall i: nat :: n <= i < |selection| && selection[i] !in materialized ==> i in from)
  }

  lemma {:induction false} RemainingMeaning(selection: seq<string>, n: nat, materialized: set<string>,
                                            streams: map<string, string>)
    returns (from: seq<nat>)
    requires n <= |selection| && forall o :: o in selection ==> o in streams
    ensures Leftover(selection, n, streams, materialized, Remaining(selection[n..], materialized, streams), from)
    decreases |selection| - n
  {
    if n == |selection| {
      from := [];
    } else {
      var next := n + 1;
      var later := RemainingMeaning(selection, next, materialized, streams);
      assert selection[n..][1..] == selection[next..];
      var rest := Remaining(selection[next..], materialized, streams);
      if selection[n] in materialized {
        assert [] + rest == rest;
        from := later;
      } else {
        from := [n] + later;
        var m := Materialization(selection[n], Metadata(Some(streams[selection[n]]), None, None));
        LeftoverMore(selection, n, streams, materialized, m, rest, later);
      }
    }
  }

  lemma LeftoverMore(selection: seq<string>, n: nat, streams: map<string, string>, materialized: set<string>,
                     m: Materialization, rest: seq<Materialization>, later: seq<nat>)
    requires Leftover(selection, n + 1, streams, materialized, rest, later)
    requires LeftAt(selection, streams, materialized, n, m)
    ensures Leftover(selection, n, streams, materialized, [m] + rest, [n] + later)
  {
    hide LeftAt;
    var from := [n] + later;
    assert from[0] == n;
    forall i: nat | n < i < |selection| && selection[i] !in materialized
      ensures i in from
    {
      assert i in later;
    }
  }

  /** A log followed to its end, for a selection of known outputs. */
  ghost predicate Completes(selection: seq<string>, streams: map<string, string>, events: seq<Event>,
                            done: seq<Materialization>, at: seq<nat>, materialized: set<string>) {
    && (forall s :: s in selection ==> s in streams)
    && Follows(OutputsOf(selection, streams), events, |events|, done, at)
    && (forall m :: m in materialized <==> Yielded(done, m))
  }

  /** The loop after sling's exit. */
  method YieldRest(selection: seq<string>, materialized: set<string>, streams: map<string, string>)
    returns (rest: seq<Materialization>)
    requires forall o :: o in selection ==> o in streams
    ensures rest == Remaining(selection, materialized, streams)
  {
    rest := [];
    for i := 0 to |selection|
      invariant rest + Remaining(selection[i..], materialized, streams) == Remaining(selection, materialized, streams)
    {
      assert selection[i..][1..] == selection[i + 1..];
      if selection[i] !in materialized {
        rest := rest + [Materialization(selection[i], Metadata(Some(streams[selection[i]]), None, None))];
      }
    }
  }

  /** `replicate`: what it yields in turn, and how it ends. */
  method Replicate(selection: seq<string>, streams: map<string, string>, events: seq<Event>, code: int)
    returns (yielded: seq<Materialization>, outcome: Outcome,
             ghost done: seq<Materialization>, ghost at: seq<nat>, ghost materialized: set<string>,
             ghost from: seq<nat>)
    ensures outcome == UnknownOutput <==> exists o :: o in selection && o !in streams
    ensures outcome == UnknownOutput ==> yielded == []
    ensures outcome != UnknownOutput ==> (outcome == SlingError <==> code != 0)
    ensures outcome != UnknownOutput ==> Completes(selection, streams, events, done, at, materialized)
    ensures outcome != UnknownOutput ==> LogYields(selection, streams, events, done, at)
    ensures outcome == SlingError ==> yielded == done
    ensures outcome == Completed ==> yielded == done + Remaining(selection, materialized, streams)
    ensures outcome == Completed ==>
      done <= yielded && Leftover(selection, 0, streams, materialized, yielded[|done|..], from)
  {
    hide Follows, LogYields, Leftover, OutputsOf, Yielded;
    yielded, done, at, materialized, from := [], [], [], {}, [];
    for i := 0 to |selection|
      invariant forall j :: 0 <= j < i ==> selection[j] in streams
    {
      if selection[i] !in streams {
        return [], UnknownOutput, [], [], {}, [];
      }
    }
    var seen: set<string>;
    yielded, seen, at := FollowLog(OutputsOf(selection, streams), events);
    done, materialized := yielded, seen;
    LogYieldsMeaning(selection, streams, events, done, at);
    if code != 0 {
      return yielded, SlingError, done, at, materialized, from;
    }
    var rest := YieldRest(selection, seen, streams);
    yielded := yielded + rest;
    from := RemainingMeaning(selection, 0, materialized, streams);
    Tail(done, Remaining(selection, materialized, streams));
    assert selection[0..] == selection;
    outcome := Completed;
  }

  lemma Tail(a: seq<Materialization>, b: seq<Materialization>)
    ensures a <= a + b && (a + b)[|a|..] == b
  {
  }

  // --------------------------------------------------- what the run promises

  ghost predicate Repeats(yielded: seq<Materialization>, k: int, l: int) {
    0 <= k < l < |yielded| && yielded[k].output == yielded[l].output
  }

  ghost predicate EachOnce(yielded: seq<Materialization>) {
    forall k, l :: !Repeats(yielded, k, l)
  }

  /** Following the log yields exactly the outputs whose own stream start is
      followed by a success without another start, success or failure. */
  lemma YieldedExactlyWhen(outputs: map<string, string>, events: seq<Event>, done: seq<Materialization>, at: seq<nat>,
                           o: string)
    requires Follows(outputs, events, |events|, done, at)
    ensures Yielded(done, o) <==> exists i: nat, j: nat :: SucceedsAt(outputs, events, i, j, o)
  {
    if k :| 0 <= k < |done| && done[k].output == o {
      assert MaterializedAt(outputs, events, at[k], done[k]);
    }
    if i: nat, j: nat :| SucceedsAt(outputs, events, i, j, o) {
      assert SucceedsBefore(outputs, events, |events|, o);
    }
  }

  lemma SucceededEarlier(outputs: map<string, string>, events: seq<Event>, n: nat, done: seq<Materialization>,
                         at: seq<nat>, k: nat, l: nat)
    requires Follows(outputs, events, n, done, at) && k < l < |done|
    ensures SucceedsBefore(outputs, events, at[l], done[k].output)
    ensures MaterializedAt(outputs, events, at[l], done[l])
  {
    assert MaterializedAt(outputs, events, at[k], done[k]);
  }

  /** It yields each of them once. */
  lemma LogYieldsOnce(outputs: map<string, string>, events: seq<Event>, n: nat, done: seq<Materialization>,
                      at: seq<nat>)
    requires Follows(outputs, events, n, done, at)
    ensures EachOnce(done)
  {
    forall k, l
      ensures !Repeats(done, k, l)
    {
      if 0 <= k < l < |done| {
        SucceededEarlier(outputs, events, n, done, at, k, l);
      }
    }
  }

  /** It yields selected outputs only. */
  lemma LogYieldsSelected(selection: seq<string>, streams: map<string, string>, events: seq<Event>,
                          done: seq<Materialization>, at: seq<nat>, o: string)
    requires forall s :: s in selection ==> s in streams
    requires Follows(OutputsOf(selection, streams), events, |events|, done, at) && Yielded(done, o)
    ensures o in selection
  {
    YieldedExactlyWhen(OutputsOf(selection, streams), events, done, at, o);
  }

  lemma {:induction false} RemainingYields(selection: seq<string>, materialized: set<string>,
                                           streams: map<string, string>, o: string)
    requires forall s :: s in selection ==> s in streams
    ensures Yielded(Remaining(selection, materialized, streams), o) <==> o in selection && o !in materialized
  {
    if selection != [] {
      var rest := Remaining(selection[1..], materialized, streams);
      RemainingYields(selection[1..], materialized, streams, o);
      if selection[0] !in materialized {
        YieldedFirst(Materialization(selection[0], Metadata(Some(streams[selection[0]]), None, None)), rest, o);
      } else {
        assert Remaining(selection, materialized, streams) == [] + rest == rest;
      }
    }
  }

  lemma YieldedFirst(m: Materialization, rest: seq<Materialization>, o: string)
    ensures Yielded([m] + rest, o) <==> o == m.output || Yielded(rest, o)
  {
    var all := [m] + rest;
    assert all[0] == m;
    if k :| 0 <= k < |rest| && rest[k].output == o {
      assert all[k + 1].output == o;
    }
    if k :| 0 <= k < |all| && all[k].output == o && k > 0 {
      assert rest[k - 1].output == o;
    }
  }

  lemma YieldedByBoth(a: seq<Materialization>, b: seq<Materialization>, o: string)
    ensures Yielded(a + b, o) <==> Yielded(a, o) || Yielded(b, o)
  {
    var all := a + b;
    if k :| 0 <= k < |a| && a[k].output == o {
      assert all[k].output == o;
    }
    if k :| 0 <= k < |b| && b[k].output == o {
      assert all[|a| + k].output == o;
    }
    if k :| 0 <= k < |all| && all[k].output == o {
      assert if k < |a| then a[k].output == o else b[k - |a|].output == o;
    }
  }

  /** A completed run yields exactly the selected outputs. */
  lemma CompletedYieldsSelection(selection: seq<string>, streams: map<string, string>, events: seq<Event>,
                                 done: seq<Materialization>, at: seq<nat>, materialized: set<string>, o: string)
    requires Completes(selection, streams, events, done, at, materialized)
    ensures Yielded(done + Remaining(selection, materialized, streams), o) <==> o in selection
  {
    hide Follows;
    YieldedByBoth(done, Remaining(selection, materialized, streams), o);
    RemainingYields(selection, materialized, streams, o);
    if Yielded(done, o) {
      LogYieldsSelected(selection, streams, events, done, at, o);
    }
  }

  /** Naming an output twice that the log did not materialize. */
  ghost predicate RepeatsUnseen(selection: seq<string>, materialized: set<string>, i: int, j: int) {
    0 <= i < j < |selection| && selection[i] == selection[j] && selection[i] !in materialized
  }

  lemma OnceInBoth(a: seq<Materialization>, b: seq<Materialization>)
    requires EachOnce(a) && forall o :: !(Yielded(a, o) && Yielded(b, o))
    ensures EachOnce(a + b) <==> EachOnce(b)
  {
    var all := a + b;
    forall k, l | Repeats(b, k, l)
      ensures Repeats(all, |a| + k, |a| + l)
    {
    }
    forall k, l
      ensures Repeats(all, k, l) ==> Repeats(b, k - |a|, l - |a|)
    {
      assert !Repeats(a, k, l);
      if 0 <= k < |a| <= l < |all| {
        assert Yielded(a, a[k].output) && Yielded(b, b[l - |a|].output);
      }
    }
  }

  lemma {:induction false} RemainingOnce(selection: seq<string>, materialized: set<string>,
                                         streams: map<string, string>)
    requires forall s :: s in selection ==> s in streams
    ensures EachOnce(Remaining(selection, materialized, streams)) <==>
      forall i, j :: !RepeatsUnseen(selection, materialized, i, j)
  {
    if selection != [] {
      var o, rest := selection[0], Remaining(selection[1..], materialized, streams);
      RemainingOnce(selection[1..], materialized, streams);
      RemainingYields(selection[1..], materialized, streams, o);
      SelectionRepeats(selection, materialized);
      if o in materialized {
        assert Remaining(selection, materialized, streams) == [] + rest == rest;
      } else {
        OnceWithFirst(Materialization(o, Metadata(Some(streams[o]), None, None)), rest);
      }
    }
  }

  lemma OnceWithFirst(m: Materialization, rest: seq<Materialization>)
    ensures EachOnce([m] + rest) <==> EachOnce(rest) && !Yielded(rest, m.output)
  {
    var all := [m] + rest;
    if k :| 0 <= k < |rest| && rest[k].output == m.output {
      assert Repeats(all, 0, k + 1);
    }
    if k, l :| Repeats(rest, k, l) {
      assert Repeats(all, k + 1, l + 1);
    }
    if k, l :| Repeats(all, k, l) {
      assert rest[l - 1] == all[l];
      assert k > 0 ==> Repeats(rest, k - 1, l - 1);
    }
  }

  lemma SelectionRepeats(selection: seq<string>, materialized: set<string>)
    requires selection != []
    ensures (exists i, j :: RepeatsUnseen(selection, materialized, i, j)) <==>
      || (exists i, j :: RepeatsUnseen(selection[1..], materialized, i, j))
      || (selection[0] in selection[1..] && selection[0] !in materialized)
  {
    var rest := selection[1..];
    if i, j :| RepeatsUnseen(selection, materialized, i, j) {
      assert rest[j - 1] == selection[j];
      assert i > 0 ==> RepeatsUnseen(rest, materialized, i - 1, j - 1);
    }
    if i, j :| RepeatsUnseen(rest, materialized, i, j) {
      assert RepeatsUnseen(selection, materialized, i + 1, j + 1);
    }
    if j :| 0 <= j < |rest| && rest[j] == selection[0] {
      assert selection[0] !in materialized ==> RepeatsUnseen(selection, materialized, 0, j + 1);
    }
  }

  lemma CompletedOnce(selection: seq<string>, streams: map<string, string>, events: seq<Event>,
                      done: seq<Materialization>, at: seq<nat>, materialized: set<string>)
    requires Completes(selection, streams, events, done, at, materialized)
    ensures EachOnce(done + Remaining(selection, materialized, streams)) <==>
      forall i, j :: !RepeatsUnseen(selection, materialized, i, j)
  {
    LogYieldsOnce(OutputsOf(selection, streams), events, |events|, done, at);
    hide Follows, Remaining, OutputsOf;
    forall o
      ensures !(Yielded(done, o) && Yielded(Remaining(selection, materialized, streams), o))
    {
      RemainingYields(selection, materialized, streams, o);
    }
    OnceInBoth(done, Remaining(selection, materialized, streams));
    RemainingOnce(selection, materialized, streams);
  }

  /** In this log some stream of the output succeeds. */
  ghost predicate Succeeds(selection: seq<string>, streams: map<string, string>, events: seq<Event>, o: string)
    requires forall s :: s in selection ==> s in streams
  {
    exists a: nat, b: nat :: Reported(selection, streams, events, a, b, o)
  }

  /** The selection names an output twice that does not succeed in the log. */
  ghost predicate NamedTwice(selection: seq<string>, streams: map<string, string>, events: seq<Event>, i: int, j: int)
    requires forall s :: s in selection ==> s in streams
  {
    0 <= i < j < |selection| && selection[i] == selection[j] && !Succeeds(selection, streams, events, selection[i])
  }

  /** A completed run yields each output once exactly when the selection does
      not name twice an output that does not succeed in the log. */
  lemma CompletedOnceExactlyWhen(selection: seq<string>, streams: map<string, string>, events: seq<Event>,
                                 done: seq<Materialization>, at: seq<nat>, materialized: set<string>)
    requires Completes(selection, streams, events, done, at, materialized)
    ensures EachOnce(done + Remaining(selection, materialized, streams)) <==>
      forall i, j :: !NamedTwice(selection, streams, events, i, j)
  {
    CompletedOnce(selection, streams, events, done, at, materialized);
    LogYieldsMeaning(selection, streams, events, done, at);
    hide EachOnce, Remaining, OutputsOf, Follows, Reported, ReportedFirst;
    forall i, j
      ensures NamedTwice(selection, streams, events, i, j) <==> RepeatsUnseen(selection, materialized, i, j)
    {
      if 0 <= i < |selection| {
        assert Succeeds(selection, streams, events, selection[i]) <==> Yielded(done, selection[i]);
      }
    }
  }

  // ------------------------------------------------------------- for every log

  ghost predicate OnceForEveryLog(selection: seq<string>, streams: map<string, string>)
    requires forall s :: s in selection ==> s in streams
  {
    forall events, done, at, materialized :: Completes(selection, streams, events, done, at, materialized) ==>
      EachOnce(done + Remaining(selection, materialized, streams))
  }

  ghost predicate Named(selection: seq<string>, i: int, j: int) {
    0 <= i < j < |selection| && selection[i] == selection[j]
  }

  /** An empty log and an output named twice: it is yielded twice. */
  lemma SilentLogRepeats(selection: seq<string>, streams: map<string, string>, i: int, j: int)
    requires (forall s :: s in selection ==> s in streams) && Named(selection, i, j)
    ensures Completes(selection, streams, [], [], [], {})
    ensures !EachOnce([] + Remaining(selection, {}, streams))
  {
    NothingYet(OutputsOf(selection, streams), []);
    CompletedOnce(selection, streams, [], [], [], {});
    assert RepeatsUnseen(selection, {}, i, j);
  }

  /** The run of any log yields each output once exactly when the selection
      names no output twice. */
  lemma OnceForEveryLogExactlyWhen(selection: seq<string>, streams: map<string, string>)
    requires forall s :: s in selection ==> s in streams
    ensures OnceForEveryLog(selection, streams) <==> forall i, j :: !Named(selection, i, j)
  {
    hide Completes, EachOnce, Remaining;
    if i, j :| Named(selection, i, j) {
      SilentLogRepeats(selection, streams, i, j);
    } else {
      forall events, done, at, materialized | Completes(selection, streams, events, done, at, materialized)
        ensures EachOnce(done + Remaining(selection, materialized, streams))
      {
        CompletedOnce(selection, streams, events, done, at, materialized);
        forall i, j
          ensures !RepeatsUnseen(selection, materialized, i, j)
        {
          assert !Named(selection, i, j);
        }
      }
    }
  }
}
