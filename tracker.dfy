/** The single pass over the parsed snapshot (the stream's `"data"` handler,
    index.js:52-74): stale and error entries go straight to the processed list,
    every other entry joins the record of its operation, whose score is a
    saturating count of open "start" events. */
module OperationTracker {
  import opened Strings
  import opened LogEntries

  /** The record `{score, events}` kept per `Id_operation`. */
  datatype Operation = Operation(score: int, events: seq<LogEntry>)

  /** The variables the handler updates: `processedLogObjects`, the
      `operations` dictionary (its keys in insertion order in `ids`, which is
      the order a `for…in` loop visits them) and `lastProcessedTimestamp`. */
  datatype Tally = Tally(
    processed: seq<LogEntry>,
    ids: seq<string>,
    operations: map<string, Operation>,
    lastProcessedTimestamp: int)

  /** The state before the first entry is read (index.js:48-51). */
  const Initial: Tally := Tally([], [], map[], 0)

  /** The entry is shipped regardless of its operation: it is stale, or it
      belongs to an operation named "Error" (index.js:57). */
  predicate IsForced(e: LogEntry, cutoff: int)
  {
    e.time <= cutoff || e.operationName == "Error"
  }

  /** The score after one more event of the operation (index.js:63-70). */
  function NextScore(score: int, eventName: string): int
  {
    if EndsWith(eventName, "start") then score + 1
    else if EndsWith(eventName, "end") && score > 0 then score - 1
    else score
  }

  /** The handler applied to one entry. */
  function Step(t: Tally, e: LogEntry, cutoff: int): Tally
  {
    if IsForced(e, cutoff) then
      t.(processed := t.processed + [e], lastProcessedTimestamp := e.time)
    else
      var id := e.operationId;
      var known := id in t.operations;
      var op := if known then t.operations[id] else Operation(0, []);
      t.(ids := if known then t.ids else t.ids + [id],
         operations := t.operations[id := Operation(NextScore(op.score, e.eventName), op.events + [e])],
         lastProcessedTimestamp := e.time)
  }

  /** The handler applied to every entry, in stream order. */
  function Classify(entries: seq<LogEntry>, cutoff: int): Tally
  {
    if entries == [] then Initial
    else Step(Classify(entries[..|entries| - 1], cutoff), entries[|entries| - 1], cutoff)
  }

  /** The pass itself: the closure's variables are this method's locals and
      the loop body is the `"data"` handler. */
  method Aggregate(entries: seq<LogEntry>, now: int)
    returns (processed: seq<LogEntry>, ids: seq<string>, operations: map<string, Operation>, lastProcessedTimestamp: int)
    ensures Tally(processed, ids, operations, lastProcessedTimestamp) == Classify(entries, Cutoff(now))
  {
    processed, ids, operations, lastProcessedTimestamp := [], [], map[], 0;
    var eventTimeLimitAgo := now - EVENT_TIME_LIMIT;
    var i := 0;
    while i < |entries|
      invariant 0 <= i <= |entries|
      invariant Tally(processed, ids, operations, lastProcessedTimestamp) == Classify(entries[..i], eventTimeLimitAgo)
    {
      var obj := entries[i];
      if obj.time <= eventTimeLimitAgo || obj.operationName == "Error" {
        processed := processed + [obj];
      } else {
        if obj.operationId !in operations {
          operations := operations[obj.operationId := Operation(0, [])];
          ids := ids + [obj.operationId];
        }
        var score := operations[obj.operationId].score;
        if EndsWith(obj.eventName, "start") {
          score := score + 1;
        } else if EndsWith(obj.eventName, "end") && score > 0 {
          score := score - 1;
        }
        operations := operations[obj.operationId := Operation(score, operations[obj.operationId].events + [obj])];
      }
      lastProcessedTimestamp := obj.time;
      assert entries[..i + 1][..i] == entries[..i];
      i := i + 1;
    }
    assert entries[..|entries|] == entries;
  }

  // ---------------------------------------------------------------------
  // Reference definitions, stated without the handler's bookkeeping.

  /** The entries shipped regardless of their operation, in arrival order. */
  function Forced(entries: seq<LogEntry>, cutoff: int): seq<LogEntry>
  {
    if entries == [] then []
    else
      var e := entries[|entries| - 1];
      Forced(entries[..|entries| - 1], cutoff) + (if IsForced(e, cutoff) then [e] else [])
  }

  /** The entries that go to their operation's record, in arrival order. */
  function Tracked(entries: seq<LogEntry>, cutoff: int): seq<LogEntry>
  {
    if entries == [] then []
    else
      var e := entries[|entries| - 1];
      Tracked(entries[..|entries| - 1], cutoff) + (if IsForced(e, cutoff) then [] else [e])
  }

  /** The entries of operation `id`, in arrival order. */
  function EventsOf(entries: seq<LogEntry>, id: string): seq<LogEntry>
  {
    if entries == [] then []
    else
      var e := entries[|entries| - 1];
      EventsOf(entries[..|entries| - 1], id) + (if e.operationId == id then [e] else [])
  }

  /** The score of an operation whose events, in order, are `events`. */
  function ScoreOf(events: seq<LogEntry>): int
  {
    if events == [] then 0
    else NextScore(ScoreOf(events[..|events| - 1]), events[|events| - 1].eventName)
  }

  /** What one event contributes to an unsaturated count. */
  function Delta(eventName: string): int
  {
    if EndsWith(eventName, "start") then 1
    else if EndsWith(eventName, "end") then -1
    else 0
  }

  /** Starts minus ends among `events`. */
  function Balance(events: seq<LogEntry>): int
  {
    if events == [] then 0
    else Balance(events[..|events| - 1]) + Delta(events[|events| - 1].eventName)
  }

  predicate NoDuplicates(xs: seq<string>)
  {
    forall i, j :: 0 <= i < j < |xs| ==> xs[i] != xs[j]
  }

  /** Every event stored under a key carries that key as its operation id. */
  predicate Keyed(operations: map<string, Operation>)
  {
    forall id, e :: id in operations && e in operations[id].events ==> e.operationId == id
  }

  // ---------------------------------------------------------------------
  // Properties of the pass.

  /** The score is a saturating counter: one more event moves it by that
      event's delta, floored at zero. */
  lemma NextScoreSaturates(score: int, eventName: string)
    requires score >= 0
    ensures NextScore(score, eventName) == if score + Delta(eventName) < 0 then 0 else score + Delta(eventName)
  {
  }

  /** The final score is the largest balance of any suffix of the events (the
      empty suffix included), so it never goes negative, and it is zero exactly
      when every suffix has at least as many ends as starts. */
  lemma {:induction false} ScoreIsLargestSuffixBalance(events: seq<LogEntry>)
    ensures forall k :: 0 <= k <= |events| ==> Balance(events[k..]) <= ScoreOf(events)
    ensures exists k :: 0 <= k <= |events| && Balance(events[k..]) == ScoreOf(events)
  {
    if events == [] {
      assert Balance(events[0..]) == 0;
    } else {
      var n := |events| - 1;
      var init := events[..n];
      var d := Delta(events[n].eventName);
      ScoreIsLargestSuffixBalance(init);
      var k0 :| 0 <= k0 <= n && Balance(init[k0..]) == ScoreOf(init);
      assert init[n..] == [];
      assert ScoreOf(events) == NextScore(ScoreOf(init), events[n].eventName);
      NextScoreSaturates(ScoreOf(init), events[n].eventName);
      forall k | 0 <= k <= n
        ensures Balance(events[k..]) == Balance(init[k..]) + d
      {
        assert events[k..][..|events[k..]| - 1] == init[k..];
      }
      assert Balance(events[n + 1..]) == 0;
      forall k | 0 <= k <= |events|
        ensures Balance(events[k..]) <= ScoreOf(events)
      {
        if k <= n {
          assert Balance(init[k..]) <= ScoreOf(init);
        }
      }
      if ScoreOf(init) + d < 0 {
        assert Balance(events[n + 1..]) == ScoreOf(events);
      } else {
        assert Balance(events[k0..]) == ScoreOf(events);
      }
    }
  }

  /** The score of an operation never goes negative. */
  lemma ScoreNonNegative(events: seq<LogEntry>)
    ensures ScoreOf(events) >= 0
  {
    ScoreIsLargestSuffixBalance(events);
    assert events[|events|..] == [];
  }

  /** Reading one more entry: stale and error entries are appended to the
      processed list and leave every operation record as it was; any other
      entry leaves the processed list as it was and is appended to the events
      of its own operation only, which starts from score 0 and no events when
      first seen. Either way the last timestamp becomes the entry's. */
  lemma StepEffect(t: Tally, e: LogEntry, cutoff: int)
    ensures var t' := Step(t, e, cutoff);
      && t'.lastProcessedTimestamp == e.time
      && (IsForced(e, cutoff) ==> t'.processed == t.processed + [e] && t'.operations == t.operations && t'.ids == t.ids)
      && (!IsForced(e, cutoff) ==>
            && t'.processed == t.processed
            && t'.operations.Keys == t.operations.Keys + {e.operationId}
            && (forall id :: id in t.operations && id != e.operationId ==> t'.operations[id] == t.operations[id])
            && var before := if e.operationId in t.operations then t.operations[e.operationId] else Operation(0, []);
               t'.operations[e.operationId] == Operation(NextScore(before.score, e.eventName), before.events + [e]))
  {
  }

  /** After the pass the processed list is exactly the forced entries, in
      arrival order, and the last timestamp is that of the last entry read
      (0 when nothing was read). */
  lemma {:induction false} ClassifyProcessed(entries: seq<LogEntry>, cutoff: int)
    ensures Classify(entries, cutoff).processed == Forced(entries, cutoff)
    ensures Classify(entries, cutoff).lastProcessedTimestamp == if entries == [] then 0 else entries[|entries| - 1].time
  {
    if entries != [] {
      ClassifyProcessed(entries[..|entries| - 1], cutoff);
    }
  }

  /** Filtering by operation distributes over appending one entry. */
  lemma EventsOfSnoc(s: seq<LogEntry>, e: LogEntry, id: string)
    ensures EventsOf(s + [e], id) == EventsOf(s, id) + (if e.operationId == id then [e] else [])
  {
    assert (s + [e])[..|s|] == s;
  }

  /** Scoring distributes over appending one event. */
  lemma ScoreOfSnoc(s: seq<LogEntry>, e: LogEntry)
    ensures ScoreOf(s + [e]) == NextScore(ScoreOf(s), e.eventName)
  {
    assert (s + [e])[..|s|] == s;
  }

  /** The operation ids of `tracked` in order of first occurrence: the order
      in which the handler creates the keys, which is the order `for…in`
      visits them. */
  function FirstIds(tracked: seq<LogEntry>): seq<string>
  {
    if tracked == [] then []
    else
      var n := |tracked| - 1;
      var id := tracked[n].operationId;
      FirstIds(tracked[..n]) + (if EventsOf(tracked[..n], id) == [] then [id] else [])
  }

  /** Each id is listed once, and exactly the ids that occur in `tracked`
      are listed. */
  lemma {:induction false} FirstIdsLists(tracked: seq<LogEntry>)
    ensures NoDuplicates(FirstIds(tracked))
    ensures forall id :: id in FirstIds(tracked) <==> EventsOf(tracked, id) != []
  {
    if tracked != [] {
      var n := |tracked| - 1;
      var p, e := tracked[..n], tracked[n];
      SplitLast(tracked);
      FirstIdsLists(p);
      forall id
        ensures EventsOf(tracked, id) == EventsOf(p, id) + (if e.operationId == id then [e] else [])
      {
        EventsOfSnoc(p, e, id);
      }
      if EventsOf(p, e.operationId) == [] {
        AppendFresh(FirstIds(p), e.operationId);
      }
    }
  }

  /** `t` holds exactly one record per operation id occurring in `tracked`,
      listed in `ids` once each, in order of first occurrence; a record's
      events are that operation's entries of `tracked` in arrival order, and
      its score is the saturating count over them. */
  ghost predicate Describes(t: Tally, tracked: seq<LogEntry>)
  {
    && t.ids == FirstIds(tracked)
    && NoDuplicates(t.ids)
    && (forall id :: id in t.ids <==> id in t.operations)
    && (forall id :: id in t.operations <==> EventsOf(tracked, id) != [])
    && (forall id :: id in t.operations ==>
          t.operations[id] == Operation(ScoreOf(EventsOf(tracked, id)), EventsOf(tracked, id)))
  }

  /** The handler keeps the records in step with the tracked entries. */
  lemma StepDescribes(t: Tally, tracked: seq<LogEntry>, e: LogEntry, cutoff: int)
    requires Describes(t, tracked) && !IsForced(e, cutoff)
    ensures Describes(Step(t, e, cutoff), tracked + [e])
  {
    var t' := Step(t, e, cutoff);
    var tracked' := tracked + [e];
    var id0 := e.operationId;
    var before := if id0 in t.operations then t.operations[id0] else Operation(0, []);
    assert before == Operation(ScoreOf(EventsOf(tracked, id0)), EventsOf(tracked, id0)) by {
      if id0 !in t.operations {
        assert EventsOf(tracked, id0) == [];
      }
    }
    EventsOfSnoc(tracked, e, id0);
    ScoreOfSnoc(EventsOf(tracked, id0), e);
    assert tracked'[..|tracked|] == tracked;
    assert t'.ids == FirstIds(tracked');
    assert t'.operations[id0] == Operation(ScoreOf(EventsOf(tracked', id0)), EventsOf(tracked', id0));
    forall id | id != id0
      ensures id in t'.operations <==> EventsOf(tracked', id) != []
      ensures id in t'.operations ==> t'.operations[id] == Operation(ScoreOf(EventsOf(tracked', id)), EventsOf(tracked', id))
    {
      EventsOfSnoc(tracked, e, id);
      assert EventsOf(tracked', id) == EventsOf(tracked, id);
      if id in t'.operations {
        assert t'.operations[id] == t.operations[id];
      }
    }
    if id0 !in t.operations {
      AppendFresh(t.ids, id0);
    }
  }

  /** Appending an id not yet listed keeps the ids distinct. */
  lemma AppendFresh(ids: seq<string>, id: string)
    requires NoDuplicates(ids) && id !in ids
    ensures NoDuplicates(ids + [id])
  {
    forall i, j | 0 <= i < j < |ids + [id]|
      ensures (ids + [id])[i] != (ids + [id])[j]
    {
      if j == |ids| {
        assert ids[i] in ids;
      }
    }
  }

  /** After the pass the records describe the tracked entries. */
  lemma {:induction false} ClassifyOperations(entries: seq<LogEntry>, cutoff: int)
    ensures Describes(Classify(entries, cutoff), Tracked(entries, cutoff))
  {
    if entries != [] {
      var n := |entries| - 1;
      ClassifyOperations(entries[..n], cutoff);
      if IsForced(entries[n], cutoff) {
        assert Tracked(entries, cutoff) == Tracked(entries[..n], cutoff);
      } else {
        StepDescribes(Classify(entries[..n], cutoff), Tracked(entries[..n], cutoff), entries[n], cutoff);
      }
    }
  }

  /** Concatenation of the events of the listed operations, in list order. */
  function AllEvents(ids: seq<string>, operations: map<string, Operation>): seq<LogEntry>
    requires forall id :: id in ids ==> id in operations
  {
    if ids == [] then []
    else AllEvents(ids[..|ids| - 1], operations) + operations[ids[|ids| - 1]].events
  }

  lemma {:induction false} AllEventsFrame(ids: seq<string>, a: map<string, Operation>, b: map<string, Operation>)
    requires forall id :: id in ids ==> id in a && id in b && a[id] == b[id]
    ensures AllEvents(ids, a) == AllEvents(ids, b)
  {
    if ids != [] {
      AllEventsFrame(ids[..|ids| - 1], a, b);
    }
  }

  /** Appending `e` to the events of one listed operation adds `e` once to
      the concatenation. */
  lemma {:induction false} AllEventsGrow(ids: seq<string>, operations: map<string, Operation>, id: string, op: Operation, e: LogEntry)
    requires forall x :: x in ids ==> x in operations
    requires NoDuplicates(ids) && id in ids
    requires op.events == operations[id].events + [e]
    ensures multiset(AllEvents(ids, operations[id := op])) == multiset(AllEvents(ids, operations)) + multiset{e}
  {
    var n := |ids| - 1;
    var init := ids[..n];
    if ids[n] == id {
      assert id !in init;
      AllEventsFrame(init, operations, operations[id := op]);
    } else {
      assert id in init;
      AllEventsGrow(init, operations, id, op, e);
    }
  }

  /** One more entry adds that entry, once, to the processed list and the
      operations' events taken together. */
  lemma StepNoLoss(t: Tally, tracked: seq<LogEntry>, e: LogEntry, cutoff: int)
    requires Describes(t, tracked)
    ensures forall id :: id in Step(t, e, cutoff).ids ==> id in Step(t, e, cutoff).operations
    ensures var t' := Step(t, e, cutoff);
      multiset(t'.processed) + multiset(AllEvents(t'.ids, t'.operations))
        == multiset(t.processed) + multiset(AllEvents(t.ids, t.operations)) + multiset{e}
  {
    var t' := Step(t, e, cutoff);
    if !IsForced(e, cutoff) {
      var id := e.operationId;
      if id in t.operations {
        AllEventsGrow(t.ids, t.operations, id, t'.operations[id], e);
      } else {
        AllEventsFrame(t.ids, t.operations, t'.operations);
        assert t'.ids[..|t'.ids| - 1] == t.ids;
      }
    }
  }

  /** No entry is lost or duplicated by the pass: the processed list and the
      operations' events together are a permutation of the entries. */
  lemma {:induction false} ClassifyNoLoss(entries: seq<LogEntry>, cutoff: int)
    ensures forall id :: id in Classify(entries, cutoff).ids ==> id in Classify(entries, cutoff).operations
    ensures var t := Classify(entries, cutoff);
      multiset(t.processed) + multiset(AllEvents(t.ids, t.operations)) == multiset(entries)
  {
    if entries != [] {
      var n := |entries| - 1;
      var p, e := entries[..n], entries[n];
      var t := Classify(p, cutoff);
      SplitLast(entries);
      ClassifyNoLoss(p, cutoff);
      ClassifyOperations(p, cutoff);
      StepNoLoss(t, Tracked(p, cutoff), e, cutoff);
      assert Classify(entries, cutoff) == Step(t, e, cutoff);
    }
  }

  /** Every stored event sits under its own operation id. */
  lemma ClassifyKeyed(entries: seq<LogEntry>, cutoff: int)
    ensures Keyed(Classify(entries, cutoff).operations)
  {
    ClassifyOperations(entries, cutoff);
    var t := Classify(entries, cutoff);
    forall id, e | id in t.operations && e in t.operations[id].events
      ensures e.operationId == id
    {
      EventsOfKeyed(Tracked(entries, cutoff), id, e);
    }
  }

  lemma {:induction false} EventsOfKeyed(s: seq<LogEntry>, id: string, e: LogEntry)
    requires e in EventsOf(s, id)
    ensures e.operationId == id && e in s
  {
    if s != [] {
      var n := |s| - 1;
      if e in EventsOf(s[..n], id) {
        EventsOfKeyed(s[..n], id, e);
      }
    }
  }
}
