/** What happens to the tracked operations after the pass (index.js:80-86):
    an operation whose score is back to zero is ready to ship, any other is
    pending and is written back to the log for the next run. */
module Reconciler {
  import opened Strings
  import opened LogEntries
  import opened OperationTracker

  /** The partition loop as evidently intended: visiting the operations in
      key order, a ready operation's events are appended to the ready list and
      a pending operation's events to the pending list. The source discards
      both `concat` results instead; that behaviour is `PartitionAsWritten`. */
  function Partition(ids: seq<string>, operations: map<string, Operation>): (r: (seq<LogEntry>, seq<LogEntry>))
    requires forall id :: id in ids ==> id in operations
    ensures multiset(r.0) + multiset(r.1) == multiset(AllEvents(ids, operations))
  {
    if ids == [] then ([], [])
    else
      var rest := Partition(ids[..|ids| - 1], operations);
      var op := operations[ids[|ids| - 1]];
      if op.score == 0 then (rest.0 + op.events, rest.1) else (rest.0, rest.1 + op.events)
  }

  /** Each operation goes wholly to one side: all its events are ready when
      its score is zero, all are pending otherwise. */
  lemma {:induction false} PartitionWhole(ids: seq<string>, operations: map<string, Operation>, i: nat)
    requires forall id :: id in ids ==> id in operations
    requires i < |ids|
    ensures var r := Partition(ids, operations);
      multiset(operations[ids[i]].events) <= multiset(if operations[ids[i]].score == 0 then r.0 else r.1)
  {
    var n := |ids| - 1;
    if i < n {
      assert ids[..n][i] == ids[i];
      PartitionWhole(ids[..n], operations, i);
      PartitionLast(ids, operations);
      var op := operations[ids[i]];
      SideGrows(op.events, Partition(ids[..n], operations), Partition(ids, operations), op.score == 0);
    } else {
      assert i == n;
      PartitionLast(ids, operations);
    }
  }

  /** Events included in one side of a split stay included in that side
      when both sides only grow. */
  lemma SideGrows(x: seq<LogEntry>, rest: (seq<LogEntry>, seq<LogEntry>), r: (seq<LogEntry>, seq<LogEntry>), ready: bool)
    requires multiset(x) <= multiset(if ready then rest.0 else rest.1)
    requires multiset(rest.0) <= multiset(r.0) && multiset(rest.1) <= multiset(r.1)
    ensures multiset(x) <= multiset(if ready then r.0 else r.1)
  {
  }

  /** The last listed operation lands whole on its side, and the earlier
      operations' sides only grow. */
  lemma PartitionLast(ids: seq<string>, operations: map<string, Operation>)
    requires forall id :: id in ids ==> id in operations
    requires ids != []
    ensures var r := Partition(ids, operations);
      var rest := Partition(ids[..|ids| - 1], operations);
      var last := operations[ids[|ids| - 1]];
      && multiset(rest.0) <= multiset(r.0) && multiset(rest.1) <= multiset(r.1)
      && multiset(last.events) <= multiset(if last.score == 0 then r.0 else r.1)
  {
    var r := Partition(ids, operations);
    var rest := Partition(ids[..|ids| - 1], operations);
    var last := operations[ids[|ids| - 1]];
    if last.score == 0 {
      assert r == (rest.0 + last.events, rest.1);
      assert multiset(r.0) == multiset(rest.0) + multiset(last.events);
    } else {
      assert r == (rest.0, rest.1 + last.events);
      assert multiset(r.1) == multiset(rest.1) + multiset(last.events);
    }
  }

  /** When every stored event carries its own operation id, a ready event's
      operation has score zero and a pending event's operation does not; so
      no event is on both sides. */
  lemma {:induction false} PartitionSides(ids: seq<string>, operations: map<string, Operation>)
    requires forall id :: id in ids ==> id in operations
    requires Keyed(operations)
    ensures forall e :: e in Partition(ids, operations).0 ==> e.operationId in operations && operations[e.operationId].score == 0
    ensures forall e :: e in Partition(ids, operations).1 ==> e.operationId in operations && operations[e.operationId].score != 0
  {
    if ids != [] {
      PartitionSides(ids[..|ids| - 1], operations);
    }
  }

  /** The events of the listed operations, concatenated in list order, as
      the reference definitions give them. */
  function Grouped(ids: seq<string>, tracked: seq<LogEntry>): seq<LogEntry>
  {
    if ids == [] then []
    else Grouped(ids[..|ids| - 1], tracked) + EventsOf(tracked, ids[|ids| - 1])
  }

  /** The listed operations whose final score is zero (`ready`) or is not
      (`!ready`), in list order. */
  function WithScore(ids: seq<string>, tracked: seq<LogEntry>, ready: bool): seq<string>
  {
    if ids == [] then []
    else
      var id := ids[|ids| - 1];
      WithScore(ids[..|ids| - 1], tracked, ready) + (if (ScoreOf(EventsOf(tracked, id)) == 0) == ready then [id] else [])
  }

  /** Listing one more operation appends its events. */
  lemma GroupedSnoc(ids: seq<string>, id: string, tracked: seq<LogEntry>)
    ensures Grouped(ids + [id], tracked) == Grouped(ids, tracked) + EventsOf(tracked, id)
  {
    assert (ids + [id])[..|ids|] == ids;
  }

  /** Listing one more operation appends its id on the side its score picks. */
  lemma WithScoreSnoc(ids: seq<string>, id: string, tracked: seq<LogEntry>, ready: bool)
    ensures WithScore(ids + [id], tracked, ready)
         == WithScore(ids, tracked, ready) + (if (ScoreOf(EventsOf(tracked, id)) == 0) == ready then [id] else [])
  {
    assert (ids + [id])[..|ids|] == ids;
  }

  /** When the records agree with the reference definitions, the ready list
      is the score-zero operations' events and the pending list the other
      operations' events, each operation's events kept together and the
      operations taken in key order. */
  lemma {:induction false} PartitionGrouped(ids: seq<string>, operations: map<string, Operation>, tracked: seq<LogEntry>)
    requires forall id :: id in ids ==> id in operations
    requires forall id :: id in ids ==> operations[id] == Operation(ScoreOf(EventsOf(tracked, id)), EventsOf(tracked, id))
    ensures Partition(ids, operations)
      == (Grouped(WithScore(ids, tracked, true), tracked), Grouped(WithScore(ids, tracked, false), tracked))
  {
    if ids != [] {
      var n := |ids| - 1;
      var id := ids[n];
      var init := ids[..n];
      assert forall x :: x in init ==> x in ids;
      PartitionGrouped(init, operations, tracked);
      var rest := Partition(init, operations);
      var op := operations[id];
      assert Partition(ids, operations) == if op.score == 0 then (rest.0 + op.events, rest.1) else (rest.0, rest.1 + op.events);
      var ready := WithScore(init, tracked, true);
      var pending := WithScore(init, tracked, false);
      if op.score == 0 {
        assert WithScore(ids, tracked, true) == ready + [id];
        assert WithScore(ids, tracked, false) == pending;
        GroupedSnoc(ready, id, tracked);
      } else {
        assert WithScore(ids, tracked, true) == ready;
        assert WithScore(ids, tracked, false) == pending + [id];
        GroupedSnoc(pending, id, tracked);
      }
    }
  }

  /** The partition loop as written: `Array.prototype.concat` returns a new
      array and leaves its receiver alone, and the loop drops the new array,
      so both lists come out as they went in. */
  function PartitionAsWritten(
    processed: seq<LogEntry>, unprocessed: seq<LogEntry>,
    ids: seq<string>, operations: map<string, Operation>): (r: (seq<LogEntry>, seq<LogEntry>))
    requires forall id :: id in ids ==> id in operations
    ensures r == (processed, unprocessed)
  {
    if ids == [] then (processed, unprocessed)
    else
      var rest := PartitionAsWritten(processed, unprocessed, ids[..|ids| - 1], operations);
      var op := operations[ids[|ids| - 1]];
      var discarded := if op.score == 0 then rest.0 + op.events else rest.1 + op.events;
      rest
  }

  /** Every entry is either forced or tracked, and not both. */
  lemma {:induction false} ForcedTrackedSplit(entries: seq<LogEntry>, cutoff: int)
    ensures multiset(Forced(entries, cutoff)) + multiset(Tracked(entries, cutoff)) == multiset(entries)
  {
    if entries != [] {
      var n := |entries| - 1;
      var p, e := entries[..n], entries[n];
      ForcedTrackedSplit(p, cutoff);
      SplitLast(entries);
      if IsForced(e, cutoff) {
        assert Forced(entries, cutoff) == Forced(p, cutoff) + [e];
        assert Tracked(entries, cutoff) == Tracked(p, cutoff);
        assert multiset(Forced(entries, cutoff)) == multiset(Forced(p, cutoff)) + multiset{e};
      } else {
        assert Forced(entries, cutoff) == Forced(p, cutoff);
        assert Tracked(entries, cutoff) == Tracked(p, cutoff) + [e];
        assert multiset(Tracked(entries, cutoff)) == multiset(Tracked(p, cutoff)) + multiset{e};
      }
    }
  }

  /** As written, for every run the pass's processed list goes out unchanged
      and nothing is written back: every tracked entry, whatever its
      operation's score, is on neither side, and those are exactly the
      entries that are not stale and not errors. */
  lemma AsWrittenLosesTracked(entries: seq<LogEntry>, cutoff: int)
    ensures var t := Classify(entries, cutoff);
      && (forall id :: id in t.ids ==> id in t.operations)
      && var r := PartitionAsWritten(t.processed, [], t.ids, t.operations);
      && r == (Forced(entries, cutoff), [])
      && (forall e :: e in Tracked(entries, cutoff) ==> e !in r.0 && e !in r.1)
      && multiset(r.0) + multiset(r.1) + multiset(Tracked(entries, cutoff)) == multiset(entries)
  {
    ClassifyNoLoss(entries, cutoff);
    ClassifyProcessed(entries, cutoff);
    ForcedTrackedSplit(entries, cutoff);
    forall e | e in Tracked(entries, cutoff)
      ensures e !in Forced(entries, cutoff)
    {
      TrackedMember(entries, cutoff, e);
      if e in Forced(entries, cutoff) {
        ForcedIsForced(entries, cutoff, e);
      }
    }
  }

  lemma {:induction false} AllEventsMember(ids: seq<string>, operations: map<string, Operation>, e: LogEntry)
    requires forall id :: id in ids ==> id in operations
    requires e in AllEvents(ids, operations)
    ensures exists id :: id in ids && e in operations[id].events
  {
    var n := |ids| - 1;
    if e !in operations[ids[n]].events {
      AllEventsMember(ids[..n], operations, e);
      var id :| id in ids[..n] && e in operations[id].events;
      assert id in ids;
    }
  }

  lemma {:induction false} TrackedMember(entries: seq<LogEntry>, cutoff: int, e: LogEntry)
    requires e in Tracked(entries, cutoff)
    ensures e in entries && !IsForced(e, cutoff)
  {
    var n := |entries| - 1;
    if e in Tracked(entries[..n], cutoff) {
      TrackedMember(entries[..n], cutoff, e);
    }
  }

  lemma {:induction false} ForcedMember(entries: seq<LogEntry>, cutoff: int, e: LogEntry)
    requires e in entries && IsForced(e, cutoff)
    ensures e in Forced(entries, cutoff)
  {
    var n := |entries| - 1;
    if e != entries[n] {
      assert e in entries[..n];
      ForcedMember(entries[..n], cutoff, e);
    }
  }

  /** The score the pass ends with for operation `id`, from the reference definitions. */
  function FinalScore(entries: seq<LogEntry>, cutoff: int, id: string): int
  {
    ScoreOf(EventsOf(Tracked(entries, cutoff), id))
  }

  lemma {:induction false} ForcedIsForced(entries: seq<LogEntry>, cutoff: int, e: LogEntry)
    requires e in Forced(entries, cutoff)
    ensures e in entries && IsForced(e, cutoff)
  {
    var n := |entries| - 1;
    if e in Forced(entries[..n], cutoff) {
      ForcedIsForced(entries[..n], cutoff, e);
    }
  }

  /** An event the partition marks ready belongs to an operation whose final
      score is zero. */
  lemma ReadyEntry(entries: seq<LogEntry>, cutoff: int, e: LogEntry)
    requires forall id :: id in Classify(entries, cutoff).ids ==> id in Classify(entries, cutoff).operations
    requires e in Partition(Classify(entries, cutoff).ids, Classify(entries, cutoff).operations).0
    ensures FinalScore(entries, cutoff, e.operationId) == 0
  {
    var t := Classify(entries, cutoff);
    ClassifyOperations(entries, cutoff);
    ClassifyKeyed(entries, cutoff);
    PartitionSides(t.ids, t.operations);
  }

  /** An event the partition marks pending is a tracked entry whose
      operation's final score is not zero. */
  lemma PendingEntry(entries: seq<LogEntry>, cutoff: int, e: LogEntry)
    requires forall id :: id in Classify(entries, cutoff).ids ==> id in Classify(entries, cutoff).operations
    requires e in Partition(Classify(entries, cutoff).ids, Classify(entries, cutoff).operations).1
    ensures !IsForced(e, cutoff) && FinalScore(entries, cutoff, e.operationId) != 0
  {
    var t := Classify(entries, cutoff);
    ClassifyOperations(entries, cutoff);
    ClassifyKeyed(entries, cutoff);
    PartitionSides(t.ids, t.operations);
    PendingIsTracked(entries, cutoff, e);
  }

  lemma PendingIsTracked(entries: seq<LogEntry>, cutoff: int, e: LogEntry)
    requires forall id :: id in Classify(entries, cutoff).ids ==> id in Classify(entries, cutoff).operations
    requires e in Partition(Classify(entries, cutoff).ids, Classify(entries, cutoff).operations).1
    ensures !IsForced(e, cutoff)
  {
    var t := Classify(entries, cutoff);
    var p := Partition(t.ids, t.operations);
    assert multiset(p.1)[e] > 0;
    assert multiset(p.0) + multiset(p.1) == multiset(AllEvents(t.ids, t.operations));
    assert multiset(AllEvents(t.ids, t.operations))[e] > 0;
    AllEventsMember(t.ids, t.operations, e);
    var id :| id in t.ids && e in t.operations[id].events;
    ClassifyOperations(entries, cutoff);
    assert t.operations[id].events == EventsOf(Tracked(entries, cutoff), id);
    EventsOfKeyed(Tracked(entries, cutoff), id, e);
    TrackedMember(entries, cutoff, e);
  }

  /** One run's reconciliation: what is shipped (the forced entries, then the
      ready operations' events) and what is written back (the pending
      operations' events). Every entry ends up on exactly one side; a stale
      or error entry is always shipped; any other entry is shipped exactly
      when its operation's final score is zero. */
  function Reconcile(entries: seq<LogEntry>, cutoff: int): (r: (seq<LogEntry>, seq<LogEntry>))
    ensures multiset(r.0) + multiset(r.1) == multiset(entries)
    ensures |Forced(entries, cutoff)| <= |r.0| && r.0[..|Forced(entries, cutoff)|] == Forced(entries, cutoff)
    ensures forall e :: e in entries && IsForced(e, cutoff) ==> e in r.0 && e !in r.1
    ensures forall e :: e in r.0 && !IsForced(e, cutoff) ==> FinalScore(entries, cutoff, e.operationId) == 0
    ensures forall e :: e in r.1 ==> !IsForced(e, cutoff) && FinalScore(entries, cutoff, e.operationId) != 0
  {
    var t := Classify(entries, cutoff);
    ClassifyProcessed(entries, cutoff);
    ClassifyNoLoss(entries, cutoff);
    var p := Partition(t.ids, t.operations);
    ReconcileSides(entries, cutoff);
    (t.processed + p.0, p.1)
  }

  lemma ReconcileSides(entries: seq<LogEntry>, cutoff: int)
    requires forall id :: id in Classify(entries, cutoff).ids ==> id in Classify(entries, cutoff).operations
    requires Classify(entries, cutoff).processed == Forced(entries, cutoff)
    ensures var t := Classify(entries, cutoff);
      var p := Partition(t.ids, t.operations);
      && (forall e :: e in entries && IsForced(e, cutoff) ==> e in t.processed && e !in p.1)
      && (forall e :: e in t.processed + p.0 && !IsForced(e, cutoff) ==> FinalScore(entries, cutoff, e.operationId) == 0)
      && (forall e :: e in p.1 ==> !IsForced(e, cutoff) && FinalScore(entries, cutoff, e.operationId) != 0)
  {
    var t := Classify(entries, cutoff);
    var p := Partition(t.ids, t.operations);
    forall e | e in p.1
      ensures !IsForced(e, cutoff) && FinalScore(entries, cutoff, e.operationId) != 0
    {
      PendingEntry(entries, cutoff, e);
    }
    forall e | e in t.processed + p.0 && !IsForced(e, cutoff)
      ensures FinalScore(entries, cutoff, e.operationId) == 0
    {
      if e in t.processed {
        ForcedIsForced(entries, cutoff, e);
      } else {
        ReadyEntry(entries, cutoff, e);
      }
    }
    forall e | e in entries && IsForced(e, cutoff)
      ensures e in t.processed
    {
      ForcedMember(entries, cutoff, e);
    }
  }

  /** The order of both sides: the shipped list is the stale and error
      entries in arrival order, then the events of the operations whose final
      score is zero; the pending list is the events of the other operations.
      Operations come in order of first occurrence and each operation's
      events stay together in arrival order, so the pending lines are grouped
      by operation rather than kept in arrival order. */
  lemma ReconcileOrder(entries: seq<LogEntry>, cutoff: int)
    ensures var tracked := Tracked(entries, cutoff);
      var ids := FirstIds(tracked);
      Reconcile(entries, cutoff)
        == (Forced(entries, cutoff) + Grouped(WithScore(ids, tracked, true), tracked),
            Grouped(WithScore(ids, tracked, false), tracked))
  {
    var t := Classify(entries, cutoff);
    ClassifyProcessed(entries, cutoff);
    ClassifyNoLoss(entries, cutoff);
    ClassifyOperations(entries, cutoff);
    PartitionGrouped(t.ids, t.operations, Tracked(entries, cutoff));
  }

  /** The first tracked entry of an operation, after any earlier entries,
      opens its record with that entry as its only event and a score one step
      from zero, and appends the operation's id to the keys. */
  lemma FirstSighting(s: seq<LogEntry>, e: LogEntry, cutoff: int)
    requires !IsForced(e, cutoff) && e.operationId !in Classify(s, cutoff).operations
    ensures var t := Classify(s, cutoff);
      var t' := Classify(s + [e], cutoff);
      && t'.operations == t.operations[e.operationId := Operation(NextScore(0, e.eventName), [e])]
      && t'.ids == t.ids + [e.operationId]
      && t'.processed == t.processed
  {
    assert (s + [e])[..|s|] == s;
    assert [] + [e] == [e];
    StepEffect(Classify(s, cutoff), e, cutoff);
  }

  /** A fresh operation that has both started and ended is lost as written:
      its events are tracked, so they are not in the processed list, and the
      discarded `concat` puts them on neither side; the intended partition
      ships both. */
  lemma DiscardedConcatLosesCompletedOperation()
    ensures var started := LogEntry(1000, "publish-start", "op1", "publish", "", []);
            var ended := LogEntry(1001, "publish-end", "op1", "publish", "", []);
            var t := Classify([started, ended], 0);
            && t.processed == []
            && t.ids == ["op1"] && "op1" in t.operations
            && PartitionAsWritten(t.processed, [], t.ids, t.operations) == ([], [])
            && Partition(t.ids, t.operations) == ([started, ended], [])
  {
    var started := LogEntry(1000, "publish-start", "op1", "publish", "", []);
    var ended := LogEntry(1001, "publish-end", "op1", "publish", "", []);
    assert EndsWith(started.eventName, "start");
    assert !EndsWith(ended.eventName, "start") && EndsWith(ended.eventName, "end");
    assert [] + [started] == [started];
    FirstSighting([], started, 0);
    assert [started, ended][..1] == [started];
    var t := Classify([started, ended], 0);
    assert t.operations["op1"] == Operation(0, [started, ended]);
    assert t.ids == ["op1"] && t.processed == [];
    assert ["op1"][..0] == [];
    assert [] + [started, ended] == [started, ended];
  }

  /** A fresh operation that has started but not ended is pending, and a
      stale one is shipped whatever its score (the force-flush rule). */
  lemma OpenOperationScenarios()
    ensures var started := LogEntry(1000, "sync-start", "op2", "sync", "", []);
            Reconcile([started], 0) == ([], [started])
    ensures var stale := LogEntry(-1000, "sync-start", "op3", "sync", "", []);
            Reconcile([stale], 0) == ([stale], [])
  {
    var started := LogEntry(1000, "sync-start", "op2", "sync", "", []);
    assert EndsWith(started.eventName, "start");
    assert [] + [started] == [started];
    FirstSighting([], started, 0);
    assert ["op2"][..0] == [];
    assert [] + [started] == [started];
    var stale := LogEntry(-1000, "sync-start", "op3", "sync", "", []);
    assert [stale][..0] == [];
    assert [] + [stale] == [stale];
    assert Classify([stale], 0) == Tally([stale], [], map[], -1000);
    assert Partition([], map[]) == ([], []);
    assert [stale] + [] == [stale];
  }

  /** Pending lines are grouped by operation, not kept in arrival order: two
      fresh operations, A started, then B started, then A's next step, are
      written back as A's two events followed by B's. */
  lemma PendingGroupedByOperation()
    ensures var a1 := LogEntry(1000, "publish-start", "opA", "publish", "", []);
            var b := LogEntry(1001, "sync-start", "opB", "sync", "", []);
            var a2 := LogEntry(1002, "publish-local-store", "opA", "publish", "", []);
            Reconcile([a1, b, a2], 0) == ([], [a1, a2, b])
  {
    var a1 := LogEntry(1000, "publish-start", "opA", "publish", "", []);
    var b := LogEntry(1001, "sync-start", "opB", "sync", "", []);
    var a2 := LogEntry(1002, "publish-local-store", "opA", "publish", "", []);
    var s := [a1, b, a2];
    GroupingStream(a1, b, a2);
    GroupingOrder(a1, b, a2);
    GroupingScores(a1, b, a2);
    GroupingReconcile(s, "opA", "opB", [a1, a2], [b]);
    PairThenOne(a1, a2, b);
  }

  lemma GroupingStream(a1: LogEntry, b: LogEntry, a2: LogEntry)
    requires a1 == LogEntry(1000, "publish-start", "opA", "publish", "", [])
    requires b == LogEntry(1001, "sync-start", "opB", "sync", "", [])
    requires a2 == LogEntry(1002, "publish-local-store", "opA", "publish", "", [])
    ensures Forced([a1, b, a2], 0) == [] && Tracked([a1, b, a2], 0) == [a1, b, a2]
  {
    assert !IsForced(a1, 0) && !IsForced(b, 0) && !IsForced(a2, 0);
    NoneForced([a1, b, a2], 0);
  }

  /** A stream with no stale or error entry is tracked whole. */
  lemma {:induction false} NoneForced(entries: seq<LogEntry>, cutoff: int)
    requires forall e :: e in entries ==> !IsForced(e, cutoff)
    ensures Forced(entries, cutoff) == [] && Tracked(entries, cutoff) == entries
  {
    if entries != [] {
      var n := |entries| - 1;
      SplitLast(entries);
      NoneForced(entries[..n], cutoff);
    }
  }

  lemma GroupingOrder(a1: LogEntry, b: LogEntry, a2: LogEntry)
    requires a1 == LogEntry(1000, "publish-start", "opA", "publish", "", [])
    requires b == LogEntry(1001, "sync-start", "opB", "sync", "", [])
    requires a2 == LogEntry(1002, "publish-local-store", "opA", "publish", "", [])
    ensures EventsOf([a1, b, a2], "opA") == [a1, a2] && EventsOf([a1, b, a2], "opB") == [b]
    ensures FirstIds([a1, b, a2]) == ["opA", "opB"]
  {
    assert [a1][..0] == [] && [a1, b][..1] == [a1] && [a1, b, a2][..2] == [a1, b];
    assert EventsOf([a1], "opA") == [a1] && EventsOf([a1], "opB") == [];
    assert EventsOf([a1, b], "opA") == [a1] && EventsOf([a1, b], "opB") == [b];
    assert FirstIds([a1]) == ["opA"];
    assert FirstIds([a1, b]) == ["opA", "opB"];
  }

  lemma GroupingScores(a1: LogEntry, b: LogEntry, a2: LogEntry)
    requires a1 == LogEntry(1000, "publish-start", "opA", "publish", "", [])
    requires b == LogEntry(1001, "sync-start", "opB", "sync", "", [])
    requires a2 == LogEntry(1002, "publish-local-store", "opA", "publish", "", [])
    ensures ScoreOf([a1, a2]) == 1 && ScoreOf([b]) == 1
  {
    assert EndsWith(a1.eventName, "start") && EndsWith(b.eventName, "start");
    assert !EndsWith(a2.eventName, "start") && !EndsWith(a2.eventName, "end");
    assert [a1, a2][..1] == [a1] && [a1][..0] == [] && [b][..0] == [];
    assert ScoreOf([a1]) == 1;
  }

  /** Two listed operations, both with a non-zero score, both go to the
      pending side, in list order. */
  lemma GroupingSides(s: seq<LogEntry>, ida: string, idb: string, ea: seq<LogEntry>, eb: seq<LogEntry>)
    requires EventsOf(s, ida) == ea && EventsOf(s, idb) == eb
    requires ScoreOf(ea) != 0 && ScoreOf(eb) != 0
    ensures WithScore([ida, idb], s, true) == []
    ensures WithScore([ida, idb], s, false) == [ida, idb]
    ensures Grouped([ida, idb], s) == ea + eb
  {
    assert [ida, idb] == [ida] + [idb];
    assert [ida] == [] + [ida];
    WithScoreSnoc([], ida, s, true);
    WithScoreSnoc([ida], idb, s, true);
    WithScoreSnoc([], ida, s, false);
    WithScoreSnoc([ida], idb, s, false);
    GroupedSnoc([], ida, s);
    GroupedSnoc([ida], idb, s);
  }

  /** A stream with no forced entries whose two operations both stay open
      reconciles to nothing ready and the two operations' events, grouped, in
      order of first occurrence. */
  lemma GroupingReconcile(s: seq<LogEntry>, ida: string, idb: string, ea: seq<LogEntry>, eb: seq<LogEntry>)
    requires Forced(s, 0) == [] && Tracked(s, 0) == s && FirstIds(s) == [ida, idb]
    requires EventsOf(s, ida) == ea && EventsOf(s, idb) == eb
    requires ScoreOf(ea) != 0 && ScoreOf(eb) != 0
    ensures Reconcile(s, 0) == ([], ea + eb)
  {
    GroupingSides(s, ida, idb, ea, eb);
    ReconcileOrder(s, 0);
    assert Grouped([], s) == [];
    assert Forced(s, 0) + Grouped([], s) == [];
  }

  /** Appending one entry to a pair gives the three-entry list. */
  lemma PairThenOne(x: LogEntry, y: LogEntry, z: LogEntry)
    ensures [x, y] + [z] == [x, y, z]
  {
  }
}
