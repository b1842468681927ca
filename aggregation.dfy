/** One run of `aggregateTelemetryData` (index.js:25-137): snapshot, pass,
    partition, envelope, cut and reseed, with the file system, the clock and
    JSON parsing and printing passed in as values. */
module Aggregation {
  import opened Strings
  import opened Wrappers
  import opened LogEntries
  import opened SnapshotFilter
  import opened OperationTracker
  import opened Reconciler
  import opened BatchBuilder
  import opened LogStore

  /** What a run leaves behind: its return value (`null` or the envelope)
      and the content of the live log file afterwards. */
  datatype Outcome = Outcome(jsonld: Option<Envelope>, logText: string)

  /** Parse every snapshot line, in order. */
  function ParseAll(parse: string -> LogEntry, lines: seq<string>): (r: seq<LogEntry>)
    ensures |r| == |lines|
    ensures forall i :: 0 <= i < |lines| ==> r[i] == parse(lines[i])
  {
    seq(|lines|, i requires 0 <= i < |lines| => parse(lines[i]))
  }

  /** The stream parses line by line: parsing two parts of the snapshot and
      concatenating gives the parse of the whole. */
  lemma ParseAllAppend(parse: string -> LogEntry, a: seq<string>, b: seq<string>)
    ensures ParseAll(parse, a + b) == ParseAll(parse, a) + ParseAll(parse, b)
  {
    var whole, left, right := ParseAll(parse, a + b), ParseAll(parse, a), ParseAll(parse, b);
    forall i | 0 <= i < |whole|
      ensures whole[i] == (left + right)[i]
    {
      if i >= |a| {
        assert (a + b)[i] == b[i - |a|];
      }
    }
  }

  /** The JSON text of every entry, in order. */
  function SerializeAll(serialize: LogEntry -> string, entries: seq<LogEntry>): seq<string>
  {
    seq(|entries|, i requires 0 <= i < |entries| => serialize(entries[i]))
  }

  /** A whole run. `log` is the live log when the run starts, `appended` the
      lines another process appends before the cut, `now` the wall clock.
      The partition and the cut are the corrected ones (see `Partition` and
      `CutThroughMarker`). */
  function Run(log: seq<string>, appended: seq<string>, now: int,
               parse: string -> LogEntry, serialize: LogEntry -> string): (r: Outcome)
    ensures r.jsonld == None <==> Snapshot(log) == []
    ensures r.jsonld != None ==> r.jsonld.value.context == SCHEMA_CONTEXT && r.jsonld.value.kind == ENVELOPE_TYPE
  {
    var snapshot := Snapshot(log);
    if snapshot == [] then Outcome(None, Unlines(log + appended))
    else
      var entries := ParseAll(parse, snapshot);
      var marker := NumberText(Classify(entries, Cutoff(now)).lastProcessedTimestamp);
      var sides := Reconcile(entries, Cutoff(now));
      Outcome(
        Some(BuildEnvelope(sides.0)),
        ReseedText(SerializeAll(serialize, sides.1)) + Unlines(CutThroughMarker(log + appended, marker)))
  }

  /** The run, step by step in the order the source takes them. */
  method AggregateTelemetryData(log: seq<string>, appended: seq<string>, now: int,
                                parse: string -> LogEntry, serialize: LogEntry -> string)
    returns (jsonld: Option<Envelope>, logText: string)
    ensures Outcome(jsonld, logText) == Run(log, appended, now, parse, serialize)
  {
    var snapshot := Snapshot(log);
    if snapshot == [] {
      return None, Unlines(log + appended);
    }
    var entries := ParseAll(parse, snapshot);
    var processedLogObjects, ids, operations, lastProcessedTimestamp := Aggregate(entries, now);
    ClassifyNoLoss(entries, Cutoff(now));
    var sides := Partition(ids, operations);
    var ready, unprocessedLogObjects := sides.0, sides.1;
    processedLogObjects := processedLogObjects + ready;
    jsonld := Some(BuildEnvelope(processedLogObjects));
    var tail := CutThroughMarker(log + appended, NumberText(lastProcessedTimestamp));
    logText := ReseedText(SerializeAll(serialize, unprocessedLogObjects)) + Unlines(tail);
  }

  /** With nothing selected the run returns `null` and leaves the log as it
      is, lines appended meanwhile included. */
  lemma RunWithoutSnapshot(log: seq<string>, appended: seq<string>, now: int,
                           parse: string -> LogEntry, serialize: LogEntry -> string)
    requires Snapshot(log) == []
    ensures Run(log, appended, now, parse, serialize) == Outcome(None, Unlines(log) + Unlines(appended))
  {
    UnlinesAppend(log, appended);
  }

  /** With a non-empty snapshot the run returns an envelope of the shipped
      entries, and every snapshot entry is either shipped or written back,
      exactly once. */
  lemma RunAccountsForEveryEntry(log: seq<string>, appended: seq<string>, now: int,
                                 parse: string -> LogEntry, serialize: LogEntry -> string)
    requires Snapshot(log) != []
    ensures var entries := ParseAll(parse, Snapshot(log));
      var sides := Reconcile(entries, Cutoff(now));
      && Run(log, appended, now, parse, serialize).jsonld == Some(BuildEnvelope(sides.0))
      && multiset(sides.0) + multiset(sides.1) == multiset(entries)
      && |entries| == |Snapshot(log)|
      && (forall i :: 0 <= i < |entries| ==> entries[i] == parse(Snapshot(log)[i]))
  {
  }

  /** The new log of a run with a non-empty snapshot: the reseed text of the
      pending entries, then the log cut through the last entry's timestamp. */
  lemma RunLogText(log: seq<string>, appended: seq<string>, now: int,
                   parse: string -> LogEntry, serialize: LogEntry -> string)
    requires Snapshot(log) != []
    ensures var entries := ParseAll(parse, Snapshot(log));
      var marker := NumberText(Classify(entries, Cutoff(now)).lastProcessedTimestamp);
      Run(log, appended, now, parse, serialize).logText
        == ReseedText(SerializeAll(serialize, Reconcile(entries, Cutoff(now)).1)) + Unlines(CutThroughMarker(log + appended, marker))
  {
  }

  /** When every selected line carries its own timestamp in decimal, and every
      pending entry serialises to one JSON object without `},{` inside, the new
      log holds the pending entries one per line (a single empty line when
      there is none), then the lines of the old log after the first line
      holding the last entry's timestamp, then every line appended during the
      run, unchanged. */
  lemma RunRewritesLog(log: seq<string>, appended: seq<string>, now: int,
                       parse: string -> LogEntry, serialize: LogEntry -> string)
    requires Snapshot(log) != []
    requires forall l :: l in Snapshot(log) ==> Contains(l, NumberText(parse(l).time))
    requires forall e :: e in Reconcile(ParseAll(parse, Snapshot(log)), Cutoff(now)).1 ==> ObjectText(serialize(e))
    ensures var snapshot := Snapshot(log);
      var marker := NumberText(parse(snapshot[|snapshot| - 1]).time);
      var pending := Reconcile(ParseAll(parse, snapshot), Cutoff(now)).1;
      Run(log, appended, now, parse, serialize).logText
        == Unlines(ReseedLines(SerializeAll(serialize, pending)) + CutThroughMarker(log, marker) + appended)
  {
    var snapshot := Snapshot(log);
    var entries := ParseAll(parse, snapshot);
    var marker := NumberText(parse(snapshot[|snapshot| - 1]).time);
    var pending := Reconcile(entries, Cutoff(now)).1;
    var texts := SerializeAll(serialize, pending);
    var kept := CutThroughMarker(log, marker);
    RunLogText(log, appended, now, parse, serialize);
    LastEntryMarker(log, appended, now, parse);
    ReseedObjects(serialize, pending);
    var lines := ReseedLines(texts);
    assert Run(log, appended, now, parse, serialize).logText == Unlines(lines) + Unlines(kept + appended);
    UnlinesPrefix(lines, kept, appended);
  }

  /** The next run picks up the written-back lines first. The log and the
      appended lines are lines, so none holds a newline. When every pending
      entry's text is also a line both greps select, the new log file reads
      back as the written lines, and its snapshot is the pending texts, in
      the order they were written, followed by the snapshot of the rest of
      the new log. */
  lemma RunReseedsPending(log: seq<string>, appended: seq<string>, now: int,
                          parse: string -> LogEntry, serialize: LogEntry -> string)
    requires forall l :: l in log + appended ==> !Contains(l, "\n")
    requires Snapshot(log) != []
    requires forall l :: l in Snapshot(log) ==> Contains(l, NumberText(parse(l).time))
    requires forall e :: e in Reconcile(ParseAll(parse, Snapshot(log)), Cutoff(now)).1 ==> ObjectText(serialize(e)) && Selected(serialize(e))
    ensures var snapshot := Snapshot(log);
      var marker := NumberText(parse(snapshot[|snapshot| - 1]).time);
      var texts := SerializeAll(serialize, Reconcile(ParseAll(parse, snapshot), Cutoff(now)).1);
      var kept := CutThroughMarker(log, marker);
      var text := Run(log, appended, now, parse, serialize).logText;
      && text == Unlines(ReseedLines(texts) + kept + appended)
      && Lines(text) == ReseedLines(texts) + kept + appended
      && Snapshot(Lines(text)) == texts + Snapshot(kept + appended)
  {
    var snapshot := Snapshot(log);
    var marker := NumberText(parse(snapshot[|snapshot| - 1]).time);
    var pending := Reconcile(ParseAll(parse, snapshot), Cutoff(now)).1;
    RunRewritesLog(log, appended, now, parse, serialize);
    KeptOneLine(log, appended, marker);
    NewLogLines(serialize, pending, CutThroughMarker(log, marker), appended);
    ReseedSnapshot(serialize, pending, CutThroughMarker(log, marker), appended);
  }

  /** The lines the cut keeps come from the log, so they hold no newline. */
  lemma KeptOneLine(log: seq<string>, appended: seq<string>, marker: string)
    requires forall l :: l in log + appended ==> !Contains(l, "\n")
    ensures forall l :: l in CutThroughMarker(log, marker) + appended ==> !Contains(l, "\n")
  {
    var kept := CutThroughMarker(log, marker);
    forall l | l in kept + appended
      ensures !Contains(l, "\n")
    {
      if l in kept {
        var k :| 0 <= k < |kept| && kept[k] == l;
        assert l == log[|log| - |kept| + k];
        assert l in log + appended;
      } else {
        assert l in log + appended;
      }
    }
  }

  /** The new log file reads back as the lines written to it. */
  lemma NewLogLines(serialize: LogEntry -> string, pending: seq<LogEntry>, kept: seq<string>, appended: seq<string>)
    requires forall e :: e in pending ==> ObjectText(serialize(e))
    requires forall l :: l in kept + appended ==> !Contains(l, "\n")
    ensures var lines := ReseedLines(SerializeAll(serialize, pending)) + kept + appended;
      Lines(Unlines(lines)) == lines
  {
    var texts := SerializeAll(serialize, pending);
    forall k | 0 <= k < |texts|
      ensures ObjectText(texts[k])
    {
      assert texts[k] == serialize(pending[k]) && pending[k] in pending;
    }
    OneLineEach(texts);
    var head, tail := ReseedLines(texts), kept + appended;
    var lines := head + kept + appended;
    assert lines == head + tail;
    forall k | 0 <= k < |lines|
      ensures !Contains(lines[k], "\n")
    {
      if k >= |head| {
        assert lines[k] == tail[k - |head|];
      }
    }
    LinesUnlines(lines);
  }

  /** Pending texts that both greps select are all kept by the next snapshot,
      ahead of whatever the rest of the file yields; with nothing pending, the
      single empty line is dropped. */
  lemma ReseedSnapshot(serialize: LogEntry -> string, pending: seq<LogEntry>, kept: seq<string>, appended: seq<string>)
    requires forall e :: e in pending ==> Selected(serialize(e))
    ensures var texts := SerializeAll(serialize, pending);
      Snapshot(ReseedLines(texts) + kept + appended) == texts + Snapshot(kept + appended)
  {
    var texts := SerializeAll(serialize, pending);
    assert ReseedLines(texts) + kept + appended == ReseedLines(texts) + (kept + appended);
    SnapshotAppend(ReseedLines(texts), kept + appended);
    if texts == [] {
      EmptyLineNotSelected();
    } else {
      forall k | 0 <= k < |texts|
        ensures Selected(texts[k])
      {
        assert texts[k] == serialize(pending[k]) && pending[k] in pending;
      }
      SnapshotKeepsSelected(texts);
    }
  }

  /** The cut's marker is the last snapshot line's timestamp, and that line is
      in the log, so the lines appended during the run survive the cut. */
  lemma LastEntryMarker(log: seq<string>, appended: seq<string>, now: int, parse: string -> LogEntry)
    requires Snapshot(log) != []
    requires forall l :: l in Snapshot(log) ==> Contains(l, NumberText(parse(l).time))
    ensures var snapshot := Snapshot(log);
      var entries := ParseAll(parse, snapshot);
      var marker := NumberText(parse(snapshot[|snapshot| - 1]).time);
      && NumberText(Classify(entries, Cutoff(now)).lastProcessedTimestamp) == marker
      && CutThroughMarker(log + appended, marker) == CutThroughMarker(log, marker) + appended
  {
    var snapshot := Snapshot(log);
    var entries := ParseAll(parse, snapshot);
    var last := snapshot[|snapshot| - 1];
    var marker := NumberText(parse(last).time);
    ClassifyProcessed(entries, Cutoff(now));
    assert last in snapshot;
    var i :| 0 <= i < |log| && log[i] == last;
    assert Contains(log[i], marker);
    CutKeepsAppended(log, appended, marker);
  }

  /** Pending entries that serialise to object texts give a reseed text of
      lines. */
  lemma ReseedObjects(serialize: LogEntry -> string, pending: seq<LogEntry>)
    requires forall e :: e in pending ==> ObjectText(serialize(e))
    ensures ReseedText(SerializeAll(serialize, pending)) == Unlines(ReseedLines(SerializeAll(serialize, pending)))
  {
    var texts := SerializeAll(serialize, pending);
    forall k | 0 <= k < |texts|
      ensures ObjectText(texts[k])
    {
      assert texts[k] == serialize(pending[k]) && pending[k] in pending;
    }
    ReseedTextIsLines(texts);
  }

  /** A fresh operation that starts at 1000 and ends at 1001 is shipped whole,
      and the envelope's bounds are its two timestamps. */
  lemma CompletedOperationScenario()
    ensures var started := LogEntry(1000, "publish-start", "op1", "publish", "", []);
            var ended := LogEntry(1001, "publish-end", "op1", "publish", "", []);
            var env := BuildEnvelope(Reconcile([started, ended], 0).0);
            && Reconcile([started, ended], 0) == ([started, ended], [])
            && env.minTimestamp == Finite(1000) && env.maxTimestamp == Finite(1001)
            && |env.data| == 2
  {
    var started := LogEntry(1000, "publish-start", "op1", "publish", "", []);
    var ended := LogEntry(1001, "publish-end", "op1", "publish", "", []);
    CompletedOperationShipped(started, ended);
    PairBounds(started, ended);
  }

  lemma CompletedOperationShipped(started: LogEntry, ended: LogEntry)
    requires started == LogEntry(1000, "publish-start", "op1", "publish", "", [])
    requires ended == LogEntry(1001, "publish-end", "op1", "publish", "", [])
    ensures Reconcile([started, ended], 0) == ([started, ended], [])
  {
    DiscardedConcatLosesCompletedOperation();
    assert [] + [started, ended] == [started, ended];
  }

  /** The envelope of two entries in time order is bounded by their times. */
  lemma PairBounds(a: LogEntry, b: LogEntry)
    requires a.time <= b.time
    ensures BuildEnvelope([a, b]).minTimestamp == Finite(a.time)
    ensures BuildEnvelope([a, b]).maxTimestamp == Finite(b.time)
  {
    var m := MinTime([a, b]);
    assert m <= a.time;
    var k :| 0 <= k < 2 && [a, b][k].time == m;
    var x := MaxTime([a, b]);
    assert x >= b.time;
    var j :| 0 <= j < 2 && [a, b][j].time == x;
  }
}
