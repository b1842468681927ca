# Telemetry log aggregation, modelled in Dafny

This project models `aggregateTelemetryData` from `index.js` of the OriginTrail
telemetry collector. A run takes the node's operation log and does five things:

1. It keeps the lines at level 15 that are not level changes (the snapshot).
2. It reads them in order. Stale entries and "Error" entries go straight to the
   processed list. Every other entry joins the record of its operation, which
   holds a saturating score of open "start" events.
3. It splits the operations into ready ones (score 0) and pending ones.
4. It builds a JSON-LD envelope with the earliest and latest timestamps and one
   record per processed entry.
5. It rewrites the log. The consumed prefix is cut with sed. The pending
   entries are written first, one per line, and the rest of the log follows.

Modules, one per component:

- `Strings`: substring search, `endsWith`, `join`, newline-terminated files,
  and decimal rendering of a number.
- `Wrappers`: `Option`, standing for `null`.
- `LogEntries`: the parsed entry, `EVENT_TIME_LIMIT` and the staleness cutoff.
  An entry keeps the five fields the code reads. The object's other members
  (`level`, `hostname`, `Event_value1`, …) are carried along unread, so the
  text written back for a pending entry can depend on them.
- `SnapshotFilter`: the two greps.
- `OperationTracker`: the stream's `"data"` handler. It is a method with a loop
  whose locals are the closure's variables. It is proved equal to a fold
  (`Classify`). Lemmas relate the fold to plain filter definitions (`Forced`,
  `Tracked`, `EventsOf`, `ScoreOf`).
- `Reconciler`: the score partition and the whole ready/pending decision.
- `BatchBuilder`: the envelope.
- `LogStore`: the sed cut and the reseed text.
- `Aggregation`: one whole run, as a method and as the function it is proved
  equal to.

The file system, the clock and JSON are parameters. The log is a sequence of
lines. `now` is an integer. JSON parsing is a function `parse`, and
`JSON.stringify` of one entry is a function `serialize`. Lines another process
appends during the run are a second sequence, `appended`.

Points where the code behaves differently from what a reader might expect.
The model follows the code:

- One might expect a run with nothing ready to return `null`. The code returns
  `null` only when the snapshot is empty. Otherwise it always returns an
  envelope, whose bounds are `Infinity` and `-Infinity` when nothing was
  processed (`BatchBuilder.Bound`).
- The code's cut (`sed 1,/T/d`, index.js:107) ends at the first line after
  line 1 that holds the last entry's timestamp `T` (`LogStore.SedCut`,
  `LogStore.SedCutAtMarker`). The model's whole run uses the corrected cut
  `0,/T/d` (`LogStore.CutThroughMarker`; see Findings), which ends at the first
  line holding `T`, line 1 included. `LogStore.CutAtFirstMarker` states exactly
  which lines survive it. Both cuts end at a line, not at a position. An earlier
  line holding the same digits, such as another entry from the same
  millisecond, ends the cut early. The snapshot lines after it then stay in the
  log and are read again on the next run.

As written, the partition loop drops the results of `concat` (see Findings).
So nothing is ever pending, and the log receives only a single empty line
ahead of its kept tail (`Reconciler.AsWrittenLosesTracked`). With the
corrected partition, which the model's whole run uses, the pending lines are
written back as follows:

- Pending entries are not merged with appended lines in time order. The code
  writes them before the kept tail of the log.
- Pending lines are not written back in arrival order. They are grouped by
  operation, and the operations come in the order each was first seen. If
  operation A starts, then B starts, then A takes its next step, the log
  receives A's two lines and then B's line (`Reconciler.ReconcileOrder`,
  `Reconciler.PendingGroupedByOperation`).

## Model

| member | source | states |
|---|---|---|
| `SnapshotFilter.Snapshot` | index.js:36-41 | every kept line contains `"level":15` and not `level-change`, comes from the log, and the snapshot is no longer than the log |
| `SnapshotFilter.Selected` | index.js:40 | a line is kept exactly when it contains `"level":15` and does not contain `level-change` (definition, used by the lemmas above and below) |
| `SnapshotFilter.SnapshotAppend` | index.js:36-41 | filtering is line by line: filtering two parts of the file and concatenating gives the filter of the whole, so file order is kept |
| `SnapshotFilter.SnapshotKeepsSelected` | index.js:36-41 | lines that both greps select all pass, unchanged and in order |
| `SnapshotFilter.EmptyLineNotSelected` | index.js:36-41 | the empty line written when nothing is pending is dropped by the next run's greps |
| `SnapshotFilter.SnapshotCounts` | index.js:36-41 | each selected line is kept exactly as many times as it occurs and every other line is dropped |
| `OperationTracker.Aggregate` | index.js:48-74 | the handler loop, with the cutoff computed once from `now`, ends in exactly the state the fold `Classify` describes: processed list, operation records, key order and last timestamp |
| `LogEntries.Cutoff` | index.js:52 | the staleness cutoff, `now - EVENT_TIME_LIMIT`, with the limit five minutes in milliseconds (definition) |
| `OperationTracker.IsForced` | index.js:57 | an entry is shipped regardless of its operation exactly when its time is at or before the cutoff or its operation name is "Error" (definition) |
| `OperationTracker.NextScore` | index.js:63-70 | the score after one more event; its meaning is stated by `NextScoreSaturates` and `ScoreIsLargestSuffixBalance` |
| `OperationTracker.Step` | index.js:56-73 | the handler applied to one entry; its effect and frame are stated by `StepEffect`, `StepDescribes` and `StepNoLoss` |
| `OperationTracker.Classify` | index.js:53-78 | the handler applied to the entries in stream order; characterised by `ClassifyProcessed`, `ClassifyOperations`, `ClassifyNoLoss` and `ClassifyKeyed` |
| `OperationTracker.StepEffect` | index.js:56-73 | a stale or "Error" entry is appended to the processed list and leaves every operation record unchanged. Any other entry leaves the processed list alone and is appended to its own operation's events only. That record starts from score 0 and no events on first sighting. The last timestamp becomes the entry's time either way |
| `OperationTracker.NextScoreSaturates` | index.js:63-70 | from a non-negative score, one event moves the score by +1 for a name ending in "start", by -1 for one ending in "end", by 0 otherwise, floored at zero |
| `OperationTracker.ScoreIsLargestSuffixBalance` | index.js:63-70 | an operation's final score is the largest "starts minus ends" count over all suffixes of its events, so it is zero exactly when every suffix has at least as many ends as starts |
| `OperationTracker.ScoreNonNegative` | index.js:63-70 | an operation's score never goes negative |
| `OperationTracker.ClassifyProcessed` | index.js:56-73 | after the pass, the processed list is exactly the stale and "Error" entries in arrival order, and `lastProcessedTimestamp` is the time of the last entry read (0 if none), whatever its classification |
| `OperationTracker.StepDescribes` | index.js:57-72 | one tracked entry keeps the records in step with the reference definitions: one record per id, ids listed once each in order of first occurrence, events and score as the filters define them |
| `OperationTracker.ClassifyOperations` | index.js:57-72 | after the pass there is one record per operation id among the tracked entries. The key order is the order in which each id was first seen (`FirstIds`), which is the order `for…in` visits the keys at line 80. A record's events are that operation's tracked entries in arrival order, and its score is the saturating count over them |
| `OperationTracker.FirstIds` | index.js:60-61 | the ids in the order their records are created (definition; stated by `FirstIdsLists`) |
| `OperationTracker.FirstIdsLists` | index.js:60-61 | each id is listed once, and an id is listed exactly when some tracked entry carries it |
| `OperationTracker.StepNoLoss` | index.js:56-73 | one entry is added, once, to the processed list and the operations' events taken together |
| `OperationTracker.ClassifyNoLoss` | index.js:56-73 | the processed list and all operations' events together are a permutation of the entries read: nothing lost, nothing duplicated |
| `OperationTracker.ClassifyKeyed` | index.js:60-71 | every event stored under an operation id carries that id |
| `Reconciler.Partition` | index.js:80-86 | the ready and pending lists are together a permutation of all tracked events (corrected partition; see Findings) |
| `Reconciler.PartitionWhole` | index.js:80-86 | all of an operation's events go to the ready side when its score is 0 and to the pending side otherwise |
| `Reconciler.PartitionSides` | index.js:80-86 | a ready event's operation has score 0 and a pending event's does not, so no event is on both sides |
| `Reconciler.Grouped` | index.js:80-86 | the listed operations' events concatenated in list order (definition) |
| `Reconciler.WithScore` | index.js:81 | the listed operations whose final score is 0, or is not 0, in list order (definition) |
| `Reconciler.PartitionGrouped` | index.js:80-86 | when the records agree with the reference definitions, the ready list is the events of the score-0 operations and the pending list the events of the others. Each operation's events stay together, and operations come in key order |
| `Reconciler.PartitionAsWritten` | index.js:80-86 | as written, the loop leaves both lists unchanged, because the new arrays returned by `concat` are discarded |
| `Reconciler.ForcedTrackedSplit` | index.js:57-72 | every entry read goes either to the processed list or to an operation, never both and never neither |
| `Reconciler.AsWrittenLosesTracked` | index.js:80-86 | for every input, as written, the shipped list is exactly the stale and "Error" entries and nothing is written back, so every tracked entry is on neither side; the lost entries are exactly the tracked ones |
| `Reconciler.ReadyEntry` | index.js:80-86 | an event marked ready belongs to an operation whose final score, by the reference definitions, is 0 |
| `Reconciler.PendingEntry` | index.js:80-86 | an event marked pending is a tracked entry whose operation's final score is not 0 |
| `Reconciler.Reconcile` | index.js:57-86 | every entry is shipped or written back, exactly once. The shipped list starts with the stale and "Error" entries in arrival order. A stale or "Error" entry is always shipped and never pending. Any other entry is shipped only if its operation's final score is 0, and pending only if it is not |
| `Reconciler.ReconcileOrder` | index.js:57-86 | the shipped list is the stale and "Error" entries in arrival order, then the events of the score-0 operations. The pending list is the events of the other operations. On both sides the events are grouped by operation, operations in order of first occurrence, and each operation's events in arrival order |
| `Reconciler.NoneForced` | index.js:57 | with no stale and no "Error" entry, nothing goes straight to the processed list and every entry is tracked |
| `Reconciler.FirstSighting` | index.js:60-71 | after any earlier entries, the first tracked entry of an operation creates its record with that entry as its only event and the score one step from 0. Its id is appended to the keys, every other record is unchanged, and the processed list is unchanged |
| `Reconciler.DiscardedConcatLosesCompletedOperation` | index.js:80-86 | as written, a fresh operation with a start and an end is neither processed nor pending; the corrected partition makes both events ready |
| `Reconciler.PendingGroupedByOperation` | index.js:80-86 | fresh entries A-start, B-start, then A's next step give nothing ready and the pending list A, A, B |
| `Reconciler.GroupingReconcile` | index.js:57-86 | with no stale and no "Error" entry, and two operations first seen in order A, B that both stay open, nothing is ready and the pending list is A's events followed by B's |
| `Reconciler.OpenOperationScenarios` | index.js:57-86 | a fresh lone "start" is pending, and a stale lone "start" is shipped whatever its score |
| `BatchBuilder.MinTime` | index.js:91 | the minimum timestamp is at most every entry's time and is the time of some entry |
| `BatchBuilder.MaxTime` | index.js:92 | the maximum timestamp is at least every entry's time and is the time of some entry |
| `BatchBuilder.Project` | index.js:93-99 | the record an entry is shipped as (definition; `BuildEnvelope` states the field-by-field copy) |
| `BatchBuilder.BuildEnvelope` | index.js:88-100 | `@context` is schema.org and `@type` is OTTelemetry. For a non-empty list, every time lies between the two bounds and both bounds are attained; for an empty one the bounds are +Infinity and -Infinity. `data` has one record per entry, in order, copying `Event_name`, `time`, `Id_operation`, `Operation_name` and `msg` |
| `LogStore.CutThroughMarker` | index.js:106-111 | the corrected cut (`0,/T/d`) leaves a suffix of the file |
| `LogStore.SedCut` | index.js:106-111 | the cut as written (`1,/T/d`) leaves a suffix of the file |
| `LogStore.CutAtFirstMarker` | index.js:106-111 | the lines after the first line containing the timestamp are kept, unchanged |
| `LogStore.CutWithoutMarker` | index.js:106-111 | with no line containing the timestamp, the cut deletes to the end of the file |
| `LogStore.CutKeepsAppended` | index.js:106-111 | when the log already holds a marker line, lines appended after it survive the cut, unchanged and at the end |
| `LogStore.SedCutAtMarker` | index.js:106-111 | as written, the cut also ends at the first marker line, as long as that line is not line 1 |
| `LogStore.SedCutLosesAppendedLines` | index.js:106-111 | as written, when line 1 is the only marker line, every later line is deleted, appended ones included; the corrected cut keeps them |
| `LogStore.Stringify` | index.js:113 | `JSON.stringify` of the array, given its elements' texts: `[`, the texts joined by commas, `]`. This is the text that `substring(1, length - 1)` at line 117 strips back to the comma join (definition) |
| `LogStore.SplitJoinBoundaries` | index.js:118-119 | replacing every `},{` with `}\n{` keeps the text's length |
| `LogStore.ReseedText` | index.js:113-121 | the text written to the intermediate file always ends with a newline |
| `LogStore.SplitJoinObjects` | index.js:117-119 | for JSON object texts without `},{` inside, replacing `},{` with `}\n{` in their comma-joined text gives the texts joined by newlines |
| `LogStore.ReseedTextJoinsLines` | index.js:113-121 | the reseed text is the entries' JSON texts joined by newlines plus a final newline, and exactly one newline when nothing is pending |
| `LogStore.ReseedTextIsLines` | index.js:113-121 | the reseed text is written as the pending entries' JSON texts one per line, or one empty line when nothing is pending. Since no text holds a newline, a line reader (`Strings.Lines`) reads exactly those lines back |
| `Strings.EndsWith` | index.js:63-66 | `String.prototype.endsWith`: the text's last characters are the suffix (definition) |
| `Strings.Lines` | index.js:36-41 | how `cat` and `grep` see a file: the text split at each newline, with a last part that has no newline counted as a line (definition) |
| `Strings.LinesUnlines` | index.js:113-134 | a file written one line per string reads back as those strings, when none of them holds a newline |
| `Strings.DecimalDigits` | index.js:107 | a natural number renders as at least one decimal digit with no leading zero, and the digits read back as the number |
| `Strings.NumberText` | index.js:107 | the timestamp in the sed address: a minus sign exactly when the number is negative, then digits that read back as its magnitude |
| `Strings.NumberTextRoundTrip` | index.js:107 | reading the rendered timestamp back gives the timestamp |
| `Strings.NumberTextInjective` | index.js:107 | two different timestamps never render to the same address text |
| `Aggregation.ParseAll` | index.js:53-55 | `split(JSON.parse)`: one entry per snapshot line, in order, entry `i` being the parse of line `i` (definition) |
| `Aggregation.SerializeAll` | index.js:113 | the per-element `JSON.stringify` inside the array's text: one text per pending entry, in order (definition) |
| `Aggregation.ParseAllAppend` | index.js:53-56 | parsing goes line by line: parsing two parts of the snapshot and concatenating gives the parse of the whole |
| `Aggregation.AggregateTelemetryData` | index.js:25-137 | the run, step by step, returns the envelope and leaves the log that the whole-run function `Run` describes |
| `Aggregation.Run` | index.js:35-136 | a whole run returns `null` exactly when no line is selected; otherwise the envelope carries the schema.org context and the OTTelemetry type |
| `Aggregation.RunWithoutSnapshot` | index.js:35-45 | with no selected line the run returns `null` and the log keeps its content, appended lines included |
| `Aggregation.RunAccountsForEveryEntry` | index.js:47-100 | with a non-empty snapshot the run returns the envelope of the shipped entries, one entry is parsed per snapshot line, and every entry is shipped or written back exactly once |
| `Aggregation.LastEntryMarker` | index.js:73 | the cut's marker is the last snapshot line's timestamp, and that line is in the log, so lines appended during the run survive the cut |
| `Aggregation.RunRewritesLog` | index.js:105-134 | assuming each selected line holds its own timestamp, and each pending entry serialises to one JSON object on one line with no `},{` inside: the new log text is written as the pending entries one per line (or one empty line), then the old log's lines after the first marker line (corrected cut), then every appended line, unchanged |
| `Aggregation.RunReseedsPending` | index.js:105-134 | under the assumptions of `RunRewritesLog`, with log and appended lines free of newlines, and if each pending entry's text is also a line both greps select: the new log file, split into lines, is exactly the written lines. The next run's snapshot of that file is the pending texts, in the order written, followed by the snapshot of the kept and appended lines |
| `Aggregation.NewLogLines` | index.js:113-134 | the new log file reads back, line by line, as the reseed lines, then the kept lines, then the appended lines |
| `Aggregation.ReseedSnapshot` | index.js:113-134 | pending texts that both greps select are all kept by the next snapshot, ahead of whatever the rest of the file yields. With nothing pending, the single empty line is dropped |
| `Aggregation.CompletedOperationScenario` | index.js:57-100 | a fresh start at 1000 and end at 1001 of one operation are both shipped, and the envelope's bounds are 1000 and 1001 |

## Left out

- Shell and file plumbing is not modelled. This covers `execSync` (`cat`, `grep`, `sed -i`, `rm`, redirections), `fs.createReadStream`, `fs.writeFileSync`, the intermediate file, stream `finished`, and the paths built from `config.appRootPath`. Their combined effect is modelled on line sequences and strings. `initialize` and the `this.config`/`this.logger` state are replaced by explicit parameters. Logging is not modelled.
- A missing log file is treated like an empty one. In both cases the pipeline's exit status is grep's failure, and the run returns `null`.
- JSON parsing through `split(JSON.parse, …)` and its `"error"` handler are not modelled. `parse` is a total function from a line to an entry. Malformed lines, missing fields (`Event_name` absent, `msg` omitted from the JSON output) and non-string fields are out of scope.
- `JSON.stringify` of an entry is an abstract function `serialize`. The reseed lemmas assume each pending entry's text is one JSON object on one line (no newline, as `JSON.stringify` escapes control characters and is called without indentation) with no `},{` inside. `RunReseedsPending` also assumes that text is a line the greps select. The model does not derive this from the entry's unread members: that `JSON.stringify(JSON.parse(l))` keeps `"level":15` and adds no `level-change` is not modelled.
- `Date.now()` is the parameter `now`. Timestamps are unbounded integers: floating point, precision loss above 2^53, and exponent notation of very large numbers in the sed address are not modelled.
- `Math.min`/`Math.max` over an empty list yield floats. They are modelled as the `PosInfinity`/`NegInfinity` bounds. The engine's limit on the number of spread arguments is not modelled.
- JavaScript object key quirks are not modelled. `ids` keeps keys in insertion order. JavaScript visits integer-like keys first, in ascending order. Ids that name inherited properties (`constructor`, `__proto__`, …) do not get a fresh record in the source.
- Concurrency is modelled only as lines appended before the cut. Lines appended between the two final `cat` copies are overwritten in the source; the model does not capture that window.
- The unused `axios`, `FormData` and `json-2-csv` imports and the `csvFilename` field have no behaviour to model.

## Findings

| source | as written | input that shows it | evidently intended | confidence | as-written member | corrected member |
|---|---|---|---|---|---|---|
| index.js:80-86 | `processedLogObjects.concat(…)` and `unprocessedLogObjects.concat(…)` return new arrays that are dropped, so tracked entries are never shipped or written back, yet the cut removes them from the log | one operation with `publish-start` at 1000 and `publish-end` at 1001, both newer than the cutoff | assign the `concat` results back to the two lists | high, not executed | `Reconciler.DiscardedConcatLosesCompletedOperation` | `Reconciler.Partition` |
| index.js:106-111 | `sed 1,/T/d` looks for the closing address from line 2 on, so when line 1 is the only line holding `T` it deletes to the end of the file, lines appended during the run included | a log whose only selected line is line 1, with time `T`, and one line appended during the run that does not contain `T` | cut from line 1 through the first line holding `T` (GNU `0,/T/d`), keeping appended lines | high, not executed | `LogStore.SedCutLosesAppendedLines` | `LogStore.CutThroughMarker` |

The model's whole run (`Aggregation.Run`, `Aggregation.AggregateTelemetryData`)
uses the corrected partition and the corrected cut.
