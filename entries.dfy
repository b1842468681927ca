/** The parsed log record the aggregator works on, and its one tuning constant. */
module LogEntries {

  /** After this age, in milliseconds, an event is shipped even if its
      operation has not ended (index.js:14). */
  const EVENT_TIME_LIMIT: int := 5 * 60 * 1000

  /** One JSON log line after parsing. The aggregator reads `time` (epoch
      milliseconds), `Event_name`, `Id_operation`, `Operation_name` and
      `msg`; every other member of the object (`level`, `hostname`,
      `Event_value1`…) is kept in `unread` as a key and its JSON value text,
      in the object's order, so that the text written back for a pending
      entry can depend on it. */
  datatype LogEntry = LogEntry(
    time: int,
    eventName: string,
    operationId: string,
    operationName: string,
    msg: string,
    unread: seq<(string, string)>)

  /** Entries at or before this instant are stale; it is computed once per run
      from the wall clock `now` (index.js:52). */
  function Cutoff(now: int): int
  {
    now - EVENT_TIME_LIMIT
  }

  /** A non-empty stream is its prefix followed by its last entry, as a list
      and as a multiset. */
  lemma SplitLast(s: seq<LogEntry>)
    requires s != []
    ensures s == s[..|s| - 1] + [s[|s| - 1]]
    ensures multiset(s) == multiset(s[..|s| - 1]) + multiset{s[|s| - 1]}
  {
    assert s == s[..|s| - 1] + [s[|s| - 1]];
  }
}
