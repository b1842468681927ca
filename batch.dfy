/** The JSON-LD envelope built from the processed entries (index.js:88-100). */
module BatchBuilder {
  import opened LogEntries

  /** A value of `Math.min(...)` / `Math.max(...)` over integer timestamps:
      a timestamp, or the infinity an empty argument list yields. */
  datatype Bound = Finite(value: int) | PosInfinity | NegInfinity

  /** One element of `data`. */
  datatype Record = Record(
    eventName: string,
    eventTimestamp: int,
    operationId: string,
    operationName: string,
    msg: string)

  /** The envelope `{ "@context", "@type", minTimestamp, maxTimestamp, data }`. */
  datatype Envelope = Envelope(
    context: string,
    kind: string,
    minTimestamp: Bound,
    maxTimestamp: Bound,
    data: seq<Record>)

  const SCHEMA_CONTEXT: string := "http://schema.org/"
  const ENVELOPE_TYPE: string := "OTTelemetry"

  /** The earliest timestamp among the entries. */
  function MinTime(entries: seq<LogEntry>): (m: int)
    requires entries != []
    ensures forall i :: 0 <= i < |entries| ==> m <= entries[i].time
    ensures exists i :: 0 <= i < |entries| && entries[i].time == m
  {
    if |entries| == 1 then entries[0].time
    else
      var rest := MinTime(entries[1..]);
      assert forall k :: 0 <= k < |entries| - 1 ==> entries[1..][k] == entries[k + 1];
      if entries[0].time <= rest then entries[0].time else rest
  }

  /** The latest timestamp among the entries. */
  function MaxTime(entries: seq<LogEntry>): (m: int)
    requires entries != []
    ensures forall i :: 0 <= i < |entries| ==> entries[i].time <= m
    ensures exists i :: 0 <= i < |entries| && entries[i].time == m
  {
    if |entries| == 1 then entries[0].time
    else
      var rest := MaxTime(entries[1..]);
      assert forall k :: 0 <= k < |entries| - 1 ==> entries[1..][k] == entries[k + 1];
      if entries[0].time >= rest then entries[0].time else rest
  }

  /** The record an entry is shipped as. */
  function Project(x: LogEntry): Record
  {
    Record(x.eventName, x.time, x.operationId, x.operationName, x.msg)
  }

  /** The envelope for the processed list: its bounds are the least and
      greatest timestamp, both attained (infinite when the list is empty), and
      `data` lists one record per entry, in order, copying the entry's fields. */
  function BuildEnvelope(processed: seq<LogEntry>): (env: Envelope)
    ensures env.context == SCHEMA_CONTEXT && env.kind == ENVELOPE_TYPE
    ensures |env.data| == |processed|
    ensures forall i :: 0 <= i < |processed| ==>
      && env.data[i].eventName == processed[i].eventName
      && env.data[i].eventTimestamp == processed[i].time
      && env.data[i].operationId == processed[i].operationId
      && env.data[i].operationName == processed[i].operationName
      && env.data[i].msg == processed[i].msg
    ensures processed == [] ==> env.minTimestamp == PosInfinity && env.maxTimestamp == NegInfinity
    ensures processed != [] ==>
      && env.minTimestamp.Finite? && env.maxTimestamp.Finite?
      && (forall i :: 0 <= i < |processed| ==> env.minTimestamp.value <= processed[i].time <= env.maxTimestamp.value)
      && (exists i :: 0 <= i < |processed| && processed[i].time == env.minTimestamp.value)
      && (exists i :: 0 <= i < |processed| && processed[i].time == env.maxTimestamp.value)
  {
    Envelope(
      SCHEMA_CONTEXT,
      ENVELOPE_TYPE,
      if processed == [] then PosInfinity else Finite(MinTime(processed)),
      if processed == [] then NegInfinity else Finite(MaxTime(processed)),
      seq(|processed|, i requires 0 <= i < |processed| => Project(processed[i])))
  }
}
