/**
 The writer's flush protocol on values. The native writer's part of a flush is a parameter: it may
 hand over the records due in any order of its own that is sorted by timestamp.
 */
module WriterModel {
  import opened Prelude

  datatype Record = Record(serial: nat, stream: nat, recordType: RecordType, timestamp: real)

  /** `last == None` stands for minus infinity: nothing has been flushed. */
  datatype WriterState = WriterState(
    fileCreated: bool, last: Option<real>, tags: map<string, string>, configured: set<nat>,
    native: NativeWriter, accepted: seq<Record>)

  /** `header` holds the tags of the file once the native writer has created it. */
  datatype NativeWriter = NativeWriter(header: Option<map<string, string>>, queue: seq<Record>, file: seq<Record>)

  datatype Status = Done | OrderError | NotConfigured | BadArguments | CreateFailed | TooLate

  datatype Op =
    | CreateRecord(stream: nat, recordType: RecordType, timestamp: real, argumentsMatch: bool)
    | Flush(limit: real, createStatus: int, batch: seq<Record>)
    | SetTag(name: string, value: string)

  const NEW_WRITER := WriterState(false, None, map[], {}, NativeWriter(None, [], []), [])

  /** The timestamp gate: nothing may precede the last flush. */
  predicate InOrder(last: Option<real>, timestamp: real) {
    last.Some? ==> last.value <= timestamp
  }

  function UpTo(records: seq<Record>, t: real): seq<Record> {
    if records == [] then []
    else (if records[0].timestamp <= t then [records[0]] else []) + UpTo(records[1..], t)
  }

  function Beyond(records: seq<Record>, t: real): seq<Record> {
    if records == [] then []
    else (if records[0].timestamp <= t then [] else [records[0]]) + Beyond(records[1..], t)
  }

  predicate Sorted(records: seq<Record>) {
    forall i, j | 0 <= i <= j < |records| :: records[i].timestamp <= records[j].timestamp
  }

  /** What the native writer promises of a batch: the queued records due, sorted by timestamp. */
  predicate NativeBatch(queue: seq<Record>, limit: real, batch: seq<Record>) {
    Sorted(batch) && multiset(batch) == multiset(UpTo(queue, limit))
  }

  /** Records are handed over only when the native file was created. */
  function NativeWrite(n: NativeWriter, limit: real, batch: seq<Record>): NativeWriter {
    if n.header.None? then n
    else n.(queue := Beyond(n.queue, limit), file := n.file + batch)
  }

  function Create(s: WriterState, stream: nat, t: RecordType, timestamp: real, argumentsMatch: bool)
    : (WriterState, Status)
  {
    if !InOrder(s.last, timestamp) then (s, OrderError)
    else if t == DATA && stream !in s.configured then (s, NotConfigured)
    else if !argumentsMatch then (s, BadArguments)
    else
      var r := Record(|s.accepted|, stream, t, timestamp);
      (s.(native := s.native.(queue := s.native.queue + [r]), accepted := s.accepted + [r],
          configured := if t == CONFIGURATION then s.configured + {stream} else s.configured),
       Done)
  }

  /** The file is created by the first flush let through; the flag is set even when creation fails. */
  function FlushRecords(s: WriterState, limit: real, createStatus: int, batch: seq<Record>): (WriterState, Status) {
    if !InOrder(s.last, limit) then (s, OrderError)
    else if !s.fileCreated && createStatus != 0 then (s.(fileCreated := true), CreateFailed)
    else
      var n := if s.fileCreated then s.native else s.native.(header := Some(s.tags));
      (s.(fileCreated := true, last := Some(limit), native := NativeWrite(n, limit, batch)), Done)
  }

  function Tag(s: WriterState, name: string, value: string): (WriterState, Status) {
    if s.fileCreated then (s, TooLate) else (s.(tags := s.tags[name := value]), Done)
  }

  function Step(s: WriterState, op: Op): (WriterState, Status) {
    match op
    case CreateRecord(stream, t, timestamp, ok) => Create(s, stream, t, timestamp, ok)
    case Flush(limit, status, batch) => FlushRecords(s, limit, status, batch)
    case SetTag(name, value) => Tag(s, name, value)
  }

  predicate Legal(s: WriterState, op: Op) {
    op.Flush? ==> NativeBatch(s.native.queue, op.limit, op.batch)
  }

  /** A run in which every batch meets the native writer's promise. */
  predicate LegalRun(ops: seq<Op>)
    decreases |ops|, 0
  {
    ops == [] || (LegalRun(ops[..|ops| - 1]) && Legal(StateAfter(ops[..|ops| - 1]), ops[|ops| - 1]))
  }

  function StateAfter(ops: seq<Op>): WriterState
    requires LegalRun(ops)
    decreases |ops|, 1
  {
    if ops == [] then NEW_WRITER else Step(StateAfter(ops[..|ops| - 1]), ops[|ops| - 1]).0
  }

  /** Records accepted before the last flush that went through, which is at `last`. */
  function AcceptedBeforeLastFlush(ops: seq<Op>): seq<Record>
    requires LegalRun(ops)
  {
    if ops == [] then []
    else
      var front, op := ops[..|ops| - 1], ops[|ops| - 1];
      if op.Flush? && Step(StateAfter(front), op).1 == Done then StateAfter(front).accepted
      else AcceptedBeforeLastFlush(front)
  }
}
