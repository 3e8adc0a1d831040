/**
 The image filter as a state machine on values: what one public call does to the read
 cursor, to the ordered map of pending records and to the calls sent to the file writer.
 `Ledger` is the independent reference: a cursor and the answers given, with no reorder buffer.
 */
module FilterModel {
  import opened Prelude

  /** A content block as the record copier sees it. Only images of known size can be filtered. */
  datatype Chunk = Chunk(isImage: bool, sizeKnown: bool, bytes: Bytes) {
    predicate Filterable() { isImage && sizeKnown }
  }

  /** An input record; `filtered` says that its stream goes through the filtering copier. */
  datatype Record = Record(
    timestamp: real, recordType: RecordType, stream: StreamId, formatVersion: nat,
    filtered: bool, chunks: seq<Chunk>)

  /** A record whose image has been handed out; `imageChunk` is dropped once it is answered. */
  datatype PendingRecord = PendingRecord(
    recordChunks: seq<Chunk>, imageChunk: Option<nat>, writer: Option<StreamId>, formatVersion: nat) {

    predicate NeedsImageProcessing() { imageChunk.Some? }

    predicate WellFormed() {
      writer.Some? && (imageChunk.Some? ==> imageChunk.value < |recordChunks|)
    }

    function SetBuffer(processedImage: Bytes): PendingRecord
      requires WellFormed() && NeedsImageProcessing()
    {
      this.(recordChunks := ReplaceBytes(recordChunks, imageChunk.value, processedImage),
            imageChunk := None)
    }
  }

  /** A call made to the output writer, tagged with the index of the record it concerns. */
  datatype WriterEvent =
    | Created(index: nat, viaFilter: bool, writer: StreamId, timestamp: real,
              recordType: RecordType, formatVersion: nat, chunks: seq<Chunk>)
    | RecordDecoded(timestamp: real)

  datatype FilterState = FilterState(next: nat, pending: map<nat, PendingRecord>, log: seq<WriterEvent>)

  const INITIAL_STATE := FilterState(0, map[], [])
  const CLEARED := PendingRecord([], None, None, 0)

  function ReplaceBytes(chunks: seq<Chunk>, slot: nat, bytes: Bytes): seq<Chunk>
    requires slot < |chunks|
  {
    chunks[slot := chunks[slot].(bytes := bytes)]
  }

  /** The chunk to filter: each image read replaces the previous candidate, so the last one wins. */
  function LastImage(chunks: seq<Chunk>): (slot: Option<nat>)
    ensures slot.Some? ==> slot.value < |chunks| && chunks[slot.value].Filterable()
    ensures slot.Some? ==> forall j | slot.value < j < |chunks| :: !chunks[j].Filterable()
    ensures slot.None? ==> forall j | 0 <= j < |chunks| :: !chunks[j].Filterable()
  {
    if chunks == [] then None
    else if chunks[|chunks| - 1].Filterable() then Some(|chunks| - 1)
    else LastImage(chunks[..|chunks| - 1])
  }

  function ImageSlot(r: Record): Option<nat> {
    if r.filtered then LastImage(r.chunks) else None
  }

  predicate IsImage(records: seq<Record>, i: nat) {
    i < |records| && ImageSlot(records[i]).Some?
  }

  /** The entry queued for a record just read: its image bytes have been moved to the caller. */
  function Unanswered(r: Record): PendingRecord
    requires ImageSlot(r).Some?
  {
    var slot := ImageSlot(r).value;
    PendingRecord(ReplaceBytes(r.chunks, slot, []), Some(slot), Some(r.stream), r.formatVersion)
  }

  /** A record without an image to filter goes to the writer at once. */
  function CopyEvent(records: seq<Record>, i: nat): WriterEvent
    requires i < |records|
  {
    var r := records[i];
    Created(i, false, r.stream, r.timestamp, r.recordType, r.formatVersion, r.chunks)
  }

  /** First filterable record at or after `from`, or the number of records. */
  function NextImage(records: seq<Record>, from: nat): (j: nat)
    requires from <= |records|
    ensures from <= j <= |records|
    ensures j < |records| ==> IsImage(records, j)
    ensures forall i | from <= i < j :: !IsImage(records, i)
    decreases |records| - from
  {
    if from == |records| || IsImage(records, from) then from else NextImage(records, from + 1)
  }

  /** What reading records `from .. to`, none of them filterable, sends to the writer. */
  function Copies(records: seq<Record>, from: nat, end: nat): seq<WriterEvent>
    requires from <= end <= |records|
  {
    if from == end then []
    else Copies(records, from, end - 1) + (if IsImage(records, end - 1) then [] else [CopyEvent(records, end - 1)])
  }

  predicate IsMinKey(keys: set<nat>, k: nat) {
    k in keys && forall j | j in keys :: k <= j
  }

  /** `begin()` of an ordered map. */
  function MinKey(keys: set<nat>): (k: nat)
    requires keys != {}
    ensures IsMinKey(keys, k)
  {
    MinKeyExists(keys);
    var k :| IsMinKey(keys, k);
    k
  }

  lemma MinKeyExists(keys: set<nat>)
    requires keys != {}
    ensures exists k :: IsMinKey(keys, k)
  {
    var k :| k in keys;
    var rest := keys - {k};
    if rest == {} {
      assert keys == {k};
      assert IsMinKey(keys, k);
    } else {
      MinKeyExists(rest);
      var m :| IsMinKey(rest, m);
      assert keys == rest + {k};
      assert IsMinKey(keys, if k <= m then k else m);
    }
  }

  predicate Sound(records: seq<Record>, pending: map<nat, PendingRecord>) {
    forall k | k in pending :: k < |records| && pending[k].WellFormed()
  }

  /** The `createRecord` call for an answered pending record. */
  function EmitEvent(records: seq<Record>, i: nat, p: PendingRecord): WriterEvent
    requires i < |records| && p.WellFormed()
  {
    Created(i, true, p.writer.value, records[i].timestamp, records[i].recordType, p.formatVersion, p.recordChunks)
  }

  /** Nothing at the front of the map is ready to be written. */
  predicate Blocked(pending: map<nat, PendingRecord>) {
    pending == map[] || pending[MinKey(pending.Keys)].NeedsImageProcessing()
  }

  /** Write out the answered record at the front of the map. */
  function EmitFirst(records: seq<Record>, s: FilterState): (s': FilterState)
    requires Sound(records, s.pending) && !Blocked(s.pending)
    ensures |s'.pending| < |s.pending| && Sound(records, s'.pending) && s'.next == s.next
  {
    var i := MinKey(s.pending.Keys);
    var s' := s.(pending := s.pending - {i}, log := s.log + [EmitEvent(records, i, s.pending[i])]);
    assert s.pending.Keys == s'.pending.Keys + {i};
    s'
  }

  /** Write out answered records from the front of the map, then report the last timestamp written. */
  function Drain(records: seq<Record>, s: FilterState, last: Option<real>): FilterState
    requires Sound(records, s.pending)
    decreases |s.pending|
  {
    if Blocked(s.pending) then
      if last.Some? then s.(log := s.log + [RecordDecoded(last.value)]) else s
    else
      Drain(records, EmitFirst(records, s), Some(records[MinKey(s.pending.Keys)].timestamp))
  }

  // The public calls

  datatype Op =
    | GetNextImage
    | WriteProcessedImage(recordIndex: nat, processedImage: Bytes)
    | DiscardRecord(recordIndex: nat)

  predicate Accepts(s: FilterState, recordIndex: nat) {
    recordIndex in s.pending && s.pending[recordIndex].NeedsImageProcessing()
  }

  function Fetch(records: seq<Record>, s: FilterState): FilterState
    requires s.next <= |records|
  {
    var j := NextImage(records, s.next);
    var log := s.log + Copies(records, s.next, j);
    if j == |records| then FilterState(j, s.pending, log)
    else FilterState(j + 1, s.pending[j := Unanswered(records[j])], log)
  }

  function Write(records: seq<Record>, s: FilterState, i: nat, processedImage: Bytes): FilterState
    requires Sound(records, s.pending)
  {
    if Accepts(s, i)
    then Drain(records, s.(pending := s.pending[i := s.pending[i].SetBuffer(processedImage)]), None)
    else s
  }

  function Discard(records: seq<Record>, s: FilterState, i: nat): FilterState
    requires Sound(records, s.pending)
  {
    if Accepts(s, i) then Drain(records, s.(pending := s.pending - {i}), None) else s
  }

  function Step(records: seq<Record>, s: FilterState, op: Op): FilterState
    requires s.next <= |records| && Sound(records, s.pending)
  {
    match op
    case GetNextImage => Fetch(records, s)
    case WriteProcessedImage(i, image) => Write(records, s, i, image)
    case DiscardRecord(i) => Discard(records, s, i)
  }

  // The reference: who was handed out, and who answered what

  datatype Answer = Processed(image: Bytes) | Discarded

  datatype Ledger = Ledger(cursor: nat, answers: map<nat, Answer>)

  const NEW_LEDGER := Ledger(0, map[])

  predicate Fetched(records: seq<Record>, l: Ledger, i: nat) {
    i < l.cursor && IsImage(records, i)
  }

  function Note(records: seq<Record>, l: Ledger, i: nat, a: Answer): Ledger {
    if Fetched(records, l, i) && i !in l.answers then l.(answers := l.answers[i := a]) else l
  }

  function LedgerStep(records: seq<Record>, l: Ledger, op: Op): Ledger
    requires l.cursor <= |records|
  {
    match op
    case GetNextImage =>
      var j := NextImage(records, l.cursor);
      l.(cursor := if j == |records| then j else j + 1)
    case WriteProcessedImage(i, image) => Note(records, l, i, Processed(image))
    case DiscardRecord(i) => Note(records, l, i, Discarded)
  }

  predicate Consistent(records: seq<Record>, l: Ledger) {
    l.cursor <= |records| && forall i | i in l.answers :: Fetched(records, l, i)
  }

  /** The smallest image handed out and not yet answered, looking from `from` on. */
  function FirstUnanswered(records: seq<Record>, l: Ledger, from: nat): (f: nat)
    requires from <= l.cursor
    ensures from <= f <= l.cursor
    ensures f < l.cursor ==> IsImage(records, f) && f !in l.answers
    ensures forall i | from <= i < f && IsImage(records, i) :: i in l.answers
    decreases l.cursor - from
  {
    if from == l.cursor || (IsImage(records, from) && from !in l.answers) then from
    else FirstUnanswered(records, l, from + 1)
  }

  /** The output record an answered image must become: its own chunks with the supplied buffer. */
  function Output(records: seq<Record>, i: nat, image: Bytes): WriterEvent
    requires IsImage(records, i)
  {
    var r := records[i];
    Created(i, true, r.stream, r.timestamp, r.recordType, r.formatVersion,
            ReplaceBytes(r.chunks, ImageSlot(r).value, image))
  }

  /** Outputs due for the images below `bound`, in record order. */
  function OutputsBelow(records: seq<Record>, answers: map<nat, Answer>, bound: nat): seq<WriterEvent>
    requires forall i | i in answers :: IsImage(records, i)
  {
    if bound == 0 then []
    else
      var i := bound - 1;
      OutputsBelow(records, answers, i)
      + (if i in answers && answers[i].Processed? then [Output(records, i, answers[i].image)] else [])
  }

  /** The entry an image must have in the map while it waits for an earlier image. */
  function Entry(records: seq<Record>, answers: map<nat, Answer>, i: nat): PendingRecord
    requires IsImage(records, i)
  {
    var u := Unanswered(records[i]);
    if i in answers && answers[i].Processed? then u.SetBuffer(answers[i].image) else u
  }

  /** An image handed out, not discarded, and at `from` or after. */
  predicate Awaiting(records: seq<Record>, l: Ledger, from: nat, i: nat) {
    from <= i && Fetched(records, l, i) && !(i in l.answers && l.answers[i].Discarded?)
  }

  /** The map holds exactly the awaiting images from `from` on, each with the entry it must have. */
  ghost predicate Holds(records: seq<Record>, l: Ledger, from: nat, pending: map<nat, PendingRecord>) {
    && (forall i :: i in pending <==> Awaiting(records, l, from, i))
    && (forall i | i in pending :: pending[i] == Entry(records, l.answers, i))
  }

  function ViaFilter(log: seq<WriterEvent>, viaFilter: bool): seq<WriterEvent> {
    if log == [] then []
    else
      var e := log[|log| - 1];
      ViaFilter(log[..|log| - 1], viaFilter) + (if e.Created? && e.viaFilter == viaFilter then [e] else [])
  }

  /** The writer's log holds the outputs below `bound`, and every record read and not filterable. */
  predicate Logged(records: seq<Record>, l: Ledger, bound: nat, log: seq<WriterEvent>)
    requires Consistent(records, l)
  {
    && ViaFilter(log, true) == OutputsBelow(records, l.answers, bound)
    && ViaFilter(log, false) == Copies(records, 0, l.cursor)
  }

  /** The whole state is determined by the ledger, up to how the two kinds of record interleave. */
  ghost predicate Refines(records: seq<Record>, l: Ledger, s: FilterState) {
    && Consistent(records, l)
    && s.next == l.cursor
    && Holds(records, l, FirstUnanswered(records, l, 0), s.pending)
    && Logged(records, l, FirstUnanswered(records, l, 0), s.log)
  }
}
