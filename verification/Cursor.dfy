/** The read cursor: which record each form of "read the next record" stops at. */
module Cursor {
  import opened Prelude
  import opened ReaderModel

  /** A record type argument: "any", a type name, or a string that names none. */
  datatype TypeFilter = AnyType | Only(recordType: RecordType) | Unknown

  datatype Request =
    | NextEnabled
    | NextOfStream(stream: StreamId, types: TypeFilter)
    | NextOfDevice(typeId: nat, types: TypeFilter)

  datatype Refusal = StreamNotFound | ValueError

  predicate TypeMatches(types: TypeFilter, t: RecordType) {
    types == AnyType || types == Only(t)
  }

  predicate Match(r: RecordInfo, enabled: set<StreamId>, req: Request) {
    && r.stream in enabled
    && match req
       case NextEnabled => true
       case NextOfStream(stream, types) => r.stream == stream && TypeMatches(types, r.recordType)
       case NextOfDevice(typeId, types) => r.stream.typeId == typeId && TypeMatches(types, r.recordType)
  }

  /** The argument checks made before the cursor moves, in the order they are made. */
  function Refused(streams: set<StreamId>, enabled: set<StreamId>, req: Request): Option<Refusal> {
    match req
    case NextEnabled => None
    case NextOfStream(stream, types) =>
      if stream !in streams then Some(StreamNotFound)
      else if stream !in enabled || types == Unknown then Some(ValueError)
      else None
    case NextOfDevice(typeId, types) =>
      if types == Unknown then Some(ValueError)
      else if forall st | st in enabled :: st.typeId != typeId then Some(StreamNotFound)
      else None
  }

  /** Where the cursor stops: the first matching record at or after `from`, or the end of the index. */
  function NextMatch(index: seq<RecordInfo>, enabled: set<StreamId>, req: Request, from: nat): (j: nat)
    requires from <= |index|
    ensures from <= j <= |index|
    ensures j < |index| ==> Match(index[j], enabled, req)
    ensures forall i | from <= i < j :: !Match(index[i], enabled, req)
    decreases |index| - from
  {
    if from == |index| || Match(index[from], enabled, req) then from
    else NextMatch(index, enabled, req, from + 1)
  }

  lemma NextMatchIs(index: seq<RecordInfo>, enabled: set<StreamId>, req: Request, from: nat, j: nat)
    requires from <= j <= |index|
    requires forall i | from <= i < j :: !Match(index[i], enabled, req)
    requires j < |index| ==> Match(index[j], enabled, req)
    ensures NextMatch(index, enabled, req, from) == j
  {
    var k := NextMatch(index, enabled, req, from);
    assert k < |index| ==> Match(index[k], enabled, req);
  }

  /** What one request comes to. */
  datatype Next = Found(index: nat) | NoMoreRecords | Denied(why: Refusal)

  /** One "read next" request: its result, and where it leaves the cursor. */
  function NextRead(index: seq<RecordInfo>, streams: set<StreamId>, enabled: set<StreamId>, req: Request, from: nat)
    : (next: (Next, nat))
    requires from <= |index|
    ensures from <= next.1 <= |index|
    ensures next.0.Found? ==> from <= next.0.index < next.1
    ensures next.0.Denied? ==> next.1 == from
  {
    var refusal := Refused(streams, enabled, req);
    if refusal.Some? then (Denied(refusal.value), from)
    else
      var j := NextMatch(index, enabled, req, from);
      if j == |index| then (NoMoreRecords, j) else (Found(j), j + 1)
  }

  /** The indices that repeating one request returns until it returns no record. */
  function Drained(index: seq<RecordInfo>, streams: set<StreamId>, enabled: set<StreamId>, req: Request, from: nat)
    : seq<nat>
    requires from <= |index|
    decreases |index| - from
  {
    var (next, cursor) := NextRead(index, streams, enabled, req, from);
    if next.Found? then [next.index] + Drained(index, streams, enabled, req, cursor) else []
  }

  /** Strictly increasing positions within `lo .. hi`. */
  predicate Ascending(d: seq<nat>, lo: nat, hi: nat) {
    && (forall a | 0 <= a < |d| :: lo <= d[a] < hi)
    && (forall a, b | 0 <= a < b < |d| :: d[a] < d[b])
  }

  lemma PrependAscending(j: nat, rest: seq<nat>, lo: nat, hi: nat)
    requires lo <= j < hi && Ascending(rest, j + 1, hi)
    ensures Ascending([j] + rest, lo, hi)
  {
  }

  /** Repeated reads return matching records only, once each, in index order. */
  lemma {:induction false} DrainIsOrdered(index: seq<RecordInfo>, streams: set<StreamId>, enabled: set<StreamId>,
                                          req: Request, from: nat)
    requires from <= |index|
    ensures Ascending(Drained(index, streams, enabled, req, from), from, |index|)
    ensures forall i | i in Drained(index, streams, enabled, req, from) :: i < |index| && Match(index[i], enabled, req)
    decreases |index| - from
  {
    hide Match, Ascending, Refused;
    var (next, cursor) := NextRead(index, streams, enabled, req, from);
    if next.Found? {
      DrainIsOrdered(index, streams, enabled, req, cursor);
      PrependAscending(next.index, Drained(index, streams, enabled, req, cursor), from, |index|);
    } else {
      NothingAscending(from, |index|);
    }
  }

  lemma NothingAscending(lo: nat, hi: nat)
    ensures Ascending([], lo, hi)
  {
  }

  /** Unless refused, repeated reads miss nothing: every matching record at or after the cursor is returned. */
  lemma {:induction false} DrainIsComplete(index: seq<RecordInfo>, streams: set<StreamId>, enabled: set<StreamId>,
                                           req: Request, from: nat, i: nat)
    requires from <= i < |index| && Match(index[i], enabled, req) && Refused(streams, enabled, req).None?
    ensures i in Drained(index, streams, enabled, req, from)
    decreases |index| - from
  {
    hide Match, Refused;
    var (next, cursor) := NextRead(index, streams, enabled, req, from);
    if next != Found(i) {
      DrainIsComplete(index, streams, enabled, req, cursor, i);
    }
  }

  /** Calls that a caller mixes with reading on: more streams may be enabled at any time. */
  datatype Call = ReadNext(req: Request) | Enable(stream: StreamId)

  /** The indices a sequence of calls returns; requests refused or finding nothing return none. */
  function Mixed(index: seq<RecordInfo>, streams: set<StreamId>, enabled: set<StreamId>, calls: seq<Call>, from: nat)
    : seq<nat>
    requires from <= |index|
    decreases |calls|
  {
    if calls == [] then []
    else
      match calls[0]
      case Enable(stream) => Mixed(index, streams, enabled + {stream}, calls[1..], from)
      case ReadNext(req) =>
        var (next, cursor) := NextRead(index, streams, enabled, req, from);
        (if next.Found? then [next.index] else []) + Mixed(index, streams, enabled, calls[1..], cursor)
  }

  /**
   Whatever overloads are mixed, refused requests and newly enabled streams included, the indices returned
   strictly increase: no record is returned twice.
   */
  lemma {:induction false} MixedIncreases(index: seq<RecordInfo>, streams: set<StreamId>, enabled: set<StreamId>,
                                          calls: seq<Call>, from: nat)
    requires from <= |index|
    ensures Ascending(Mixed(index, streams, enabled, calls, from), from, |index|)
    decreases |calls|
  {
    hide NextRead;
    if calls != [] {
      match calls[0] {
        case Enable(stream) => MixedIncreases(index, streams, enabled + {stream}, calls[1..], from);
        case ReadNext(req) =>
          var (next, cursor) := NextRead(index, streams, enabled, req, from);
          MixedIncreases(index, streams, enabled, calls[1..], cursor);
      }
    }
  }

  // What a request gets, in terms of its own arguments

  /** The record is of an enabled stream, and of the stream, device type and record type asked for. */
  predicate Answers(r: RecordInfo, enabled: set<StreamId>, req: Request) {
    && r.stream in enabled
    && (req.NextOfStream? ==> r.stream == req.stream)
    && (req.NextOfDevice? ==> r.stream.typeId == req.typeId)
    && (!req.NextEnabled? && req.types != AnyType ==> req.types == Only(r.recordType))
  }

  /** A stream that is not in the file, or a device type none of whose streams is enabled. */
  predicate AsksForUnknown(streams: set<StreamId>, enabled: set<StreamId>, req: Request) {
    || (req.NextOfStream? && req.stream !in streams)
    || (req.NextOfDevice? && req.types != Unknown && forall st | st in enabled :: st.typeId != req.typeId)
  }

  /** A stream not enabled, or a record type that is none. */
  predicate AsksWrongly(streams: set<StreamId>, enabled: set<StreamId>, req: Request) {
    || (req.NextOfStream? && req.stream in streams && (req.stream !in enabled || req.types == Unknown))
    || (req.NextOfDevice? && req.types == Unknown)
  }

  /** A request is refused for its arguments only, and otherwise gets the first record that answers it. */
  ghost predicate Served(index: seq<RecordInfo>, streams: set<StreamId>, enabled: set<StreamId>, req: Request,
                         from: nat, next: Next, cursor: nat)
  {
    && from <= cursor <= |index|
    && (next == Denied(StreamNotFound) <==> AsksForUnknown(streams, enabled, req))
    && (next == Denied(ValueError) <==> AsksWrongly(streams, enabled, req))
    && match next
       case Denied(why) => cursor == from
       case NoMoreRecords => cursor == |index| && forall i | from <= i < |index| :: !Answers(index[i], enabled, req)
       case Found(j) =>
         && cursor == j + 1 && from <= j && Answers(index[j], enabled, req)
         && forall i | from <= i < j :: !Answers(index[i], enabled, req)
  }

  lemma NextReadServes(index: seq<RecordInfo>, streams: set<StreamId>, enabled: set<StreamId>, req: Request, from: nat)
    requires from <= |index|
    ensures var (next, cursor) := NextRead(index, streams, enabled, req, from);
      Served(index, streams, enabled, req, from, next, cursor)
  {
    forall i | 0 <= i < |index| ensures Match(index[i], enabled, req) <==> Answers(index[i], enabled, req) {
    }
    var j := NextMatch(index, enabled, req, from);
    assert j < |index| ==> Match(index[j], enabled, req);
    assert forall i | from <= i < j :: !Match(index[i], enabled, req);
  }

  /** Repeating one request returns exactly the records that answer it, from the cursor on. */
  lemma DrainedIs(index: seq<RecordInfo>, streams: set<StreamId>, enabled: set<StreamId>, req: Request, from: nat,
                  i: nat)
    requires from <= |index| && Refused(streams, enabled, req).None?
    ensures i in Drained(index, streams, enabled, req, from)
      <==> from <= i < |index| && Answers(index[i], enabled, req)
  {
    DrainIsOrdered(index, streams, enabled, req, from);
    if from <= i < |index| && Answers(index[i], enabled, req) {
      DrainIsComplete(index, streams, enabled, req, from, i);
    }
  }

  function Repeated(req: Request, n: nat): seq<Call> {
    if n == 0 then [] else [ReadNext(req)] + Repeated(req, n - 1)
  }

  /** A mix that repeats one request returns what draining does, as far as it goes. */
  lemma {:induction false} RepeatedDrains(index: seq<RecordInfo>, streams: set<StreamId>, enabled: set<StreamId>,
                                          req: Request, n: nat, from: nat)
    requires from <= |index|
    ensures var drained := Drained(index, streams, enabled, req, from);
      Mixed(index, streams, enabled, Repeated(req, n), from) == if n <= |drained| then drained[..n] else drained
    decreases n
  {
    hide Refused, NextMatch;
    if n > 0 {
      var (next, cursor) := NextRead(index, streams, enabled, req, from);
      assert Repeated(req, n)[1..] == Repeated(req, n - 1);
      RepeatedDrains(index, streams, enabled, req, n - 1, cursor);
      if !next.Found? {
        StaysEnded(index, streams, enabled, req, from);
      }
    }
  }

  /** Once a request found nothing or was refused, repeating it changes nothing. */
  lemma StaysEnded(index: seq<RecordInfo>, streams: set<StreamId>, enabled: set<StreamId>, req: Request, from: nat)
    requires from <= |index| && !NextRead(index, streams, enabled, req, from).0.Found?
    ensures Drained(index, streams, enabled, req, NextRead(index, streams, enabled, req, from).1) == []
  {
  }
}
