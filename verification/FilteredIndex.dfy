/** Selecting records by type, stream and time, and finding one's way back from the file to the selection. */
module FilteredIndex {
  import opened Prelude
  import opened ReaderModel

  datatype RecordFilter = RecordFilter(recordTypes: set<RecordType>, streamIds: set<StreamId>, min: real, max: real)

  predicate Selected(r: RecordInfo, f: RecordFilter) {
    f.min <= r.timestamp <= f.max && r.recordType in f.recordTypes && r.stream in f.streamIds
  }

  /** The positions below `n` of the records selected: a full scan. */
  function FullScan(index: seq<RecordInfo>, f: RecordFilter, n: nat): seq<nat>
    requires n <= |index|
  {
    if n == 0 then []
    else FullScan(index, f, n - 1) + (if Selected(index[n - 1], f) then [n - 1] else [])
  }

  /** Where the early exit stops: the first record past the time range, at or after `from`. */
  function Cut(index: seq<RecordInfo>, f: RecordFilter, from: nat): (n: nat)
    requires from <= |index|
    ensures from <= n <= |index|
    ensures n < |index| ==> index[n].timestamp > f.max
    ensures forall i | from <= i < n :: index[i].timestamp <= f.max
    decreases |index| - from
  {
    if from == |index| || index[from].timestamp > f.max then from else Cut(index, f, from + 1)
  }

  predicate TimeSorted(index: seq<RecordInfo>) {
    forall i, j | 0 <= i <= j < |index| :: index[i].timestamp <= index[j].timestamp
  }

  predicate StrictlyIncreasing(positions: seq<nat>) {
    forall a, b | 0 <= a < b < |positions| :: positions[a] < positions[b]
  }

  lemma {:induction false} ScanIsExact(index: seq<RecordInfo>, f: RecordFilter, n: nat)
    requires n <= |index|
    ensures forall i :: i in FullScan(index, f, n) <==> 0 <= i < n && Selected(index[i], f)
    ensures StrictlyIncreasing(FullScan(index, f, n))
  {
    if n > 0 {
      ScanIsExact(index, f, n - 1);
      var front := FullScan(index, f, n - 1);
      assert forall a | 0 <= a < |front| :: front[a] in front;
    }
  }

  lemma {:induction false} ScanGrows(index: seq<RecordInfo>, f: RecordFilter, m: nat, n: nat)
    requires m <= n <= |index|
    ensures FullScan(index, f, m) <= FullScan(index, f, n)
    ensures |FullScan(index, f, m)| == |FullScan(index, f, n)| <==> forall i | m <= i < n :: !Selected(index[i], f)
    decreases n
  {
    if m < n {
      ScanGrows(index, f, m, n - 1);
    }
  }

  /** The early exit loses nothing exactly when no record after the first late one is selected. */
  lemma EarlyExitExactIff(index: seq<RecordInfo>, f: RecordFilter)
    ensures FullScan(index, f, Cut(index, f, 0)) == FullScan(index, f, |index|)
      <==> forall i | Cut(index, f, 0) <= i < |index| :: !Selected(index[i], f)
  {
    ScanGrows(index, f, Cut(index, f, 0), |index|);
  }

  /** On a file sorted by time it loses nothing. */
  lemma EarlyExitOnSorted(index: seq<RecordInfo>, f: RecordFilter)
    requires TimeSorted(index)
    ensures FullScan(index, f, Cut(index, f, 0)) == FullScan(index, f, |index|)
  {
    EarlyExitExactIff(index, f);
  }

  predicate HasAll(index: seq<RecordInfo>, f: RecordFilter, selection: seq<nat>) {
    forall i | 0 <= i < |index| && Selected(index[i], f) :: i in selection
  }

  /** What the scan up to the early exit selects, on any file. */
  lemma CutSelection(index: seq<RecordInfo>, f: RecordFilter)
    ensures var s := FullScan(index, f, Cut(index, f, 0));
      && StrictlyIncreasing(s)
      && (forall i | i in s :: i < |index| && Selected(index[i], f))
      && (HasAll(index, f, s) <==> forall i | Cut(index, f, 0) <= i < |index| :: !Selected(index[i], f))
      && (s != [] ==> s[0] in s && s[|s| - 1] in s && forall i | i in s :: s[0] <= i <= s[|s| - 1])
  {
    ScanIsExact(index, f, Cut(index, f, 0));
  }

  lemma SelectionTimes(index: seq<RecordInfo>, f: RecordFilter)
    requires TimeSorted(index)
    ensures var s := FullScan(index, f, Cut(index, f, 0));
      HasAll(index, f, s) && forall i | i in s ::
        && s != [] && i < |index| && s[0] < |index| && s[|s| - 1] < |index|
        && index[s[0]].timestamp <= index[i].timestamp <= index[s[|s| - 1]].timestamp
  {
    CutSelection(index, f);
  }

  /** The reader's selection; None when a requested stream is not in the file. */
  method RegenerateEnabledIndices(index: seq<RecordInfo>, streams: set<StreamId>, f: RecordFilter)
    returns (enabled: Option<seq<nat>>)
    ensures enabled.None? <==> !(f.streamIds <= streams)
    ensures enabled.Some? ==> enabled.value == FullScan(index, f, Cut(index, f, 0))
    ensures enabled.Some? && TimeSorted(index) ==>
      && StrictlyIncreasing(enabled.value)
      && forall i :: i in enabled.value <==> 0 <= i < |index| && Selected(index[i], f)
    ensures enabled.Some? ==> forall i | i in enabled.value ::
      && i < |index| && f.min <= index[i].timestamp <= f.max
      && index[i].recordType in f.recordTypes && index[i].stream in f.streamIds
    ensures enabled.Some? && TimeSorted(index) ==> forall i | 0 <= i < |index| && i !in enabled.value ::
      || index[i].timestamp < f.min || index[i].timestamp > f.max
      || index[i].recordType !in f.recordTypes || index[i].stream !in f.streamIds
  {
    if !(f.streamIds <= streams) {
      return None;
    }
    var indices: seq<nat> := [];
    var recordIndex := 0;
    while recordIndex < |index|
      invariant recordIndex <= |index|
      invariant indices == FullScan(index, f, recordIndex)
      invariant Cut(index, f, 0) == Cut(index, f, recordIndex)
    {
      var r := index[recordIndex];
      if r.timestamp > f.max {
        break;
      }
      if r.timestamp >= f.min {
        if r.recordType in f.recordTypes && r.stream in f.streamIds {
          indices := indices + [recordIndex];
        }
      }
      recordIndex := recordIndex + 1;
    }
    ScanIsExact(index, f, Cut(index, f, 0));
    if TimeSorted(index) {
      EarlyExitOnSorted(index, f);
      ScanIsExact(index, f, |index|);
    }
    return Some(indices);
  }

  /** `bisect`: how many entries are at most `x`. */
  method Bisect(positions: seq<nat>, x: nat) returns (p: nat)
    requires StrictlyIncreasing(positions)
    ensures p <= |positions|
    ensures forall k | 0 <= k < p :: positions[k] <= x
    ensures forall k | p <= k < |positions| :: x < positions[k]
  {
    var lo, hi := 0, |positions|;
    while lo < hi
      invariant 0 <= lo <= hi <= |positions|
      invariant forall k | 0 <= k < lo :: positions[k] <= x
      invariant forall k | hi <= k < |positions| :: x < positions[k]
    {
      var mid := (lo + hi) / 2;
      if x < positions[mid] {
        hi := mid;
      } else {
        lo := mid + 1;
      }
    }
    p := lo;
  }

  /** A reader restricted to the records a filter selects. */
  class FilteredReader {
    const index: seq<RecordInfo>
    const filter: RecordFilter
    const filteredIndices: seq<nat>
    const minTimestamp: real
    const maxTimestamp: real

    ghost predicate Valid() {
      && StrictlyIncreasing(filteredIndices)
      && forall i | i in filteredIndices :: i < |index| && Selected(index[i], filter)
    }

    /** The selection has every record of the file that the filter selects. */
    ghost predicate Complete() {
      HasAll(index, filter, filteredIndices)
    }

    /**
     The reader's selection, for streams of the file. The time range reported is that of the first and the
     last record selected; on a file sorted by time it bounds the selection, which is complete.
     */
    constructor (index: seq<RecordInfo>, streams: set<StreamId>, filter: RecordFilter)
      requires filter.streamIds <= streams
      ensures Valid() && this.index == index && this.filter == filter
      ensures Complete() <==> forall i | Cut(index, filter, 0) <= i < |index| :: !Selected(index[i], filter)
      ensures filteredIndices == [] ==> minTimestamp == maxTimestamp == 0.0
      ensures filteredIndices != [] ==>
        && (exists i :: i in filteredIndices && index[i].timestamp == minTimestamp)
        && (exists i :: i in filteredIndices && index[i].timestamp == maxTimestamp)
        && (forall i | i in filteredIndices :: filteredIndices[0] <= i <= filteredIndices[|filteredIndices| - 1])
      ensures TimeSorted(index) ==> Complete()
      ensures TimeSorted(index) ==>
        forall i | i in filteredIndices :: minTimestamp <= index[i].timestamp <= maxTimestamp
    {
      hide StrictlyIncreasing, TimeSorted, Selected, HasAll, FullScan, Cut;
      var enabled := RegenerateEnabledIndices(index, streams, filter);
      var indices := enabled.value;
      CutSelection(index, filter);
      this.index, this.filter, filteredIndices := index, filter, indices;
      minTimestamp := if |indices| == 0 then 0.0 else index[indices[0]].timestamp;
      maxTimestamp := if |indices| == 0 then 0.0 else index[indices[|indices| - 1]].timestamp;
      new;
      if TimeSorted(index) {
        SelectionTimes(index, filter);
      }
    }

    /** From a record's index in the file to its place in the selection, or to the last place before it. */
    method GetRecordIndexByTime(underlying: nat) returns (p: nat)
      requires Valid()
      ensures underlying in filteredIndices ==> p < |filteredIndices| && filteredIndices[p] == underlying
      ensures (exists i :: i in filteredIndices && i <= underlying) ==>
        && p < |filteredIndices| && filteredIndices[p] <= underlying
        && forall i | i in filteredIndices && i <= underlying :: i <= filteredIndices[p]
      ensures !(exists i :: i in filteredIndices && i <= underlying) ==> p == 0
    {
      var b := Bisect(filteredIndices, underlying);
      p := if b == 0 then 0 else b - 1;
      forall i | i in filteredIndices && i <= underlying ensures b > 0 && i <= filteredIndices[p] {
        var k :| 0 <= k < |filteredIndices| && filteredIndices[k] == i;
        assert k < b;
      }
      if b > 0 {
        assert filteredIndices[p] in filteredIndices;
      }
    }

    /** Negative indices count from the end; None is Python's index error. */
    method GetTimestampForIndex(i: int) returns (t: Option<real>)
      requires Valid()
      ensures t.Some? <==> -|filteredIndices| <= i < |filteredIndices|
      ensures t.Some? ==>
        var at := filteredIndices[if i < 0 then |filteredIndices| + i else i];
        at < |index| && t.value == index[at].timestamp
    {
      if i >= |filteredIndices| {
        return None;
      }
      var k := if i < 0 then |filteredIndices| + i else i;
      if k < 0 {
        return None;
      }
      assert filteredIndices[k] in filteredIndices;
      return Some(index[filteredIndices[k]].timestamp);
    }
  }

  /** Filtering a reader: refused when a requested stream is not in the file, and only then. */
  method Filtered(index: seq<RecordInfo>, streams: set<StreamId>, filter: RecordFilter)
    returns (reader: Option<FilteredReader>)
    ensures reader.None? <==> !(filter.streamIds <= streams)
    ensures reader.Some? ==>
      reader.value.Valid() && reader.value.index == index && reader.value.filter == filter
    ensures reader.Some? && TimeSorted(index) ==> reader.value.Complete()
  {
    if !(filter.streamIds <= streams) {
      return None;
    }
    var r := new FilteredReader(index, streams, filter);
    return Some(r);
  }
}
