/** Runs of the record reader: under which configuration each record is decoded, and what it holds. */
module ReaderProofs {
  import opened Prelude
  import opened BlockList
  import opened ReaderModel

  // The lazy index and its binary search agree with the backward scan

  /** The stream's configuration records among the first `n`, in file order. */
  function ConfigList(index: seq<RecordInfo>, stream: StreamId, n: nat): seq<nat>
    requires n <= |index|
  {
    if n == 0 then []
    else ConfigList(index, stream, n - 1) + (if IsConfig(index, stream, n - 1) then [n - 1] else [])
  }

  lemma {:induction false} BuiltIsConfigList(index: seq<RecordInfo>, stream: StreamId, n: nat)
    requires n <= |index|
    ensures Lookup(BuildConfigIndex(index, n), stream, []) == ConfigList(index, stream, n)
  {
    if n > 0 {
      BuiltIsConfigList(index, stream, n - 1);
    }
  }

  /** Entries below `i` are exactly the list for the first `i` records; the rest are at `i` or after. */
  lemma {:induction false} ConfigListSplit(index: seq<RecordInfo>, stream: StreamId, i: nat, n: nat)
    requires i <= n <= |index|
    ensures ConfigList(index, stream, i) <= ConfigList(index, stream, n)
    ensures forall k | |ConfigList(index, stream, i)| <= k < |ConfigList(index, stream, n)| ::
      ConfigList(index, stream, n)[k] >= i
    decreases n
  {
    if i < n {
      ConfigListSplit(index, stream, i, n - 1);
    }
  }

  lemma {:induction false} ConfigListEndsAtNearest(index: seq<RecordInfo>, stream: StreamId, i: nat)
    requires i <= |index|
    ensures forall c | c in ConfigList(index, stream, i) :: c < i
    ensures NearestConfig(index, stream, i)
         == if ConfigList(index, stream, i) == [] then None
            else Some(ConfigList(index, stream, i)[|ConfigList(index, stream, i)| - 1])
  {
    if i > 0 {
      ConfigListEndsAtNearest(index, stream, i - 1);
    }
  }

  /** The entry before the lower bound is the nearest configuration before the record. */
  lemma SearchFindsNearest(index: seq<RecordInfo>, stream: StreamId, i: nat)
    requires i <= |index|
    ensures var list := ConfigList(index, stream, |index|);
      var p := LowerBound(list, i);
      NearestConfig(index, stream, i) == if p == 0 then None else Some(list[p - 1])
  {
    var list, below := ConfigList(index, stream, |index|), ConfigList(index, stream, i);
    var p := LowerBound(list, i);
    ConfigListSplit(index, stream, i, |index|);
    ConfigListEndsAtNearest(index, stream, i);
    assert forall k | 0 <= k < |below| :: list[k] == below[k];
    assert forall k | 0 <= k < |below| :: below[k] in below;
    assert |below| < |list| ==> list[|below|] >= i;
    assert p == |below|;
  }

  // What every run keeps

  /** Caches are empty between reads, the configuration index is unbuilt or right. */
  ghost predicate Inv(index: seq<RecordInfo>, s: ReaderState) {
    && s.lastRecord.IsEmpty()
    && (s.configIndex == map[] || forall st :: Lookup(s.configIndex, st, []) == ConfigList(index, st, |index|))
  }

  lemma InvInRange(index: seq<RecordInfo>, s: ReaderState)
    requires Inv(index, s)
    ensures InRange(index, s)
  {
    forall st | st in s.configIndex ensures forall k | 0 <= k < |s.configIndex[st]| :: s.configIndex[st][k] < |index| {
      assert Lookup(s.configIndex, st, []) == ConfigList(index, st, |index|);
      ConfigListEndsAtNearest(index, st, |index|);
      forall k | 0 <= k < |s.configIndex[st]| ensures s.configIndex[st][k] < |index| {
        assert s.configIndex[st][k] in ConfigList(index, st, |index|);
      }
    }
  }

  lemma IndexReady(index: seq<RecordInfo>, configs: map<StreamId, seq<nat>>, stream: StreamId)
    requires configs == map[] || forall st :: Lookup(configs, st, []) == ConfigList(index, st, |index|)
    ensures var built := if configs == map[] then BuildConfigIndex(index, |index|) else configs;
      && Lookup(built, stream, []) == ConfigList(index, stream, |index|)
      && forall st :: Lookup(built[stream := Lookup(built, stream, [])], st, []) == ConfigList(index, st, |index|)
  {
    var built := if configs == map[] then BuildConfigIndex(index, |index|) else configs;
    forall st ensures Lookup(built, st, []) == ConfigList(index, st, |index|) {
      BuiltIsConfigList(index, st, |index|);
    }
  }

  /** The captures made by reading so much of a configuration record. */
  function CapturesAfter(index: seq<RecordInfo>, captured: map<StreamId, Layout>, c: ConfigRead): map<StreamId, Layout>
    requires c.record < |index| && c.blocks <= |index[c.record].blocks|
  {
    Capture(captured, index[c.record], c.record, c.blocks)
  }

  lemma ConfigRecordRead(index: seq<RecordInfo>, trailing: Trailing, s: ReaderState, stream: StreamId, c: nat)
    requires IsConfig(index, stream, c)
    ensures LibraryRead(index, trailing, s, c)
         == s.(lastRecord := LibraryRead(index, trailing, s, c).lastRecord,
               decoder := s.decoder[stream := ReadOf(index, trailing, c)],
               captured := CapturesAfter(index, s.captured, ReadOf(index, trailing, c)))
  {
  }

  lemma StreamListed(index: seq<RecordInfo>, s: ReaderState, stream: StreamId)
    requires Inv(index, s)
    ensures IndexAfter(index, s.configIndex, stream)[stream] == ConfigList(index, stream, |index|)
    ensures Inv(index, s.(configIndex := IndexAfter(index, s.configIndex, stream)))
  {
    hide BuildConfigIndex, ConfigList;
    IndexReady(index, s.configIndex, stream);
  }

  /** The automatic read loads the nearest configuration by backward scan, if there is one. */
  lemma ConfigurationCases(index: seq<RecordInfo>, trailing: Trailing, s: ReaderState, stream: StreamId, i: nat)
    requires i < |index| && Inv(index, s) && InRange(index, s)
    ensures
      var c := NearestConfig(index, stream, i);
      var s1 := s.(configIndex := IndexAfter(index, s.configIndex, stream));
      ReadConfiguration(index, trailing, s, stream, i)
      == if c.None? then s1 else LoadConfiguration(index, trailing, s1, stream, c.value)
  {
    hide Inv, LowerBound, ConfigList, NearestConfig, LoadConfiguration, IndexAfter;
    StreamListed(index, s, stream);
    SearchFindsNearest(index, stream, i);
  }

  lemma LoadStep(index: seq<RecordInfo>, trailing: Trailing, s: ReaderState, stream: StreamId, c: nat)
    requires IsConfig(index, stream, c)
    ensures
      var s2 := s.(lastReadConfig := s.lastReadConfig[stream := c]);
      LoadConfiguration(index, trailing, s, stream, c) ==
        if Lookup(s.lastReadConfig, stream, 0) == c then s2
        else s2.(lastRecord := CLEARED_CACHE, decoder := s.decoder[stream := ReadOf(index, trailing, c)],
                 captured := CapturesAfter(index, s.captured, ReadOf(index, trailing, c)))
  {
    hide LibraryRead, CapturesAfter, ReadOf;
    var last := Lookup(s.lastReadConfig, stream, 0);
    ConfigRecordRead(index, trailing, s.(lastReadConfig := s.lastReadConfig[stream := last]), stream, c);
    assert s.lastReadConfig[stream := last][stream := c] == s.lastReadConfig[stream := c];
  }

  /** The automatic read in terms of the backward scan. */
  lemma ConfigurationStep(index: seq<RecordInfo>, trailing: Trailing, s: ReaderState, stream: StreamId, i: nat)
    requires i < |index| && Inv(index, s) && InRange(index, s)
    ensures var s' := ReadConfiguration(index, trailing, s, stream, i);
      var c := NearestConfig(index, stream, i);
      && Inv(index, s')
      && s'.next == s.next
      && (c.None? ==>
            s'.decoder == s.decoder && s'.lastReadConfig == s.lastReadConfig && s'.captured == s.captured)
      && (c.Some? ==>
        && s'.lastReadConfig == s.lastReadConfig[stream := c.value]
        && s'.decoder == (if Lookup(s.lastReadConfig, stream, 0) == c.value then s.decoder
                          else s.decoder[stream := ReadOf(index, trailing, c.value)])
        && s'.captured == (if Lookup(s.lastReadConfig, stream, 0) == c.value then s.captured
                           else CapturesAfter(index, s.captured, ReadOf(index, trailing, c.value))))
  {
    hide ReadConfiguration, LoadConfiguration, ConfigList, NearestConfig, CapturesAfter, ReadOf, IndexAfter;
    StreamListed(index, s, stream);
    ConfigurationCases(index, trailing, s, stream, i);
    var c := NearestConfig(index, stream, i);
    if c.Some? {
      LoadStep(index, trailing, s.(configIndex := IndexAfter(index, s.configIndex, stream)), stream, c.value);
    }
  }

  // Reading depends only on the stream's decoder

  lemma ReadUnderCursorStep(index: seq<RecordInfo>, trailing: Trailing, auto: bool, s: ReaderState)
    requires s.next < |index| && Inv(index, s) && InRange(index, s)
    ensures var p := Prepare(index, trailing, auto, s);
      var (s', r) := ReadUnderCursor(index, trailing, auto, s);
      && Inv(index, s') && s'.next == s.next + 1
      && s'.lastReadConfig == p.lastReadConfig
      && r == Decoded(index, trailing, s.next, DecodingConfig(index[s.next], p.decoder))
      && s'.decoder == (if index[s.next].recordType == CONFIGURATION
                        then p.decoder[index[s.next].stream := ReadOf(index, trailing, s.next)] else p.decoder)
      && s'.captured == (if index[s.next].recordType == CONFIGURATION
                         then CapturesAfter(index, p.captured, ReadOf(index, trailing, s.next)) else p.captured)
  {
    var p := Prepare(index, trailing, auto, s);
    if auto && index[s.next].recordType == DATA {
      ConfigurationStep(index, trailing, s, index[s.next].stream, s.next);
    }
    var r := index[s.next];
    assert p.lastRecord.(recordFormatVersion := r.formatVersion)
        == CLEARED_CACHE.(recordFormatVersion := r.formatVersion);
  }

  // The read history a caller can see, and what it says about the decoder

  /** One read by the caller: which record, and the trailing limits then in force. */
  datatype Past = Past(record: nat, trailing: Trailing)

  predicate InFile(index: seq<RecordInfo>, trace: seq<Past>) {
    forall k | 0 <= k < |trace| :: trace[k].record < |index|
  }

  /** The configuration an automatic read would want for record `i`, when there is one. */
  function Wanted(index: seq<RecordInfo>, stream: StreamId, i: nat): Option<nat>
    requires i < |index|
  {
    if index[i].recordType == DATA && index[i].stream == stream then NearestConfig(index, stream, i) else None
  }

  /** The configuration wanted by the stream's last data record read that had one. */
  function LastWanted(index: seq<RecordInfo>, stream: StreamId, trace: seq<Past>): Option<nat>
    requires InFile(index, trace)
  {
    if trace == [] then None
    else
      var front, i := trace[..|trace| - 1], trace[|trace| - 1].record;
      if Wanted(index, stream, i).Some? then Wanted(index, stream, i) else LastWanted(index, stream, front)
  }

  /** The configuration record of the stream that the last read of the history read, directly or for its data. */
  function ConfigReadBy(index: seq<RecordInfo>, stream: StreamId, trace: seq<Past>): (c: Option<ConfigRead>)
    requires InFile(index, trace) && trace != []
    ensures c.Some? ==> IsConfig(index, stream, c.value.record) && c.value.blocks <= |index[c.value.record].blocks|
  {
    var front, i, limits := trace[..|trace| - 1], trace[|trace| - 1].record, trace[|trace| - 1].trailing;
    var w := Wanted(index, stream, i);
    if IsConfig(index, stream, i) then Some(ReadOf(index, limits, i))
    else if w.Some? && w != LastWanted(index, stream, front) then Some(ReadOf(index, limits, w.value))
    else None
  }

  /** The configuration record of the stream last read, by the caller or automatically, and how much of it. */
  function LastConfigRead(index: seq<RecordInfo>, stream: StreamId, trace: seq<Past>): (last: Option<ConfigRead>)
    requires InFile(index, trace)
    ensures last.Some? ==>
      IsConfig(index, stream, last.value.record) && last.value.blocks <= |index[last.value.record].blocks|
  {
    if trace == [] then None
    else
      var c := ConfigReadBy(index, stream, trace);
      if c.Some? then c else LastConfigRead(index, stream, trace[..|trace| - 1])
  }

  /** The block of a configuration, as far as it was read, that configures normalization. */
  function CapturedFrom(index: seq<RecordInfo>, c: ConfigRead): Option<Layout>
    requires c.record < |index| && c.blocks <= |index[c.record].blocks|
  {
    var p := LastLayout(index[c.record], c.blocks);
    if p.Some? then Some(Layout(c.record, p.value)) else None
  }

  /** The metadata block of the stream's configurations that was read last. */
  function LastCapture(index: seq<RecordInfo>, stream: StreamId, trace: seq<Past>): Option<Layout>
    requires InFile(index, trace)
  {
    if trace == [] then None
    else
      var c := ConfigReadBy(index, stream, trace);
      if c.Some? && CapturedFrom(index, c.value).Some? then CapturedFrom(index, c.value)
      else LastCapture(index, stream, trace[..|trace| - 1])
  }

  /**
   The caller's own history makes configuration `c` look current when it is not: since the stream's
   data last wanted `c`, another configuration of the stream was read directly.
   */
  predicate Stale(index: seq<RecordInfo>, stream: StreamId, trace: seq<Past>, c: nat)
    requires InFile(index, trace)
  {
    if trace == [] then false
    else
      var front, i := trace[..|trace| - 1], trace[|trace| - 1].record;
      if IsConfig(index, stream, i) then i != c && LastWanted(index, stream, front) == Some(c)
      else if Wanted(index, stream, i).Some? then Wanted(index, stream, i) == Some(c) && Stale(index, stream, front, c)
      else Stale(index, stream, front, c)
  }

  lemma {:induction false} StaleMeans(index: seq<RecordInfo>, stream: StreamId, trace: seq<Past>, c: nat)
    requires InFile(index, trace)
    ensures var last := LastConfigRead(index, stream, trace);
      Stale(index, stream, trace, c)
      <==> LastWanted(index, stream, trace) == Some(c) && !(last.Some? && last.value.record == c)
  {
    hide NearestConfig, ReadCount;
    if trace != [] {
      StaleMeans(index, stream, trace[..|trace| - 1], c);
    }
  }

  /**
   Configuration `c` is taken for read since the stream's data last wanted it, but limits then differed:
   another number of its blocks was read than would be read now.
   */
  predicate OtherExtent(index: seq<RecordInfo>, stream: StreamId, trace: seq<Past>, c: nat, trailing: Trailing)
    requires InFile(index, trace) && c < |index|
  {
    var last := LastConfigRead(index, stream, trace);
    && LastWanted(index, stream, trace) == Some(c)
    && last.Some? && last.value.record == c && last.value.blocks != ReadCount(index[c], trailing, 0)
  }

  // Runs with automatic configuration reading on

  /** The state after reading the records of `trace`, each under the trailing limits then in force. */
  ghost function After(index: seq<RecordInfo>, streams: set<StreamId>, trace: seq<Past>): (s: ReaderState)
    requires InFile(index, trace)
    ensures Inv(index, s) && InRange(index, s)
  {
    if trace == [] then Opened(streams, true)
    else
      var before, last := After(index, streams, trace[..|trace| - 1]), trace[|trace| - 1];
      ReadUnderCursorStep(index, last.trailing, true, before.(next := last.record));
      var s := ReadAt(index, last.trailing, true, before, last.record).0;
      InvInRange(index, s);
      s
  }

  /** For one stream, the memories of reader, decoder and player are functions of the caller's read history. */
  predicate RemembersStream(index: seq<RecordInfo>, st: StreamId, trace: seq<Past>, s: ReaderState)
    requires InFile(index, trace)
  {
    && Lookup(s.lastReadConfig, st, 0)
       == (if LastWanted(index, st, trace).Some? then LastWanted(index, st, trace).value else UINT32_MAX)
    && Find(s.decoder, st) == LastConfigRead(index, st, trace)
    && Find(s.captured, st) == LastCapture(index, st, trace)
  }

  ghost predicate Remembers(index: seq<RecordInfo>, streams: set<StreamId>, trace: seq<Past>, s: ReaderState)
    requires InFile(index, trace)
  {
    forall st | st in streams :: RemembersStream(index, st, trace, s)
  }

  /** The file's streams, and a length the reader's 32-bit indices can address. */
  predicate FileOk(index: seq<RecordInfo>, streams: set<StreamId>) {
    |index| <= UINT32_MAX && forall r | r in index :: r.stream in streams
  }

  /** The configuration record `i` is decoded under when read after `trace` with these limits. */
  function ConfigUsed(index: seq<RecordInfo>, trace: seq<Past>, trailing: Trailing, i: nat): Option<ConfigRead>
    requires InFile(index, trace) && i < |index|
  {
    if index[i].recordType == CONFIGURATION then None
    else LastConfigRead(index, index[i].stream, trace + [Past(i, trailing)])
  }

  lemma HistoryGrows(index: seq<RecordInfo>, stream: StreamId, trace: seq<Past>, trailing: Trailing, i: nat)
    requires InFile(index, trace) && i < |index|
    ensures InFile(index, trace + [Past(i, trailing)])
    ensures
      var w, after := Wanted(index, stream, i), trace + [Past(i, trailing)];
      var c := ConfigReadBy(index, stream, after);
      && LastWanted(index, stream, after) == (if w.Some? then w else LastWanted(index, stream, trace))
      && c == (if IsConfig(index, stream, i) then Some(ReadOf(index, trailing, i))
               else if w.Some? && w != LastWanted(index, stream, trace) then Some(ReadOf(index, trailing, w.value))
               else None)
      && LastConfigRead(index, stream, after) == (if c.Some? then c else LastConfigRead(index, stream, trace))
      && LastCapture(index, stream, after) ==
           if c.Some? && CapturedFrom(index, c.value).Some? then CapturedFrom(index, c.value)
           else LastCapture(index, stream, trace)
  {
    hide NearestConfig, ReadCount, LastLayout;
    assert (trace + [Past(i, trailing)])[..|trace|] == trace;
  }

  /** What reading record `i` does to the memories. */
  predicate MemoryUpdate(index: seq<RecordInfo>, trailing: Trailing, i: nat, s: ReaderState, s': ReaderState)
    requires i < |index|
  {
    var stream := index[i].stream;
    var w := Wanted(index, stream, i);
    if index[i].recordType == CONFIGURATION then
      && s'.lastReadConfig == s.lastReadConfig
      && s'.decoder == s.decoder[stream := ReadOf(index, trailing, i)]
      && s'.captured == CapturesAfter(index, s.captured, ReadOf(index, trailing, i))
    else if w.None? then
      s'.lastReadConfig == s.lastReadConfig && s'.decoder == s.decoder && s'.captured == s.captured
    else
      var remembered := Lookup(s.lastReadConfig, stream, 0) == w.value;
      && s'.lastReadConfig == s.lastReadConfig[stream := w.value]
      && s'.decoder == (if remembered then s.decoder else s.decoder[stream := ReadOf(index, trailing, w.value)])
      && s'.captured == if remembered then s.captured
                        else CapturesAfter(index, s.captured, ReadOf(index, trailing, w.value))
  }

  lemma MemoryStep(index: seq<RecordInfo>, st: StreamId, trace: seq<Past>, trailing: Trailing, i: nat,
                   s: ReaderState, s': ReaderState)
    requires |index| <= UINT32_MAX && InFile(index, trace) && i < |index|
    requires RemembersStream(index, st, trace, s) && MemoryUpdate(index, trailing, i, s, s')
    ensures InFile(index, trace + [Past(i, trailing)])
    ensures RemembersStream(index, st, trace + [Past(i, trailing)], s')
  {
    hide LastWanted, LastConfigRead, LastCapture, ConfigReadBy, NearestConfig, ReadCount, LastLayout;
    HistoryGrows(index, st, trace, trailing, i);
    LastWantedInFile(index, st, trace);
    LastWantedInFile(index, st, trace + [Past(i, trailing)]);
  }

  lemma ReadStep(index: seq<RecordInfo>, trailing: Trailing, streams: set<StreamId>, trace: seq<Past>,
                 s: ReaderState, i: nat)
    requires FileOk(index, streams) && InFile(index, trace) && i < |index|
    requires Inv(index, s) && InRange(index, s) && Remembers(index, streams, trace, s)
    ensures InFile(index, trace + [Past(i, trailing)])
    ensures var (s', r) := ReadAt(index, trailing, true, s, i);
      && Inv(index, s') && s'.next == i + 1 && Remembers(index, streams, trace + [Past(i, trailing)], s')
      && r == Decoded(index, trailing, i, ConfigUsed(index, trace, trailing, i))
  {
    hide ReadConfiguration, ReadUnderCursor, LastWanted, LastConfigRead, LastCapture, NearestConfig, Decoded, Inv;
    hide InRange, ReadOf, CapturesAfter;
    var s0 := s.(next := i);
    CursorIrrelevant(index, s, i);
    ReadUnderCursorStep(index, trailing, true, s0);
    var stream := index[i].stream;
    assert stream in streams by { assert index[i] in index; }
    if index[i].recordType == DATA {
      ConfigurationStep(index, trailing, s0, stream, i);
    }
    var s' := ReadAt(index, trailing, true, s, i).0;
    assert MemoryUpdate(index, trailing, i, s, s');
    var after := trace + [Past(i, trailing)];
    assert InFile(index, after);
    forall st | st in streams ensures RemembersStream(index, st, after, s') {
      MemoryStep(index, st, trace, trailing, i, s, s');
    }
  }

  lemma CursorIrrelevant(index: seq<RecordInfo>, s: ReaderState, i: nat)
    ensures Inv(index, s.(next := i)) == Inv(index, s) && InRange(index, s.(next := i)) == InRange(index, s)
  {
  }

  /** A wanted configuration precedes its record, so it is never the sentinel. */
  lemma {:induction false} LastWantedInFile(index: seq<RecordInfo>, stream: StreamId, trace: seq<Past>)
    requires InFile(index, trace)
    ensures LastWanted(index, stream, trace).Some? ==> LastWanted(index, stream, trace).value < |index|
  {
    if trace != [] {
      LastWantedInFile(index, stream, trace[..|trace| - 1]);
    }
  }

  lemma AfterOneMore(index: seq<RecordInfo>, streams: set<StreamId>, trace: seq<Past>)
    requires InFile(index, trace) && trace != []
    ensures var front, last := trace[..|trace| - 1], trace[|trace| - 1];
      && front + [Past(last.record, last.trailing)] == trace
      && After(index, streams, trace)
         == ReadAt(index, last.trailing, true, After(index, streams, front), last.record).0
  {
    hide ReadAt, Inv, InRange;
  }

  lemma {:induction false} AfterRemembers(index: seq<RecordInfo>, streams: set<StreamId>, trace: seq<Past>)
    requires FileOk(index, streams) && InFile(index, trace)
    ensures Remembers(index, streams, trace, After(index, streams, trace))
  {
    hide Remembers, ReadAt, After, Decoded, ConfigUsed, FileOk, Inv, InRange;
    if trace != [] {
      var front, last := trace[..|trace| - 1], trace[|trace| - 1];
      AfterRemembers(index, streams, front);
      ReadStep(index, last.trailing, streams, front, After(index, streams, front), last.record);
      AfterOneMore(index, streams, trace);
    } else {
      NothingRemembered(index, streams);
    }
  }

  lemma NothingRemembered(index: seq<RecordInfo>, streams: set<StreamId>)
    ensures Remembers(index, streams, [], After(index, streams, []))
  {
  }

  /** Every read, after any history, in terms of the file, the limits now in force and the caller's own history. */
  lemma EveryRead(index: seq<RecordInfo>, streams: set<StreamId>, trace: seq<Past>, trailing: Trailing, i: nat)
    requires FileOk(index, streams) && InFile(index, trace) && i < |index|
    ensures ReadAt(index, trailing, true, After(index, streams, trace), i).1
         == Decoded(index, trailing, i, ConfigUsed(index, trace, trailing, i))
  {
    hide Remembers, ReadAt, Decoded, ConfigUsed, FileOk;
    AfterRemembers(index, streams, trace);
    ReadStep(index, trailing, streams, trace, After(index, streams, trace), i);
  }

  /** A data record that has an earlier configuration on its stream. */
  predicate Configured(index: seq<RecordInfo>, i: nat) {
    i < |index| && index[i].recordType == DATA && NearestConfig(index, index[i].stream, i).Some?
  }

  /** The nearest configuration as reading it now would have it. */
  function NearestRead(index: seq<RecordInfo>, trailing: Trailing, i: nat): Option<ConfigRead>
    requires i < |index|
  {
    var c := NearestConfig(index, index[i].stream, i);
    if c.None? then None else Some(ReadOf(index, trailing, c.value))
  }

  /** The record as it should be read: under its stream's nearest earlier configuration, read now. */
  function Proper(index: seq<RecordInfo>, trailing: Trailing, i: nat): PyRecord
    requires i < |index|
  {
    Decoded(index, trailing, i, NearestRead(index, trailing, i))
  }

  /** The condition on the caller's history: neither stale for the nearest configuration nor of another extent. */
  predicate Current(index: seq<RecordInfo>, trace: seq<Past>, trailing: Trailing, i: nat)
    requires InFile(index, trace) && Configured(index, i)
  {
    var stream := index[i].stream;
    var c := NearestConfig(index, stream, i).value;
    !Stale(index, stream, trace, c) && !OtherExtent(index, stream, trace, c, trailing)
  }

  /** A configured data record is decoded properly exactly when the caller's history is current for it. */
  lemma DecodedProperlyIff(index: seq<RecordInfo>, trace: seq<Past>, trailing: Trailing, i: nat)
    requires InFile(index, trace) && Configured(index, i)
    ensures ConfigUsed(index, trace, trailing, i) == NearestRead(index, trailing, i)
      <==> Current(index, trace, trailing, i)
  {
    hide LastWanted, LastConfigRead, Stale, NearestConfig, ReadCount;
    var stream := index[i].stream;
    HistoryGrows(index, stream, trace, trailing, i);
    StaleMeans(index, stream, trace, NearestConfig(index, stream, i).value);
  }

  /** A reader just opened reads every record as it should be read. */
  lemma FreshRead(index: seq<RecordInfo>, streams: set<StreamId>, trailing: Trailing, i: nat)
    requires FileOk(index, streams) && Configured(index, i)
    ensures ReadAt(index, trailing, true, After(index, streams, []), i).1 == Proper(index, trailing, i)
  {
    hide ReadAt, Decoded, After, NearestConfig, LastConfigRead, LastCapture, FileOk;
    EveryRead(index, streams, [], trailing, i);
    HistoryGrows(index, index[i].stream, [], trailing, i);
    NothingRead(index, index[i].stream);
  }

  lemma NothingRead(index: seq<RecordInfo>, stream: StreamId)
    ensures LastWanted(index, stream, []) == None && LastConfigRead(index, stream, []) == None
  {
  }

  /**
   A configured data record is what a fresh reader would read under the same limits if and only if the
   history is current for it, or there is no block to decode.
   */
  lemma ReadProperlyIff(index: seq<RecordInfo>, streams: set<StreamId>, trace: seq<Past>, trailing: Trailing, i: nat)
    requires FileOk(index, streams) && InFile(index, trace) && Configured(index, i)
    ensures ReadAt(index, trailing, true, After(index, streams, trace), i).1
         == ReadAt(index, trailing, true, After(index, streams, []), i).1
      <==> Current(index, trace, trailing, i) || index[i].blocks == []
  {
    hide ReadAt, Decoded, After, NearestRead, ConfigUsed, Current, FileOk;
    EveryRead(index, streams, trace, trailing, i);
    FreshRead(index, streams, trailing, i);
    DecodedProperlyIff(index, trace, trailing, i);
    DecodedSameIff(index, trailing, i, ConfigUsed(index, trace, trailing, i), NearestRead(index, trailing, i));
  }

  /** A data record with no earlier configuration gets none exactly when its stream's decoder was never set. */
  lemma UnconfiguredProperlyIff(index: seq<RecordInfo>, trace: seq<Past>, trailing: Trailing, i: nat)
    requires InFile(index, trace) && i < |index| && index[i].recordType == DATA && !Configured(index, i)
    ensures ConfigUsed(index, trace, trailing, i) == None
      <==> forall k | 0 <= k < |trace| ::
             var j := trace[k].record;
             !IsConfig(index, index[i].stream, j) && !(Configured(index, j) && index[j].stream == index[i].stream)
  {
    HistoryGrows(index, index[i].stream, trace, trailing, i);
    DecoderUnsetIff(index, index[i].stream, trace);
  }

  lemma {:induction false} DecoderUnsetIff(index: seq<RecordInfo>, stream: StreamId, trace: seq<Past>)
    requires InFile(index, trace)
    ensures LastConfigRead(index, stream, trace).None?
      <==> forall k | 0 <= k < |trace| ::
             !IsConfig(index, stream, trace[k].record) && Wanted(index, stream, trace[k].record).None?
    ensures LastConfigRead(index, stream, trace).None? ==> LastWanted(index, stream, trace).None?
  {
    hide NearestConfig, ReadCount;
    if trace != [] {
      var front := trace[..|trace| - 1];
      DecoderUnsetIff(index, stream, front);
      assert forall k | 0 <= k < |front| :: front[k] == trace[k];
    }
  }

  predicate NoDirectConfigReads(index: seq<RecordInfo>, trace: seq<Past>)
    requires InFile(index, trace)
  {
    forall k | 0 <= k < |trace| :: index[trace[k].record].recordType != CONFIGURATION
  }

  predicate Forward(trace: seq<Past>) {
    forall j, k | 0 <= j <= k < |trace| :: trace[j].record <= trace[k].record
  }

  /** The stream was always read under the limit on configuration blocks that is in force now. */
  predicate SteadyLimit(index: seq<RecordInfo>, stream: StreamId, trace: seq<Past>, trailing: Trailing)
    requires InFile(index, trace)
  {
    forall k | 0 <= k < |trace| && index[trace[k].record].stream == stream ::
      Find(trace[k].trailing, (stream.typeId, CONFIGURATION)) == Find(trailing, (stream.typeId, CONFIGURATION))
  }

  lemma {:induction false} SameLimitSameCount(r: RecordInfo, t: Trailing, u: Trailing, position: nat)
    requires position <= |r.blocks|
    requires Find(t, (r.stream.typeId, r.recordType)) == Find(u, (r.stream.typeId, r.recordType))
    ensures ReadCount(r, t, position) == ReadCount(r, u, position)
    decreases |r.blocks| - position
  {
    if position < |r.blocks| {
      SameLimitSameCount(r, t, u, position + 1);
    }
  }

  /** Under a steady limit, what the decoder has of a configuration is what reading it now would give. */
  lemma {:induction false} SteadyExtent(index: seq<RecordInfo>, stream: StreamId, trace: seq<Past>, trailing: Trailing)
    requires InFile(index, trace) && SteadyLimit(index, stream, trace, trailing)
    ensures var last := LastConfigRead(index, stream, trace);
      last.Some? ==> last.value == ReadOf(index, trailing, last.value.record)
  {
    hide NearestConfig, ReadCount;
    if trace != [] {
      var front, p := trace[..|trace| - 1], trace[|trace| - 1];
      assert forall k | 0 <= k < |front| :: front[k] == trace[k];
      SteadyExtent(index, stream, front, trailing);
      var last := LastConfigRead(index, stream, trace);
      if index[p.record].stream == stream && last.Some? {
        SameLimitSameCount(index[last.value.record], p.trailing, trailing, 0);
      }
    }
  }

  lemma {:induction false} NeverStaleWithoutDirectReads(index: seq<RecordInfo>, stream: StreamId, trace: seq<Past>,
                                                        c: nat)
    requires InFile(index, trace) && NoDirectConfigReads(index, trace)
    ensures !Stale(index, stream, trace, c)
  {
    if trace != [] {
      NeverStaleWithoutDirectReads(index, stream, trace[..|trace| - 1], c);
    }
  }

  /** The record wanting `c` comes after `c` and no later than the end of the history. */
  lemma {:induction false} LastWantedBefore(index: seq<RecordInfo>, stream: StreamId, trace: seq<Past>, bound: nat)
    requires InFile(index, trace) && forall k | 0 <= k < |trace| :: trace[k].record <= bound
    ensures LastWanted(index, stream, trace).Some? ==> LastWanted(index, stream, trace).value < bound
  {
    if trace != [] {
      LastWantedBefore(index, stream, trace[..|trace| - 1], bound);
    }
  }

  lemma {:induction false} NeverStaleGoingForward(index: seq<RecordInfo>, stream: StreamId, trace: seq<Past>, i: nat)
    requires InFile(index, trace) && i < |index| && Wanted(index, stream, i).Some?
    requires Forward(trace) && forall k | 0 <= k < |trace| :: trace[k].record <= i
    ensures !Stale(index, stream, trace, Wanted(index, stream, i).value)
  {
    if trace != [] {
      var front, j := trace[..|trace| - 1], trace[|trace| - 1].record;
      assert forall k | 0 <= k < |front| :: front[k] == trace[k];
      if IsConfig(index, stream, j) {
        // A later configuration lies between `c` and `i`, so the nearest one before `i` is not `c`.
        LastWantedBefore(index, stream, front, j);
        assert j != i;
      } else {
        NeverStaleGoingForward(index, stream, front, i);
      }
    }
  }

  /** A history after which record `i` is sure to be decoded properly. */
  predicate SafeHistory(index: seq<RecordInfo>, trace: seq<Past>, trailing: Trailing, i: nat)
    requires InFile(index, trace) && i < |index|
  {
    && (NoDirectConfigReads(index, trace) || Forward(trace + [Past(i, trailing)]))
    && SteadyLimit(index, index[i].stream, trace, trailing)
  }

  lemma NotStaleForward(index: seq<RecordInfo>, trace: seq<Past>, trailing: Trailing, i: nat)
    requires InFile(index, trace) && Configured(index, i) && Forward(trace + [Past(i, trailing)])
    ensures !Stale(index, index[i].stream, trace, NearestConfig(index, index[i].stream, i).value)
  {
    hide Stale, NearestConfig;
    var after := trace + [Past(i, trailing)];
    assert forall k | 0 <= k < |trace| :: after[k] == trace[k];
    assert after[|trace|] == Past(i, trailing);
    NeverStaleGoingForward(index, index[i].stream, trace, i);
  }

  lemma SafeIsCurrent(index: seq<RecordInfo>, trace: seq<Past>, trailing: Trailing, i: nat)
    requires InFile(index, trace) && Configured(index, i) && SafeHistory(index, trace, trailing, i)
    ensures Current(index, trace, trailing, i)
  {
    hide Stale, NearestConfig, Forward, SteadyLimit, LastConfigRead, LastWanted, ReadCount;
    SteadyExtent(index, index[i].stream, trace, trailing);
    if NoDirectConfigReads(index, trace) {
      NeverStaleWithoutDirectReads(index, index[i].stream, trace, NearestConfig(index, index[i].stream, i).value);
    } else {
      NotStaleForward(index, trace, trailing, i);
    }
  }

  /**
   Random access: whatever was read before, in any order, short of reading configurations directly or
   changing the limit on the stream's configuration blocks.
   */
  lemma RandomAccess(index: seq<RecordInfo>, streams: set<StreamId>, trace: seq<Past>, trailing: Trailing, i: nat)
    requires FileOk(index, streams) && InFile(index, trace) && Configured(index, i)
    requires NoDirectConfigReads(index, trace) && SteadyLimit(index, index[i].stream, trace, trailing)
    ensures ReadAt(index, trailing, true, After(index, streams, trace), i).1 == Proper(index, trailing, i)
  {
    hide ReadAt, Decoded, ConfigUsed, NearestRead, NearestConfig, Current, NoDirectConfigReads, SteadyLimit, FileOk;
    EveryRead(index, streams, trace, trailing, i);
    SafeIsCurrent(index, trace, trailing, i);
    DecodedProperlyIff(index, trace, trailing, i);
  }

  /** Forward scans: configurations may be read directly too, as long as no read goes back. */
  lemma ForwardScan(index: seq<RecordInfo>, streams: set<StreamId>, trace: seq<Past>, trailing: Trailing, i: nat)
    requires FileOk(index, streams) && InFile(index, trace) && Configured(index, i)
    requires Forward(trace + [Past(i, trailing)]) && SteadyLimit(index, index[i].stream, trace, trailing)
    ensures ReadAt(index, trailing, true, After(index, streams, trace), i).1 == Proper(index, trailing, i)
  {
    hide ReadAt, Decoded, ConfigUsed, NearestRead, NearestConfig, Current, SteadyLimit, FileOk, Forward;
    EveryRead(index, streams, trace, trailing, i);
    SafeIsCurrent(index, trace, trailing, i);
    DecodedProperlyIff(index, trace, trailing, i);
  }

  // Image normalization is configured from what the decoder holds

  /**
   Whenever the configuration a stream's decoder holds was read up to some metadata block, normalization is
   configured from its last metadata block read; and from none while the decoder holds no configuration.
   */
  lemma {:induction false} CapturedWithDecoder(index: seq<RecordInfo>, stream: StreamId, trace: seq<Past>)
    requires InFile(index, trace)
    ensures var last := LastConfigRead(index, stream, trace);
      && (last.None? ==> LastCapture(index, stream, trace) == None)
      && (last.Some? && CapturedFrom(index, last.value).Some? ==>
            LastCapture(index, stream, trace) == CapturedFrom(index, last.value))
  {
    hide ConfigReadBy, LastLayout;
    if trace != [] {
      CapturedWithDecoder(index, stream, trace[..|trace| - 1]);
    }
  }

  // The failing families

  /** On the history: data, a later configuration read directly, the same data again. */
  lemma LaterConfigUsed(index: seq<RecordInfo>, trailing: Trailing, i: nat, j: nat)
    requires Configured(index, i) && IsConfig(index, index[i].stream, j) && i < j
    ensures var trace := [Past(i, trailing), Past(j, trailing)];
      InFile(index, trace) && ConfigUsed(index, trace, trailing, i) == Some(ReadOf(index, trailing, j))
  {
    hide LastWanted, LastConfigRead, LastCapture, NearestConfig, ReadOf;
    var stream := index[i].stream;
    var one, two := [Past(i, trailing)], [Past(i, trailing), Past(j, trailing)];
    assert [] + [Past(i, trailing)] == one && one + [Past(j, trailing)] == two;
    HistoryGrows(index, stream, [], trailing, i);
    HistoryGrows(index, stream, one, trailing, j);
    HistoryGrows(index, stream, two, trailing, i);
  }

  /** Data, a later configuration read directly, the same data again: it is decoded under the later one. */
  lemma RereadAfterLaterConfig(index: seq<RecordInfo>, trailing: Trailing, streams: set<StreamId>, i: nat, j: nat)
    requires FileOk(index, streams) && Configured(index, i)
    requires IsConfig(index, index[i].stream, j) && i < j
    ensures InFile(index, [Past(i, trailing), Past(j, trailing)])
    ensures ReadAt(index, trailing, true, After(index, streams, [Past(i, trailing), Past(j, trailing)]), i).1
         == Decoded(index, trailing, i, Some(ReadOf(index, trailing, j)))
    ensures ReadAt(index, trailing, true, After(index, streams, []), i).1 == Proper(index, trailing, i)
  {
    hide ReadAt, After, Decoded, ConfigUsed, LastConfigRead, NearestConfig, ReadOf;
    LaterConfigUsed(index, trailing, i, j);
    EveryRead(index, streams, [Past(i, trailing), Past(j, trailing)], trailing, i);
    FreshRead(index, streams, trailing, i);
  }

  /** On the history: data, then the same data after its configuration's limit changed. */
  lemma EarlierExtentUsed(index: seq<RecordInfo>, t: Trailing, u: Trailing, i: nat)
    requires Configured(index, i)
    ensures InFile(index, [Past(i, t)]) && ConfigUsed(index, [Past(i, t)], u, i) == NearestRead(index, t, i)
  {
    hide LastWanted, LastConfigRead, LastCapture, NearestConfig, ReadOf;
    var stream := index[i].stream;
    NothingRead(index, stream);
    assert [] + [Past(i, t)] == [Past(i, t)];
    HistoryGrows(index, stream, [], t, i);
    HistoryGrows(index, stream, [Past(i, t)], u, i);
  }

  /**
   A change of limit between two reads of the same data: the configuration is not read again, so the second
   read decodes under as much of it as was read under the earlier limit.
   */
  lemma RereadAfterLimitChange(index: seq<RecordInfo>, streams: set<StreamId>, t: Trailing, u: Trailing, i: nat)
    requires FileOk(index, streams) && Configured(index, i)
    ensures InFile(index, [Past(i, t)])
    ensures ReadAt(index, u, true, After(index, streams, [Past(i, t)]), i).1
         == Decoded(index, u, i, NearestRead(index, t, i))
    ensures ReadAt(index, u, true, After(index, streams, []), i).1 == Decoded(index, u, i, NearestRead(index, u, i))
  {
    hide ReadAt, After, Decoded, ConfigUsed, NearestRead, FileOk;
    EarlierExtentUsed(index, t, u, i);
    EveryRead(index, streams, [Past(i, t)], u, i);
    FreshRead(index, streams, u, i);
  }

  lemma TwoRecords(stream: StreamId, index: seq<RecordInfo>)
    requires |index| >= 2 && forall r | r in index :: r.stream == stream
    requires index[0].recordType == CONFIGURATION && index[1].recordType == DATA
    ensures NearestConfig(index, index[1].stream, 1) == Some(0) && Configured(index, 1)
  {
    assert index[0] in index && index[1] in index;
    assert IsConfig(index, stream, 0);
  }

  /** The first family is inhabited: three records of one stream, and the second read of the data is wrong. */
  lemma WrongConfigurationHappens(stream: StreamId)
    ensures
      var config := RecordInfo(0.0, stream, CONFIGURATION, 1, []);
      var data := RecordInfo(1.0, stream, DATA, 1, [BlockSpec(DataLayout, true)]);
      var index, trace := [config, data, config], [Past(1, map[]), Past(2, map[])];
      && FileOk(index, {stream}) && InFile(index, trace) && Configured(index, 1)
      && ReadAt(index, map[], true, After(index, {stream}, trace), 1).1 != Proper(index, map[], 1)
  {
    hide ReadAt, After, Decoded, InFile, Configured, NearestConfig;
    var config := RecordInfo(0.0, stream, CONFIGURATION, 1, []);
    var data := RecordInfo(1.0, stream, DATA, 1, [BlockSpec(DataLayout, true)]);
    var index := [config, data, config];
    TwoRecords(stream, index);
    RereadAfterLaterConfig(index, map[], {stream}, 1, 2);
    DecodedSameIff(index, map[], 1, Some(ReadOf(index, map[], 2)), NearestRead(index, map[], 1));
  }

  /** A limit of one configuration block, and its removal. */
  lemma LimitLifted(typeId: nat)
    ensures var t := SkipFrom(map[], typeId, Some(CONFIGURATION), 1);
      t == map[(typeId, CONFIGURATION) := 1] && SkipFrom(t, typeId, Some(CONFIGURATION), 0) == map[]
  {
    var kinds := KindsMeant(Some(CONFIGURATION));
    assert kinds[..0] == [];
    var t: Trailing := map[(typeId, CONFIGURATION) := 1];
    assert LimitKinds(map[], typeId, kinds[..0], 1) == map[] && LimitKinds(t, typeId, kinds[..0], 0) == t;
    assert t - {(typeId, CONFIGURATION)} == map[];
  }

  /**
   The second family is inhabited: a configuration of two metadata blocks read up to its first, the limit
   lifted, and the data read again is not what a fresh reader reads.
   */
  lemma TruncatedConfigurationStays(stream: StreamId)
    ensures
      var layout := BlockSpec(DataLayout, true);
      var index := [RecordInfo(0.0, stream, CONFIGURATION, 1, [layout, layout]),
                    RecordInfo(1.0, stream, DATA, 1, [layout])];
      var t := SkipFrom(map[], stream.typeId, Some(CONFIGURATION), 1);
      var u := SkipFrom(t, stream.typeId, Some(CONFIGURATION), 0);
      && FileOk(index, {stream}) && Configured(index, 1) && InFile(index, [Past(1, t)])
      && NearestRead(index, t, 1) == Some(ConfigRead(0, 1)) && NearestRead(index, u, 1) == Some(ConfigRead(0, 2))
      && ReadAt(index, u, true, After(index, {stream}, [Past(1, t)]), 1).1
         != ReadAt(index, u, true, After(index, {stream}, []), 1).1
  {
    hide ReadAt, After, Decoded, InFile, Configured, NearestConfig, SkipFrom;
    var layout := BlockSpec(DataLayout, true);
    var index := [RecordInfo(0.0, stream, CONFIGURATION, 1, [layout, layout]),
                  RecordInfo(1.0, stream, DATA, 1, [layout])];
    var t: Trailing := map[(stream.typeId, CONFIGURATION) := 1];
    LimitLifted(stream.typeId);
    TwoRecords(stream, index);
    assert ReadCount(index[0], t, 0) == 1;
    assert ReadCount(index[0], map[], 0) == 2 by {
      assert ReadCount(index[0], map[], 1) == 2;
    }
    RereadAfterLimitChange(index, {stream}, t, map[], 1);
    DecodedSameIff(index, map[], 1, NearestRead(index, t, 1), NearestRead(index, map[], 1));
  }

  // What a record read into an empty cache holds

  /** The positions below `n` of the record's blocks of one kind. */
  function Positions(r: RecordInfo, kind: BlockKind, n: nat): (ps: seq<nat>)
    requires n <= |r.blocks|
    ensures Increasing(ps)
    ensures forall k | 0 <= k < |ps| :: ps[k] < n
  {
    if n == 0 then []
    else Positions(r, kind, n - 1) + (if r.blocks[n - 1].kind == kind then [n - 1] else [])
  }

  function BlocksAt(i: nat, positions: seq<nat>, config: Option<ConfigRead>): (blocks: seq<Block>)
    ensures |blocks| == |positions|
    ensures forall k | 0 <= k < |blocks| :: blocks[k] == Block(i, positions[k], config)
  {
    seq(|positions|, k requires 0 <= k < |positions| => Block(i, positions[k], config))
  }

  lemma {:induction false} PassExtend<T>(list: seq<T>, positions: seq<nat>, blocks: seq<T>, p: nat, b: T, m: nat)
    requires |positions| == |blocks| && m <= |blocks|
    ensures Pass(list, positions + [p], blocks + [b], m) == SetBlock(Pass(list, positions, blocks, m), p, b)
    decreases |blocks| - m
  {
    if m < |blocks| {
      PassExtend(SetBlock(list, positions[m], blocks[m]), positions, blocks, p, b, m + 1);
    }
  }

  lemma GetAdded(cache: RecordCache, kind: BlockKind, position: nat, block: Block, k: BlockKind)
    ensures AddBlock(cache, kind, position, block).Get(k)
         == if k != kind then cache.Get(k) else AddToList(k, cache.Get(k), position, block)
  {
  }

  /** One pass over the blocks of a kind, from an empty list. */
  function OnePass(kind: BlockKind, i: nat, positions: seq<nat>, config: Option<ConfigRead>): seq<Block> {
    if kind == DataLayout then BlocksAt(i, positions, config)
    else Pass([], positions, BlocksAt(i, positions, config), 0)
  }

  function AddToList(kind: BlockKind, list: seq<Block>, position: nat, block: Block): seq<Block> {
    if kind == DataLayout then list + [block] else SetBlock(list, position, block)
  }

  lemma OnePassExtend(kind: BlockKind, i: nat, positions: seq<nat>, config: Option<ConfigRead>, p: nat)
    ensures OnePass(kind, i, positions + [p], config)
         == AddToList(kind, OnePass(kind, i, positions, config), p, Block(i, p, config))
  {
    hide Pass, SetBlock;
    assert BlocksAt(i, positions + [p], config) == BlocksAt(i, positions, config) + [Block(i, p, config)];
    PassExtend([], positions, BlocksAt(i, positions, config), p, Block(i, p, config), 0);
  }

  lemma NoBlocks(cache: RecordCache, r: RecordInfo, i: nat, config: Option<ConfigRead>, kind: BlockKind)
    ensures ReadBlocks(cache, r, i, config, 0) == cache && OnePass(kind, i, Positions(r, kind, 0), config) == []
  {
  }

  lemma OneMoreBlock(cache: RecordCache, r: RecordInfo, i: nat, config: Option<ConfigRead>, n: nat)
    requires 0 < n <= |r.blocks|
    ensures ReadBlocks(cache, r, i, config, n)
         == AddBlock(ReadBlocks(cache, r, i, config, n - 1), r.blocks[n - 1].kind, n - 1, Block(i, n - 1, config))
  {
  }

  lemma OneMorePosition(r: RecordInfo, kind: BlockKind, n: nat)
    requires 0 < n <= |r.blocks|
    ensures Positions(r, kind, n)
         == if r.blocks[n - 1].kind == kind then Positions(r, kind, n - 1) + [n - 1] else Positions(r, kind, n - 1)
  {
  }

  lemma ContentStep(cache: RecordCache, r: RecordInfo, i: nat, config: Option<ConfigRead>, n: nat, kind: BlockKind)
    requires 0 < n <= |r.blocks|
    requires ReadBlocks(cache, r, i, config, n - 1).Get(kind) == OnePass(kind, i, Positions(r, kind, n - 1), config)
    ensures ReadBlocks(cache, r, i, config, n).Get(kind) == OnePass(kind, i, Positions(r, kind, n), config)
  {
    hide AddBlock, OnePass, AddToList, RecordCache.Get, Positions, ReadBlocks;
    OneMoreBlock(cache, r, i, config, n);
    OneMorePosition(r, kind, n);
    GetAdded(ReadBlocks(cache, r, i, config, n - 1), r.blocks[n - 1].kind, n - 1, Block(i, n - 1, config), kind);
    OnePassExtend(kind, i, Positions(r, kind, n - 1), config, n - 1);
  }

  lemma {:induction false} ContentIsOnePass(cache: RecordCache, r: RecordInfo, i: nat, config: Option<ConfigRead>,
                                            n: nat, kind: BlockKind)
    requires n <= |r.blocks| && cache.Get(kind) == []
    ensures ReadBlocks(cache, r, i, config, n).Get(kind) == OnePass(kind, i, Positions(r, kind, n), config)
    decreases n
  {
    hide OnePass, RecordCache.Get, Positions, ReadBlocks;
    if n == 0 {
      NoBlocks(cache, r, i, config, kind);
    } else {
      ContentIsOnePass(cache, r, i, config, n - 1, kind);
      ContentStep(cache, r, i, config, n, kind);
    }
  }

  /** The blocks of one kind a record should yield: all those read before the player stops. */
  function AllBlocks(r: RecordInfo, trailing: Trailing, i: nat, config: Option<ConfigRead>, kind: BlockKind)
    : seq<Block>
  {
    BlocksAt(i, Positions(r, kind, ReadCount(r, trailing, 0)), config)
  }

  /** Two content blocks of one kind at the very start of the record. */
  predicate Shadowed(r: RecordInfo, trailing: Trailing, kind: BlockKind) {
    && kind != DataLayout && ReadCount(r, trailing, 0) >= 2
    && r.blocks[0].kind == kind && r.blocks[1].kind == kind
  }

  lemma {:induction false} PositionsMember(r: RecordInfo, kind: BlockKind, n: nat, p: nat)
    requires n <= |r.blocks|
    ensures p in Positions(r, kind, n) <==> p < n && r.blocks[p].kind == kind
    decreases n
  {
    if n > 0 {
      PositionsMember(r, kind, n - 1, p);
    }
  }

  lemma PositionsStart(r: RecordInfo, kind: BlockKind, n: nat)
    requires n <= |r.blocks|
    ensures var ps := Positions(r, kind, n);
      n >= 2 && r.blocks[0].kind == kind && r.blocks[1].kind == kind <==> |ps| >= 2 && ps[0] == 0 && ps[1] == 1
  {
    PositionsMember(r, kind, n, 0);
    PositionsMember(r, kind, n, 1);
  }

  /** A returned record holds all of its own blocks of a kind, or all but the first when it is shadowed. */
  lemma ReturnedBlocks(index: seq<RecordInfo>, trailing: Trailing, i: nat, config: Option<ConfigRead>, kind: BlockKind)
    requires i < |index|
    ensures var all := AllBlocks(index[i], trailing, i, config, kind);
      && (Shadowed(index[i], trailing, kind) ==> |all| >= 2)
      && Decoded(index, trailing, i, config).content.Get(kind)
         == if Shadowed(index[i], trailing, kind) then all[1..] else all
  {
    var r := index[i];
    var n := ReadCount(r, trailing, 0);
    var ps := Positions(r, kind, n);
    var all := BlocksAt(i, ps, config);
    ContentIsOnePass(CLEARED_CACHE.(recordFormatVersion := r.formatVersion), r, i, config, n, kind);
    PositionsStart(r, kind, n);
    if kind != DataLayout {
      if Shadowed(r, trailing, kind) {
        FirstBlockLost(ps, [], all);
      } else if |ps| > 0 {
        FirstPassKeepsAll(ps, all);
      }
    }
  }

  /** Into an empty list, one pass keeps every block unless the second clears the first. */
  lemma FirstPassKeepsAll<T>(positions: seq<nat>, blocks: seq<T>)
    requires 0 < |positions| == |blocks| && Increasing(positions)
    requires !(|positions| >= 2 && positions[0] == 0 && positions[1] == 1)
    ensures Pass([], positions, blocks, 0) == blocks
  {
    if positions[0] <= |positions| {
      PassReplaces([], positions, blocks);
    } else {
      forall j | 0 <= j < |blocks| ensures j < positions[j] {
        IncreasingBound(positions, 0, j);
      }
      PassAppends([], positions, blocks, 0);
    }
  }

  /** Every block of a returned record is its own, decoded under the configuration reported. */
  lemma OwnBlocksOnly(index: seq<RecordInfo>, trailing: Trailing, i: nat, config: Option<ConfigRead>, kind: BlockKind)
    requires i < |index|
    ensures forall b | b in Decoded(index, trailing, i, config).content.Get(kind) ::
      b.record == i && b.config == config && b.position < |index[i].blocks|
  {
    ReturnedBlocks(index, trailing, i, config, kind);
  }

  /** A record decoded under two configurations is the same only if they are, or there is nothing to decode. */
  lemma DecodedSameIff(index: seq<RecordInfo>, trailing: Trailing, i: nat, a: Option<ConfigRead>, b: Option<ConfigRead>)
    requires i < |index|
    ensures Decoded(index, trailing, i, a) == Decoded(index, trailing, i, b) <==> a == b || index[i].blocks == []
  {
    hide Decoded, AllBlocks, RecordCache.Get;
    if index[i].blocks == [] {
      NothingToDecode(index, trailing, i, a, b);
    } else {
      var kind := index[i].blocks[0].kind;
      FirstKindReturned(index, trailing, i, a, kind);
      FirstKindReturned(index, trailing, i, b, kind);
    }
  }

  lemma NothingToDecode(index: seq<RecordInfo>, trailing: Trailing, i: nat,
                        a: Option<ConfigRead>, b: Option<ConfigRead>)
    requires i < |index| && index[i].blocks == []
    ensures Decoded(index, trailing, i, a) == Decoded(index, trailing, i, b)
  {
  }

  /** At least one block of the kind that starts a record is returned. */
  lemma FirstKindReturned(index: seq<RecordInfo>, trailing: Trailing, i: nat, config: Option<ConfigRead>,
                          kind: BlockKind)
    requires i < |index| && index[i].blocks != [] && index[i].blocks[0].kind == kind
    ensures var blocks := Decoded(index, trailing, i, config).content.Get(kind);
      blocks != [] && blocks[0].config == config
  {
    hide Decoded, RecordCache.Get;
    ReturnedBlocks(index, trailing, i, config, kind);
    PositionsMember(index[i], kind, ReadCount(index[i], trailing, 0), 0);
  }

  /** Skipping trailing blocks from `limit` on reads that many blocks, sizes permitting; at least one is always read. */
  lemma {:induction false} TrailingLimit(r: RecordInfo, trailing: Trailing, position: nat)
    requires position <= |r.blocks|
    requires forall k | 0 <= k < |r.blocks| :: r.blocks[k].kind == DataLayout || r.blocks[k].sizeKnown
    ensures ReadCount(r, trailing, position) ==
      if position == |r.blocks| || (r.stream.typeId, r.recordType) !in trailing then |r.blocks|
      else
        var limit := trailing[(r.stream.typeId, r.recordType)];
        if limit <= position then position + 1 else if limit < |r.blocks| then limit else |r.blocks|
    decreases |r.blocks| - position
  {
    if position < |r.blocks| {
      TrailingLimit(r, trailing, position + 1);
    }
  }

  /** A content block of unknown size is the last one read. */
  lemma {:induction false} UnknownSizeStops(r: RecordInfo, trailing: Trailing, position: nat, k: nat)
    requires position <= k < |r.blocks| && r.blocks[k].kind != DataLayout && !r.blocks[k].sizeKnown
    ensures ReadCount(r, trailing, position) <= k + 1
    decreases k - position
  {
    if position < k {
      UnknownSizeStops(r, trailing, position + 1, k);
    }
  }

  lemma {:induction false} LimitKindsSets(t: Trailing, typeId: nat, kinds: seq<RecordType>, first: nat,
                                          key: (nat, RecordType))
    ensures Find(LimitKinds(t, typeId, kinds, first), key) ==
      if key.0 == typeId && key.1 in kinds then (if first == 0 then None else Some(first)) else Find(t, key)
  {
    if kinds != [] {
      LimitKindsSets(t, typeId, kinds[..|kinds| - 1], first, key);
      assert kinds == kinds[..|kinds| - 1] + [kinds[|kinds| - 1]];
    }
  }

  /** Exactly the limits asked for are set, or removed; all others stay. */
  lemma SkipFromSets(t: Trailing, typeId: nat, recordType: Option<RecordType>, first: nat, key: (nat, RecordType))
    ensures Find(SkipFrom(t, typeId, recordType, first), key) ==
      if key.0 == typeId && (recordType.Some? ==> key.1 == recordType.value)
      then (if first == 0 then None else Some(first))
      else Find(t, key)
  {
    LimitKindsSets(t, typeId, KindsMeant(recordType), first, key);
    var all := KindsMeant(None);
    assert all[0] == STATE && all[1] == DATA && all[2] == CONFIGURATION && all[3] == TAGS;
    assert key.1 in all by {
      match key.1 {
        case STATE => case DATA => case CONFIGURATION => case TAGS =>
      }
    }
  }
}
