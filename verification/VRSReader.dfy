/** The record reader as the program runs it: one object whose caches and cursor every read updates. */
module VRSReader {
  import opened Prelude
  import opened BlockList
  import opened ReaderModel
  import opened ReaderProofs
  import opened ReaderContents
  import opened Cursor
  import NormalizeCache

  datatype Outcome = Read(record: PyRecord) | StopIteration | IndexError | Refused(why: Refusal)

  class Reader {
    const index: seq<RecordInfo>
    const streams: set<StreamId>
    const autoReadConfigurationRecord: bool
    var nextRecordIndex: nat
    var lastRecord: RecordCache
    var enabledStreams: set<StreamId>
    var firstSkippedTrailingBlockIndex: Trailing
    var configIndex: map<StreamId, seq<nat>>
    var lastReadConfigIndex: map<StreamId, nat>
    /** The library's stream decoders: the configuration record each stream last read, as far as it was. */
    var decoder: map<StreamId, ConfigRead>
    /** Receives the blocks read; keeps what image normalization is configured from. */
    const streamPlayer: NormalizeCache.StreamPlayer
    /** The records returned so far, and the trailing limits each was read under. */
    ghost var trace: seq<Past>

    function State(): ReaderState
      reads this, streamPlayer
    {
      ReaderState(nextRecordIndex, lastRecord, configIndex, lastReadConfigIndex, decoder,
                  streamPlayer.streamNormalizeConfigs)
    }

    ghost predicate Valid()
      reads this, streamPlayer
    {
      && streamPlayer.Valid()
      && FileOk(index, streams)
      && InFile(index, trace)
      && nextRecordIndex <= |index|
      && Inv(index, State())
      && InRange(index, State())
      && (autoReadConfigurationRecord ==> Remembers(index, streams, trace, State()))
    }

    /** A reader with its file open; no stream is enabled yet. */
    constructor (index: seq<RecordInfo>, streams: set<StreamId>, auto: bool)
      requires FileOk(index, streams)
      ensures Valid() && fresh(streamPlayer) && this.index == index && this.streams == streams
      ensures autoReadConfigurationRecord == auto && trace == [] && enabledStreams == {}
      ensures State() == Opened(streams, auto) && firstSkippedTrailingBlockIndex == map[]
    {
      this.index, this.streams, autoReadConfigurationRecord := index, streams, auto;
      nextRecordIndex, lastRecord, configIndex, decoder := 0, CLEARED_CACHE, map[], map[];
      lastReadConfigIndex := if auto then map st | st in streams :: UINT32_MAX else map[];
      enabledStreams, firstSkippedTrailingBlockIndex := {}, map[];
      trace := [];
      streamPlayer := new NormalizeCache.StreamPlayer();
    }

    method EnableStream(stream: StreamId)
      requires Valid()
      modifies this`enabledStreams
      ensures Valid() && enabledStreams == old(enabledStreams) + {stream}
    {
      enabledStreams := enabledStreams + {stream};
    }

    /** Appends one block to the cache list of its kind, clearing stale blocks first. */
    method SetBlock(kind: BlockKind, position: nat, block: Block)
      modifies this`lastRecord
      ensures lastRecord == AddBlock(old(lastRecord), kind, position, block)
    {
      var blocks := lastRecord.Get(kind);
      if kind != DataLayout && |blocks| >= position {
        blocks := [];
      }
      lastRecord := lastRecord.Put(kind, blocks + [block]);
    }

    /** The player's callback for a block: captures, adds the block, and says whether to go on. */
    method OnBlockRead(i: nat, position: nat, config: Option<ConfigRead>) returns (more: bool)
      requires i < |index| && position < |index[i].blocks| && streamPlayer.Valid()
      modifies this`lastRecord, streamPlayer
      ensures streamPlayer.Valid()
      ensures lastRecord == AddBlock(old(lastRecord), index[i].blocks[position].kind, position,
                                     Block(i, position, config))
      ensures streamPlayer.streamNormalizeConfigs ==
        if index[i].blocks[position].kind == DataLayout && index[i].recordType == CONFIGURATION
        then old(streamPlayer.streamNormalizeConfigs)[index[i].stream := Layout(i, position)]
        else old(streamPlayer.streamNormalizeConfigs)
      ensures more == Continues(index[i], firstSkippedTrailingBlockIndex, position)
    {
      var r := index[i];
      if r.blocks[position].kind == DataLayout && r.recordType == CONFIGURATION {
        streamPlayer.CaptureNormalizeOptionsConfig(r.stream, Layout(i, position));
      }
      SetBlock(r.blocks[position].kind, position, Block(i, position, config));
      more := Continues(r, firstSkippedTrailingBlockIndex, position);
    }

    /** The library's loop over a record's blocks, until the player stops; `n` blocks are read. */
    method ReadRecordBlocks(i: nat, config: Option<ConfigRead>) returns (n: nat)
      requires i < |index| && streamPlayer.Valid()
      modifies this`lastRecord, streamPlayer
      ensures streamPlayer.Valid()
      ensures n == ReadCount(index[i], firstSkippedTrailingBlockIndex, 0)
      ensures StopsAfter(index[i], firstSkippedTrailingBlockIndex, n)
      ensures lastRecord == ReadBlocks(old(lastRecord), index[i], i, config, n)
      ensures streamPlayer.streamNormalizeConfigs == Capture(old(streamPlayer.streamNormalizeConfigs), index[i], i, n)
    {
      var r := index[i];
      ghost var start, captured := lastRecord, streamPlayer.streamNormalizeConfigs;
      ghost var limits := firstSkippedTrailingBlockIndex;
      hide BlocksDone, AddBlock, Continues, NormalizeCache.StreamPlayer.Valid;
      NoneDone(start, captured, r, i, config, limits);
      n := 0;
      var more := true;
      while n < |r.blocks| && more
        invariant n <= |r.blocks| && streamPlayer.Valid()
        invariant BlocksDone(start, captured, r, i, config, limits, n, more,
                             lastRecord, streamPlayer.streamNormalizeConfigs)
        decreases |r.blocks| - n, more
      {
        OneMoreDone(start, captured, r, i, config, limits, n, lastRecord, streamPlayer.streamNormalizeConfigs);
        more := OnBlockRead(i, n, config);
        n := n + 1;
      }
      AllDone(start, captured, r, i, config, limits, n, more, lastRecord, streamPlayer.streamNormalizeConfigs);
    }

    /** The library's readRecord: the header, then the blocks. */
    method LibraryReadRecord(i: nat)
      requires i < |index| && streamPlayer.Valid()
      modifies this`lastRecord, this`decoder, streamPlayer
      ensures streamPlayer.Valid()
      ensures State() == LibraryRead(index, firstSkippedTrailingBlockIndex, old(State()), i)
    {
      hide ReadBlocks, ReadCount, Capture, StopsAfter, NormalizeCache.StreamPlayer.Valid;
      var r := index[i];
      var config := DecodingConfig(r, decoder);
      lastRecord := lastRecord.(recordFormatVersion := r.formatVersion);
      var n := ReadRecordBlocks(i, config);
      if r.recordType == CONFIGURATION {
        decoder := decoder[r.stream := ConfigRead(i, n)];
      }
    }

    /** Scans the file once for configuration records. */
    method BuildIndex() returns (m: map<StreamId, seq<nat>>)
      ensures m == BuildConfigIndex(index, |index|)
    {
      m := map[];
      for i := 0 to |index|
        invariant m == BuildConfigIndex(index, i)
      {
        if index[i].recordType == CONFIGURATION {
          m := m[index[i].stream := Lookup(m, index[i].stream, []) + [i]];
        }
      }
    }

    /** Reads the configuration record that record `i` needs, unless it is the one last read this way. */
    method ReadConfigurationRecord(stream: StreamId, i: nat)
      requires i < |index| && streamPlayer.Valid() && Inv(index, State()) && InRange(index, State())
      modifies this`configIndex, this`lastReadConfigIndex, this`lastRecord, this`decoder, streamPlayer
      ensures streamPlayer.Valid()
      ensures State() == ReadConfiguration(index, firstSkippedTrailingBlockIndex, old(State()), stream, i)
    {
      hide Inv, ConfigList, BuildConfigIndex, LowerBound, LoadConfiguration;
      ghost var s0 := State();
      IndexAfterInRange(index, configIndex, stream);
      StreamListed(index, s0, stream);
      ConfigListSorted(index, stream, |index|);
      if configIndex == map[] {
        configIndex := BuildIndex();
      }
      configIndex := configIndex[stream := Lookup(configIndex, stream, [])];
      var list := configIndex[stream];
      var p := BinaryLowerBound(list, i);
      if p > 0 {
        LoadConfigurationRecord(stream, list[p - 1]);
      }
    }

    /** The second half: the record found is read, and remembered, unless it already is. */
    method LoadConfigurationRecord(stream: StreamId, c: nat)
      requires c < |index| && streamPlayer.Valid()
      modifies this`lastReadConfigIndex, this`lastRecord, this`decoder, streamPlayer
      ensures streamPlayer.Valid()
      ensures State() == LoadConfiguration(index, firstSkippedTrailingBlockIndex, old(State()), stream, c)
    {
      hide LibraryRead;
      lastReadConfigIndex := lastReadConfigIndex[stream := Lookup(lastReadConfigIndex, stream, 0)];
      if lastReadConfigIndex[stream] == c {
        return;
      }
      LibraryReadRecord(c);
      lastReadConfigIndex := lastReadConfigIndex[stream := c];
      lastRecord := CLEARED_CACHE;
    }

    /** What a record read after `before` holds: everything but the configuration follows from the file alone. */
    ghost predicate ReadHolds(record: PyRecord, i: nat, before: seq<Past>)
      requires i < |index| && InFile(index, before)
      reads this
    {
      var limits := firstSkippedTrailingBlockIndex;
      && (exists config :: RecordHolds(record, index, i, limits, config))
      && (autoReadConfigurationRecord ==>
            RecordHolds(record, index, i, limits, ConfigUsed(index, before, limits, i)))
    }

    /** Reads the record under the cursor and moves its blocks out of the cache. */
    method ReadNextRecordInternal() returns (out: Outcome)
      requires Valid()
      modifies this`nextRecordIndex, this`configIndex, this`lastReadConfigIndex, this`lastRecord
      modifies this`decoder, this`trace, streamPlayer
      ensures Valid()
      ensures old(nextRecordIndex) == |index| ==> out == StopIteration && State() == old(State()) && trace == old(trace)
      ensures old(nextRecordIndex) < |index| ==>
        var i := old(nextRecordIndex);
        && nextRecordIndex == i + 1 && trace == old(trace) + [Past(i, firstSkippedTrailingBlockIndex)]
        && InFile(index, old(trace)) && InRange(index, old(State()))
        && (autoReadConfigurationRecord ==>
            var limits := firstSkippedTrailingBlockIndex;
            out == Read(Decoded(index, limits, i, ConfigUsed(index, old(trace), limits, i))))
      ensures old(nextRecordIndex) < |index| ==>
        var limits, auto := firstSkippedTrailingBlockIndex, autoReadConfigurationRecord;
        var (s, record) := ReadUnderCursor(index, limits, auto, old(State()));
        State() == s && out == Read(record)
      ensures old(nextRecordIndex) < |index| ==>
        out.Read? && ReadHolds(out.record, old(nextRecordIndex), old(trace))
    {
      hide LibraryRead, ReadConfiguration, Inv, Remembers, Decoded, ConfigUsed, InRange, RecordHolds;
      if nextRecordIndex >= |index| {
        return StopIteration;
      }
      ghost var s0 := State();
      var i := nextRecordIndex;
      var r := index[i];
      ReadUnderCursorStep(index, firstSkippedTrailingBlockIndex, autoReadConfigurationRecord, s0);
      ghost var used :=
        DecodingConfig(r, Prepare(index, firstSkippedTrailingBlockIndex, autoReadConfigurationRecord, s0).decoder);
      DecodedHolds(index, firstSkippedTrailingBlockIndex, i, used);
      if autoReadConfigurationRecord {
        ReadStep(index, firstSkippedTrailingBlockIndex, streams, trace, s0, i);
        DecodedHolds(index, firstSkippedTrailingBlockIndex, i,
                     ConfigUsed(index, trace, firstSkippedTrailingBlockIndex, i));
      }
      if autoReadConfigurationRecord && r.recordType == DATA {
        ReadConfigurationRecord(r.stream, i);
      }
      LibraryReadRecord(i);
      out := Read(PyRecord(i, r.recordType, r.timestamp, r.stream, lastRecord));
      nextRecordIndex := nextRecordIndex + 1;
      lastRecord := lastRecord.MovedFrom();
      trace := trace + [Past(i, firstSkippedTrailingBlockIndex)];
      InvInRange(index, State());
    }

    /** Reads the record at an index, wherever the cursor is. */
    method ReadRecord(recordIndex: int32) returns (out: Outcome)
      requires Valid()
      modifies this`nextRecordIndex, this`configIndex, this`lastReadConfigIndex, this`lastRecord
      modifies this`decoder, this`trace, streamPlayer
      ensures Valid() && InFile(index, old(trace)) && InRange(index, old(State()))
      ensures out == IndexError <==> AsUint32(recordIndex) >= |index|
      ensures recordIndex < 0 && |index| <= 0x8000_0000 ==> out == IndexError
      ensures recordIndex >= 0 ==> (out == IndexError <==> recordIndex as int >= |index|)
      ensures out != IndexError ==> out.Read? && ReadHolds(out.record, AsUint32(recordIndex), old(trace))
      ensures out == IndexError ==> State() == old(State()) && trace == old(trace)
      ensures out != IndexError ==>
        var i := AsUint32(recordIndex);
        && trace == old(trace) + [Past(i, firstSkippedTrailingBlockIndex)]
        && State() == ReadAt(index, firstSkippedTrailingBlockIndex, autoReadConfigurationRecord, old(State()), i).0
        && out == Read(ReadAt(index, firstSkippedTrailingBlockIndex, autoReadConfigurationRecord, old(State()), i).1)
        && (autoReadConfigurationRecord ==>
            var limits := firstSkippedTrailingBlockIndex;
            out == Read(Decoded(index, limits, i, ConfigUsed(index, old(trace), limits, i))))
    {
      hide Inv, Remembers, Decoded, ConfigUsed, ReadUnderCursor, ReadHolds;
      if AsUint32(recordIndex) >= |index| {
        return IndexError;
      }
      nextRecordIndex := AsUint32(recordIndex);
      CursorIrrelevant(index, old(State()), nextRecordIndex);
      RemembersIgnoresCursor(index, streams, trace, old(State()), nextRecordIndex);
      out := ReadNextRecordInternal();
    }

    /**
     The options for normalizing an image of a stream: computed from the configuration the stream's decoder
     holds, if that was read up to some metadata block, whatever was cached before.
     */
    method OptionsForImage(stream: StreamId, pixelFormat: NormalizeCache.PixelFormat)
      returns (options: NormalizeCache.Options)
      requires Valid() && autoReadConfigurationRecord && stream in streams
      modifies streamPlayer
      ensures Valid() && State() == old(State())
      ensures options == NormalizeCache.Options(stream, pixelFormat, LastCapture(index, stream, trace))
      ensures
        var held := Find(decoder, stream);
        && (held.None? ==> options.config == None)
        && (held.Some? ==> IsConfig(index, stream, held.value.record)
                           && held.value.blocks <= |index[held.value.record].blocks|)
        && (held.Some? && CapturedFrom(index, held.value).Some? ==> options.config == CapturedFrom(index, held.value))
    {
      hide Inv, InRange, LastConfigRead, LastCapture, LastWanted;
      CapturedWithDecoder(index, stream, trace);
      assert RemembersStream(index, stream, trace, State());
      options := streamPlayer.OptionsFor(stream, pixelFormat);
    }

    /** Moves the cursor; an index out of range leaves it at the end. */
    method GotoRecord(recordIndex: int32) returns (ok: bool)
      requires Valid()
      modifies this`nextRecordIndex
      ensures Valid() && State() == old(State()).(next := nextRecordIndex)
      ensures ok <==> AsUint32(recordIndex) < |index|
      ensures nextRecordIndex == if ok then AsUint32(recordIndex) else |index|
    {
      nextRecordIndex := AsUint32(recordIndex);
      ok := nextRecordIndex < |index|;
      if !ok {
        nextRecordIndex := |index|;
      }
      CursorIrrelevant(index, old(State()), nextRecordIndex);
      RemembersIgnoresCursor(index, streams, trace, old(State()), nextRecordIndex);
    }

    /** Reads the next record a request matches; every form of `read_next_record`. */
    method ReadNextRecord(req: Request) returns (out: Outcome)
      requires Valid()
      modifies this`nextRecordIndex, this`configIndex, this`lastReadConfigIndex, this`lastRecord
      modifies this`decoder, this`trace, streamPlayer
      ensures Valid() && InFile(index, old(trace)) && old(nextRecordIndex) <= |index|
      ensures
        var result := match out
          case Read(record) => Found(record.recordIndex)
          case Refused(why) => Denied(why)
          case _ => NoMoreRecords;
        && out != IndexError
        && Served(index, streams, enabledStreams, req, old(nextRecordIndex), result, nextRecordIndex)
      ensures var (next, cursor) := NextRead(index, streams, enabledStreams, req, old(nextRecordIndex));
        && nextRecordIndex == cursor
        && match next
           case Denied(why) => out == Refused(why) && State() == old(State()) && trace == old(trace)
           case NoMoreRecords => out == StopIteration && trace == old(trace)
           case Found(j) =>
             && out.Read? && out.record.recordIndex == j && ReadHolds(out.record, j, old(trace))
             && trace == old(trace) + [Past(j, firstSkippedTrailingBlockIndex)]
      ensures out.Read? && autoReadConfigurationRecord ==>
        var j := out.record.recordIndex;
        var limits := firstSkippedTrailingBlockIndex;
        j < |index| && out.record == Decoded(index, limits, j, ConfigUsed(index, old(trace), limits, j))
    {
      hide Inv, Remembers, ConfigUsed, ReadBlocks, LibraryRead, Prepare, RecordHolds, Match, Decoded;
      NextReadServes(index, streams, enabledStreams, req, nextRecordIndex);
      hide Served;
      var refusal := Cursor.Refused(streams, enabledStreams, req);
      if refusal.Some? {
        return Refused(refusal.value);
      }
      SkipIgnoredRecords(req);
      out := ReadNextRecordInternal();
    }

    /** Moves the cursor past records that do not match. */
    method SkipIgnoredRecords(req: Request)
      requires Valid()
      modifies this`nextRecordIndex
      ensures Valid() && old(nextRecordIndex) <= |index|
      ensures nextRecordIndex == NextMatch(index, enabledStreams, req, old(nextRecordIndex))
    {
      hide Inv, Remembers, Match;
      ghost var s0 := State();
      while nextRecordIndex < |index| && !Match(index[nextRecordIndex], enabledStreams, req)
        invariant s0.next <= nextRecordIndex <= |index|
        invariant forall i | s0.next <= i < nextRecordIndex :: !Match(index[i], enabledStreams, req)
      {
        nextRecordIndex := nextRecordIndex + 1;
      }
      NextMatchIs(index, enabledStreams, req, s0.next, nextRecordIndex);
      CursorIrrelevant(index, s0, nextRecordIndex);
      RemembersIgnoresCursor(index, streams, trace, s0, nextRecordIndex);
    }

    /** Stop reading records of a kind at a given block; 0 reads everything again. */
    method SkipTrailingBlocks(typeId: nat, recordType: Option<RecordType>, first: nat)
      requires Valid()
      modifies this`firstSkippedTrailingBlockIndex
      ensures Valid()
      ensures firstSkippedTrailingBlockIndex == SkipFrom(old(firstSkippedTrailingBlockIndex), typeId, recordType, first)
      ensures forall key: (nat, RecordType) ::
        Find(firstSkippedTrailingBlockIndex, key) ==
          if key.0 == typeId && (recordType.Some? ==> key.1 == recordType.value)
          then (if first == 0 then None else Some(first))
          else Find(old(firstSkippedTrailingBlockIndex), key)
    {
      var kinds := KindsMeant(recordType);
      for k := 0 to |kinds|
        invariant firstSkippedTrailingBlockIndex
               == LimitKinds(old(firstSkippedTrailingBlockIndex), typeId, kinds[..k], first)
      {
        assert kinds[..k + 1][..k] == kinds[..k];
        if first != 0 {
          firstSkippedTrailingBlockIndex := firstSkippedTrailingBlockIndex[(typeId, kinds[k]) := first];
        } else {
          firstSkippedTrailingBlockIndex := firstSkippedTrailingBlockIndex - {(typeId, kinds[k])};
        }
      }
      assert kinds[..|kinds|] == kinds;
      forall key: (nat, RecordType)
        ensures Find(firstSkippedTrailingBlockIndex, key) ==
          if key.0 == typeId && (recordType.Some? ==> key.1 == recordType.value)
          then (if first == 0 then None else Some(first))
          else Find(old(firstSkippedTrailingBlockIndex), key)
      {
        SkipFromSets(old(firstSkippedTrailingBlockIndex), typeId, recordType, first, key);
      }
    }
  }

  /** Where the loop over a record's blocks is: `n` are read, and `more` says whether to go on. */
  predicate BlocksDone(start: RecordCache, captured: map<StreamId, Layout>, r: RecordInfo, i: nat,
                       config: Option<ConfigRead>, limits: Trailing, n: nat, more: bool,
                       cache: RecordCache, now: map<StreamId, Layout>)
  {
    && n <= |r.blocks|
    && cache == ReadBlocks(start, r, i, config, n)
    && now == Capture(captured, r, i, n)
    && ReadCount(r, limits, 0) == if more then ReadCount(r, limits, n) else n
  }

  lemma NoneDone(start: RecordCache, captured: map<StreamId, Layout>, r: RecordInfo, i: nat,
                 config: Option<ConfigRead>, limits: Trailing)
    ensures BlocksDone(start, captured, r, i, config, limits, 0, true, start, captured)
  {
  }

  lemma OneMoreDone(start: RecordCache, captured: map<StreamId, Layout>, r: RecordInfo, i: nat,
                    config: Option<ConfigRead>, limits: Trailing, n: nat,
                    cache: RecordCache, now: map<StreamId, Layout>)
    requires n < |r.blocks| && BlocksDone(start, captured, r, i, config, limits, n, true, cache, now)
    ensures BlocksDone(start, captured, r, i, config, limits, n + 1, Continues(r, limits, n),
                       AddBlock(cache, r.blocks[n].kind, n, Block(i, n, config)),
                       if r.blocks[n].kind == DataLayout && r.recordType == CONFIGURATION
                       then now[r.stream := Layout(i, n)] else now)
  {
    hide AddBlock;
  }

  lemma AllDone(start: RecordCache, captured: map<StreamId, Layout>, r: RecordInfo, i: nat, config: Option<ConfigRead>,
                limits: Trailing, n: nat, more: bool, cache: RecordCache, now: map<StreamId, Layout>)
    requires BlocksDone(start, captured, r, i, config, limits, n, more, cache, now) && (n < |r.blocks| ==> !more)
    ensures n == ReadCount(r, limits, 0) && StopsAfter(r, limits, n)
    ensures cache == ReadBlocks(start, r, i, config, n) && now == Capture(captured, r, i, n)
  {
    hide ReadBlocks, Capture, StopsAfter;
    StopsAfterIff(r, limits, n);
  }

  /** Binary search for the first entry not below `x`. */
  method BinaryLowerBound(list: seq<nat>, x: nat) returns (p: nat)
    requires forall i, j | 0 <= i < j < |list| :: list[i] < list[j]
    ensures p == LowerBound(list, x)
  {
    var low, high := 0, |list|;
    while low < high
      invariant 0 <= low <= high <= |list|
      invariant forall k | 0 <= k < low :: list[k] < x
      invariant forall k | high <= k < |list| :: list[k] >= x
    {
      var mid := low + (high - low) / 2;
      if list[mid] < x {
        low := mid + 1;
      } else {
        high := mid;
      }
    }
    p := low;
    var q := LowerBound(list, x);
    assert low < |list| ==> list[low] >= x;
    assert q < |list| ==> list[q] >= x;
    assert forall k | 0 <= k < q :: list[k] < x;
  }

  lemma {:induction false} ConfigListSorted(index: seq<RecordInfo>, stream: StreamId, n: nat)
    requires n <= |index|
    ensures forall i, j | 0 <= i < j < |ConfigList(index, stream, n)| ::
      ConfigList(index, stream, n)[i] < ConfigList(index, stream, n)[j]
  {
    if n > 0 {
      ConfigListSorted(index, stream, n - 1);
      ConfigListEndsAtNearest(index, stream, n - 1);
      var front := ConfigList(index, stream, n - 1);
      assert forall i | 0 <= i < |front| :: front[i] in front;
    }
  }

  lemma RemembersIgnoresCursor(index: seq<RecordInfo>, streams: set<StreamId>, trace: seq<Past>, s: ReaderState, i: nat)
    requires InFile(index, trace)
    ensures Remembers(index, streams, trace, s.(next := i)) == Remembers(index, streams, trace, s)
  {
  }
}
