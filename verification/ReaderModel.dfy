/**
 The record reader on values: what reading one record does to the record cache, to the lazily built
 configuration index, to the memory of the last configuration read and to the stream decoder.
 Decoding is kept uninterpreted: a block is the record and position it came from, together with the
 configuration record its stream's decoder held, as far as that record had been read.
 */
module ReaderModel {
  import opened Prelude
  import opened BlockList

  datatype BlockKind = DataLayout | Image | Audio | Custom | Unsupported

  datatype BlockSpec = BlockSpec(kind: BlockKind, sizeKnown: bool)

  datatype RecordInfo = RecordInfo(
    timestamp: real, stream: StreamId, recordType: RecordType, formatVersion: nat, blocks: seq<BlockSpec>)

  /** A configuration record as a stream's decoder has it: how many of its blocks were read. */
  datatype ConfigRead = ConfigRead(record: nat, blocks: nat)

  /** `blocks` above is the record's layout; this is one block as decoded. */
  datatype Block = Block(record: nat, position: nat, config: Option<ConfigRead>)

  /** One metadata block of a configuration record. */
  datatype Layout = Layout(record: nat, position: nat)

  /** First trailing block to skip, by device type and record type. */
  type Trailing = map<(nat, RecordType), nat>

  /** Record types whose limit a call sets: the one given, or all of them for "any". */
  function KindsMeant(recordType: Option<RecordType>): seq<RecordType> {
    if recordType.Some? then [recordType.value] else [STATE, DATA, CONFIGURATION, TAGS]
  }

  /** Setting one device type's limit for some record types; a limit of 0 removes it. */
  function LimitKinds(t: Trailing, typeId: nat, kinds: seq<RecordType>, first: nat): Trailing {
    if kinds == [] then t
    else
      var front := LimitKinds(t, typeId, kinds[..|kinds| - 1], first);
      var key := (typeId, kinds[|kinds| - 1]);
      if first != 0 then front[key := first] else front - {key}
  }

  function SkipFrom(t: Trailing, typeId: nat, recordType: Option<RecordType>, first: nat): Trailing {
    LimitKinds(t, typeId, KindsMeant(recordType), first)
  }

  const UINT32_MAX: nat := 0xFFFF_FFFF

  datatype RecordCache = RecordCache(
    recordFormatVersion: nat, datalayoutBlocks: seq<Block>, images: seq<Block>, audioBlocks: seq<Block>,
    customBlocks: seq<Block>, unsupportedBlocks: seq<Block>) {

    function Get(kind: BlockKind): seq<Block> {
      match kind
      case DataLayout => datalayoutBlocks
      case Image => images
      case Audio => audioBlocks
      case Custom => customBlocks
      case Unsupported => unsupportedBlocks
    }

    function Put(kind: BlockKind, blocks: seq<Block>): RecordCache {
      match kind
      case DataLayout => this.(datalayoutBlocks := blocks)
      case Image => this.(images := blocks)
      case Audio => this.(audioBlocks := blocks)
      case Custom => this.(customBlocks := blocks)
      case Unsupported => this.(unsupportedBlocks := blocks)
    }

    /** What is left once the block lists have been moved out. */
    function MovedFrom(): RecordCache { RecordCache(recordFormatVersion, [], [], [], [], []) }

    predicate IsEmpty() { this == MovedFrom() }
  }

  const CLEARED_CACHE := RecordCache(0, [], [], [], [], [])

  datatype PyRecord = PyRecord(
    recordIndex: nat, recordType: RecordType, timestamp: real, stream: StreamId, content: RecordCache)

  datatype ReaderState = ReaderState(
    next: nat, lastRecord: RecordCache, configIndex: map<StreamId, seq<nat>>,
    lastReadConfig: map<StreamId, nat>, decoder: map<StreamId, ConfigRead>, captured: map<StreamId, Layout>)

  // The library's readRecord, driving the stream player's callbacks

  /** Metadata blocks are always appended; other kinds follow the clearing rule. */
  function AddBlock(cache: RecordCache, kind: BlockKind, position: nat, block: Block): RecordCache {
    if kind == DataLayout then cache.Put(kind, cache.Get(kind) + [block])
    else cache.Put(kind, SetBlock(cache.Get(kind), position, block))
  }

  /** Whether the player asks for the block after `position`. */
  predicate Continues(r: RecordInfo, trailing: Trailing, position: nat)
    requires position < |r.blocks|
  {
    && (r.blocks[position].kind == DataLayout || r.blocks[position].sizeKnown)
    && ((r.stream.typeId, r.recordType) in trailing ==> position + 1 < trailing[(r.stream.typeId, r.recordType)])
  }

  /** How many blocks of the record are read, counting from `position`. */
  function ReadCount(r: RecordInfo, trailing: Trailing, position: nat): (n: nat)
    requires position <= |r.blocks|
    ensures position <= n <= |r.blocks|
    decreases |r.blocks| - position
  {
    if position == |r.blocks| then position
    else if Continues(r, trailing, position) then ReadCount(r, trailing, position + 1)
    else position + 1
  }

  function ReadBlocks(cache: RecordCache, r: RecordInfo, i: nat, config: Option<ConfigRead>, n: nat): RecordCache
    requires n <= |r.blocks|
  {
    if n == 0 then cache
    else AddBlock(ReadBlocks(cache, r, i, config, n - 1), r.blocks[n - 1].kind, n - 1, Block(i, n - 1, config))
  }

  /** The configuration a record is decoded under: its stream's, except that a configuration needs none. */
  function DecodingConfig(r: RecordInfo, decoder: map<StreamId, ConfigRead>): Option<ConfigRead> {
    if r.recordType == CONFIGURATION then None else Find(decoder, r.stream)
  }

  function ReadContent(cache: RecordCache, r: RecordInfo, trailing: Trailing, i: nat, config: Option<ConfigRead>)
    : RecordCache
  {
    ReadBlocks(cache.(recordFormatVersion := r.formatVersion), r, i, config, ReadCount(r, trailing, 0))
  }

  /** What reading configuration record `c` under these limits gives its stream's decoder. */
  function ReadOf(index: seq<RecordInfo>, trailing: Trailing, c: nat): ConfigRead
    requires c < |index|
  {
    ConfigRead(c, ReadCount(index[c], trailing, 0))
  }

  /** The last metadata block among the record's first `n` blocks. */
  function LastLayout(r: RecordInfo, n: nat): (p: Option<nat>)
    requires n <= |r.blocks|
    ensures p.Some? ==> p.value < n && r.blocks[p.value].kind == DataLayout
    ensures p.Some? ==> forall k | p.value < k < n :: r.blocks[k].kind != DataLayout
    ensures p.None? ==> forall k | 0 <= k < n :: r.blocks[k].kind != DataLayout
  {
    if n == 0 then None
    else if r.blocks[n - 1].kind == DataLayout then Some(n - 1)
    else LastLayout(r, n - 1)
  }

  /** What image normalization is to be configured from: each metadata block read replaces the one before. */
  function Capture(captured: map<StreamId, Layout>, r: RecordInfo, i: nat, n: nat): map<StreamId, Layout>
    requires n <= |r.blocks|
  {
    var p := LastLayout(r, n);
    if r.recordType == CONFIGURATION && p.Some? then captured[r.stream := Layout(i, p.value)] else captured
  }

  function LibraryRead(index: seq<RecordInfo>, trailing: Trailing, s: ReaderState, i: nat): ReaderState
    requires i < |index|
  {
    var r := index[i];
    s.(lastRecord := ReadContent(s.lastRecord, r, trailing, i, DecodingConfig(r, s.decoder)),
       decoder := if r.recordType == CONFIGURATION then s.decoder[r.stream := ReadOf(index, trailing, i)]
                  else s.decoder,
       captured := Capture(s.captured, r, i, ReadCount(r, trailing, 0)))
  }

  // Automatic configuration reading

  /** The per-stream lists of configuration records, as the lazy scan of the first `n` records builds them. */
  function BuildConfigIndex(index: seq<RecordInfo>, n: nat): map<StreamId, seq<nat>>
    requires n <= |index|
  {
    if n == 0 then map[]
    else
      var m := BuildConfigIndex(index, n - 1);
      var r := index[n - 1];
      if r.recordType == CONFIGURATION then m[r.stream := Lookup(m, r.stream, []) + [n - 1]] else m
  }

  /** `std::lower_bound`: how many leading entries are below `x`. */
  function LowerBound(list: seq<nat>, x: nat): (p: nat)
    ensures p <= |list|
    ensures forall k | 0 <= k < p :: list[k] < x
    ensures p < |list| ==> list[p] >= x
  {
    if list == [] || list[0] >= x then 0 else 1 + LowerBound(list[1..], x)
  }

  /** Every position listed lies in the file. */
  predicate PositionsInFile(configs: map<StreamId, seq<nat>>, n: nat) {
    forall st | st in configs :: forall k | 0 <= k < |configs[st]| :: configs[st][k] < n
  }

  predicate InRange(index: seq<RecordInfo>, s: ReaderState) {
    PositionsInFile(s.configIndex, |index|)
  }

  lemma {:induction false} BuiltInRange(index: seq<RecordInfo>, n: nat)
    requires n <= |index|
    ensures PositionsInFile(BuildConfigIndex(index, n), n)
  {
    if n > 0 {
      BuiltInRange(index, n - 1);
    }
  }

  /** The configuration index, built if need be, with an entry made for the stream. */
  function IndexAfter(index: seq<RecordInfo>, configs: map<StreamId, seq<nat>>, stream: StreamId)
    : map<StreamId, seq<nat>>
  {
    var built := if configs == map[] then BuildConfigIndex(index, |index|) else configs;
    built[stream := Lookup(built, stream, [])]
  }

  lemma IndexAfterInRange(index: seq<RecordInfo>, configs: map<StreamId, seq<nat>>, stream: StreamId)
    requires PositionsInFile(configs, |index|)
    ensures PositionsInFile(IndexAfter(index, configs, stream), |index|)
  {
    BuiltInRange(index, |index|);
  }

  /** Reads configuration `c` of the stream, unless it is the one remembered. */
  function LoadConfiguration(index: seq<RecordInfo>, trailing: Trailing, s: ReaderState, stream: StreamId, c: nat)
    : ReaderState
    requires c < |index|
  {
    var last := Lookup(s.lastReadConfig, stream, 0);
    var s2 := s.(lastReadConfig := s.lastReadConfig[stream := last]);
    if last == c then s2
    else
      var s3 := LibraryRead(index, trailing, s2, c);
      s3.(lastReadConfig := s3.lastReadConfig[stream := c], lastRecord := CLEARED_CACHE)
  }

  function ReadConfiguration(index: seq<RecordInfo>, trailing: Trailing, s: ReaderState, stream: StreamId, i: nat)
    : ReaderState
    requires InRange(index, s)
  {
    IndexAfterInRange(index, s.configIndex, stream);
    var s1 := s.(configIndex := IndexAfter(index, s.configIndex, stream));
    var list := s1.configIndex[stream];
    var p := LowerBound(list, i);
    if p == 0 then s1 else LoadConfiguration(index, trailing, s1, stream, list[p - 1])
  }

  // Reading the record under the cursor

  function Prepare(index: seq<RecordInfo>, trailing: Trailing, auto: bool, s: ReaderState): ReaderState
    requires s.next < |index| && InRange(index, s)
  {
    if auto && index[s.next].recordType == DATA
    then ReadConfiguration(index, trailing, s, index[s.next].stream, s.next)
    else s
  }

  function ReadUnderCursor(index: seq<RecordInfo>, trailing: Trailing, auto: bool, s: ReaderState)
    : (ReaderState, PyRecord)
    requires s.next < |index| && InRange(index, s)
  {
    var r := index[s.next];
    var s' := LibraryRead(index, trailing, Prepare(index, trailing, auto, s), s.next);
    (s'.(next := s.next + 1, lastRecord := s'.lastRecord.MovedFrom()),
     PyRecord(s.next, r.recordType, r.timestamp, r.stream, s'.lastRecord))
  }

  /** `readRecord(index)`: any cursor position will do, the index is all that counts. */
  function ReadAt(index: seq<RecordInfo>, trailing: Trailing, auto: bool, s: ReaderState, i: nat)
    : (ReaderState, PyRecord)
    requires i < |index| && InRange(index, s)
  {
    ReadUnderCursor(index, trailing, auto, s.(next := i))
  }

  /** A reader just opened: with automatic reading on, every stream's last configuration is a sentinel. */
  function Opened(streams: set<StreamId>, auto: bool): ReaderState {
    ReaderState(0, CLEARED_CACHE, map[], if auto then map st | st in streams :: UINT32_MAX else map[], map[], map[])
  }

  // Reference definitions

  predicate IsConfig(index: seq<RecordInfo>, stream: StreamId, j: nat) {
    j < |index| && index[j].recordType == CONFIGURATION && index[j].stream == stream
  }

  /** Backward scan for the stream's nearest configuration before `i`. */
  function NearestConfig(index: seq<RecordInfo>, stream: StreamId, i: nat): (c: Option<nat>)
    requires i <= |index|
    ensures c.Some? ==> c.value < i && IsConfig(index, stream, c.value)
    ensures c.Some? ==> forall j | c.value < j < i :: !IsConfig(index, stream, j)
    ensures c.None? ==> forall j | 0 <= j < i :: !IsConfig(index, stream, j)
  {
    if i == 0 then None
    else if IsConfig(index, stream, i - 1) then Some(i - 1)
    else NearestConfig(index, stream, i - 1)
  }

  /** Record `i` read on its own under configuration `config`, as a function of the file alone. */
  function Decoded(index: seq<RecordInfo>, trailing: Trailing, i: nat, config: Option<ConfigRead>): PyRecord
    requires i < |index|
  {
    var r := index[i];
    PyRecord(i, r.recordType, r.timestamp, r.stream, ReadContent(CLEARED_CACHE, r, trailing, i, config))
  }
}
