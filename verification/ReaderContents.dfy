/**
 What reading a record stops at and what the record returned holds, list by list and field by field, in terms
 of the file alone: nothing here is stated through the functions that read blocks.
 */
module ReaderContents {
  import opened Prelude
  import opened BlockList
  import opened ReaderModel
  import opened ReaderProofs

  /** After block `k` reading goes on: it is metadata, or of known size, and no limit says to stop. */
  predicate GoesOn(r: RecordInfo, limits: Trailing, k: nat)
    requires k < |r.blocks|
  {
    && (r.blocks[k].kind == DataLayout || r.blocks[k].sizeKnown)
    && ((r.stream.typeId, r.recordType) in limits ==> k + 1 < limits[(r.stream.typeId, r.recordType)])
  }

  /**
   Reading stops after `n` blocks: every one of them but the last lets reading go on, and the last does not,
   unless it is the record's last. At least one block is read, if there is any: a block of unknown size too.
   */
  predicate StopsAfter(r: RecordInfo, limits: Trailing, n: nat) {
    && n <= |r.blocks| && (r.blocks != [] ==> n > 0)
    && (forall k | 0 <= k < n - 1 :: GoesOn(r, limits, k))
    && (0 < n < |r.blocks| ==> !GoesOn(r, limits, n - 1))
  }

  lemma {:induction false} CountStops(r: RecordInfo, limits: Trailing, position: nat)
    requires position < |r.blocks|
    ensures var n := ReadCount(r, limits, position);
      && position < n
      && (forall k | position <= k < n - 1 :: GoesOn(r, limits, k))
      && (n < |r.blocks| ==> !GoesOn(r, limits, n - 1))
    decreases |r.blocks| - position
  {
    if Continues(r, limits, position) && position + 1 < |r.blocks| {
      CountStops(r, limits, position + 1);
    }
  }

  /** The number of blocks read is the one number after which reading stops. */
  lemma StopsAfterIff(r: RecordInfo, limits: Trailing, n: nat)
    ensures StopsAfter(r, limits, n) <==> n == ReadCount(r, limits, 0)
  {
    var m := ReadCount(r, limits, 0);
    if r.blocks != [] {
      CountStops(r, limits, 0);
    }
  }

  /** The first block is lost: another of its kind, not metadata, comes right after it and was read. */
  predicate LosesFirst(r: RecordInfo, n: nat, kind: BlockKind)
    requires n <= |r.blocks|
  {
    kind != DataLayout && n >= 2 && r.blocks[0].kind == kind && r.blocks[1].kind == kind
  }

  /** The list has the blocks of a kind among the first `n`, in order, without the first if it is lost. */
  ghost predicate ListHolds(list: seq<Block>, r: RecordInfo, i: nat, config: Option<ConfigRead>, n: nat,
                            kind: BlockKind)
    requires n <= |r.blocks|
  {
    && (forall b | b in list :: b.record == i && b.config == config)
    && (forall j, k | 0 <= j < k < |list| :: list[j].position < list[k].position)
    && (forall p | 0 <= p < n ::
          Block(i, p, config) in list <==> r.blocks[p].kind == kind && !(p == 0 && LosesFirst(r, n, kind)))
    && (forall b | b in list :: b.position < n)
  }

  /** Everything the record returned for record `i` holds. */
  ghost predicate RecordHolds(record: PyRecord, index: seq<RecordInfo>, i: nat, limits: Trailing,
                              config: Option<ConfigRead>)
    requires i < |index|
  {
    && record.recordIndex == i && record.recordType == index[i].recordType
    && record.timestamp == index[i].timestamp && record.stream == index[i].stream
    && record.content.recordFormatVersion == index[i].formatVersion
    && exists n :: StopsAfter(index[i], limits, n) && BlocksHold(record.content, index[i], i, config, n)
  }

  ghost predicate BlocksHold(content: RecordCache, r: RecordInfo, i: nat, config: Option<ConfigRead>, n: nat) {
    && n <= |r.blocks|
    && ListHolds(content.datalayoutBlocks, r, i, config, n, DataLayout)
    && ListHolds(content.images, r, i, config, n, Image)
    && ListHolds(content.audioBlocks, r, i, config, n, Audio)
    && ListHolds(content.customBlocks, r, i, config, n, Custom)
    && ListHolds(content.unsupportedBlocks, r, i, config, n, Unsupported)
  }

  lemma BlockListed(i: nat, ps: seq<nat>, config: Option<ConfigRead>, p: nat)
    ensures Block(i, p, config) in BlocksAt(i, ps, config) <==> p in ps
  {
    var all := BlocksAt(i, ps, config);
    if p in ps {
      var k :| 0 <= k < |ps| && ps[k] == p;
      assert all[k] == Block(i, p, config);
    }
  }

  lemma ListOf(kept: seq<nat>, r: RecordInfo, i: nat, config: Option<ConfigRead>, n: nat, kind: BlockKind)
    requires n <= |r.blocks| && Increasing(kept) && forall k | 0 <= k < |kept| :: kept[k] < n
    requires forall p | 0 <= p < n :: p in kept <==> r.blocks[p].kind == kind && !(p == 0 && LosesFirst(r, n, kind))
    ensures ListHolds(BlocksAt(i, kept, config), r, i, config, n, kind)
  {
    hide LosesFirst;
    forall p | 0 <= p < n
      ensures Block(i, p, config) in BlocksAt(i, kept, config)
        <==> r.blocks[p].kind == kind && !(p == 0 && LosesFirst(r, n, kind))
    {
      BlockListed(i, kept, config, p);
    }
  }

  /** The positions whose blocks are kept. */
  function Kept(r: RecordInfo, n: nat, kind: BlockKind): seq<nat>
    requires n <= |r.blocks|
  {
    PositionsStart(r, kind, n);
    if LosesFirst(r, n, kind) then Positions(r, kind, n)[1..] else Positions(r, kind, n)
  }

  lemma KeptPositions(r: RecordInfo, n: nat, kind: BlockKind)
    requires n <= |r.blocks|
    ensures Increasing(Kept(r, n, kind)) && forall k | 0 <= k < |Kept(r, n, kind)| :: Kept(r, n, kind)[k] < n
    ensures forall p | 0 <= p < n ::
      p in Kept(r, n, kind) <==> r.blocks[p].kind == kind && !(p == 0 && LosesFirst(r, n, kind))
  {
    hide Positions, Increasing;
    var ps := Positions(r, kind, n);
    PositionsStart(r, kind, n);
    DropFirst(ps, n);
    forall p | 0 <= p < n
      ensures p in Kept(r, n, kind) <==> r.blocks[p].kind == kind && !(p == 0 && LosesFirst(r, n, kind))
    {
      PositionsMember(r, kind, n, p);
      KeptMember(ps, p);
    }
  }

  lemma DropFirst(ps: seq<nat>, n: nat)
    requires Increasing(ps) && forall k | 0 <= k < |ps| :: ps[k] < n
    ensures ps != [] ==> Increasing(ps[1..]) && forall k | 0 <= k < |ps[1..]| :: ps[1..][k] < n
  {
  }

  lemma AllBlocksHold(r: RecordInfo, i: nat, config: Option<ConfigRead>, n: nat, kind: BlockKind)
    requires n <= |r.blocks|
    ensures var all := BlocksAt(i, Positions(r, kind, n), config);
      && (LosesFirst(r, n, kind) ==> |all| >= 2)
      && ListHolds(if LosesFirst(r, n, kind) then all[1..] else all, r, i, config, n, kind)
  {
    hide Positions, ListHolds;
    var all := BlocksAt(i, Positions(r, kind, n), config);
    PositionsStart(r, kind, n);
    KeptPositions(r, n, kind);
    ListOf(Kept(r, n, kind), r, i, config, n, kind);
    assert BlocksAt(i, Kept(r, n, kind), config) == if LosesFirst(r, n, kind) then all[1..] else all;
  }

  /** Without its first position, 0, an increasing list has all the others. */
  lemma KeptMember(ps: seq<nat>, p: nat)
    requires Increasing(ps)
    ensures ps != [] && ps[0] == 0 ==> (p in ps[1..] <==> p in ps && p != 0)
  {
    if ps != [] && ps[0] == 0 {
      assert ps == [ps[0]] + ps[1..];
    }
  }

  lemma ReturnedHolds(index: seq<RecordInfo>, limits: Trailing, i: nat, config: Option<ConfigRead>, kind: BlockKind)
    requires i < |index|
    ensures ListHolds(Decoded(index, limits, i, config).content.Get(kind), index[i], i, config,
                      ReadCount(index[i], limits, 0), kind)
  {
    hide Decoded, RecordCache.Get, ListHolds;
    ReturnedBlocks(index, limits, i, config, kind);
    AllBlocksHold(index[i], i, config, ReadCount(index[i], limits, 0), kind);
  }

  /** Every record read holds this, under whatever configuration it is decoded. */
  lemma DecodedHolds(index: seq<RecordInfo>, limits: Trailing, i: nat, config: Option<ConfigRead>)
    requires i < |index|
    ensures RecordHolds(Decoded(index, limits, i, config), index, i, limits, config)
  {
    hide ListHolds, ReadCount, ReadBlocks, StopsAfter;
    var n := ReadCount(index[i], limits, 0);
    StopsAfterIff(index[i], limits, n);
    ReturnedHolds(index, limits, i, config, DataLayout);
    ReturnedHolds(index, limits, i, config, Image);
    ReturnedHolds(index, limits, i, config, Audio);
    ReturnedHolds(index, limits, i, config, Custom);
    ReturnedHolds(index, limits, i, config, Unsupported);
    VersionKept(CLEARED_CACHE.(recordFormatVersion := index[i].formatVersion), index[i], i, config, n);
    assert BlocksHold(Decoded(index, limits, i, config).content, index[i], i, config, n);
  }

  lemma {:induction false} VersionKept(cache: RecordCache, r: RecordInfo, i: nat, config: Option<ConfigRead>, n: nat)
    requires n <= |r.blocks|
    ensures ReadBlocks(cache, r, i, config, n).recordFormatVersion == cache.recordFormatVersion
    decreases n
  {
    if n > 0 {
      VersionKept(cache, r, i, config, n - 1);
    }
  }
}
