/**
 What the records written hold, field by field, in terms of the input records and the images supplied:
 nothing here is stated through the functions that build the writer's events.
 */
module FilterContents {
  import opened Prelude
  import opened FilterModel
  import opened FilterProofs

  // Which records are handed out, and which of their chunks

  /** Chunk `k` is the image to filter: the last one of known size, in a record of a filtered stream. */
  predicate ImageAt(r: Record, k: nat) {
    && r.filtered && k < |r.chunks| && r.chunks[k].isImage && r.chunks[k].sizeKnown
    && forall j | k < j < |r.chunks| :: !(r.chunks[j].isImage && r.chunks[j].sizeKnown)
  }

  predicate HasImage(r: Record) {
    r.filtered && exists k :: 0 <= k < |r.chunks| && r.chunks[k].isImage && r.chunks[k].sizeKnown
  }

  /** A record has an image to filter exactly when its stream is filtered and some image has a known size. */
  lemma ImageRecords(r: Record)
    ensures ImageSlot(r).Some? <==> HasImage(r)
    ensures ImageSlot(r).Some? ==> ImageAt(r, ImageSlot(r).value)
    ensures forall k: nat | ImageAt(r, k) :: ImageSlot(r) == Some(k)
  {
    var slot := LastImage(r.chunks);
    forall k: nat | ImageAt(r, k) ensures ImageSlot(r) == Some(k) {
      assert r.chunks[k].Filterable();
      assert forall j | k < j < |r.chunks| :: !r.chunks[j].Filterable();
    }
    if slot.Some? {
      assert r.chunks[slot.value].Filterable();
      assert forall j | slot.value < j < |r.chunks| :: !r.chunks[j].Filterable();
    } else {
      assert forall j | 0 <= j < |r.chunks| :: !r.chunks[j].Filterable();
    }
  }

  // What an event holds

  /** The record written for image record `i`: its own, with the chunk of the image holding `image`. */
  predicate Carries(e: WriterEvent, records: seq<Record>, i: nat, image: Bytes) {
    && i < |records| && e.Created? && e.viaFilter && e.index == i
    && e.writer == records[i].stream && e.timestamp == records[i].timestamp
    && e.recordType == records[i].recordType && e.formatVersion == records[i].formatVersion
    && |e.chunks| == |records[i].chunks|
    && forall k | 0 <= k < |e.chunks| ::
         e.chunks[k] == if ImageAt(records[i], k)
                        then Chunk(records[i].chunks[k].isImage, records[i].chunks[k].sizeKnown, image)
                        else records[i].chunks[k]
  }

  /** The record written for a record with no image to filter: its own, unchanged. */
  predicate Copied(e: WriterEvent, records: seq<Record>, i: nat) {
    && i < |records| && e.Created? && !e.viaFilter && e.index == i
    && e.writer == records[i].stream && e.timestamp == records[i].timestamp
    && e.recordType == records[i].recordType && e.formatVersion == records[i].formatVersion
    && e.chunks == records[i].chunks
  }

  predicate HasCopy(events: seq<WriterEvent>, records: seq<Record>, i: nat) {
    exists e :: e in events && Copied(e, records, i)
  }

  /**
   What reading one record adds: the record copied as it is, if it has no image to filter; otherwise nothing
   is written, and the record pending has its chunks, with the image to filter pointed at.
   */
  predicate ReadIn(records: seq<Record>, i: nat, before: seq<WriterEvent>, after: seq<WriterEvent>, p: PendingRecord)
    requires i < |records|
  {
    if HasImage(records[i]) then
      && after == before && p.recordChunks == records[i].chunks
      && p.imageChunk.Some? && ImageAt(records[i], p.imageChunk.value)
      && p.writer == Some(records[i].stream) && p.formatVersion == records[i].formatVersion
    else
      |after| == |before| + 1 && after[..|before|] == before && Copied(after[|before|], records, i)
  }

  lemma OutputCarries(records: seq<Record>, i: nat, image: Bytes)
    requires IsImage(records, i)
    ensures Carries(Output(records, i, image), records, i, image)
  {
    ImageRecords(records[i]);
  }

  lemma CopyEventCopied(records: seq<Record>, i: nat)
    requires i < |records|
    ensures Copied(CopyEvent(records, i), records, i)
  {
  }

  /** The image bytes of a record just handed out are with the caller; everything else is in the map. */
  lemma UnansweredHolds(r: Record)
    requires ImageSlot(r).Some?
    ensures var p := Unanswered(r);
      && p.imageChunk == ImageSlot(r) && p.writer == Some(r.stream) && p.formatVersion == r.formatVersion
      && |p.recordChunks| == |r.chunks|
      && forall k | 0 <= k < |r.chunks| && !ImageAt(r, k) :: p.recordChunks[k] == r.chunks[k]
  {
    ImageRecords(r);
  }

  // What the log holds

  lemma {:induction false} ViaFilterMember(log: seq<WriterEvent>, v: bool, e: WriterEvent)
    ensures e in ViaFilter(log, v) <==> e in log && e.Created? && e.viaFilter == v
  {
    if log != [] {
      ViaFilterMember(log[..|log| - 1], v, e);
      assert log == log[..|log| - 1] + [log[|log| - 1]];
    }
  }

  lemma {:induction false} OutputsMember(records: seq<Record>, answers: map<nat, Answer>, bound: nat, e: WriterEvent)
    requires forall i | i in answers :: IsImage(records, i)
    ensures e in OutputsBelow(records, answers, bound) <==>
      exists i :: 0 <= i < bound && i in answers && answers[i].Processed? && e == Output(records, i, answers[i].image)
    decreases bound
  {
    hide Output, IsImage;
    if bound > 0 {
      OutputsMember(records, answers, bound - 1, e);
    }
  }

  lemma {:induction false} CopiesMember(records: seq<Record>, end: nat, e: WriterEvent)
    requires end <= |records|
    ensures e in Copies(records, 0, end) <==>
      exists i :: 0 <= i < end && !IsImage(records, i) && e == CopyEvent(records, i)
    decreases end
  {
    hide CopyEvent, IsImage;
    if end > 0 {
      CopiesMember(records, end - 1, e);
    }
  }

  /** Copies appear in strictly increasing record order: each once. */
  lemma {:induction false} CopiesOrdered(records: seq<Record>, end: nat)
    requires end <= |records|
    ensures forall k | 0 <= k < |Copies(records, 0, end)| ::
      Copies(records, 0, end)[k].Created? && Copies(records, 0, end)[k].index < end
    ensures forall j, k | 0 <= j < k < |Copies(records, 0, end)| ::
      Copies(records, 0, end)[j].index < Copies(records, 0, end)[k].index
    decreases end
  {
    hide IsImage;
    if end > 0 {
      CopiesOrdered(records, end - 1);
    }
  }

  /** Every image handed out up to `i` has an answer. */
  predicate AllAnsweredTo(records: seq<Record>, l: Ledger, i: nat) {
    forall j | 0 <= j <= i && j < l.cursor && IsImage(records, j) :: j in l.answers
  }

  lemma BelowFrontier(records: seq<Record>, l: Ledger, i: nat)
    requires Fetched(records, l, i)
    ensures i < FirstUnanswered(records, l, 0) <==> AllAnsweredTo(records, l, i)
  {
    var f := FirstUnanswered(records, l, 0);
    if f <= i {
      assert !(f in l.answers) && f < l.cursor && IsImage(records, f);
    }
  }

  /**
   The image records in the log are exactly those of the processed images that no unanswered image precedes,
   each carrying the image supplied for it.
   */
  lemma ImagesInLog(records: seq<Record>, l: Ledger, s: FilterState)
    requires Refines(records, l, s)
    ensures forall e | e in s.log && e.Created? && e.viaFilter ::
      && e.index in l.answers && l.answers[e.index].Processed? && AllAnsweredTo(records, l, e.index)
      && Carries(e, records, e.index, l.answers[e.index].image)
    ensures forall i | i in l.answers && l.answers[i].Processed? && AllAnsweredTo(records, l, i) ::
      exists e :: e in s.log && Carries(e, records, i, l.answers[i].image)
  {
    var f := FirstUnanswered(records, l, 0);
    hide Holds, Copies, ViaFilter, OutputsBelow, Output, Carries, IsImage, FirstUnanswered, AllAnsweredTo;
    forall e | e in s.log && e.Created? && e.viaFilter
      ensures e.index in l.answers && l.answers[e.index].Processed? && AllAnsweredTo(records, l, e.index)
      ensures Carries(e, records, e.index, l.answers[e.index].image)
    {
      ViaFilterMember(s.log, true, e);
      OutputsMember(records, l.answers, f, e);
      var i :| 0 <= i < f && i in l.answers && l.answers[i].Processed? && e == Output(records, i, l.answers[i].image);
      OutputCarries(records, i, l.answers[i].image);
      CarriesIndex(e, records, i, l.answers[i].image);
      BelowFrontier(records, l, i);
    }
    forall i | i in l.answers && l.answers[i].Processed? && AllAnsweredTo(records, l, i)
      ensures exists e :: e in s.log && Carries(e, records, i, l.answers[i].image)
    {
      var e := Output(records, i, l.answers[i].image);
      BelowFrontier(records, l, i);
      OutputsMember(records, l.answers, f, e);
      ViaFilterMember(s.log, true, e);
      OutputCarries(records, i, l.answers[i].image);
    }
  }

  lemma CarriesIndex(e: WriterEvent, records: seq<Record>, i: nat, image: Bytes)
    requires Carries(e, records, i, image)
    ensures e.Created? && e.index == i
  {
  }

  /** The other records in the log are exactly those below the cursor without an image to filter, unchanged. */
  lemma CopiesInLog(records: seq<Record>, l: Ledger, s: FilterState)
    requires Refines(records, l, s)
    ensures l.cursor <= |records|
    ensures forall e | e in s.log && e.Created? && !e.viaFilter ::
      e.index < l.cursor && !IsImage(records, e.index) && Copied(e, records, e.index)
    ensures forall i | 0 <= i < l.cursor && !IsImage(records, i) :: HasCopy(s.log, records, i)
    ensures forall j, k | 0 <= j < k < |ViaFilter(s.log, false)| ::
      && ViaFilter(s.log, false)[j].Created? && ViaFilter(s.log, false)[k].Created?
      && ViaFilter(s.log, false)[j].index < ViaFilter(s.log, false)[k].index
  {
    CopiesOrdered(records, l.cursor);
    hide Holds, Copies, ViaFilter, OutputsBelow, CopyEvent, Copied, IsImage, FirstUnanswered;
    forall e | e in s.log && e.Created? && !e.viaFilter
      ensures e.index < l.cursor && !IsImage(records, e.index) && Copied(e, records, e.index)
    {
      ViaFilterMember(s.log, false, e);
      CopiesMember(records, l.cursor, e);
      var i :| 0 <= i < l.cursor && !IsImage(records, i) && e == CopyEvent(records, i);
      CopyEventCopied(records, i);
      CopiedIndex(e, records, i);
    }
    forall i | 0 <= i < l.cursor && !IsImage(records, i) ensures HasCopy(s.log, records, i) {
      var e := CopyEvent(records, i);
      CopyEventCopied(records, i);
      CopiedIndex(e, records, i);
      CopiesMember(records, l.cursor, e);
      ViaFilterMember(s.log, false, e);
    }
  }

  lemma CopiedIndex(e: WriterEvent, records: seq<Record>, i: nat)
    requires Copied(e, records, i)
    ensures e.Created? && !e.viaFilter && e.index == i
  {
  }

  /** An answered image that must wait for an earlier one is in the map, with the image supplied for it. */
  lemma WaitingCarries(records: seq<Record>, l: Ledger, s: FilterState, i: nat)
    requires Refines(records, l, s)
    requires i in l.answers && l.answers[i].Processed? && !AllAnsweredTo(records, l, i)
    ensures i < |records| && i in s.pending && !s.pending[i].NeedsImageProcessing()
    ensures |s.pending[i].recordChunks| == |records[i].chunks|
    ensures forall k | 0 <= k < |records[i].chunks| ::
      s.pending[i].recordChunks[k] ==
        if ImageAt(records[i], k)
        then Chunk(records[i].chunks[k].isImage, records[i].chunks[k].sizeKnown, l.answers[i].image)
        else records[i].chunks[k]
  {
    BelowFrontier(records, l, i);
    assert Awaiting(records, l, FirstUnanswered(records, l, 0), i);
    ImageRecords(records[i]);
    EntryEmitsOutput(records, l.answers, i);
    OutputCarries(records, i, l.answers[i].image);
  }

  /**
   Handing out the next image: the first record with one from the cursor on, with that image's bytes, while
   every record passed over is copied as it is; or none, when all the records have been passed over.
   */
  ghost predicate HandsOut(records: seq<Record>, before: FilterState, after: FilterState,
                           image: Option<(nat, Bytes)>) {
    var stop := if image.Some? then image.value.0 else |records|;
    && before.next <= stop <= |records|
    && before.log <= after.log
    && (forall i | before.next <= i < stop :: !HasImage(records[i]))
    && (forall i | before.next <= i < stop :: HasCopy(after.log[|before.log|..], records, i))
    && (forall e | e in after.log[|before.log|..] :: e.Created? && before.next <= e.index < stop)
    && (image.None? ==> after.next == |records| && after.pending == before.pending)
    && (image.Some? ==>
          && stop < |records| && HasImage(records[stop]) && after.next == stop + 1
          && (forall k | 0 <= k < |records[stop].chunks| && ImageAt(records[stop], k) ::
                image.value.1 == records[stop].chunks[k].bytes)
          && after.pending.Keys == before.pending.Keys + {stop}
          && after.pending[stop].imageChunk.Some?
          && forall i | i in before.pending && i != stop :: after.pending[i] == before.pending[i])
  }

  lemma {:induction false} CopiesBetween(records: seq<Record>, from: nat, end: nat)
    requires from <= end <= |records|
    ensures forall i | from <= i < end && !IsImage(records, i) :: HasCopy(Copies(records, from, end), records, i)
    ensures forall e | e in Copies(records, from, end) :: e.Created? && from <= e.index < end
    decreases end
  {
    hide IsImage, Copied;
    if from < end {
      CopiesBetween(records, from, end - 1);
      CopyEventCopied(records, end - 1);
      CopiedIndex(CopyEvent(records, end - 1), records, end - 1);
      forall i | from <= i < end && !IsImage(records, i)
        ensures HasCopy(Copies(records, from, end), records, i)
      {
        if i < end - 1 {
          var e :| e in Copies(records, from, end - 1) && Copied(e, records, i);
          assert e in Copies(records, from, end);
        } else {
          assert CopyEvent(records, i) in Copies(records, from, end);
        }
      }
    }
  }

  lemma FetchHandsOut(records: seq<Record>, l: Ledger, s: FilterState)
    requires Refines(records, l, s) && s.next <= |records|
    ensures var j := NextImage(records, s.next);
      HandsOut(records, s, Fetch(records, s),
               if j == |records| then None else Some((j, records[j].chunks[ImageSlot(records[j]).value].bytes)))
  {
    hide ImageAt, HasImage, HasCopy, Copied, Refines, Copies, ImageSlot;
    var j := NextImage(records, s.next);
    CopiesBetween(records, s.next, j);
    assert (s.log + Copies(records, s.next, j))[|s.log|..] == Copies(records, s.next, j);
    forall i | s.next <= i < |records| ensures IsImage(records, i) <==> HasImage(records[i]) {
      ImageRecords(records[i]);
    }
    if j < |records| {
      ImageRecords(records[j]);
    }
  }

  /** What became of an answered image: its record is in the log, or waits in the map, with the image supplied. */
  ghost predicate Delivered(records: seq<Record>, l: Ledger, s: FilterState, i: nat, image: Bytes) {
    if AllAnsweredTo(records, l, i) then exists e :: e in s.log && Carries(e, records, i, image)
    else
      && i < |records| && i in s.pending && !s.pending[i].imageChunk.Some?
      && |s.pending[i].recordChunks| == |records[i].chunks|
      && forall k | 0 <= k < |records[i].chunks| ::
           s.pending[i].recordChunks[k] ==
             if ImageAt(records[i], k)
             then Chunk(records[i].chunks[k].isImage, records[i].chunks[k].sizeKnown, image)
             else records[i].chunks[k]
  }

  lemma AnsweredIsDelivered(records: seq<Record>, l: Ledger, s: FilterState, i: nat)
    requires Refines(records, l, s) && i in l.answers && l.answers[i].Processed?
    ensures Delivered(records, l, s, i, l.answers[i].image)
  {
    hide Refines, Carries, AllAnsweredTo, ImageAt;
    if AllAnsweredTo(records, l, i) {
      ImagesInLog(records, l, s);
    } else {
      WaitingCarries(records, l, s, i);
    }
  }

  /** Nothing of a discarded record is written or kept. */
  lemma DiscardedIsGone(records: seq<Record>, l: Ledger, s: FilterState, i: nat)
    requires Refines(records, l, s) && i in l.answers && l.answers[i].Discarded?
    ensures i !in s.pending && forall e | e in s.log && e.Created? && e.viaFilter :: e.index != i
  {
    ImagesInLog(records, l, s);
    assert !Awaiting(records, l, FirstUnanswered(records, l, 0), i);
  }

  // The log only grows

  lemma {:induction false} DrainExtends(records: seq<Record>, s: FilterState, last: Option<real>)
    requires Sound(records, s.pending)
    ensures s.log <= Drain(records, s, last).log && Drain(records, s, last).next == s.next
    decreases |s.pending|
  {
    hide MinKey;
    if !Blocked(s.pending) {
      DrainExtends(records, EmitFirst(records, s), Some(records[MinKey(s.pending.Keys)].timestamp));
    }
  }

  /** One more call of a run, on state and ledger. */
  lemma RunExtends(records: seq<Record>, ops: seq<Op>, op: Op)
    ensures LedgerAfter(records, ops + [op]) == LedgerStep(records, LedgerAfter(records, ops), op)
    ensures StateAfter(records, ops + [op]) == Step(records, StateAfter(records, ops), op)
  {
    hide Step, LedgerStep, Refines;
    assert (ops + [op])[..|ops|] == ops;
  }
}
