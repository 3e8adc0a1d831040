/** The image filter as the program runs it: fields updated in place, a fetch loop and a drain loop. */
module AsyncImageFilter {
  import opened Prelude
  import opened FilterModel
  import opened FilterProofs
  import opened FilterContents

  /** What closing reports: the pending check failed, no file was created, or the writer's own status. */
  datatype CloseStatus = StillPending | NoFile | Closed(status: int)

  /** A filterable record as its copier leaves it, image bytes still in place. */
  function JustRead(r: Record): (p: PendingRecord)
    ensures p.WellFormed()
  {
    PendingRecord(r.chunks, ImageSlot(r), Some(r.stream), r.formatVersion)
  }

  class ImageFilter {
    const records: seq<Record>
    var nextRecordIndex: nat
    var pendingRecord: PendingRecord
    var pendingRecords: map<nat, PendingRecord>
    var fileCreated: bool
    /** The calls made so far to the writer and to its throttle. */
    var log: seq<WriterEvent>
    /** Which answers have been accepted; the reference the fields are held against. */
    ghost var ledger: Ledger

    function State(): FilterState
      reads this
    {
      FilterState(nextRecordIndex, pendingRecords, log)
    }

    ghost predicate Valid()
      reads this
    {
      Refines(records, ledger, State())
    }

    /** Creates the output file; when that fails there are no records to go through. */
    constructor (input: seq<Record>, createStatus: int)
      ensures Valid() && State() == INITIAL_STATE && ledger == NEW_LEDGER
      ensures fileCreated <==> createStatus == 0
      ensures records == if fileCreated then input else []
    {
      records := if createStatus == 0 then input else [];
      nextRecordIndex, pendingRecords, log := 0, map[], [];
      pendingRecord := CLEARED;
      fileCreated := createStatus == 0;
      ledger := NEW_LEDGER;
    }

    /** Reads one record: an image goes to `pendingRecord`, anything else straight to the writer. */
    method ReadRecord(index: nat)
      requires index < |records| && pendingRecord == CLEARED
      modifies this`pendingRecord, this`log
      ensures !IsImage(records, index) ==> pendingRecord == CLEARED && log == old(log) + [CopyEvent(records, index)]
      ensures IsImage(records, index) ==> log == old(log) && pendingRecord == JustRead(records[index])
      ensures ReadIn(records, index, old(log), log, pendingRecord)
    {
      ImageRecords(records[index]);
      CopyEventCopied(records, index);
      var r := records[index];
      var imageChunk: Option<nat> := None;
      if r.filtered {
        for i := 0 to |r.chunks|
          invariant imageChunk == LastImage(r.chunks[..i])
        {
          assert r.chunks[..i + 1][..i] == r.chunks[..i];
          if r.chunks[i].Filterable() {
            imageChunk := Some(i);
          }
        }
        assert r.chunks[..|r.chunks|] == r.chunks;
      }
      if imageChunk.Some? {
        pendingRecord := PendingRecord(r.chunks, imageChunk, Some(r.stream), r.formatVersion);
      } else {
        log := log + [CopyEvent(records, index)];
      }
    }

    /** Hands out the next image, copying the other records on the way; None when there is none left. */
    method GetNextImage() returns (image: Option<(nat, Bytes)>)
      requires Valid()
      modifies this
      ensures Valid() && fileCreated == old(fileCreated)
      ensures State() == Fetch(records, old(State()))
      ensures ledger == LedgerStep(records, old(ledger), Op.GetNextImage)
      ensures var j := NextImage(records, old(nextRecordIndex));
        if j == |records| then image == None
        else image == Some((j, records[j].chunks[ImageSlot(records[j]).value].bytes)) && Accepts(State(), j)
      ensures HandsOut(records, old(State()), State(), image)
      ensures ledger.answers == old(ledger.answers) && ledger.cursor == nextRecordIndex
    {
      hide Refines, ImageSlot, NextImage, Fetch, HandsOut;
      RefinesSound(records, ledger, State());
      CursorIsNext(records, ledger, State());
      FetchRefines(records, ledger, State());
      FetchHandsOut(records, ledger, State());
      FetchAccepts(records, State());
      image := FetchImage();
      ledger := LedgerStep(records, ledger, Op.GetNextImage);
      CursorIsNext(records, ledger, State());
    }

    /** The loop: records are read until one leaves an image pending. */
    method FetchImage() returns (image: Option<(nat, Bytes)>)
      requires nextRecordIndex <= |records|
      modifies this`nextRecordIndex, this`pendingRecord, this`pendingRecords, this`log
      ensures State() == Fetch(records, old(State()))
      ensures var j := NextImage(records, old(nextRecordIndex));
        image == if j == |records| then None else Some((j, records[j].chunks[ImageSlot(records[j]).value].bytes))
    {
      hide LastImage, ReadIn;
      ghost var s := State();
      image := None;
      while nextRecordIndex < |records|
        invariant s.next <= nextRecordIndex <= |records|
        invariant forall i | s.next <= i < nextRecordIndex :: !IsImage(records, i)
        invariant log == s.log + Copies(records, s.next, nextRecordIndex)
        invariant pendingRecords == s.pending
      {
        pendingRecord := CLEARED;
        ReadRecord(nextRecordIndex);
        var index := nextRecordIndex;
        nextRecordIndex := nextRecordIndex + 1;
        if pendingRecord.NeedsImageProcessing() {
          var slot := pendingRecord.imageChunk.value;
          image := Some((index, pendingRecord.recordChunks[slot].bytes));
          pendingRecord := pendingRecord.(recordChunks := ReplaceBytes(pendingRecord.recordChunks, slot, []));
          pendingRecords := pendingRecords[index := pendingRecord];
          NextImageIs(records, s.next, index);
          break;
        }
      }
      if image.None? {
        NextImageIs(records, s.next, |records|);
      }
    }

    /** Accepts a processed image once, for an index handed out and not answered yet. */
    method WriteProcessedImage(recordIndex: nat, processedImage: Bytes) returns (ok: bool)
      requires Valid()
      modifies this
      ensures Valid() && fileCreated == old(fileCreated)
      ensures ok <==> Fetched(records, old(ledger), recordIndex) && recordIndex !in old(ledger).answers
      ensures ledger == LedgerStep(records, old(ledger), Op.WriteProcessedImage(recordIndex, processedImage))
      ensures !ok ==> State() == old(State()) && ledger == old(ledger)
      ensures Sound(records, old(State()).pending)
      ensures State() == Write(records, old(State()), recordIndex, processedImage)
      ensures ok ==> ledger.answers == old(ledger.answers)[recordIndex := Processed(processedImage)]
      ensures ok ==> Delivered(records, ledger, State(), recordIndex, processedImage)
      ensures old(log) <= log && nextRecordIndex == old(nextRecordIndex) && ledger.cursor == old(ledger.cursor)
    {
      hide Refines, Drain, ImageSlot, Entry, Delivered;
      RefinesSound(records, ledger, State());
      AcceptedExactlyOnce(records, ledger, State(), recordIndex);
      WriteRefines(records, ledger, State(), recordIndex, processedImage);
      if recordIndex !in pendingRecords || !pendingRecords[recordIndex].NeedsImageProcessing() {
        return false;
      }
      pendingRecords := pendingRecords[recordIndex := pendingRecords[recordIndex].SetBuffer(processedImage)];
      ghost var answered := State();
      ProcessPendingRecords();
      ledger := Note(records, ledger, recordIndex, Processed(processedImage));
      DrainExtends(records, answered, None);
      AnsweredIsDelivered(records, ledger, State(), recordIndex);
      return true;
    }

    /** Drops the whole record of an image handed out and not answered yet. */
    method DiscardRecord(recordIndex: nat) returns (ok: bool)
      requires Valid()
      modifies this
      ensures Valid() && fileCreated == old(fileCreated)
      ensures ok <==> Fetched(records, old(ledger), recordIndex) && recordIndex !in old(ledger).answers
      ensures ledger == LedgerStep(records, old(ledger), Op.DiscardRecord(recordIndex))
      ensures !ok ==> State() == old(State()) && ledger == old(ledger)
      ensures Sound(records, old(State()).pending) && State() == Discard(records, old(State()), recordIndex)
      ensures ok ==> ledger.answers == old(ledger.answers)[recordIndex := Discarded]
      ensures ok ==> recordIndex !in pendingRecords
      ensures ok ==> forall e | e in log && e.Created? && e.viaFilter :: e.index != recordIndex
      ensures old(log) <= log && nextRecordIndex == old(nextRecordIndex) && ledger.cursor == old(ledger.cursor)
    {
      hide Refines, Drain, ImageSlot, Entry, Delivered;
      RefinesSound(records, ledger, State());
      AcceptedExactlyOnce(records, ledger, State(), recordIndex);
      DiscardRefines(records, ledger, State(), recordIndex);
      if recordIndex !in pendingRecords || !pendingRecords[recordIndex].NeedsImageProcessing() {
        return false;
      }
      pendingRecords := pendingRecords - {recordIndex};
      ghost var answered := State();
      ProcessPendingRecords();
      ledger := Note(records, ledger, recordIndex, Discarded);
      DrainExtends(records, answered, None);
      DiscardedIsGone(records, ledger, State(), recordIndex);
      return true;
    }

    /** Writes every record at the front of the map that needs no more processing, oldest first. */
    method ProcessPendingRecords()
      requires Sound(records, pendingRecords)
      modifies this`pendingRecords, this`log
      ensures State() == Drain(records, old(State()), None)
    {
      var timestamp: Option<real> := None;
      while !Blocked(pendingRecords)
        invariant Sound(records, pendingRecords)
        invariant Drain(records, State(), timestamp) == Drain(records, old(State()), None)
        decreases |pendingRecords|
      {
        ghost var s := State();
        var i := MinKey(pendingRecords.Keys);
        timestamp := Some(records[i].timestamp);
        log := log + [EmitEvent(records, i, pendingRecords[i])];
        pendingRecords := pendingRecords - {i};
        assert State() == EmitFirst(records, s);
      }
      if timestamp.Some? {
        log := log + [RecordDecoded(timestamp.value)];
      }
    }

    /** Closes the file unless an image handed out is still unanswered. */
    method CloseFile(writerStatus: int) returns (result: CloseStatus)
      requires Valid()
      modifies this`fileCreated
      ensures Valid()
      ensures result == StillPending <==> exists i :: Fetched(records, ledger, i) && i !in ledger.answers
      ensures result == StillPending ==> fileCreated == old(fileCreated)
      ensures result != StillPending ==> !fileCreated
      ensures result != StillPending ==> result == if old(fileCreated) then Closed(writerStatus) else NoFile
    {
      ClosableWhenAllAnswered(records, ledger, State());
      if pendingRecords != map[] {
        return StillPending;
      }
      if !fileCreated {
        return NoFile;
      }
      fileCreated := false;
      return Closed(writerStatus);
    }
  }

  lemma FetchAccepts(records: seq<Record>, s: FilterState)
    requires s.next <= |records|
    ensures NextImage(records, s.next) < |records| ==> Accepts(Fetch(records, s), NextImage(records, s.next))
  {
  }

  lemma CursorIsNext(records: seq<Record>, l: Ledger, s: FilterState)
    requires Refines(records, l, s)
    ensures s.next == l.cursor
  {
  }

  lemma {:induction false} NextImageIs(records: seq<Record>, from: nat, j: nat)
    requires from <= j <= |records|
    requires forall i | from <= i < j :: !IsImage(records, i)
    requires j < |records| ==> IsImage(records, j)
    ensures NextImage(records, from) == j
    decreases j - from
  {
    if from < j {
      NextImageIs(records, from + 1, j);
    }
  }
}
