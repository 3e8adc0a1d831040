/**
 Runs of the image filter. The reorder buffer refines the ledger, and from that follow the exact
 prefix written, exactly-once answers, conservation, confluence and the watermark's safety.
 */
module FilterProofs {
  import opened Prelude
  import opened FilterModel

  // Writer log projections

  lemma ViaFilterAppend(log: seq<WriterEvent>, e: WriterEvent, v: bool)
    ensures ViaFilter(log + [e], v) == ViaFilter(log, v) + (if e.Created? && e.viaFilter == v then [e] else [])
  {
    assert (log + [e])[..|log|] == log;
  }

  lemma CopyIsNotFiltered(records: seq<Record>, i: nat)
    requires i < |records|
    ensures CopyEvent(records, i).Created? && !CopyEvent(records, i).viaFilter
  {
  }

  lemma {:induction false} ViaFilterCopies(records: seq<Record>, log: seq<WriterEvent>, from: nat, end: nat)
    requires from <= end <= |records|
    ensures ViaFilter(log + Copies(records, from, end), true) == ViaFilter(log, true)
    ensures ViaFilter(log + Copies(records, from, end), false) == ViaFilter(log, false) + Copies(records, from, end)
    decreases end
  {
    hide CopyEvent, IsImage, ViaFilter;
    if from == end {
      assert log + Copies(records, from, end) == log;
    } else {
      ViaFilterCopies(records, log, from, end - 1);
      var front := Copies(records, from, end - 1);
      if IsImage(records, end - 1) {
        assert Copies(records, from, end) == front;
      } else {
        var e := CopyEvent(records, end - 1);
        assert e.Created? && !e.viaFilter by { CopyIsNotFiltered(records, end - 1); }
        assert log + Copies(records, from, end) == (log + front) + [e];
        ViaFilterAppend(log + front, e, true);
        ViaFilterAppend(log + front, e, false);
      }
    }
  }

  lemma {:induction false} CopiesSplit(records: seq<Record>, from: nat, mid: nat, end: nat)
    requires from <= mid <= end <= |records|
    ensures Copies(records, from, end) == Copies(records, from, mid) + Copies(records, mid, end)
    decreases end
  {
    if mid < end {
      CopiesSplit(records, from, mid, end - 1);
    }
  }

  // Outputs and the frontier

  lemma {:induction false} OutputsGap(records: seq<Record>, answers: map<nat, Answer>, from: nat, end: nat)
    requires from <= end
    requires forall i | i in answers :: IsImage(records, i)
    requires forall i | from <= i < end && i in answers :: answers[i].Discarded?
    ensures OutputsBelow(records, answers, end) == OutputsBelow(records, answers, from)
    decreases end
  {
    if from < end {
      OutputsGap(records, answers, from, end - 1);
    }
  }

  lemma {:induction false} OutputsAgree(records: seq<Record>, a: map<nat, Answer>, b: map<nat, Answer>, bound: nat)
    requires forall i | i in a :: IsImage(records, i)
    requires forall i | i in b :: IsImage(records, i)
    requires forall i | 0 <= i < bound :: Find(a, i) == Find(b, i)
    ensures OutputsBelow(records, a, bound) == OutputsBelow(records, b, bound)
    decreases bound
  {
    if bound > 0 {
      assert Find(a, bound - 1) == Find(b, bound - 1);
      OutputsAgree(records, a, b, bound - 1);
    }
  }

  lemma FrontierFrom(records: seq<Record>, l: Ledger, k: nat)
    requires k <= l.cursor
    requires forall i | 0 <= i < k && IsImage(records, i) :: i in l.answers
    ensures FirstUnanswered(records, l, k) == FirstUnanswered(records, l, 0)
  {
    var f, g := FirstUnanswered(records, l, k), FirstUnanswered(records, l, 0);
    if g < k {
      assert false;
    }
  }

  // The drain loop reaches the frontier

  /** Mid-drain: everything below `k` is settled, everything held is at `k` or after. */
  ghost predicate DrainedTo(records: seq<Record>, l: Ledger, s: FilterState, k: nat) {
    && Consistent(records, l)
    && k <= l.cursor
    && s.next == l.cursor
    && (forall i | 0 <= i < k && IsImage(records, i) :: i in l.answers)
    && Holds(records, l, k, s.pending)
    && Logged(records, l, k, s.log)
  }

  lemma HoldsSound(records: seq<Record>, l: Ledger, k: nat, pending: map<nat, PendingRecord>)
    requires Consistent(records, l) && Holds(records, l, k, pending)
    ensures Sound(records, pending)
  {
    forall i | i in pending ensures i < |records| && pending[i].WellFormed() {
      assert pending[i] == Entry(records, l.answers, i);
    }
  }

  lemma EntryEmitsOutput(records: seq<Record>, answers: map<nat, Answer>, i: nat)
    requires IsImage(records, i) && i in answers && answers[i].Processed?
    ensures EmitEvent(records, i, Entry(records, answers, i)) == Output(records, i, answers[i].image)
  {
    var r := records[i];
    var slot := ImageSlot(r).value;
    assert ReplaceBytes(ReplaceBytes(r.chunks, slot, []), slot, answers[i].image)
        == ReplaceBytes(r.chunks, slot, answers[i].image);
  }

  /** Up to the front of the map, every image has been discarded. */
  lemma SettledBefore(records: seq<Record>, l: Ledger, s: FilterState, k: nat, stop: nat)
    requires DrainedTo(records, l, s, k) && k <= stop <= l.cursor
    requires forall i | i in s.pending :: stop <= i
    ensures forall i | k <= i < stop && i in l.answers :: l.answers[i].Discarded?
    ensures forall i | 0 <= i < stop && IsImage(records, i) :: i in l.answers
    ensures Logged(records, l, stop, s.log)
    ensures Holds(records, l, stop, s.pending)
  {
    forall i | k <= i < stop && IsImage(records, i) ensures i in l.answers && l.answers[i].Discarded? {
      assert i !in s.pending;
      assert !Awaiting(records, l, k, i);
    }
    OutputsGap(records, l.answers, k, stop);
  }

  lemma BlockedAtFrontier(records: seq<Record>, l: Ledger, s: FilterState, k: nat)
    requires DrainedTo(records, l, s, k) && Blocked(s.pending)
    ensures Refines(records, l, s)
  {
    var stop := if s.pending == map[] then l.cursor else MinKey(s.pending.Keys);
    if s.pending != map[] {
      assert Awaiting(records, l, k, stop);
      assert s.pending[stop] == Entry(records, l.answers, stop);
    }
    SettledBefore(records, l, s, k, stop);
    FrontierFrom(records, l, stop);
  }

  lemma ReadyMeansProcessed(records: seq<Record>, answers: map<nat, Answer>, i: nat)
    requires IsImage(records, i)
    ensures Entry(records, answers, i).NeedsImageProcessing() <==> !(i in answers && answers[i].Processed?)
  {
  }

  lemma EmitHolds(records: seq<Record>, l: Ledger, pending: map<nat, PendingRecord>, i: nat)
    requires Holds(records, l, i, pending) && i in pending
    ensures Holds(records, l, i + 1, pending - {i})
  {
    forall j ensures j in pending - {i} <==> Awaiting(records, l, i + 1, j) {
      assert j in pending <==> Awaiting(records, l, i, j);
    }
  }

  lemma EmitLogged(records: seq<Record>, l: Ledger, log: seq<WriterEvent>, i: nat)
    requires Consistent(records, l) && Logged(records, l, i, log)
    requires i in l.answers && l.answers[i].Processed?
    ensures Logged(records, l, i + 1, log + [EmitEvent(records, i, Entry(records, l.answers, i))])
  {
    EntryEmitsOutput(records, l.answers, i);
    ViaFilterAppend(log, Output(records, i, l.answers[i].image), true);
    ViaFilterAppend(log, Output(records, i, l.answers[i].image), false);
  }

  lemma EmitAdvances(records: seq<Record>, l: Ledger, s: FilterState, k: nat)
    requires DrainedTo(records, l, s, k) && Sound(records, s.pending) && !Blocked(s.pending)
    ensures DrainedTo(records, l, EmitFirst(records, s), MinKey(s.pending.Keys) + 1)
  {
    hide MinKey, Entry, Logged, EmitEvent, ImageSlot;
    var i := MinKey(s.pending.Keys);
    assert Awaiting(records, l, k, i);
    SettledBefore(records, l, s, k, i);
    assert s.pending[i] == Entry(records, l.answers, i);
    ReadyMeansProcessed(records, l.answers, i);
    EmitHolds(records, l, s.pending, i);
    EmitLogged(records, l, s.log, i);
  }

  lemma ReportRefines(records: seq<Record>, l: Ledger, s: FilterState, t: real)
    requires Refines(records, l, s)
    ensures Refines(records, l, s.(log := s.log + [RecordDecoded(t)]))
  {
    hide Holds, FirstUnanswered, OutputsBelow, Copies, ViaFilter, IsImage;
    ViaFilterAppend(s.log, RecordDecoded(t), true);
    ViaFilterAppend(s.log, RecordDecoded(t), false);
  }

  lemma {:induction false} DrainReachesFrontier(records: seq<Record>, l: Ledger, s: FilterState, k: nat,
                                                last: Option<real>)
    requires DrainedTo(records, l, s, k) && Sound(records, s.pending)
    ensures Refines(records, l, Drain(records, s, last))
    decreases |s.pending|
  {
    hide MinKey, DrainedTo, Refines, EmitFirst;
    if Blocked(s.pending) {
      BlockedAtFrontier(records, l, s, k);
      if last.Some? {
        ReportRefines(records, l, s, last.value);
      }
    } else {
      var i := MinKey(s.pending.Keys);
      EmitAdvances(records, l, s, k);
      DrainReachesFrontier(records, l, EmitFirst(records, s), i + 1, Some(records[i].timestamp));
    }
  }

  // Each call keeps the refinement

  lemma RefinesSound(records: seq<Record>, l: Ledger, s: FilterState)
    requires Refines(records, l, s)
    ensures s.next <= |records| && Sound(records, s.pending)
  {
    HoldsSound(records, l, FirstUnanswered(records, l, 0), s.pending);
  }

  /** Moving the cursor past the next image, at `j`, moves the frontier only if nothing was awaited. */
  lemma CursorMove(records: seq<Record>, l: Ledger, l': Ledger, j: nat)
    requires Consistent(records, l) && l.cursor <= j <= |records|
    requires forall i | l.cursor <= i < j :: !IsImage(records, i)
    requires l' == l.(cursor := if j == |records| then j else j + 1)
    requires j < |records| ==> IsImage(records, j)
    ensures Consistent(records, l')
    ensures OutputsBelow(records, l'.answers, FirstUnanswered(records, l', 0))
         == OutputsBelow(records, l.answers, FirstUnanswered(records, l, 0))
    ensures FirstUnanswered(records, l', 0)
         == if FirstUnanswered(records, l, 0) < l.cursor then FirstUnanswered(records, l, 0) else j
  {
    var f, f' := FirstUnanswered(records, l, 0), FirstUnanswered(records, l', 0);
    if f < l.cursor {
      assert IsImage(records, f) && Fetched(records, l, f);
    } else if j < |records| {
      assert j !in l.answers;
      assert Fetched(records, l', j);
    }
    OutputsGap(records, l.answers, f, f');
  }

  lemma FetchHolds(records: seq<Record>, l: Ledger, l': Ledger, f: nat, f': nat, j: nat,
                   pending: map<nat, PendingRecord>)
    requires Consistent(records, l) && l.cursor <= j <= |records| && f <= l.cursor
    requires forall i | l.cursor <= i < j :: !IsImage(records, i)
    requires l' == l.(cursor := if j == |records| then j else j + 1)
    requires j < |records| ==> IsImage(records, j)
    requires f' == if f < l.cursor then f else j
    requires Holds(records, l, f, pending)
    ensures Holds(records, l', f', if j == |records| then pending else pending[j := Unanswered(records[j])])
  {
    hide ImageSlot, Unanswered;
    var pending' := if j == |records| then pending else pending[j := Unanswered(records[j])];
    forall i ensures i in pending' <==> Awaiting(records, l', f', i) {
      assert i in pending <==> Awaiting(records, l, f, i);
    }
  }

  lemma FetchLogged(records: seq<Record>, l: Ledger, l': Ledger, j: nat, f: nat, log: seq<WriterEvent>)
    requires Consistent(records, l) && l.cursor <= j <= |records|
    requires l' == l.(cursor := if j == |records| then j else j + 1)
    requires j < |records| ==> IsImage(records, j)
    requires Consistent(records, l') && Logged(records, l, f, log)
    ensures Logged(records, l', f, log + Copies(records, l.cursor, j))
  {
    hide ImageSlot, OutputsBelow, ViaFilter;
    ViaFilterCopies(records, log, l.cursor, j);
    CopiesSplit(records, 0, l.cursor, j);
  }

  lemma FetchRefines(records: seq<Record>, l: Ledger, s: FilterState)
    requires Refines(records, l, s)
    ensures Refines(records, LedgerStep(records, l, GetNextImage), Fetch(records, s))
  {
    hide Holds, IsImage, Logged, FirstUnanswered;
    var j := NextImage(records, l.cursor);
    var l' := LedgerStep(records, l, GetNextImage);
    var f, f' := FirstUnanswered(records, l, 0), FirstUnanswered(records, l', 0);
    CursorMove(records, l, l', j);
    FetchHolds(records, l, l', f, f', j, s.pending);
    FetchLogged(records, l, l', j, f, s.log);
    SameOutputsLogged(records, l', f, f', s.log + Copies(records, l.cursor, j));
  }

  lemma SameOutputsLogged(records: seq<Record>, l: Ledger, f: nat, f': nat, log: seq<WriterEvent>)
    requires Consistent(records, l) && Logged(records, l, f, log)
    requires OutputsBelow(records, l.answers, f) == OutputsBelow(records, l.answers, f')
    ensures Logged(records, l, f', log)
  {
  }

  /** An index is accepted exactly when it was handed out and has no answer yet. */
  lemma AcceptedExactlyOnce(records: seq<Record>, l: Ledger, s: FilterState, i: nat)
    requires Refines(records, l, s)
    ensures Accepts(s, i) <==> Fetched(records, l, i) && i !in l.answers
  {
    if Fetched(records, l, i) && i !in l.answers {
      assert Awaiting(records, l, FirstUnanswered(records, l, 0), i);
    }
  }

  lemma WriteRefines(records: seq<Record>, l: Ledger, s: FilterState, i: nat, image: Bytes)
    requires Refines(records, l, s) && Sound(records, s.pending)
    ensures Refines(records, LedgerStep(records, l, WriteProcessedImage(i, image)), Write(records, s, i, image))
  {
    AcceptedExactlyOnce(records, l, s, i);
    if Accepts(s, i) {
      var l' := Note(records, l, i, Processed(image));
      var s' := s.(pending := s.pending[i := s.pending[i].SetBuffer(image)]);
      AnswerDrainable(records, l, l', s, s', i, Processed(image));
      DrainReachesFrontier(records, l', s', FirstUnanswered(records, l, 0), None);
    }
  }

  lemma DiscardRefines(records: seq<Record>, l: Ledger, s: FilterState, i: nat)
    requires Refines(records, l, s) && Sound(records, s.pending)
    ensures Refines(records, LedgerStep(records, l, DiscardRecord(i)), Discard(records, s, i))
  {
    AcceptedExactlyOnce(records, l, s, i);
    if Accepts(s, i) {
      var l' := Note(records, l, i, Discarded);
      var s' := s.(pending := s.pending - {i});
      AnswerDrainable(records, l, l', s, s', i, Discarded);
      DrainReachesFrontier(records, l', s', FirstUnanswered(records, l, 0), None);
    }
  }

  lemma AnswerHolds(records: seq<Record>, l: Ledger, l': Ledger, f: nat,
                    pending: map<nat, PendingRecord>, pending': map<nat, PendingRecord>, i: nat, a: Answer)
    requires Consistent(records, l) && Holds(records, l, f, pending) && i in pending
    requires l' == l.(answers := l.answers[i := a])
    requires a.Processed? ==> pending' == pending[i := Entry(records, l'.answers, i)]
    requires a.Discarded? ==> pending' == pending - {i}
    ensures Holds(records, l', f, pending')
  {
    hide IsImage, Unanswered, ReplaceBytes;
    forall j ensures j in pending' <==> Awaiting(records, l', f, j) {
      assert j in pending <==> Awaiting(records, l, f, j);
    }
    forall j | j in pending' ensures pending'[j] == Entry(records, l'.answers, j) {
      assert j != i ==> pending[j] == Entry(records, l.answers, j);
    }
  }

  /** Recording an answer leaves a state the drain loop can start from. */
  lemma AnswerDrainable(records: seq<Record>, l: Ledger, l': Ledger, s: FilterState, s': FilterState, i: nat, a: Answer)
    requires Refines(records, l, s) && Fetched(records, l, i) && i !in l.answers && i in s.pending
    requires l' == l.(answers := l.answers[i := a])
    requires s'.log == s.log && s'.next == s.next
    requires a.Processed? ==> s'.pending == s.pending[i := Entry(records, l'.answers, i)]
    requires a.Discarded? ==> s'.pending == s.pending - {i}
    ensures DrainedTo(records, l', s', FirstUnanswered(records, l, 0)) && Sound(records, s'.pending)
  {
    hide Holds, ImageSlot, Entry, ViaFilter, Copies, OutputsBelow;
    var f := FirstUnanswered(records, l, 0);
    AnswerHolds(records, l, l', f, s.pending, s'.pending, i, a);
    assert f <= i;
    OutputsAgree(records, l.answers, l'.answers, f);
    HoldsSound(records, l', f, s'.pending);
  }

  // Whole runs

  function LedgerAfter(records: seq<Record>, ops: seq<Op>): (l: Ledger)
    ensures l.cursor <= |records|
  {
    if ops == [] then NEW_LEDGER
    else LedgerStep(records, LedgerAfter(records, ops[..|ops| - 1]), ops[|ops| - 1])
  }

  /** The state after a run; every public call is allowed in every reachable state. */
  ghost function StateAfter(records: seq<Record>, ops: seq<Op>): (s: FilterState)
    ensures Refines(records, LedgerAfter(records, ops), s)
    ensures s.next <= |records| && Sound(records, s.pending)
  {
    if ops == [] then
      INITIAL_STATE
    else
      var before, op := StateAfter(records, ops[..|ops| - 1]), ops[|ops| - 1];
      StepRefines(records, LedgerAfter(records, ops[..|ops| - 1]), before, op);
      Step(records, before, op)
  }

  lemma StepRefines(records: seq<Record>, l: Ledger, s: FilterState, op: Op)
    requires Refines(records, l, s) && s.next <= |records| && Sound(records, s.pending)
    ensures Refines(records, LedgerStep(records, l, op), Step(records, s, op))
    ensures Step(records, s, op).next <= |records| && Sound(records, Step(records, s, op).pending)
  {
    match op {
      case GetNextImage => FetchRefines(records, l, s);
      case WriteProcessedImage(i, image) => WriteRefines(records, l, s, i, image);
      case DiscardRecord(i) => DiscardRefines(records, l, s, i);
    }
    RefinesSound(records, LedgerStep(records, l, op), Step(records, s, op));
  }

  /** All images of the file have been handed out. */
  predicate AllFetched(records: seq<Record>, ops: seq<Op>) {
    NextImage(records, LedgerAfter(records, ops).cursor) == |records|
  }

  /** Two states whose ledgers agree on the answers, all images handed out, have written the same image records. */
  lemma SameAnswersSameOutputs(records: seq<Record>, l1: Ledger, s1: FilterState, l2: Ledger, s2: FilterState)
    requires Refines(records, l1, s1) && Refines(records, l2, s2)
    requires NextImage(records, l1.cursor) == NextImage(records, l2.cursor) == |records|
    requires l1.answers == l2.answers
    ensures ViaFilter(s1.log, true) == ViaFilter(s2.log, true)
  {
    var f1, f2 := FirstUnanswered(records, l1, 0), FirstUnanswered(records, l2, 0);
    if f1 <= f2 {
      OutputsGap(records, l1.answers, f1, f2);
    } else {
      OutputsGap(records, l1.answers, f2, f1);
    }
  }

  /** The image records written do not depend on the order of answers, nor on when images were fetched. */
  lemma Confluence(records: seq<Record>, ops1: seq<Op>, ops2: seq<Op>)
    requires AllFetched(records, ops1) && AllFetched(records, ops2)
    requires LedgerAfter(records, ops1).answers == LedgerAfter(records, ops2).answers
    ensures ViaFilter(StateAfter(records, ops1).log, true) == ViaFilter(StateAfter(records, ops2).log, true)
  {
    SameAnswersSameOutputs(records, LedgerAfter(records, ops1), StateAfter(records, ops1),
                           LedgerAfter(records, ops2), StateAfter(records, ops2));
  }

  /** Once every image has its answer, the outputs are all the processed images, in record order. */
  lemma CompleteRunWritesEverything(records: seq<Record>, ops: seq<Op>)
    requires forall i | IsImage(records, i) :: i in LedgerAfter(records, ops).answers
    ensures ViaFilter(StateAfter(records, ops).log, true)
         == OutputsBelow(records, LedgerAfter(records, ops).answers, |records|)
    ensures StateAfter(records, ops).pending == map[]
  {
    var l := LedgerAfter(records, ops);
    var s := StateAfter(records, ops);
    assert FirstUnanswered(records, l, 0) == l.cursor;
    OutputsGap(records, l.answers, l.cursor, |records|);
    forall i ensures i !in s.pending {
      assert !Awaiting(records, l, l.cursor, i);
    }
  }

  /** The closing check on the pending map passes exactly when every image handed out was answered. */
  lemma ClosableWhenAllAnswered(records: seq<Record>, l: Ledger, s: FilterState)
    requires Refines(records, l, s)
    ensures s.pending == map[] <==> forall i | Fetched(records, l, i) :: i in l.answers
  {
    var f := FirstUnanswered(records, l, 0);
    if f < l.cursor {
      assert Awaiting(records, l, f, f);
    } else {
      assert forall i :: !Awaiting(records, l, f, i);
    }
  }

  // Conservation

  function FetchedSet(records: seq<Record>, l: Ledger): set<nat> {
    set i | 0 <= i < l.cursor && IsImage(records, i)
  }

  function DiscardedSet(l: Ledger): set<nat> {
    set i | i in l.answers && l.answers[i].Discarded?
  }

  function WrittenSet(answers: map<nat, Answer>, bound: nat): set<nat> {
    set i | i in answers && i < bound && answers[i].Processed?
  }

  lemma {:induction false} OutputsCount(records: seq<Record>, answers: map<nat, Answer>, bound: nat)
    requires forall i | i in answers :: IsImage(records, i)
    ensures |OutputsBelow(records, answers, bound)| == |WrittenSet(answers, bound)|
    decreases bound
  {
    hide IsImage, Output;
    if bound > 0 {
      var b := bound - 1;
      OutputsCount(records, answers, b);
      if b in answers && answers[b].Processed? {
        assert WrittenSet(answers, bound) == WrittenSet(answers, b) + {b};
      } else {
        assert WrittenSet(answers, bound) == WrittenSet(answers, b);
      }
    }
  }

  /** Outputs appear in strictly increasing record order, each below the bound. */
  lemma {:induction false} OutputsOrdered(records: seq<Record>, answers: map<nat, Answer>, bound: nat)
    requires forall i | i in answers :: IsImage(records, i)
    ensures forall e | e in OutputsBelow(records, answers, bound) :: e.Created? && e.index < bound
    ensures forall j, k | 0 <= j < k < |OutputsBelow(records, answers, bound)| ::
      OutputsBelow(records, answers, bound)[j].index < OutputsBelow(records, answers, bound)[k].index
    decreases bound
  {
    hide IsImage;
    if bound > 0 {
      OutputsOrdered(records, answers, bound - 1);
    }
  }

  lemma PartitionCount(whole: set<nat>, w: set<nat>, d: set<nat>, p: set<nat>)
    requires whole == w + d + p && w !! d && (w + d) !! p
    ensures |whole| == |w| + |d| + |p|
  {
    assert |w + d| == |w| + |d|;
    assert |w + d + p| == |w + d| + |p|;
  }

  /** The images handed out fall into three kinds. */
  lemma FetchedPartition(records: seq<Record>, l: Ledger, pending: map<nat, PendingRecord>)
    requires Consistent(records, l) && Holds(records, l, FirstUnanswered(records, l, 0), pending)
    ensures var w, d, p := WrittenSet(l.answers, FirstUnanswered(records, l, 0)), DiscardedSet(l), pending.Keys;
      FetchedSet(records, l) == w + d + p && w !! d && (w + d) !! p
  {
    hide Entry, ImageSlot;
    var f := FirstUnanswered(records, l, 0);
    var w, d, p := WrittenSet(l.answers, f), DiscardedSet(l), pending.Keys;
    forall i ensures i in FetchedSet(records, l) <==> i in w + d + p {
      assert i in p <==> Awaiting(records, l, f, i);
    }
    forall i | i in p ensures i !in w + d {
      assert Awaiting(records, l, f, i);
    }
  }

  /** No image is lost or duplicated: each one handed out is written, discarded or still pending. */
  lemma Conservation(records: seq<Record>, l: Ledger, s: FilterState)
    requires Refines(records, l, s)
    ensures |FetchedSet(records, l)| == |ViaFilter(s.log, true)| + |DiscardedSet(l)| + |s.pending|
  {
    hide OutputsBelow, Copies, ViaFilter, Holds, IsImage, FetchedSet, DiscardedSet, WrittenSet;
    var f := FirstUnanswered(records, l, 0);
    OutputsCount(records, l.answers, f);
    FetchedPartition(records, l, s.pending);
    PartitionCount(FetchedSet(records, l), WrittenSet(l.answers, f), DiscardedSet(l), s.pending.Keys);
  }

  /**
   Between calls the map is empty or its smallest index is unanswered, and the image records written are
   exactly the processed images below the smallest unanswered one, each with its supplied buffer.
   */
  lemma ExactPrefix(records: seq<Record>, l: Ledger, s: FilterState)
    requires Refines(records, l, s)
    ensures var f := FirstUnanswered(records, l, 0);
      && (if s.pending == map[] then f == l.cursor else MinKey(s.pending.Keys) == f && f !in l.answers)
      && ViaFilter(s.log, true) == OutputsBelow(records, l.answers, f)
      && (forall e | e in ViaFilter(s.log, true) :: e.Created? && e.index < f)
      && (forall j, k | 0 <= j < k < |ViaFilter(s.log, true)| ::
            ViaFilter(s.log, true)[j].index < ViaFilter(s.log, true)[k].index)
  {
    var f := FirstUnanswered(records, l, 0);
    OutputsOrdered(records, l.answers, f);
    hide OutputsBelow, ViaFilter, ImageSlot, Entry;
    assert f < l.cursor ==> Awaiting(records, l, f, f);
    assert forall i | i in s.pending :: Awaiting(records, l, f, i);
  }

  // Watermark

  predicate TimeSorted(records: seq<Record>) {
    forall i, j | 0 <= i <= j < |records| :: records[i].timestamp <= records[j].timestamp
  }

  /** After the writer is told a timestamp, nothing older is created and nothing older is reported. */
  predicate WatermarkSafe(log: seq<WriterEvent>) {
    forall i, j | 0 <= i < j < |log| && log[i].RecordDecoded? :: log[i].timestamp <= log[j].timestamp
  }

  /** Every timestamp reported so far is covered by record `i`. */
  predicate Covers(records: seq<Record>, log: seq<WriterEvent>, i: nat)
    requires i < |records|
  {
    forall e | e in log && e.RecordDecoded? :: e.timestamp <= records[i].timestamp
  }

  /** Records still pending or still unread are never older than a reported timestamp. */
  predicate WatermarkInvariant(records: seq<Record>, s: FilterState) {
    && WatermarkSafe(s.log)
    && (forall k | k in s.pending :: k < s.next)
    && (forall k | k in s.pending && k < |records| :: Covers(records, s.log, k))
    && (forall k | s.next <= k < |records| :: Covers(records, s.log, k))
  }

  lemma AppendKeepsSafe(log: seq<WriterEvent>, e: WriterEvent)
    requires WatermarkSafe(log)
    requires forall d | d in log && d.RecordDecoded? :: d.timestamp <= e.timestamp
    ensures WatermarkSafe(log + [e])
  {
  }

  lemma {:induction false} CopiesKeepSafe(records: seq<Record>, log: seq<WriterEvent>, from: nat, end: nat)
    requires from <= end <= |records|
    requires WatermarkSafe(log)
    requires forall k | from <= k < |records| :: Covers(records, log, k)
    ensures WatermarkSafe(log + Copies(records, from, end))
    ensures forall e | e in Copies(records, from, end) :: e.Created?
    decreases end
  {
    if from == end {
      assert log + [] == log;
    } else {
      CopiesKeepSafe(records, log, from, end - 1);
      var front := Copies(records, from, end - 1);
      if IsImage(records, end - 1) {
        assert Copies(records, from, end) == front;
      } else {
        var e := CopyEvent(records, end - 1);
        assert log + Copies(records, from, end) == (log + front) + [e];
        assert Covers(records, log, end - 1);
        AppendKeepsSafe(log + front, e);
      }
    }
  }

  /** Timestamps reported so far, and one about to be, that no outstanding record precedes. */
  predicate Reportable(records: seq<Record>, s: FilterState, t: real) {
    && (forall e | e in s.log && e.RecordDecoded? :: e.timestamp <= t)
    && (forall k | k in s.pending && k < |records| :: t <= records[k].timestamp)
    && (forall k | s.next <= k < |records| :: t <= records[k].timestamp)
  }

  lemma EmitKeepsWatermark(records: seq<Record>, s: FilterState)
    requires TimeSorted(records) && s.next <= |records| && Sound(records, s.pending)
    requires WatermarkInvariant(records, s) && !Blocked(s.pending)
    ensures WatermarkInvariant(records, EmitFirst(records, s))
    ensures Reportable(records, EmitFirst(records, s), records[MinKey(s.pending.Keys)].timestamp)
  {
    var i := MinKey(s.pending.Keys);
    var s' := EmitFirst(records, s);
    assert Covers(records, s.log, i);
    AppendKeepsSafe(s.log, EmitEvent(records, i, s.pending[i]));
    assert forall e | e in s'.log && e.RecordDecoded? :: e in s.log;
    forall k | k in s'.pending ensures Covers(records, s'.log, k) {
      assert Covers(records, s.log, k);
    }
    forall k | s'.next <= k < |records| ensures Covers(records, s'.log, k) {
      assert Covers(records, s.log, k);
    }
  }

  lemma {:induction false} DrainKeepsWatermark(records: seq<Record>, s: FilterState, last: Option<real>)
    requires TimeSorted(records) && s.next <= |records| && Sound(records, s.pending)
    requires WatermarkInvariant(records, s)
    requires last.Some? ==> Reportable(records, s, last.value)
    ensures WatermarkInvariant(records, Drain(records, s, last))
    decreases |s.pending|
  {
    hide MinKey, EmitFirst;
    if Blocked(s.pending) {
      if last.Some? {
        AppendKeepsSafe(s.log, RecordDecoded(last.value));
      }
    } else {
      EmitKeepsWatermark(records, s);
      DrainKeepsWatermark(records, EmitFirst(records, s), Some(records[MinKey(s.pending.Keys)].timestamp));
    }
  }

  lemma FetchKeepsWatermark(records: seq<Record>, s: FilterState)
    requires s.next <= |records| && WatermarkInvariant(records, s)
    ensures WatermarkInvariant(records, Fetch(records, s))
  {
    var j := NextImage(records, s.next);
    var s' := Fetch(records, s);
    CopiesKeepSafe(records, s.log, s.next, j);
    assert forall e | e in s'.log && e.RecordDecoded? :: e in s.log;
    forall k | k in s'.pending && k < |records| ensures Covers(records, s'.log, k) {
      assert Covers(records, s.log, k);
    }
    forall k | s'.next <= k < |records| ensures Covers(records, s'.log, k) {
      assert Covers(records, s.log, k);
    }
  }

  lemma StepKeepsWatermark(records: seq<Record>, s: FilterState, op: Op)
    requires TimeSorted(records) && s.next <= |records| && Sound(records, s.pending)
    requires WatermarkInvariant(records, s)
    ensures WatermarkInvariant(records, Step(records, s, op))
  {
    hide Drain;
    match op {
      case GetNextImage => FetchKeepsWatermark(records, s);
      case WriteProcessedImage(i, image) =>
        if Accepts(s, i) {
          DrainKeepsWatermark(records, s.(pending := s.pending[i := s.pending[i].SetBuffer(image)]), None);
        }
      case DiscardRecord(i) =>
        if Accepts(s, i) {
          DrainKeepsWatermark(records, s.(pending := s.pending - {i}), None);
        }
    }
  }

  /** The throttled writer is never told to advance past a record yet to be created. */
  lemma {:induction false} WatermarkNeverOvertakes(records: seq<Record>, ops: seq<Op>)
    requires TimeSorted(records)
    ensures WatermarkInvariant(records, StateAfter(records, ops))
  {
    hide Step, Refines;
    if ops != [] {
      var front, op := ops[..|ops| - 1], ops[|ops| - 1];
      WatermarkNeverOvertakes(records, front);
      var s := StateAfter(records, front);
      assert StateAfter(records, ops) == Step(records, s, op);
      StepKeepsWatermark(records, s, op);
    }
  }

  // The watermark is also tight: it is the timestamp of the last image record written

  function LastWritten(log: seq<WriterEvent>): Option<real> {
    if log == [] then None
    else
      var e := log[|log| - 1];
      if e.Created? && e.viaFilter then Some(e.timestamp) else LastWritten(log[..|log| - 1])
  }

  function LastReported(log: seq<WriterEvent>): Option<real> {
    if log == [] then None
    else
      var e := log[|log| - 1];
      if e.RecordDecoded? then Some(e.timestamp) else LastReported(log[..|log| - 1])
  }

  lemma LastAppend(log: seq<WriterEvent>, e: WriterEvent)
    ensures LastWritten(log + [e]) == if e.Created? && e.viaFilter then Some(e.timestamp) else LastWritten(log)
    ensures LastReported(log + [e]) == if e.RecordDecoded? then Some(e.timestamp) else LastReported(log)
  {
    assert (log + [e])[..|log|] == log;
  }

  lemma {:induction false} LastCopies(records: seq<Record>, log: seq<WriterEvent>, from: nat, end: nat)
    requires from <= end <= |records|
    ensures LastWritten(log + Copies(records, from, end)) == LastWritten(log)
    ensures LastReported(log + Copies(records, from, end)) == LastReported(log)
    decreases end
  {
    if from == end {
      assert log + [] == log;
    } else {
      LastCopies(records, log, from, end - 1);
      var front := Copies(records, from, end - 1);
      if IsImage(records, end - 1) {
        assert Copies(records, from, end) == front;
      } else {
        assert log + Copies(records, from, end) == (log + front) + [CopyEvent(records, end - 1)];
        LastAppend(log + front, CopyEvent(records, end - 1));
      }
    }
  }

  lemma {:induction false} DrainReportsLast(records: seq<Record>, s: FilterState, last: Option<real>)
    requires Sound(records, s.pending)
    requires LastWritten(s.log) == if last.Some? then last else LastReported(s.log)
    ensures LastReported(Drain(records, s, last).log) == LastWritten(Drain(records, s, last).log)
    decreases |s.pending|
  {
    hide MinKey, LastWritten, LastReported;
    if Blocked(s.pending) {
      if last.Some? {
        LastAppend(s.log, RecordDecoded(last.value));
      }
    } else {
      var i := MinKey(s.pending.Keys);
      LastAppend(s.log, EmitEvent(records, i, s.pending[i]));
      DrainReportsLast(records, EmitFirst(records, s), Some(records[i].timestamp));
    }
  }

  /** Between calls, the last timestamp reported is that of the last image record written. */
  lemma {:induction false} WatermarkIsTight(records: seq<Record>, ops: seq<Op>)
    ensures LastReported(StateAfter(records, ops).log) == LastWritten(StateAfter(records, ops).log)
  {
    hide Drain, Refines;
    if ops != [] {
      var front, op := ops[..|ops| - 1], ops[|ops| - 1];
      WatermarkIsTight(records, front);
      var s := StateAfter(records, front);
      assert StateAfter(records, ops) == Step(records, s, op);
      match op {
        case GetNextImage => LastCopies(records, s.log, s.next, NextImage(records, s.next));
        case WriteProcessedImage(i, image) =>
          if Accepts(s, i) {
            DrainReportsLast(records, s.(pending := s.pending[i := s.pending[i].SetBuffer(image)]), None);
          }
        case DiscardRecord(i) =>
          if Accepts(s, i) {
            DrainReportsLast(records, s.(pending := s.pending - {i}), None);
          }
      }
    }
  }
}
