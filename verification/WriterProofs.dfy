/** Runs of the writer: one file, sorted by timestamp, with every record due in it exactly once. */
module WriterProofs {
  import opened Prelude
  import opened WriterModel

  lemma {:induction false} UpToCounts(records: seq<Record>, t: real, r: Record)
    ensures multiset(UpTo(records, t))[r] == if r.timestamp <= t then multiset(records)[r] else 0
    ensures multiset(Beyond(records, t))[r] == if r.timestamp <= t then 0 else multiset(records)[r]
  {
    if records != [] {
      UpToCounts(records[1..], t, r);
      assert records == [records[0]] + records[1..];
    }
  }

  /** A promised batch can always be produced. */
  lemma {:induction false} BatchExists(queue: seq<Record>, limit: real) returns (batch: seq<Record>)
    ensures NativeBatch(queue, limit, batch)
  {
    batch := [];
    if queue != [] {
      batch := BatchExists(queue[1..], limit);
      if queue[0].timestamp <= limit {
        batch := Inserted(batch, queue[0]);
      }
    }
  }

  lemma {:induction false} Inserted(sorted: seq<Record>, r: Record) returns (result: seq<Record>)
    requires Sorted(sorted)
    ensures Sorted(result) && multiset(result) == multiset(sorted) + multiset{r}
  {
    if sorted == [] || r.timestamp <= sorted[0].timestamp {
      result := [r] + sorted;
    } else {
      var first, tail := sorted[0], sorted[1..];
      assert sorted == [first] + tail;
      var rest := Inserted(tail, r);
      result := [first] + rest;
      forall j | 0 <= j < |rest| ensures first.timestamp <= rest[j].timestamp {
        assert rest[j] in multiset(rest);
        assert rest[j] == r || rest[j] in tail;
      }
      PrependSorted(first, rest);
      assert multiset(result) == multiset{first} + multiset(rest);
    }
  }

  lemma PrependSorted(first: Record, rest: seq<Record>)
    requires Sorted(rest) && forall j | 0 <= j < |rest| :: first.timestamp <= rest[j].timestamp
    ensures Sorted([first] + rest)
  {
  }

  // What every run keeps

  predicate AllWithin(records: seq<Record>, low: Option<real>, high: Option<real>) {
    forall i | 0 <= i < |records| ::
      && (low.Some? ==> low.value <= records[i].timestamp)
      && (high.Some? ==> records[i].timestamp <= high.value)
  }

  /** Once the native file exists, the file ends at the last flush and the queue starts there. */
  predicate FlushInv(s: WriterState) {
    && (s.native.header.Some? ==> s.fileCreated)
    && (s.native.header.None? ==> s.native.file == [])
    && (!s.fileCreated ==> s.last.None?)
    && Sorted(s.native.file)
    && (s.native.file != [] ==> s.last.Some?)
    && AllWithin(s.native.file, None, s.last)
    && (s.native.header.Some? ==> AllWithin(s.native.queue, s.last, None))
    && multiset(s.native.file) + multiset(s.native.queue) == multiset(s.accepted)
  }

  lemma BatchMember(queue: seq<Record>, limit: real, batch: seq<Record>, r: Record)
    requires multiset(batch) == multiset(UpTo(queue, limit)) && r in batch
    ensures r in queue && r.timestamp <= limit
  {
    UpToCounts(queue, limit, r);
    assert r in multiset(batch);
    assert r in multiset(queue);
  }

  lemma BeyondMember(queue: seq<Record>, limit: real, r: Record)
    requires r in Beyond(queue, limit)
    ensures limit < r.timestamp
  {
    UpToCounts(queue, limit, r);
    assert r in multiset(Beyond(queue, limit));
  }

  lemma BatchSplits(queue: seq<Record>, limit: real, batch: seq<Record>)
    requires multiset(batch) == multiset(UpTo(queue, limit))
    ensures multiset(batch) + multiset(Beyond(queue, limit)) == multiset(queue)
  {
    forall r ensures (multiset(batch) + multiset(Beyond(queue, limit)))[r] == multiset(queue)[r] {
      UpToCounts(queue, limit, r);
    }
  }

  lemma BatchBetween(queue: seq<Record>, low: Option<real>, limit: real, batch: seq<Record>)
    requires NativeBatch(queue, limit, batch) && AllWithin(queue, low, None)
    ensures AllWithin(batch, low, Some(limit))
    ensures AllWithin(Beyond(queue, limit), Some(limit), None)
  {
    hide UpTo, Beyond, Sorted;
    forall i | 0 <= i < |batch|
      ensures (low.Some? ==> low.value <= batch[i].timestamp) && batch[i].timestamp <= limit
    {
      BatchMember(queue, limit, batch, batch[i]);
    }
    forall i | 0 <= i < |Beyond(queue, limit)| ensures limit <= Beyond(queue, limit)[i].timestamp {
      BeyondMember(queue, limit, Beyond(queue, limit)[i]);
    }
  }

  lemma WriteKeeps(s: WriterState, n: NativeWriter, limit: real, batch: seq<Record>)
    requires FlushInv(s) && n.queue == s.native.queue && n.file == s.native.file && n.header.Some?
    requires s.native.header.None? ==> s.last.None?
    requires InOrder(s.last, limit) && NativeBatch(s.native.queue, limit, batch)
    ensures FlushInv(s.(fileCreated := true, last := Some(limit), native := NativeWrite(n, limit, batch)))
  {
    hide UpTo, Beyond;
    BatchBetween(s.native.queue, if s.native.header.Some? then s.last else None, limit, batch);
    BatchSplits(s.native.queue, limit, batch);
    var file := s.native.file + batch;
    forall i, j | 0 <= i <= j < |file| ensures file[i].timestamp <= file[j].timestamp {
      if i < |s.native.file| <= j {
        assert s.last.Some? && s.native.file[i].timestamp <= s.last.value;
      }
    }
  }

  lemma CreateKeeps(s: WriterState, stream: nat, t: RecordType, timestamp: real, argumentsMatch: bool)
    requires FlushInv(s)
    ensures FlushInv(Create(s, stream, t, timestamp, argumentsMatch).0)
  {
    var r := Record(|s.accepted|, stream, t, timestamp);
    assert multiset(s.native.file) + multiset(s.native.queue + [r]) == multiset(s.accepted + [r]);
  }

  lemma FlushKeeps(s: WriterState, limit: real, createStatus: int, batch: seq<Record>)
    requires FlushInv(s) && NativeBatch(s.native.queue, limit, batch)
    ensures FlushInv(FlushRecords(s, limit, createStatus, batch).0)
  {
    hide Sorted, NativeBatch, UpTo, Beyond;
    if FlushRecords(s, limit, createStatus, batch).1 == Done {
      var n := if s.fileCreated then s.native else s.native.(header := Some(s.tags));
      if n.header.Some? {
        WriteKeeps(s, n, limit, batch);
      }
    }
  }

  lemma StepKeeps(s: WriterState, op: Op)
    requires FlushInv(s) && Legal(s, op)
    ensures FlushInv(Step(s, op).0)
  {
    hide Create, FlushRecords, NativeBatch, Sorted;
    match op {
      case CreateRecord(stream, t, timestamp, ok) => CreateKeeps(s, stream, t, timestamp, ok);
      case Flush(limit, status, batch) => FlushKeeps(s, limit, status, batch);
      case SetTag(name, value) =>
    }
  }

  lemma RunExtends(ops: seq<Op>, op: Op)
    requires LegalRun(ops) && Legal(StateAfter(ops), op)
    ensures LegalRun(ops + [op]) && StateAfter(ops + [op]) == Step(StateAfter(ops), op).0
  {
    hide Legal, Step;
    assert (ops + [op])[..|ops|] == ops;
  }

  lemma {:induction false} RunKeeps(ops: seq<Op>)
    requires LegalRun(ops)
    ensures FlushInv(StateAfter(ops))
  {
    if ops != [] {
      RunKeeps(ops[..|ops| - 1]);
      StepKeeps(StateAfter(ops[..|ops| - 1]), ops[|ops| - 1]);
    }
  }

  /** However many flushes and streams, the file as a whole is in timestamp order. */
  lemma FileSorted(ops: seq<Op>)
    requires LegalRun(ops)
    ensures Sorted(StateAfter(ops).native.file)
  {
    RunKeeps(ops);
  }

  /** Accepted records carry distinct serial numbers. */
  lemma {:induction false} AcceptedNumbered(ops: seq<Op>)
    requires LegalRun(ops)
    ensures forall k | 0 <= k < |StateAfter(ops).accepted| :: StateAfter(ops).accepted[k].serial == k
  {
    if ops != [] {
      AcceptedNumbered(ops[..|ops| - 1]);
    }
  }

  /** Every accepted record is either in the file or still queued, and in one place only, once. */
  lemma NothingLostOrRepeated(ops: seq<Op>)
    requires LegalRun(ops)
    ensures var s := StateAfter(ops);
      && multiset(s.native.file) + multiset(s.native.queue) == multiset(s.accepted)
      && forall r | r in s.accepted :: multiset(s.native.file)[r] + multiset(s.native.queue)[r] == 1
  {
    RunKeeps(ops);
    AcceptedNumbered(ops);
    var s := StateAfter(ops);
    forall r | r in s.accepted ensures multiset(s.accepted)[r] == 1 {
      CountsOnce(s.accepted, r);
    }
  }

  lemma {:induction false} CountsOnce(records: seq<Record>, r: Record)
    requires forall k | 0 <= k < |records| :: records[k].serial == k
    requires r in records
    ensures multiset(records)[r] == 1
  {
    var front := records[..|records| - 1];
    assert records == front + [records[|records| - 1]];
    if r == records[|records| - 1] {
      assert r !in front;
      assert r !in multiset(front);
    } else {
      CountsOnce(front, r);
    }
  }

  lemma HeaderStays(s: WriterState, op: Op)
    ensures !(op.Flush? && Step(s, op).1 == Done) ==>
      && Step(s, op).0.native.header == s.native.header && Step(s, op).0.native.file == s.native.file
      && Step(s, op).0.last == s.last
  {
  }

  /**
   With the native file created, the file holds exactly the records accepted before the last flush with
   timestamps up to it.
   */
  lemma {:induction false} FlushedExactly(ops: seq<Op>)
    requires LegalRun(ops) && StateAfter(ops).native.header.Some?
    ensures var s := StateAfter(ops);
      && s.last.Some?
      && multiset(s.native.file) == multiset(UpTo(AcceptedBeforeLastFlush(ops), s.last.value))
  {
    hide NativeBatch, UpTo, FlushInv, Create;
    var front, op := ops[..|ops| - 1], ops[|ops| - 1];
    var before := StateAfter(front);
    RunKeeps(front);
    HeaderStays(before, op);
    if op.Flush? && Step(before, op).1 == Done {
      FlushTakesAllDue(before, op.limit, op.createStatus, op.batch);
    } else {
      FlushedExactly(front);
    }
  }

  /** Record by record: what is in the file or due from the queue is what was accepted up to the limit. */
  lemma DueCount(file: seq<Record>, queue: seq<Record>, accepted: seq<Record>, batch: seq<Record>, limit: real,
                 r: Record)
    requires multiset(file) + multiset(queue) == multiset(accepted)
    requires multiset(batch) == multiset(UpTo(queue, limit))
    requires r in file ==> r.timestamp <= limit
    ensures multiset(file + batch)[r] == multiset(UpTo(accepted, limit))[r]
  {
    hide UpTo;
    UpToCounts(accepted, limit, r);
    UpToCounts(queue, limit, r);
    assert multiset(file + batch) == multiset(file) + multiset(batch);
    assert (r in file) == (r in multiset(file));
    assert multiset(accepted)[r] == multiset(file)[r] + multiset(queue)[r];
  }

  /** A flush that goes through leaves in the file exactly what was accepted up to its timestamp. */
  lemma FlushTakesAllDue(s: WriterState, limit: real, createStatus: int, batch: seq<Record>)
    requires FlushInv(s) && NativeBatch(s.native.queue, limit, batch)
    requires FlushRecords(s, limit, createStatus, batch).1 == Done
    requires FlushRecords(s, limit, createStatus, batch).0.native.header.Some?
    ensures multiset(FlushRecords(s, limit, createStatus, batch).0.native.file) == multiset(UpTo(s.accepted, limit))
  {
    hide Sorted, UpTo, Beyond, Create;
    var file := s.native.file;
    forall r ensures multiset(file + batch)[r] == multiset(UpTo(s.accepted, limit))[r] {
      DueCount(file, s.native.queue, s.accepted, batch, limit, r);
    }
    assert multiset(file + batch) == multiset(UpTo(s.accepted, limit));
  }

  /** The tags of the file are the tags set: none is accepted once it is too late. */
  lemma {:induction false} HeaderHasAllTags(ops: seq<Op>)
    requires LegalRun(ops)
    ensures var s := StateAfter(ops); s.native.header.Some? ==> s.native.header.value == s.tags
    ensures StateAfter(ops).native.header.Some? ==> StateAfter(ops).fileCreated
  {
    if ops != [] {
      HeaderHasAllTags(ops[..|ops| - 1]);
    }
  }

  /** After a failed creation no retry creates the file: later flushes are let through and write nothing. */
  lemma {:induction false} FailedCreationIsPermanent(ops: seq<Op>, more: seq<Op>)
    requires LegalRun(ops + more)
    requires LegalRun(ops) && StateAfter(ops).fileCreated && StateAfter(ops).native.header.None?
    ensures StateAfter(ops + more).fileCreated && StateAfter(ops + more).native.header.None?
    ensures StateAfter(ops + more).native.file == []
    decreases |more|
  {
    RunKeeps(ops + more);
    if more == [] {
      assert ops + more == ops;
    } else {
      assert (ops + more)[..|ops + more| - 1] == ops + more[..|more| - 1];
      FailedCreationIsPermanent(ops, more[..|more| - 1]);
    }
  }

  // When a flush that raises nothing has written what was due

  predicate Flushed(ops: seq<Op>) {
    exists k :: 0 <= k < |ops| && ops[k].Flush?
  }

  /** The first flush asked for, which is never refused as out of order, created the file. */
  predicate FirstFlushCreated(ops: seq<Op>) {
    exists k :: 0 <= k < |ops| && ops[k].Flush? && ops[k].createStatus == 0 && !Flushed(ops[..k])
  }

  lemma FlushedOneMore(front: seq<Op>, op: Op)
    ensures Flushed(front + [op]) <==> Flushed(front) || op.Flush?
    ensures FirstFlushCreated(front + [op]) <==>
      FirstFlushCreated(front) || (!Flushed(front) && op.Flush? && op.createStatus == 0)
  {
    var ops := front + [op];
    assert ops[|front|] == op && ops[..|front|] == front;
    assert forall k | 0 <= k < |front| :: ops[k] == front[k] && ops[..k] == front[..k];
  }

  /** The output file exists exactly when the run's very first flush created it. */
  lemma {:induction false} CreatedExactly(ops: seq<Op>)
    requires LegalRun(ops)
    ensures StateAfter(ops).fileCreated <==> Flushed(ops)
    ensures StateAfter(ops).native.header.Some? <==> FirstFlushCreated(ops)
  {
    hide Flushed, FirstFlushCreated, FlushInv, Legal, Create;
    if ops == [] {
      NoneFlushed();
    } else {
      var front, op := ops[..|ops| - 1], ops[|ops| - 1];
      assert ops == front + [op];
      CreatedExactly(front);
      FlushedOneMore(front, op);
      RunKeeps(front);
      CreationStep(StateAfter(front), op);
    }
  }

  lemma NoneFlushed()
    ensures !Flushed([]) && !FirstFlushCreated([])
  {
  }

  lemma CreationStep(s: WriterState, op: Op)
    requires FlushInv(s)
    ensures Step(s, op).0.fileCreated <==> s.fileCreated || op.Flush?
    ensures Step(s, op).0.native.header.Some? <==>
      s.native.header.Some? || (!s.fileCreated && op.Flush? && op.createStatus == 0)
  {
    hide NativeWrite, Sorted, AllWithin;
    WriteKeepsHeader(s, op);
  }

  lemma WriteKeepsHeader(s: WriterState, op: Op)
    ensures op.Flush? ==> forall n :: NativeWrite(n, op.limit, op.batch).header == n.header
  {
  }

  /**
   A flush that raises nothing has left in the file exactly what was accepted up to its time if and only if
   the run's first flush created the file, or nothing was due at all.
   */
  lemma FlushCompleteIff(ops: seq<Op>)
    requires LegalRun(ops) && ops != [] && ops[|ops| - 1].Flush?
    ensures var s, op := StateAfter(ops[..|ops| - 1]), ops[|ops| - 1];
      Step(s, op).1 == Done ==>
        (multiset(StateAfter(ops).native.file) == multiset(UpTo(StateAfter(ops).accepted, op.limit)) <==>
         FirstFlushCreated(ops) || UpTo(StateAfter(ops).accepted, op.limit) == [])
  {
    hide FirstFlushCreated, Flushed, UpTo, Beyond, Sorted, FlushInv, NativeBatch, Create;
    var s, op := StateAfter(ops[..|ops| - 1]), ops[|ops| - 1];
    RunKeeps(ops[..|ops| - 1]);
    CreatedExactly(ops);
    if Step(s, op).1 == Done {
      if StateAfter(ops).native.header.Some? {
        FlushTakesAllDue(s, op.limit, op.createStatus, op.batch);
      } else {
        RunKeeps(ops);
        NoHeaderNoFile(StateAfter(ops));
        EmptyMultiset(UpTo(StateAfter(ops).accepted, op.limit));
      }
    }
  }

  lemma NoHeaderNoFile(s: WriterState)
    requires FlushInv(s) && s.native.header.None?
    ensures s.native.file == []
  {
  }

  lemma EmptyMultiset(records: seq<Record>)
    ensures multiset(records) == multiset{} <==> records == []
  {
    if records != [] {
      assert records[0] in multiset(records);
    }
  }

  /**
   Such a run: a record is accepted, creating the file fails, and the next flush raises nothing although
   the record it was due to write is not in the file.
   */
  lemma FlushLosesRecord()
    ensures
      var r := Record(0, 0, STATE, 0.0);
      var ops := [Op.CreateRecord(0, STATE, 0.0, true), Flush(1.0, 1, [r]), Flush(2.0, 0, [r])];
      && LegalRun(ops[..1]) && LegalRun(ops[..2]) && LegalRun(ops)
      && Step(StateAfter(ops[..1]), ops[1]).1 == CreateFailed
      && Step(StateAfter(ops[..2]), ops[2]).1 == Done
      && StateAfter(ops).accepted == [r] == UpTo([r], 2.0)
      && StateAfter(ops).native.file == []
  {
    var r := Record(0, 0, STATE, 0.0);
    var ops := [Op.CreateRecord(0, STATE, 0.0, true), Flush(1.0, 1, [r]), Flush(2.0, 0, [r])];
    assert ops[..0] == [] && ops[..1][..0] == [] && ops[..2][..1] == ops[..1] && ops[..3] == ops;
    assert LegalRun(ops[..0]);
    assert LegalRun(ops[..1]);
    var s := StateAfter(ops[..1]);
    assert s == Step(StateAfter(ops[..0]), ops[0]).0;
    assert s.native.queue == [r];
    assert UpTo([r], 1.0) == [r] && UpTo([r], 2.0) == [r];
    assert LegalRun(ops[..2]);
  }

  // What is let through, on the caller's own history alone

  /** The times of the flushes that go through: not before an earlier one, and not failing to create the file. */
  function FlushTimes(ops: seq<Op>): seq<real> {
    if ops == [] then []
    else
      var front, op := ops[..|ops| - 1], ops[|ops| - 1];
      var before := FlushTimes(front);
      if op.Flush? && (forall f | f in before :: f <= op.limit) && (Flushed(front) || op.createStatus == 0)
      then before + [op.limit]
      else before
  }

  lemma {:induction false} LastIsLatest(ops: seq<Op>)
    requires LegalRun(ops)
    ensures StateAfter(ops).last.None? <==> FlushTimes(ops) == []
    ensures StateAfter(ops).last.Some? ==> FlushTimes(ops)[|FlushTimes(ops)| - 1] == StateAfter(ops).last.value
    ensures forall f | f in FlushTimes(ops) :: f <= StateAfter(ops).last.value
  {
    hide Legal, NativeWrite, Create, Flushed;
    if ops != [] {
      var front, op := ops[..|ops| - 1], ops[|ops| - 1];
      LastIsLatest(front);
      LatestDecides(StateAfter(front).last, FlushTimes(front), if op.Flush? then op.limit else 0.0);
      CreatedExactly(front);
      HeaderStays(StateAfter(front), op);
    }
  }

  lemma LatestDecides(last: Option<real>, times: seq<real>, t: real)
    requires last.None? <==> times == []
    requires last.Some? ==> times[|times| - 1] == last.value
    requires forall f | f in times :: f <= last.value
    ensures InOrder(last, t) <==> forall f | f in times :: f <= t
  {
    if last.Some? {
      assert last.value in times;
    }
  }

  /** The gate lets through exactly the timestamps not before any flush that went through. */
  lemma GateIsHistory(ops: seq<Op>, timestamp: real)
    requires LegalRun(ops)
    ensures InOrder(StateAfter(ops).last, timestamp) <==> forall f | f in FlushTimes(ops) :: f <= timestamp
  {
    hide LegalRun, StateAfter, FlushTimes, InOrder;
    LastIsLatest(ops);
    LatestDecides(StateAfter(ops).last, FlushTimes(ops), timestamp);
  }

  /** Some flush that went through is later. */
  predicate TooEarly(ops: seq<Op>, timestamp: real) {
    exists f :: f in FlushTimes(ops) && f > timestamp
  }

  lemma GateRefuses(ops: seq<Op>, timestamp: real)
    requires LegalRun(ops)
    ensures TooEarly(ops, timestamp) <==> !InOrder(StateAfter(ops).last, timestamp)
  {
    hide LegalRun, StateAfter, FlushTimes, InOrder;
    GateIsHistory(ops, timestamp);
    if f :| f in FlushTimes(ops) && !(f <= timestamp) {
      assert f in FlushTimes(ops) && f > timestamp;
    }
  }

  /** Exactly when a flush is refused, fails, or goes through. */
  lemma FlushStatusIff(ops: seq<Op>, limit: real, createStatus: int, batch: seq<Record>)
    requires LegalRun(ops)
    ensures var status := Step(StateAfter(ops), Flush(limit, createStatus, batch)).1;
      && (status == OrderError <==> TooEarly(ops, limit))
      && (status == CreateFailed <==> !TooEarly(ops, limit) && !Flushed(ops) && createStatus != 0)
      && (status == Done <==> !TooEarly(ops, limit) && (Flushed(ops) || createStatus == 0))
  {
    hide LegalRun, StateAfter, TooEarly, Flushed, NativeWrite, InOrder;
    GateRefuses(ops, limit);
    CreatedExactly(ops);
  }

  // What is accepted, on the caller's own history alone

  /** The records accepted: not too early, data only once their stream has a configuration, arguments in order. */
  function AcceptedFrom(ops: seq<Op>): seq<Record> {
    if ops == [] then []
    else
      var front, op := ops[..|ops| - 1], ops[|ops| - 1];
      var before := AcceptedFrom(front);
      if op.CreateRecord? && !TooEarly(front, op.timestamp) && op.argumentsMatch
         && (op.recordType == DATA ==> HasConfiguration(before, op.stream))
      then before + [Record(|before|, op.stream, op.recordType, op.timestamp)]
      else before
  }

  /** Exactly when creating a record is refused, and for which reason; the checks come in this order. */
  lemma CreateStatusIff(ops: seq<Op>, stream: nat, t: RecordType, timestamp: real, argumentsMatch: bool)
    requires LegalRun(ops)
    ensures
      var s := StateAfter(ops);
      var (s', status) := Step(s, Op.CreateRecord(stream, t, timestamp, argumentsMatch));
      var unconfigured := t == DATA && !HasConfiguration(s.accepted, stream);
      && (status == OrderError <==> TooEarly(ops, timestamp))
      && (status == NotConfigured <==> !TooEarly(ops, timestamp) && unconfigured)
      && (status == BadArguments <==> !TooEarly(ops, timestamp) && !unconfigured && !argumentsMatch)
      && (status == Done <==> !TooEarly(ops, timestamp) && !unconfigured && argumentsMatch)
      && (status != Done ==> s' == s)
      && (status == Done ==>
            var r := Record(|s.accepted|, stream, t, timestamp);
            s'.accepted == s.accepted + [r] && s'.native.queue == s.native.queue + [r]
            && s'.native.file == s.native.file && s'.native.header == s.native.header)
  {
    hide LegalRun, StateAfter, TooEarly, HasConfiguration, InOrder;
    GateRefuses(ops, timestamp);
    ConfiguredExactly(ops, stream);
  }

  lemma {:induction false} AcceptedIs(ops: seq<Op>)
    requires LegalRun(ops)
    ensures StateAfter(ops).accepted == AcceptedFrom(ops)
  {
    hide Legal, TooEarly, HasConfiguration, Step;
    if ops != [] {
      var front, op := ops[..|ops| - 1], ops[|ops| - 1];
      AcceptedIs(front);
      if op.CreateRecord? {
        CreateStatusIff(front, op.stream, op.recordType, op.timestamp, op.argumentsMatch);
      } else {
        OnlyCreateAccepts(StateAfter(front), op);
      }
    }
  }

  lemma OnlyCreateAccepts(s: WriterState, op: Op)
    requires !op.CreateRecord?
    ensures Step(s, op).0.accepted == s.accepted
  {
    hide NativeWrite;
  }

  /** The tags set before the first flush, the last value for each name. */
  function TagsFrom(ops: seq<Op>): map<string, string> {
    if ops == [] then map[]
    else
      var front, op := ops[..|ops| - 1], ops[|ops| - 1];
      if op.SetTag? && !Flushed(front) then TagsFrom(front)[op.name := op.value] else TagsFrom(front)
  }

  /** The writer's tags, and those of the file once created, are the tags set before the first flush. */
  lemma {:induction false} TagsAre(ops: seq<Op>)
    requires LegalRun(ops)
    ensures StateAfter(ops).tags == TagsFrom(ops)
    ensures StateAfter(ops).native.header.Some? ==> StateAfter(ops).native.header.value == TagsFrom(ops)
  {
    hide Legal, Flushed, Create, FlushRecords;
    HeaderHasAllTags(ops);
    if ops != [] {
      var front, op := ops[..|ops| - 1], ops[|ops| - 1];
      TagsAre(front);
      CreatedExactly(front);
      if !op.SetTag? {
        OnlyTagsTag(StateAfter(front), op);
      }
    }
  }

  lemma OnlyTagsTag(s: WriterState, op: Op)
    requires !op.SetTag?
    ensures Step(s, op).0.tags == s.tags
  {
    hide NativeWrite;
  }

  /** Setting a tag is refused exactly after the first flush was asked for. */
  lemma TagStatusIff(ops: seq<Op>, name: string, value: string)
    requires LegalRun(ops)
    ensures var (s', status) := Step(StateAfter(ops), Op.SetTag(name, value));
      && (status == TooLate <==> Flushed(ops)) && (status == Done <==> !Flushed(ops))
      && (status == TooLate ==> s' == StateAfter(ops))
      && (status == Done ==> s' == StateAfter(ops).(tags := StateAfter(ops).tags[name := value]))
  {
    hide LegalRun, StateAfter, Flushed;
    CreatedExactly(ops);
  }

  predicate ConfiguredBefore(accepted: seq<Record>, k: nat)
    requires k < |accepted|
  {
    exists j :: 0 <= j < k && accepted[j].recordType == CONFIGURATION && accepted[j].stream == accepted[k].stream
  }

  predicate HasConfiguration(accepted: seq<Record>, stream: nat) {
    exists j :: 0 <= j < |accepted| && accepted[j].recordType == CONFIGURATION && accepted[j].stream == stream
  }

  lemma HasConfigurationOneMore(accepted: seq<Record>, r: Record, stream: nat)
    ensures HasConfiguration(accepted + [r], stream) <==>
      HasConfiguration(accepted, stream) || (r.recordType == CONFIGURATION && r.stream == stream)
  {
    var more := accepted + [r];
    assert more[|accepted|] == r;
    assert forall j | 0 <= j < |accepted| :: more[j] == accepted[j];
  }

  predicate Accepts(s: WriterState, s': WriterState, r: Record) {
    && s'.accepted == s.accepted + [r]
    && s'.configured == if r.recordType == CONFIGURATION then s.configured + {r.stream} else s.configured
  }

  /** A step either accepts nothing, or one record; a configuration record is what configures its stream. */
  lemma AcceptStep(s: WriterState, op: Op)
    ensures var s' := Step(s, op).0;
      (s'.accepted == s.accepted && s'.configured == s.configured) || exists r :: Accepts(s, s', r)
  {
    hide NativeWrite;
    var s' := Step(s, op).0;
    if op.CreateRecord? && Step(s, op).1 == Done {
      var r := Record(|s.accepted|, op.stream, op.recordType, op.timestamp);
      assert Accepts(s, s', r);
    }
  }

  /** Streams count as configured exactly when one of their configuration records was accepted. */
  lemma {:induction false} ConfiguredExactly(ops: seq<Op>, stream: nat)
    requires LegalRun(ops)
    ensures stream in StateAfter(ops).configured <==> HasConfiguration(StateAfter(ops).accepted, stream)
  {
    hide HasConfiguration, Step, Legal;
    if ops == [] {
      NoConfiguration(stream);
    } else {
      var s, s' := StateAfter(ops[..|ops| - 1]), StateAfter(ops);
      ConfiguredExactly(ops[..|ops| - 1], stream);
      AcceptStep(s, ops[|ops| - 1]);
      if !(s'.accepted == s.accepted && s'.configured == s.configured) {
        var r :| Accepts(s, s', r);
        HasConfigurationOneMore(s.accepted, r, stream);
      }
    }
  }

  lemma NoConfiguration(stream: nat)
    ensures !HasConfiguration([], stream)
  {
  }

  /** Every data record in the file or the queue was preceded by a configuration record of its stream. */
  lemma {:induction false} DataFollowsConfiguration(ops: seq<Op>, k: nat)
    requires LegalRun(ops) && k < |StateAfter(ops).accepted| && StateAfter(ops).accepted[k].recordType == DATA
    ensures ConfiguredBefore(StateAfter(ops).accepted, k)
  {
    var front := ops[..|ops| - 1];
    var s, s' := StateAfter(front), StateAfter(ops);
    assert forall j | 0 <= j < |s.accepted| :: s'.accepted[j] == s.accepted[j];
    if k < |s.accepted| {
      DataFollowsConfiguration(front, k);
      var j :| 0 <= j < k && s.accepted[j].recordType == CONFIGURATION && s.accepted[j].stream == s.accepted[k].stream;
      assert s'.accepted[j] == s.accepted[j];
    } else {
      var stream := s'.accepted[k].stream;
      ConfiguredExactly(front, stream);
      var j :| 0 <= j < |s.accepted| && s.accepted[j].recordType == CONFIGURATION && s.accepted[j].stream == stream;
      assert s'.accepted[j] == s.accepted[j];
    }
  }
}
