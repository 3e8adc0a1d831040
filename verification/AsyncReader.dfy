/**
 Asynchronous reads: futures sent to one worker thread that shares the reader with the main thread.
 The interpreter lock makes each read atomic, so an execution is an interleaving of the steps below.
 The queue is first-in first-out; automatic configuration reading is on.
 */
module AsyncReader {
  import opened Prelude
  import opened ReaderModel
  import opened ReaderProofs
  import opened ReaderContents
  import opened Cursor
  import VRSReader

  /** The `id`-th job sent, asking for record `index`. */
  datatype Job = Job(id: nat, index: nat)

  /** A future resolved with a record. */
  datatype Resolution = Resolution(job: Job, record: PyRecord)

  datatype Setup = Setup(index: seq<RecordInfo>, streams: set<StreamId>)

  /** When a job was performed: after how many reads, on either thread, and under which trailing limits. */
  datatype Context = Context(readsBefore: nat, trailing: Trailing)

  /** `contexts[k]` belongs to `resolved[k]`. */
  datatype AsyncState = AsyncState(
    reader: ReaderState, trailing: Trailing, enabled: set<StreamId>, trace: seq<Past>, sent: seq<Job>,
    queue: seq<Job>, inHand: Option<Job>, shouldEnd: bool, resolved: seq<Resolution>, contexts: seq<Context>)

  /** The last three are calls the reader inherits, which Python's asynchronous reader does not expose. */
  datatype Event =
    | Await(index: nat)            // the main thread awaits a record
    | Take                         // the worker gets a job from the queue
    | Perform                      // the worker, holding the lock, performs its job, or drops it if told to end
    | Cleanup                      // the main thread tells the worker to end
    | SkipTrailing(typeId: nat, recordType: Option<RecordType>, first: nat)   // the main thread changes a limit
    | Enable(stream: StreamId)     // the main thread enables a stream
    | MainRead(index: nat)         // the main thread reads a record by index
    | MainNext(request: Request)   // the main thread reads the next record
    | Seek(position: nat)          // the main thread moves the cursor

  function Initial(c: Setup): AsyncState {
    AsyncState(Opened(c.streams, true), map[], {}, [], [], [], None, false, [], [])
  }

  ghost predicate ReaderOk(c: Setup, s: AsyncState) {
    && FileOk(c.index, c.streams) && InFile(c.index, s.trace)
    && Inv(c.index, s.reader) && InRange(c.index, s.reader) && s.reader.next <= |c.index|
    && Remembers(c.index, c.streams, s.trace, s.reader)
  }

  /** One read of the shared reader, on whichever thread. */
  function SharedRead(c: Setup, s: AsyncState, i: nat): (AsyncState, PyRecord)
    requires i < |c.index| && InRange(c.index, s.reader)
  {
    var (reader, record) := ReadAt(c.index, s.trailing, true, s.reader, i);
    (s.(reader := reader, trace := s.trace + [Past(i, s.trailing)]), record)
  }

  function Step(c: Setup, s: AsyncState, e: Event): AsyncState
    requires InRange(c.index, s.reader) && s.reader.next <= |c.index|
    requires s.inHand.Some? ==> s.inHand.value.index < |c.index|
  {
    match e
    case Await(i) =>
      if i >= |c.index| then s
      else
        var job := Job(|s.sent|, i);
        s.(sent := s.sent + [job], queue := s.queue + [job])
    case Take =>
      if s.shouldEnd || s.inHand.Some? || s.queue == [] then s
      else s.(inHand := Some(s.queue[0]), queue := s.queue[1..])
    case Perform =>
      if s.inHand.None? then s
      else if s.shouldEnd then s.(inHand := None)
      else
        var job := s.inHand.value;
        var (s', record) := SharedRead(c, s, job.index);
        s'.(inHand := None, resolved := s.resolved + [Resolution(job, record)],
            contexts := s.contexts + [Context(|s.trace|, s.trailing)])
    case Cleanup => s.(shouldEnd := true)
    case SkipTrailing(typeId, recordType, first) => s.(trailing := SkipFrom(s.trailing, typeId, recordType, first))
    case Enable(stream) => s.(enabled := s.enabled + {stream})
    case MainRead(i) => if i >= |c.index| then s else SharedRead(c, s, i).0
    case MainNext(req) =>
      var (next, cursor) := NextRead(c.index, c.streams, s.enabled, req, s.reader.next);
      if next.Found? then SharedRead(c, s, next.index).0 else s.(reader := s.reader.(next := cursor))
    case Seek(p) => s.(reader := s.reader.(next := if p < |c.index| then p else |c.index|))
  }

  // What every interleaving keeps

  function Jobs(resolved: seq<Resolution>): (jobs: seq<Job>)
    ensures |jobs| == |resolved|
  {
    seq(|resolved|, k requires 0 <= k < |resolved| => resolved[k].job)
  }

  function InHand(s: AsyncState): seq<Job> {
    if s.inHand.Some? then [s.inHand.value] else []
  }

  /** Jobs are numbered in the order sent and all ask for records of the file. */
  predicate Numbered(c: Setup, s: AsyncState) {
    forall k | 0 <= k < |s.sent| :: s.sent[k].id == k && s.sent[k].index < |c.index|
  }

  /** While the worker runs, jobs sent are those resolved, then the one in hand, then those queued. */
  predicate Queued(s: AsyncState) {
    && Jobs(s.resolved) + InHand(s) <= s.sent
    && (!s.shouldEnd ==> s.sent == Jobs(s.resolved) + InHand(s) + s.queue)
  }

  /** A future carries what its read decodes, under the limits then in force and given the reads made before. */
  predicate AsRead(c: Setup, trace: seq<Past>, r: Resolution, at: Context)
    requires InFile(c.index, trace)
  {
    var i, before := r.job.index, trace[..if at.readsBefore <= |trace| then at.readsBefore else 0];
    && at.readsBefore < |trace| && trace[at.readsBefore] == Past(i, at.trailing)
    && i < |c.index| && InFile(c.index, before)
    && r.record == Decoded(c.index, at.trailing, i, ConfigUsed(c.index, before, at.trailing, i))
  }

  predicate ResolvedAsRead(c: Setup, s: AsyncState)
    requires InFile(c.index, s.trace)
  {
    && |s.contexts| == |s.resolved|
    && forall k | 0 <= k < |s.resolved| :: AsRead(c, s.trace, s.resolved[k], s.contexts[k])
  }

  ghost predicate AsyncInv(c: Setup, s: AsyncState) {
    && ReaderOk(c, s)
    && Numbered(c, s) && Queued(s) && ResolvedAsRead(c, s)
    && (s.inHand.Some? ==> s.inHand.value.index < |c.index|)
  }

  lemma SharedReadKeeps(c: Setup, s: AsyncState, i: nat)
    requires i < |c.index| && ReaderOk(c, s) && ResolvedAsRead(c, s)
    ensures var (s', record) := SharedRead(c, s, i);
      && ReaderOk(c, s') && ResolvedAsRead(c, s')
      && record == Decoded(c.index, s.trailing, i, ConfigUsed(c.index, s.trace, s.trailing, i))
  {
    hide Inv, Remembers, ReadAt, Decoded, ConfigUsed, AsRead;
    ReadStep(c.index, s.trailing, c.streams, s.trace, s.reader, i);
    var s' := SharedRead(c, s, i).0;
    InvInRange(c.index, s'.reader);
    forall k | 0 <= k < |s.resolved| ensures AsRead(c, s'.trace, s'.resolved[k], s'.contexts[k]) {
      LaterReadsIrrelevant(c, s.trace, Past(i, s.trailing), s.resolved[k], s.contexts[k]);
    }
  }

  lemma LaterReadsIrrelevant(c: Setup, trace: seq<Past>, p: Past, r: Resolution, at: Context)
    requires InFile(c.index, trace) && p.record < |c.index| && AsRead(c, trace, r, at)
    ensures InFile(c.index, trace + [p]) && AsRead(c, trace + [p], r, at)
  {
    hide Decoded, ConfigUsed;
    assert (trace + [p])[..at.readsBefore] == trace[..at.readsBefore];
  }

  lemma MoveCursorKeeps(c: Setup, s: AsyncState, p: nat)
    requires ReaderOk(c, s) && p <= |c.index|
    ensures ReaderOk(c, s.(reader := s.reader.(next := p)))
  {
    CursorIrrelevant(c.index, s.reader, p);
  }

  lemma PerformKeeps(c: Setup, s: AsyncState)
    requires AsyncInv(c, s) && s.inHand.Some? && !s.shouldEnd
    ensures AsyncInv(c, Step(c, s, Perform))
  {
    hide ReaderOk, ReadAt, Decoded, ConfigUsed;
    var job, at := s.inHand.value, Context(|s.trace|, s.trailing);
    TraceInFile(c, s);
    SharedReadKeeps(c, s, job.index);
    var (s1, record) := SharedRead(c, s, job.index);
    var s' := Step(c, s, Perform);
    assert ReaderOk(c, s') by { OnlyReaderMatters(c, s1, s'); }
    TraceInFile(c, s');
    assert Jobs(s'.resolved) == Jobs(s.resolved) + [job];
    assert s'.trace[..|s.trace|] == s.trace;
    assert AsRead(c, s'.trace, Resolution(job, record), at);
  }

  lemma TraceInFile(c: Setup, s: AsyncState)
    requires ReaderOk(c, s)
    ensures InFile(c.index, s.trace) && InRange(c.index, s.reader) && s.reader.next <= |c.index|
  {
  }

  lemma OnlyReaderMatters(c: Setup, s: AsyncState, t: AsyncState)
    requires ReaderOk(c, s) && t.reader == s.reader && t.trace == s.trace
    ensures ReaderOk(c, t)
  {
  }

  lemma AwaitKeeps(c: Setup, s: AsyncState, i: nat)
    requires AsyncInv(c, s) && i < |c.index|
    ensures InRange(c.index, s.reader) && s.reader.next <= |c.index| && AsyncInv(c, Step(c, s, Await(i)))
  {
    hide ReaderOk, ResolvedAsRead, Jobs;
    TraceInFile(c, s);
    var s' := Step(c, s, Await(i));
    OnlyReaderMatters(c, s, s');
    SameResolutions(c, s, s');
    var job := Job(|s.sent|, i);
    assert Jobs(s.resolved) + InHand(s) + (s.queue + [job]) == (Jobs(s.resolved) + InHand(s) + s.queue) + [job];
  }

  lemma SameResolutions(c: Setup, s: AsyncState, t: AsyncState)
    requires InFile(c.index, s.trace) && ResolvedAsRead(c, s)
    requires t.trace == s.trace && t.resolved == s.resolved && t.contexts == s.contexts
    ensures ResolvedAsRead(c, t)
  {
  }

  lemma TakeKeeps(c: Setup, s: AsyncState)
    requires AsyncInv(c, s)
    ensures InRange(c.index, s.reader) && s.reader.next <= |c.index| && AsyncInv(c, Step(c, s, Take))
  {
    hide ReaderOk, ResolvedAsRead, Jobs;
    TraceInFile(c, s);
    var s' := Step(c, s, Take);
    OnlyReaderMatters(c, s, s');
    SameResolutions(c, s, s');
    TakeKeepsQueued(s);
  }

  lemma TakeKeepsQueued(s: AsyncState)
    requires Queued(s)
    ensures s.inHand.None? && s.queue != [] && !s.shouldEnd ==>
      && Queued(s.(inHand := Some(s.queue[0]), queue := s.queue[1..]))
      && |s.resolved| < |s.sent| && s.queue[0] == s.sent[|s.resolved|]
  {
    if s.inHand.None? && s.queue != [] && !s.shouldEnd {
      assert Jobs(s.resolved) + InHand(s) + s.queue == Jobs(s.resolved) + [s.queue[0]] + s.queue[1..];
    }
  }

  lemma StepKeeps(c: Setup, s: AsyncState, e: Event)
    requires AsyncInv(c, s)
    ensures AsyncInv(c, Step(c, s, e))
  {
    hide ReaderOk, ReadAt, Decoded, ConfigUsed, Refused, NextMatch, SkipFrom, AsRead;
    TraceInFile(c, s);
    match e {
      case Await(i) =>
        if i < |c.index| {
          AwaitKeeps(c, s, i);
        }
      case Take => TakeKeeps(c, s);
      case Perform =>
        if s.inHand.Some? && !s.shouldEnd {
          PerformKeeps(c, s);
        } else {
          OnlyReaderMatters(c, s, Step(c, s, e));
        }
      case Cleanup => OnlyReaderMatters(c, s, Step(c, s, e));
      case SkipTrailing(typeId, recordType, first) => OnlyReaderMatters(c, s, Step(c, s, e));
      case Enable(stream) => OnlyReaderMatters(c, s, Step(c, s, e));
      case MainRead(i) =>
        if i < |c.index| {
          SharedReadKeeps(c, s, i);
        }
      case MainNext(req) =>
        var (next, cursor) := NextRead(c.index, c.streams, s.enabled, req, s.reader.next);
        if next.Found? {
          SharedReadKeeps(c, s, next.index);
        } else {
          MoveCursorKeeps(c, s, cursor);
        }
      case Seek(p) => MoveCursorKeeps(c, s, if p < |c.index| then p else |c.index|);
    }
  }

  /** The state after an interleaving of steps. */
  ghost function AsyncAfter(c: Setup, events: seq<Event>): (s: AsyncState)
    requires FileOk(c.index, c.streams)
    ensures AsyncInv(c, s)
  {
    if events == [] then
      Initial(c)
    else
      var before, e := AsyncAfter(c, events[..|events| - 1]), events[|events| - 1];
      StepKeeps(c, before, e);
      Step(c, before, e)
  }

  /** Jobs are performed in the order sent, each at most once, and none is skipped. */
  lemma PerformedInSendOrder(c: Setup, events: seq<Event>)
    requires FileOk(c.index, c.streams)
    ensures var s := AsyncAfter(c, events);
      && |s.resolved| <= |s.sent|
      && forall k | 0 <= k < |s.resolved| :: s.resolved[k].job == s.sent[k] && s.resolved[k].job.id == k
  {
    var s := AsyncAfter(c, events);
    hide Step, ReaderOk, ResolvedAsRead, AsyncAfter;
    var jobs := Jobs(s.resolved);
    assert jobs <= s.sent by {
      assert jobs <= jobs + InHand(s);
    }
    forall k | 0 <= k < |s.resolved| ensures s.resolved[k].job == s.sent[k] && s.resolved[k].job.id == k {
      assert jobs[k] == s.sent[k];
    }
  }

  /** The reads that precede the `k`-th resolution. */
  function ReadsBefore(s: AsyncState, k: nat): seq<Past>
    requires k < |s.contexts| && s.contexts[k].readsBefore <= |s.trace|
  {
    s.trace[..s.contexts[k].readsBefore]
  }

  /** The record a synchronous read on a fresh reader returns. */
  ghost function FreshlyRead(c: Setup, limits: Trailing, i: nat): PyRecord
    requires i < |c.index|
  {
    ReadAt(c.index, limits, true, After(c.index, c.streams, []), i).1
  }

  /**
   A resolved future carries what a synchronous read on a fresh reader returns, under the limits in force when
   its job was performed, if and only if the reads made before were current for it or it has no blocks.
   */
  lemma AwaitedProperlyIff(c: Setup, s: AsyncState, k: nat)
    requires AsyncInv(c, s) && k < |s.resolved| && Configured(c.index, s.resolved[k].job.index)
    ensures |s.contexts| == |s.resolved| && s.contexts[k].readsBefore < |s.trace|
    ensures var r, limits, before := s.resolved[k], s.contexts[k].trailing, ReadsBefore(s, k);
      var i := r.job.index;
      && InFile(c.index, before)
      && r.record == Decoded(c.index, limits, i, ConfigUsed(c.index, before, limits, i))
      && (r.record == FreshlyRead(c, limits, i)
          <==> Current(c.index, before, limits, i) || c.index[i].blocks == [])
  {
    hide ReaderOk, Decoded, ConfigUsed, Current, ReadAt, After, Numbered, Queued, FileOk, Configured;
    TraceInFile(c, s);
    InvSetup(c, s);
    assert AsRead(c, s.trace, s.resolved[k], s.contexts[k]);
    AsFreshIff(c, ReadsBefore(s, k), s.contexts[k].trailing, s.resolved[k].job.index);
  }

  lemma AsFreshIff(c: Setup, before: seq<Past>, limits: Trailing, i: nat)
    requires FileOk(c.index, c.streams) && InFile(c.index, before) && Configured(c.index, i)
    ensures Decoded(c.index, limits, i, ConfigUsed(c.index, before, limits, i)) == FreshlyRead(c, limits, i)
      <==> Current(c.index, before, limits, i) || c.index[i].blocks == []
  {
    hide ReadAt, After, Decoded, ConfigUsed, Current, FileOk;
    EveryRead(c.index, c.streams, before, limits, i);
    ReadProperlyIff(c.index, c.streams, before, limits, i);
  }

  /**
   If the limit on the stream's configuration blocks has not changed, and before the job was performed no
   configuration was read directly or no read went back, an awaited data record that has a configuration is
   what a synchronous read of it on a fresh reader returns.
   */
  lemma AwaitedEqualsSynchronous(c: Setup, s: AsyncState, k: nat)
    requires AsyncInv(c, s) && k < |s.resolved|
    requires Configured(c.index, s.resolved[k].job.index)
    ensures |s.contexts| == |s.resolved| && s.contexts[k].readsBefore < |s.trace| && InFile(c.index, ReadsBefore(s, k))
    ensures var i, limits := s.resolved[k].job.index, s.contexts[k].trailing;
      SafeHistory(c.index, ReadsBefore(s, k), limits, i) ==>
        s.resolved[k].record == FreshlyRead(c, limits, i) == Proper(c.index, limits, i)
  {
    AwaitedProperlyIff(c, s, k);
    InvSetup(c, s);
    FreshRead(c.index, c.streams, s.contexts[k].trailing, s.resolved[k].job.index);
    hide Proper, Decoded, ReaderOk, ResolvedAsRead, Current, ConfigUsed, SafeHistory, Configured;
    var i := s.resolved[k].job.index;
    if SafeHistory(c.index, ReadsBefore(s, k), s.contexts[k].trailing, i) {
      SafeIsCurrent(c.index, ReadsBefore(s, k), s.contexts[k].trailing, i);
    }
  }

  lemma InvSetup(c: Setup, s: AsyncState)
    requires AsyncInv(c, s)
    ensures FileOk(c.index, c.streams)
  {
  }

  // Interleavings of what Python can call: awaiting, changing limits, enabling streams, ending

  predicate PythonCalls(events: seq<Event>) {
    forall e | e in events :: !e.MainRead? && !e.MainNext? && !e.Seek?
  }

  /** Every read so far was a resolution, so each came after exactly the resolutions before it. */
  predicate ReadsAreResolutions(s: AsyncState) {
    && |s.trace| == |s.contexts| == |s.resolved|
    && forall k | 0 <= k < |s.contexts| ::
         s.contexts[k].readsBefore == k && s.trace[k] == Past(s.resolved[k].job.index, s.contexts[k].trailing)
  }

  lemma PythonStep(c: Setup, s: AsyncState, e: Event)
    requires AsyncInv(c, s) && ReadsAreResolutions(s) && !e.MainRead? && !e.MainNext? && !e.Seek?
    ensures InRange(c.index, s.reader) && s.reader.next <= |c.index| && ReadsAreResolutions(Step(c, s, e))
  {
    hide ReaderOk, ReadAt, SkipFrom, Numbered, Queued, ResolvedAsRead, NextRead;
    TraceInFile(c, s);
  }

  lemma {:induction false} PythonReadsAreResolutions(c: Setup, events: seq<Event>)
    requires FileOk(c.index, c.streams) && PythonCalls(events)
    ensures ReadsAreResolutions(AsyncAfter(c, events))
  {
    hide AsyncInv, ReadsAreResolutions;
    if events == [] {
      FreshReads(c);
    } else {
      var front := events[..|events| - 1];
      PythonReadsAreResolutions(c, front);
      PythonStep(c, AsyncAfter(c, front), events[|events| - 1]);
    }
  }

  lemma FreshReads(c: Setup)
    ensures ReadsAreResolutions(Initial(c))
  {
  }

  /** What was awaited before the `k`-th await, each with the limits when its job was performed. */
  function AwaitedBefore(s: AsyncState, k: nat): (before: seq<Past>)
    requires k <= |s.sent| && k <= |s.contexts|
    ensures |before| == k
  {
    seq(k, j requires 0 <= j < k => Past(s.sent[j].index, s.contexts[j].trailing))
  }

  lemma PrefixRead(s: AsyncState, k: nat)
    requires Queued(s) && ReadsAreResolutions(s) && k < |s.resolved|
    ensures |s.contexts| == |s.resolved| <= |s.sent| && s.contexts[k].readsBefore <= |s.trace|
    ensures ReadsBefore(s, k) == AwaitedBefore(s, k) && s.resolved[k].job == s.sent[k]
  {
    var jobs := Jobs(s.resolved);
    assert jobs <= s.sent by {
      assert jobs <= jobs + InHand(s);
    }
    assert jobs[k] == s.sent[k];
    assert forall j | 0 <= j < k :: jobs[j] == s.sent[j];
    assert forall j | 0 <= j < k :: s.trace[j] == AwaitedBefore(s, k)[j];
  }

  /** What the `k`-th future carries, in terms of what was awaited before and the limits then in force. */
  ghost predicate DecidedByAwaits(c: Setup, s: AsyncState, k: nat)
    requires k < |s.sent| && k < |s.contexts| && k < |s.resolved|
  {
    var i, limits, before := s.sent[k].index, s.contexts[k].trailing, AwaitedBefore(s, k);
    && s.resolved[k].job == s.sent[k] && i < |c.index| && InFile(c.index, before)
    && s.resolved[k].record == Decoded(c.index, limits, i, ConfigUsed(c.index, before, limits, i))
    && (Configured(c.index, i) ==>
         && (s.resolved[k].record == FreshlyRead(c, limits, i)
             <==> Current(c.index, before, limits, i) || c.index[i].blocks == [])
         && (SafeHistory(c.index, before, limits, i) ==> s.resolved[k].record == FreshlyRead(c, limits, i)))
  }

  /**
   Whatever the interleaving, the order of awaits and the limits their jobs were performed under decide: the
   `k`-th future is resolved with the `k`-th record awaited, and is what a fresh reader reads if and only if the
   earlier awaits are current for it, or it has no blocks.
   */
  lemma AwaitOrderDecides(c: Setup, events: seq<Event>, k: nat)
    requires FileOk(c.index, c.streams) && PythonCalls(events)
    ensures var s := AsyncAfter(c, events);
      k < |s.resolved| ==> k < |s.sent| && |s.contexts| == |s.resolved| && DecidedByAwaits(c, s, k)
  {
    var s := AsyncAfter(c, events);
    PythonReadsAreResolutions(c, events);
    hide AsyncAfter, Step, ReaderOk, Decoded, ConfigUsed, Current, SafeHistory, Configured, FreshlyRead;
    if k < |s.resolved| {
      TraceInFile(c, s);
      PrefixRead(s, k);
      assert AsRead(c, s.trace, s.resolved[k], s.contexts[k]);
      if Configured(c.index, s.sent[k].index) {
        AwaitedProperlyIff(c, s, k);
        AwaitedEqualsSynchronous(c, s, k);
      }
    }
  }

  /** After a safe history, a future for a configured record carries what a fresh reader reads. */
  ghost predicate ProperWhenSafe(c: Setup, s: AsyncState, k: nat)
    requires k < |s.resolved| && k < |s.contexts|
  {
    var i, at := s.resolved[k].job.index, s.contexts[k];
    && at.readsBefore < |s.trace| && i < |c.index| && InFile(c.index, ReadsBefore(s, k))
    && (Configured(c.index, i) && SafeHistory(c.index, ReadsBefore(s, k), at.trailing, i) ==>
          s.resolved[k].record == FreshlyRead(c, at.trailing, i))
  }

  /** In every interleaving of both threads' steps, inherited calls included. */
  lemma EveryInterleaving(c: Setup, events: seq<Event>)
    requires FileOk(c.index, c.streams)
    ensures var s := AsyncAfter(c, events);
      && |s.contexts| == |s.resolved|
      && forall k | 0 <= k < |s.resolved| :: ProperWhenSafe(c, s, k)
  {
    hide Step, AsyncAfter, Numbered, Queued, ReaderOk, Configured, SafeHistory, Decoded, ConfigUsed, FreshlyRead;
    var s := AsyncAfter(c, events);
    TraceInFile(c, s);
    forall k | 0 <= k < |s.resolved| ensures ProperWhenSafe(c, s, k) {
      assert AsRead(c, s.trace, s.resolved[k], s.contexts[k]);
      if Configured(c.index, s.resolved[k].job.index) {
        AwaitedEqualsSynchronous(c, s, k);
      }
    }
  }

  /** The limits that the calls made so far have set. */
  function LimitsAfter(events: seq<Event>): Trailing {
    if events == [] then map[]
    else
      var front, e := LimitsAfter(events[..|events| - 1]), events[|events| - 1];
      if e.SkipTrailing? then SkipFrom(front, e.typeId, e.recordType, e.first) else front
  }

  /** The `p`-th step resolved the `k`-th future, under the limits that the calls before it had set. */
  ghost predicate ResolvedAt(c: Setup, events: seq<Event>, k: nat, limits: Trailing, p: nat)
    requires FileOk(c.index, c.streams)
  {
    && p < |events| && events[p].Perform? && limits == LimitsAfter(events[..p])
    && |AsyncAfter(c, events[..p]).resolved| == k
  }

  lemma StepResolves(c: Setup, s: AsyncState, e: Event)
    requires AsyncInv(c, s)
    ensures InRange(c.index, s.reader) && s.reader.next <= |c.index|
    ensures var s' := Step(c, s, e);
      && s'.trailing == (if e.SkipTrailing? then SkipFrom(s.trailing, e.typeId, e.recordType, e.first) else s.trailing)
      && |s.contexts| == |s.resolved|
      && ((s'.resolved == s.resolved && s'.contexts == s.contexts)
          || (e.Perform? && |s'.resolved| == |s.resolved| + 1 && |s'.contexts| == |s.contexts| + 1
              && s'.contexts[..|s.contexts|] == s.contexts && s'.contexts[|s.contexts|].trailing == s.trailing))
  {
    hide ReaderOk, ReadAt, SkipFrom, Numbered, Queued, NextRead;
    TraceInFile(c, s);
  }

  /** Limits count from when a job is performed, not from when it was sent. */
  lemma {:induction false} LimitsWhenPerformed(c: Setup, events: seq<Event>, k: nat)
    requires FileOk(c.index, c.streams)
    ensures var s := AsyncAfter(c, events);
      && s.trailing == LimitsAfter(events)
      && |s.contexts| == |s.resolved|
      && (k < |s.resolved| ==> exists p: nat :: ResolvedAt(c, events, k, s.contexts[k].trailing, p))
  {
    hide AsyncInv, Step, FileOk;
    if events == [] {
    } else {
      var n := |events| - 1;
      var front, e := events[..n], events[n];
      var before, s := AsyncAfter(c, front), AsyncAfter(c, events);
      LimitsWhenPerformed(c, front, k);
      StepResolves(c, before, e);
      if k < |before.resolved| {
        assert s.contexts[k] == before.contexts[k];
        var p: nat :| ResolvedAt(c, front, k, before.contexts[k].trailing, p);
        assert front[..p] == events[..p];
        assert ResolvedAt(c, events, k, s.contexts[k].trailing, p);
      } else if k < |s.resolved| {
        assert ResolvedAt(c, events, k, s.contexts[k].trailing, n);
      }
    }
  }

  // What a caller of Python's reader has to keep to

  /** No limit on configuration blocks, for any device type. */
  ghost predicate Unlimited(limits: Trailing) {
    forall typeId: nat :: Find(limits, (typeId, CONFIGURATION)) == None
  }

  /** Limits are set for record types other than configurations only. */
  predicate ConfigLimitsKept(events: seq<Event>) {
    forall e | e in events && e.SkipTrailing? :: e.recordType.Some? && e.recordType != Some(CONFIGURATION)
  }

  lemma StillUnlimited(limits: Trailing, e: Event)
    requires Unlimited(limits) && e.SkipTrailing? && e.recordType.Some? && e.recordType != Some(CONFIGURATION)
    ensures Unlimited(SkipFrom(limits, e.typeId, e.recordType, e.first))
  {
    hide SkipFrom;
    forall typeId: nat
      ensures Find(SkipFrom(limits, e.typeId, e.recordType, e.first), (typeId, CONFIGURATION)) == None
    {
      SkipFromSets(limits, e.typeId, e.recordType, e.first, (typeId, CONFIGURATION));
    }
  }

  lemma {:induction false} NeverLimited(c: Setup, events: seq<Event>)
    requires FileOk(c.index, c.streams) && ConfigLimitsKept(events)
    ensures var s := AsyncAfter(c, events);
      Unlimited(s.trailing) && forall k | 0 <= k < |s.contexts| :: Unlimited(s.contexts[k].trailing)
  {
    hide AsyncInv, Step, FileOk, Unlimited, SkipFrom;
    if events == [] {
      assert Unlimited(map[]) by { NothingLimited(); }
    } else {
      var front, e := events[..|events| - 1], events[|events| - 1];
      var before := AsyncAfter(c, front);
      NeverLimited(c, front);
      StepResolves(c, before, e);
      if e.SkipTrailing? {
        StillUnlimited(before.trailing, e);
      }
    }
  }

  lemma NothingLimited()
    ensures Unlimited(map[])
  {
  }

  /** The awaits made: none of a configuration record, or none of a record before the one awaited last. */
  predicate CarefulAwaits(c: Setup, sent: seq<Job>)
    requires forall j | 0 <= j < |sent| :: sent[j].index < |c.index|
  {
    || (forall j | 0 <= j < |sent| :: c.index[sent[j].index].recordType != CONFIGURATION)
    || (forall j, k | 0 <= j <= k < |sent| :: sent[j].index <= sent[k].index)
  }

  lemma CarefulIsSafe(c: Setup, s: AsyncState, k: nat)
    requires k < |s.sent| && k < |s.contexts| && (forall j | 0 <= j < |s.sent| :: s.sent[j].index < |c.index|)
    requires CarefulAwaits(c, s.sent) && forall j | 0 <= j < |s.contexts| :: Unlimited(s.contexts[j].trailing)
    requires InFile(c.index, AwaitedBefore(s, k))
    ensures SafeHistory(c.index, AwaitedBefore(s, k), s.contexts[k].trailing, s.sent[k].index)
  {
    var before, last := AwaitedBefore(s, k), Past(s.sent[k].index, s.contexts[k].trailing);
    assert forall j | 0 <= j < k :: (before + [last])[j] == before[j];
  }

  /**
   Whatever the interleaving: if limits are set for other record types than configurations only, and awaits
   are careful, every future for a configured data record carries what a synchronous read on a fresh reader
   returns under the limits in force when its job was performed.
   */
  lemma AwaitsAreSynchronous(c: Setup, events: seq<Event>, k: nat)
    requires FileOk(c.index, c.streams) && PythonCalls(events) && ConfigLimitsKept(events)
    ensures var s := AsyncAfter(c, events);
      k < |s.resolved| && CarefulAwaits(c, s.sent) ==>
        && k < |s.sent| && |s.contexts| == |s.resolved| && s.resolved[k].job == s.sent[k]
        && (Configured(c.index, s.sent[k].index) ==>
              s.resolved[k].record == FreshlyRead(c, s.contexts[k].trailing, s.sent[k].index))
  {
    var s := AsyncAfter(c, events);
    AwaitOrderDecides(c, events, k);
    NeverLimited(c, events);
    hide AsyncAfter, Step, ReaderOk, Decoded, ConfigUsed, Current, SafeHistory, Configured, FreshlyRead;
    hide CarefulAwaits, Unlimited, Queued, ResolvedAsRead;
    if k < |s.resolved| && CarefulAwaits(c, s.sent) {
      CarefulIsSafe(c, s, k);
    }
  }

  // Nothing awaited is lost while the worker runs

  lemma AsyncExtends(c: Setup, events: seq<Event>, e: Event)
    requires FileOk(c.index, c.streams)
    ensures var s := AsyncAfter(c, events);
      && InRange(c.index, s.reader) && s.reader.next <= |c.index|
      && AsyncAfter(c, events + [e]) == Step(c, s, e)
  {
    hide Step, AsyncInv;
    assert (events + [e])[..|events|] == events;
    InvReady(c, AsyncAfter(c, events));
  }

  /** What awaiting does: a valid index is sent and queued, with a number of its own. */
  lemma AwaitQueues(c: Setup, s: AsyncState, i: nat)
    requires AsyncInv(c, s) && i < |c.index|
    ensures InRange(c.index, s.reader) && s.reader.next <= |c.index|
    ensures var s' := Step(c, s, Await(i));
      && s'.sent == s.sent + [Job(|s.sent|, i)] && s'.queue == s.queue + [Job(|s.sent|, i)]
      && s'.inHand == s.inHand && s'.resolved == s.resolved && s'.shouldEnd == s.shouldEnd
  {
    hide ReaderOk, ResolvedAsRead;
    TraceInFile(c, s);
  }

  /** A free worker takes the oldest job. */
  lemma TakeTakes(c: Setup, s: AsyncState)
    requires AsyncInv(c, s) && !s.shouldEnd && s.inHand.None? && s.queue != []
    ensures InRange(c.index, s.reader) && s.reader.next <= |c.index|
    ensures var s' := Step(c, s, Take);
      && s'.inHand == Some(s.queue[0]) && s'.queue == s.queue[1..]
      && s'.sent == s.sent && s'.resolved == s.resolved && !s'.shouldEnd
  {
    hide ReaderOk, ResolvedAsRead;
    TraceInFile(c, s);
  }

  /** A job in hand is resolved when it is performed, with a record of the index it asks for. */
  lemma PerformResolves(c: Setup, s: AsyncState)
    requires AsyncInv(c, s) && !s.shouldEnd && s.inHand.Some?
    ensures InRange(c.index, s.reader) && s.reader.next <= |c.index| && s.inHand.value.index < |c.index|
    ensures var s' := Step(c, s, Perform);
      && s'.inHand.None? && s'.queue == s.queue && s'.sent == s.sent && !s'.shouldEnd
      && |s'.resolved| == |s.resolved| + 1 && s'.resolved[..|s.resolved|] == s.resolved
      && s'.resolved[|s.resolved|].job == s.inHand.value
      && s'.resolved[|s.resolved|].record.recordIndex == s.inHand.value.index
  {
    hide ReaderOk, ResolvedAsRead, LibraryRead, Prepare;
    TraceInFile(c, s);
  }

  /** The worker's turns that take and perform `n` jobs. */
  function Turns(n: nat): seq<Event> {
    if n == 0 then [] else [Take, Perform] + Turns(n - 1)
  }

  /**
   While the worker is not told to end, as many turns as jobs are queued resolve every job ever sent, in the
   order sent: awaiting a record leads to its future being resolved.
   */
  lemma {:induction false} EveryAwaitServed(c: Setup, events: seq<Event>, n: nat)
    requires FileOk(c.index, c.streams)
    ensures var s, t := AsyncAfter(c, events), AsyncAfter(c, events + Turns(n));
      !s.shouldEnd && s.inHand.None? && |s.queue| == n ==> Jobs(t.resolved) == t.sent == s.sent
    decreases n
  {
    hide Step, AsyncAfter, ReaderOk, ResolvedAsRead, Numbered;
    var s := AsyncAfter(c, events);
    if n == 0 {
      assert events + Turns(n) == events;
    } else if !s.shouldEnd && s.inHand.None? && |s.queue| == n {
      AsyncExtends(c, events, Take);
      TakeTakes(c, s);
      AsyncExtends(c, events + [Take], Perform);
      PerformResolves(c, AsyncAfter(c, events + [Take]));
      EveryAwaitServed(c, events + [Take] + [Perform], n - 1);
      assert events + [Take] + [Perform] + Turns(n - 1) == events + Turns(n);
    }
  }

  /** From an idle worker, awaiting a record and one turn resolve one more future, for that record. */
  lemma AwaitedIsResolved(c: Setup, events: seq<Event>, i: nat)
    requires FileOk(c.index, c.streams) && i < |c.index|
    ensures var s, t := AsyncAfter(c, events), AsyncAfter(c, events + [Await(i)] + [Take] + [Perform]);
      !s.shouldEnd && s.inHand.None? && s.queue == [] ==>
        && |t.resolved| == |s.resolved| + 1 && t.resolved[..|s.resolved|] == s.resolved
        && t.resolved[|s.resolved|].job == Job(|s.sent|, i)
        && t.resolved[|s.resolved|].record.recordIndex == i
  {
    hide Step, AsyncAfter, AsyncInv;
    var s := AsyncAfter(c, events);
    if !s.shouldEnd && s.inHand.None? && s.queue == [] {
      AsyncExtends(c, events, Await(i));
      AwaitQueues(c, s, i);
      AsyncExtends(c, events + [Await(i)], Take);
      TakeTakes(c, AsyncAfter(c, events + [Await(i)]));
      AsyncExtends(c, events + [Await(i)] + [Take], Perform);
      PerformResolves(c, AsyncAfter(c, events + [Await(i)] + [Take]));
    }
  }

  /** What the main thread's other calls do to the shared reader; none of them touches the jobs. */
  lemma MainCalls(c: Setup, s: AsyncState, e: Event)
    requires AsyncInv(c, s) && (e.MainRead? || e.MainNext? || e.Seek? || e.SkipTrailing? || e.Enable?)
    ensures InRange(c.index, s.reader) && s.reader.next <= |c.index|
    ensures var s' := Step(c, s, e);
      && s'.sent == s.sent && s'.queue == s.queue && s'.inHand == s.inHand && s'.resolved == s.resolved
      && s'.shouldEnd == s.shouldEnd
      && s'.trailing == (if e.SkipTrailing? then SkipFrom(s.trailing, e.typeId, e.recordType, e.first) else s.trailing)
      && s'.enabled == (if e.Enable? then s.enabled + {e.stream} else s.enabled)
      && (e.MainRead? ==>
            if e.index < |c.index|
            then s'.trace == s.trace + [Past(e.index, s.trailing)] && s'.reader.next == e.index + 1
            else s' == s)
      && (e.MainNext? ==> exists next ::
            && Served(c.index, c.streams, s.enabled, e.request, s.reader.next, next, s'.reader.next)
            && s'.trace == if next.Found? then s.trace + [Past(next.index, s.trailing)] else s.trace)
      && (e.Seek? ==> s'.trace == s.trace && s'.reader.next == if e.position < |c.index| then e.position else |c.index|)
  {
    hide ReaderOk, ResolvedAsRead, LibraryRead, Prepare, NextRead, Served, SkipFrom;
    TraceInFile(c, s);
    if e.MainNext? {
      NextReadServes(c.index, c.streams, s.enabled, e.request, s.reader.next);
      var (next, cursor) := NextRead(c.index, c.streams, s.enabled, e.request, s.reader.next);
      assert Step(c, s, e).reader.next == cursor by { FoundCursor(c, s, e.request); }
    }
  }

  lemma FoundCursor(c: Setup, s: AsyncState, req: Request)
    requires s.reader.next <= |c.index|
    ensures var (next, cursor) := NextRead(c.index, c.streams, s.enabled, req, s.reader.next);
      next.Found? ==> cursor == next.index + 1
  {
  }

  /** Once the worker has been told to end, no further future is resolved, whatever happens next. */
  lemma {:induction false} NothingAfterCleanup(c: Setup, events: seq<Event>, more: seq<Event>)
    requires FileOk(c.index, c.streams) && AsyncAfter(c, events).shouldEnd
    ensures AsyncAfter(c, events + more).shouldEnd
    ensures AsyncAfter(c, events + more).resolved == AsyncAfter(c, events).resolved
    decreases more
  {
    hide AsyncInv, ReadAt, Refused, NextMatch;
    if more == [] {
      assert events + more == events;
    } else {
      var front, e := more[..|more| - 1], more[|more| - 1];
      NothingAfterCleanup(c, events, front);
      assert (events + more)[..|events + more| - 1] == events + front;
    }
  }

  /** The background thread's queue, with the reader it shares with the main thread. */
  class AsyncReadHandler {
    const reader: VRSReader.Reader
    var workerQueue: seq<Job>
    var job: Option<Job>
    var shouldEndAsyncThread: bool
    /** The futures created, and the results handed to the event loop, so far. */
    var sent: seq<Job>
    var resolved: seq<Resolution>
    ghost var contexts: seq<Context>

    ghost function Config(): Setup
      reads this, reader, reader.streamPlayer
    {
      Setup(reader.index, reader.streams)
    }

    ghost function State(): AsyncState
      reads this, reader, reader.streamPlayer
    {
      AsyncState(reader.State(), reader.firstSkippedTrailingBlockIndex, reader.enabledStreams, reader.trace,
                 sent, workerQueue, job, shouldEndAsyncThread, resolved, contexts)
    }

    ghost predicate Valid()
      reads this, reader, reader.streamPlayer
    {
      reader.Valid() && reader.autoReadConfigurationRecord && AsyncInv(Config(), State())
    }

    constructor (reader: VRSReader.Reader)
      requires reader.Valid() && reader.autoReadConfigurationRecord
      ensures Valid() && this.reader == reader
      ensures workerQueue == sent == [] && job == None && !shouldEndAsyncThread && resolved == []
    {
      this.reader := reader;
      workerQueue, sent, job, shouldEndAsyncThread, resolved := [], [], None, false, [];
      contexts := [];
    }

    /** Awaiting a record checks its index, creates a future and queues a job for it. */
    method AwaitRecord(index: int32) returns (future: Option<Job>)
      requires Valid()
      modifies this`workerQueue, this`sent
      ensures Valid() && AsyncInv(Config(), old(State()))
      ensures State() == Step(Config(), old(State()), Await(AsUint32(index)))
      ensures future == if AsUint32(index) >= |reader.index| then None else Some(Job(|old(sent)|, AsUint32(index)))
      ensures future.Some? ==> sent == old(sent) + [future.value] && workerQueue == old(workerQueue) + [future.value]
      ensures future.None? ==> sent == old(sent) && workerQueue == old(workerQueue)
    {
      StepKeeps(Config(), State(), Await(AsUint32(index)));
      if AsUint32(index) >= |reader.index| {
        return None;
      }
      var newJob := Job(|sent|, AsUint32(index));
      sent := sent + [newJob];
      workerQueue := workerQueue + [newJob];
      return Some(newJob);
    }

    /** One round of the worker's wait for a job. */
    method WaitForJob()
      requires Valid()
      modifies this`workerQueue, this`job
      ensures Valid() && AsyncInv(Config(), old(State())) && State() == Step(Config(), old(State()), Take)
      ensures
        if !shouldEndAsyncThread && old(job).None? && old(workerQueue) != []
        then job == Some(old(workerQueue)[0]) && workerQueue == old(workerQueue)[1..]
        else job == old(job) && workerQueue == old(workerQueue)
    {
      StepKeeps(Config(), State(), Take);
      if !shouldEndAsyncThread && job.None? && workerQueue != [] {
        job := Some(workerQueue[0]);
        workerQueue := workerQueue[1..];
      }
    }

    /** The worker, holding the interpreter lock, performs the job it has unless told to end, then drops it. */
    method PerformJob()
      requires Valid()
      modifies this`job, this`resolved, this`contexts, reader, reader.streamPlayer
      ensures Valid() && AsyncInv(old(Config()), old(State()))
      ensures Config() == old(Config()) && State() == Step(Config(), old(State()), Perform)
      ensures job == None
      ensures old(job).None? || shouldEndAsyncThread ==> resolved == old(resolved)
      ensures old(job).Some? && !shouldEndAsyncThread ==>
        && |resolved| == |old(resolved)| + 1 && resolved[..|old(resolved)|] == old(resolved)
        && var last := resolved[|old(resolved)|];
           last.job == old(job).value && last.job.index < |reader.index|
           && exists config :: RecordHolds(last.record, reader.index, last.job.index,
                                           old(reader.firstSkippedTrailingBlockIndex), config)
    {
      hide AsyncInv, ReadAt, Inv, Remembers, Decoded, ConfigUsed, RecordHolds;
      InvReady(Config(), State());
      StepKeeps(Config(), State(), Perform);
      if job.None? {
        return;
      }
      if !shouldEndAsyncThread {
        ghost var at := Context(|reader.trace|, reader.firstSkippedTrailingBlockIndex);
        var out := reader.ReadRecord(AsInt32(job.value.index));
        resolved := resolved + [Resolution(job.value, out.record)];
        contexts := contexts + [at];
      }
      job := None;
    }

    /** The main thread changes trailing limits, also while jobs are queued. */
    method SkipTrailingBlocks(typeId: nat, recordType: Option<RecordType>, first: nat)
      requires Valid()
      modifies reader
      ensures Valid() && AsyncInv(Config(), old(State()))
      ensures State() == Step(Config(), old(State()), SkipTrailing(typeId, recordType, first))
      ensures reader.firstSkippedTrailingBlockIndex
           == SkipFrom(old(reader.firstSkippedTrailingBlockIndex), typeId, recordType, first)
    {
      hide AsyncInv, SkipFrom, Inv, Remembers;
      StepKeeps(Config(), State(), SkipTrailing(typeId, recordType, first));
      reader.SkipTrailingBlocks(typeId, recordType, first);
    }

    /** The main thread enables a stream. */
    method EnableStream(stream: StreamId)
      requires Valid()
      modifies reader
      ensures Valid() && AsyncInv(Config(), old(State()))
      ensures State() == Step(Config(), old(State()), Event.Enable(stream))
      ensures reader.enabledStreams == old(reader.enabledStreams) + {stream}
    {
      hide AsyncInv, Inv, Remembers;
      StepKeeps(Config(), State(), Event.Enable(stream));
      reader.EnableStream(stream);
    }

    method Cleanup()
      requires Valid()
      modifies this`shouldEndAsyncThread
      ensures Valid() && AsyncInv(Config(), old(State())) && State() == Step(Config(), old(State()), Event.Cleanup)
      ensures shouldEndAsyncThread
    {
      StepKeeps(Config(), State(), Event.Cleanup);
      shouldEndAsyncThread := true;
    }
  }

  lemma InvReady(c: Setup, s: AsyncState)
    requires AsyncInv(c, s)
    ensures InRange(c.index, s.reader) && s.reader.next <= |c.index|
    ensures s.inHand.Some? ==> s.inHand.value.index < |c.index| <= UINT32_MAX
  {
  }
}
