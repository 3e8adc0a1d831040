/** The writer and its streams as the program runs them: objects that share one timestamp gate. */
module VRSWriter {
  import opened Prelude
  import opened WriterModel
  import opened WriterProofs

  /** An argument of a create-record call: a metadata layout, known by identity, a data array, or neither. */
  datatype Source = Layout(id: nat) | Array(id: nat) | Other

  datatype Parsed = DataSources(arrays: seq<nat>) | WrongCount | WrongOrder | TooManyArrays

  function Layouts(srcs: seq<Source>): seq<nat> {
    if srcs == [] then []
    else Layouts(srcs[..|srcs| - 1]) + (if srcs[|srcs| - 1].Layout? then [srcs[|srcs| - 1].id] else [])
  }

  function Arrays(srcs: seq<Source>): seq<nat> {
    if srcs == [] then []
    else Arrays(srcs[..|srcs| - 1]) + (if srcs[|srcs| - 1].Array? then [srcs[|srcs| - 1].id] else [])
  }

  /**
   The layouts must be the record format's own, in order, with at most three arrays anywhere among them;
   other arguments are ignored.
   */
  predicate ArgumentsMatch(expected: seq<nat>, srcs: seq<Source>) {
    Layouts(srcs) == expected && |Arrays(srcs)| <= 3
  }

  /**
   Each argument counts on its own, in the order given: a layout among the layouts, an array among the arrays,
   anything else among neither.
   */
  lemma {:induction false} EachArgumentCounts(a: seq<Source>, b: seq<Source>, id: nat)
    ensures Layouts(a + b) == Layouts(a) + Layouts(b) && Arrays(a + b) == Arrays(a) + Arrays(b)
    ensures Layouts([Layout(id)]) == [id] && Layouts([Array(id)]) == [] == Layouts([Other])
    ensures Arrays([Array(id)]) == [id] && Arrays([Layout(id)]) == [] == Arrays([Other])
    decreases |b|
  {
    if b == [] {
      assert a + b == a;
    } else {
      EachArgumentCounts(a, b[..|b| - 1], id);
      assert (a + b)[..|a + b| - 1] == a + b[..|b| - 1];
    }
    assert [Layout(id)][..0] == [] && [Array(id)][..0] == [] && [Source.Other][..0] == [];
  }

  method ParseCreateRecordParams(expected: seq<nat>, srcs: seq<Source>) returns (r: Parsed)
    ensures r.DataSources? <==> ArgumentsMatch(expected, srcs)
    ensures r.DataSources? <==> Layouts(srcs) == expected && |Arrays(srcs)| <= 3
    ensures r == TooManyArrays <==> Layouts(srcs) == expected && |Arrays(srcs)| > 3
    ensures r.DataSources? ==> r.arrays == Arrays(srcs)
    ensures r == WrongCount <==> |Layouts(srcs)| != |expected|
    ensures r == WrongOrder <==> |Layouts(srcs)| == |expected| && Layouts(srcs) != expected
  {
    var dataLayouts, dataSrcs := [], [];
    for i := 0 to |srcs|
      invariant dataLayouts == Layouts(srcs[..i]) && dataSrcs == Arrays(srcs[..i])
    {
      assert srcs[..i + 1][..i] == srcs[..i];
      if srcs[i].Layout? {
        dataLayouts := dataLayouts + [srcs[i].id];
      } else if srcs[i].Array? {
        dataSrcs := dataSrcs + [srcs[i].id];
      }
    }
    assert srcs[..|srcs|] == srcs;
    if |dataLayouts| != |expected| {
      return WrongCount;
    }
    for i := 0 to |expected|
      invariant dataLayouts[..i] == expected[..i]
    {
      if dataLayouts[i] != expected[i] {
        return WrongOrder;
      }
    }
    assert dataLayouts[..|expected|] == dataLayouts && expected[..|expected|] == expected;
    if |dataSrcs| > 3 {
      return TooManyArrays;
    }
    return DataSources(dataSrcs);
  }

  class Writer {
    var fileCreated: bool
    var lastFlushedTimestamp: Option<real>
    var tags: map<string, string>
    var native: NativeWriter
    /** The streams on which a configuration record has been created. */
    var configured: set<nat>
    /** Every record accepted so far, in order. */
    var accepted: seq<Record>
    /** What the callers did, refused calls included. */
    ghost var ops: seq<Op>

    ghost function State(): WriterState
      reads this
    {
      WriterState(fileCreated, lastFlushedTimestamp, tags, configured, native, accepted)
    }

    ghost predicate Valid()
      reads this
    {
      LegalRun(ops) && State() == StateAfter(ops)
    }

    constructor ()
      ensures Valid() && State() == NEW_WRITER && ops == []
    {
      fileCreated, lastFlushedTimestamp, tags, configured := false, None, map[], {};
      native := NativeWriter(None, [], []);
      accepted, ops := [], [];
    }

    /** Lets a timestamp through exactly when no flush that went through is after it. */
    method AssertTimestamp(timestamp: real) returns (ok: bool)
      requires Valid()
      ensures ok <==> InOrder(lastFlushedTimestamp, timestamp)
      ensures ok <==> forall f | f in FlushTimes(ops) :: f <= timestamp
    {
      GateIsHistory(ops, timestamp);
      ok := !(lastFlushedTimestamp.Some? && lastFlushedTimestamp.value > timestamp);
    }

    /** Flushes the records due. The native writer's `batch`, and the result of creating the file, are given. */
    method FlushRecords(timestamp: real, createStatus: int, batch: seq<Record>) returns (status: Status)
      requires Valid() && NativeBatch(native.queue, timestamp, batch)
      modifies this
      ensures Valid() && ops == old(ops) + [Flush(timestamp, createStatus, batch)]
      ensures (State(), status) == Step(old(State()), Flush(timestamp, createStatus, batch))
      ensures status == OrderError <==> TooEarly(old(ops), timestamp)
      ensures status == CreateFailed <==> !TooEarly(old(ops), timestamp) && !Flushed(old(ops)) && createStatus != 0
      ensures status == Done <==> !TooEarly(old(ops), timestamp) && (Flushed(old(ops)) || createStatus == 0)
      ensures Sorted(native.file)
      ensures status == Done ==>
        (multiset(native.file) == multiset(UpTo(accepted, timestamp)) <==>
         FirstFlushCreated(ops) || UpTo(accepted, timestamp) == [])
    {
      hide UpTo, Beyond, Sorted, FlushInv, FirstFlushCreated, FlushTimes, NativeBatch, Create;
      hide LegalRun, StateAfter, NativeWrite, TooEarly, Flushed, InOrder;
      FlushStatusIff(ops, timestamp, createStatus, batch);
      ghost var op := Flush(timestamp, createStatus, batch);
      RunExtends(ops, op);
      var inOrder := AssertTimestamp(timestamp);
      ops := ops + [op];
      assert ops[..|ops| - 1] == old(ops);
      if inOrder {
        status := CreateFile(createStatus);
        if status == Done {
          lastFlushedTimestamp := Some(timestamp);
          native := NativeWrite(native, timestamp, batch);
        }
      } else {
        status := OrderError;
      }
      FileSorted(ops);
      FlushCompleteIff(ops);
    }

    /** Creates the file the first time; the flag is set before the result is known. */
    method CreateFile(createStatus: int) returns (status: Status)
      modifies this`fileCreated, this`native
      ensures fileCreated
      ensures status == if !old(fileCreated) && createStatus != 0 then CreateFailed else Done
      ensures native ==
        if !old(fileCreated) && createStatus == 0 then old(native).(header := Some(tags)) else old(native)
    {
      status := Done;
      if !fileCreated {
        fileCreated := true;
        if createStatus != 0 {
          return CreateFailed;
        }
        native := native.(header := Some(tags));
      }
    }

    method SetTag(name: string, value: string) returns (status: Status)
      requires Valid()
      modifies this
      ensures Valid() && ops == old(ops) + [Op.SetTag(name, value)]
      ensures (State(), status) == Step(old(State()), Op.SetTag(name, value))
      ensures native.header.Some? ==> native.header.value == tags
      ensures tags == TagsFrom(ops)
      ensures status == TooLate <==> Flushed(old(ops))
      ensures status == Done <==> !Flushed(old(ops))
      ensures status == Done ==> tags == old(tags)[name := value]
      ensures status == TooLate ==> State() == old(State())
    {
      hide Flushed, TagsFrom, LegalRun, StateAfter;
      RunExtends(ops, Op.SetTag(name, value));
      TagStatusIff(ops, name, value);
      ops := ops + [Op.SetTag(name, value)];
      assert ops[..|ops| - 1] == old(ops);
      if fileCreated {
        status := TooLate;
      } else {
        tags := tags[name := value];
        status := Done;
      }
      HeaderHasAllTags(ops);
      TagsAre(ops);
    }

    /** Creating a record on a stream: the gate, then the configuration check, then the arguments. */
    method CreateRecord(stream: nat, t: RecordType, expected: seq<nat>, timestamp: real, srcs: seq<Source>)
      returns (status: Status)
      requires Valid()
      modifies this
      ensures Valid() && ops == old(ops) + [Op.CreateRecord(stream, t, timestamp, ArgumentsMatch(expected, srcs))]
      ensures (State(), status)
           == Step(old(State()), Op.CreateRecord(stream, t, timestamp, ArgumentsMatch(expected, srcs)))
      ensures status != Done ==> State() == old(State())
      ensures
        var early, unconfigured := TooEarly(old(ops), timestamp), t == DATA && !HasConfiguration(old(accepted), stream);
        && (status == OrderError <==> early)
        && (status == NotConfigured <==> !early && unconfigured)
        && (status == BadArguments <==> !early && !unconfigured && !ArgumentsMatch(expected, srcs))
        && (status == Done <==> !early && !unconfigured && ArgumentsMatch(expected, srcs))
      ensures status == Done ==>
        var r := Record(|old(accepted)|, stream, t, timestamp);
        accepted == old(accepted) + [r] && native == old(native).(queue := old(native).queue + [r])
      ensures accepted == AcceptedFrom(ops)
    {
      hide TooEarly, HasConfiguration, LegalRun, StateAfter, AcceptedFrom, FlushTimes, InOrder;
      CreateStatusIff(ops, stream, t, timestamp, ArgumentsMatch(expected, srcs));
      RunExtends(ops, Op.CreateRecord(stream, t, timestamp, ArgumentsMatch(expected, srcs)));
      AcceptedIs(ops + [Op.CreateRecord(stream, t, timestamp, ArgumentsMatch(expected, srcs))]);
      var inOrder := AssertTimestamp(timestamp);
      ops := ops + [Op.CreateRecord(stream, t, timestamp, ArgumentsMatch(expected, srcs))];
      assert ops[..|ops| - 1] == old(ops);
      if !inOrder {
        return OrderError;
      }
      if t == DATA && stream !in configured {
        return NotConfigured;
      }
      var parsed := ParseCreateRecordParams(expected, srcs);
      if !parsed.DataSources? {
        return BadArguments;
      }
      var r := Record(|accepted|, stream, t, timestamp);
      accepted := accepted + [r];
      native := native.(queue := native.queue + [r]);
      if t == CONFIGURATION {
        configured := configured + {stream};
      }
      return Done;
    }
  }
}
