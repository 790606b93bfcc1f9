/** What the portable reader tells its caller: which error names which fault, and what a public
    result says. */
module ReaderErrors {
  import opened Options
  import opened Arithmetic
  import opened Counter
  import opened ReaderTraces
  import opened ReaderSafety

  /** The outcome that a fault of a chunk has to end in. */
  predicate Names(fault: Fault, o: Outcome) {
    match fault
    case NoFault => false
    case FillError(code) => o == Failure(code)
    case FillUnwinds => o == Unwound
    case SliceMissing => o == Failure(3)
    case FirstMissing => o == Failure(3)
    case WriteError(_) => o == Failure(4)
    case CopyUnwinds => o == Unwound
  }

  lemma ChunkNames(count: nat, done: nat, mask: Option<int>, iteration: nat, fault: Fault)
    ensures var o := Chunk(count, done, mask, iteration, fault).outcome; !o.Success? ==> Names(fault, o)
  {
  }

  /** The first struck chunk of those from `first` on names the outcome. */
  ghost predicate FirstNames(faults: Faults, first: nat, count: nat, o: Outcome) {
    exists i :: first <= i < first + count && Smooth(faults, first, i - first) && Names(faults(i), o)
  }

  lemma FirstNamesLater(faults: Faults, first: nat, count: nat, o: Outcome)
    requires count > 0 && !Strikes(faults(first), false) && FirstNames(faults, first + 1, count - 1, o)
    ensures FirstNames(faults, first, count, o)
  {
    var i :| first + 1 <= i < first + count && Smooth(faults, first + 1, i - first - 1) && Names(faults(i), o);
    SmoothStep(faults, first, i - first - 1);
  }

  lemma {:induction false} DeliverNames(rate: nat, length: nat, done: nat, iteration: nat, faults: Faults)
    requires rate > 0 && done <= length
    ensures var o := Deliver(rate, length, done, iteration, faults).outcome;
      !o.Success? ==> FirstNames(faults, iteration, Chunks(rate, length - done), o)
    decreases length - done
  {
    DeliverStep(rate, length, done, iteration, faults);
    if done < length {
      var n := if rate < length - done then rate else length - done;
      var o := Deliver(rate, length, done, iteration, faults).outcome;
      ChunkNames(n, done, None, iteration, faults(iteration));
      assert Chunks(rate, length - done) == 1 + Chunks(rate, length - (done + n));
      ChunkStrikes(n, done, iteration, faults(iteration));
      if !Chunk(n, done, None, iteration, faults(iteration)).outcome.Success? {
        assert Smooth(faults, iteration, 0);
      } else {
        DeliverNames(rate, length, done + n, iteration + 1, faults);
        hide FirstNames, Deliver;
        if !o.Success? { FirstNamesLater(faults, iteration, Chunks(rate, length - done), o); }
      }
    }
  }

  lemma ChunkStrikes(count: nat, done: nat, iteration: nat, fault: Fault)
    ensures Chunk(count, done, None, iteration, fault).outcome.Success? <==> !Strikes(fault, false)
  {
  }

  /** Each failing call names its first fault: an output that cannot be cleared, a reader that is no
      longer live, a counter without room, or the first chunk that is struck. */
  lemma GuardedNames(rate: nat, s: Status, call: Call)
    requires rate > 0 && s.counter <= MAXIMUM
    ensures var o := Guarded(rate, s, call).outcome;
      !o.Success? ==>
        if call.length > 0 && call.clearError.Some? then o == Failure(4)
        else if !s.active then o == Failure(0)
        else if s.counter + WholeBytes(call) > MAXIMUM then o == Failure(2)
        else FirstNames(call.faults, 1, 1 + Chunks(rate, WholeBytes(call)), o)
  {
    RefusedTrace(rate, s, call);
    OwedIsWhole(call);
    if !(call.length > 0 && call.clearError.Some?) && s.active {
      InnerNames(rate, s.counter, call);
      hide Inner, FirstNames, Ending, ClearOutput;
    }
  }

  /** The whole bytes of a request: all bits but those of a last byte that is not full. */
  function WholeBytes(call: Call): nat {
    if call.valid.None? || call.length == 0 || call.valid.value == 0 then call.length
    else if call.valid.value <= 8 then (8 * (call.length - 1) + call.valid.value) / 8
    else call.length - 1
  }

  lemma OwedIsWhole(call: Call)
    ensures Owed(call) == WholeBytes(call)
  {
  }

  lemma InnerNames(rate: nat, counter: nat, call: Call)
    requires rate > 0 && counter <= MAXIMUM
    ensures var o := Inner(rate, counter, call).outcome;
      !o.Success? ==>
        if counter + Owed(call) > MAXIMUM then o == Failure(2)
        else FirstNames(call.faults, 1, 1 + Chunks(rate, Owed(call)), o)
  {
    var whole := Owed(call);
    var o := Inner(rate, counter, call).outcome;
    if counter + whole <= MAXIMUM && call.length > 0 {
      DeliverNames(rate, whole, 0, 1, call.faults);
      var body := Deliver(rate, whole, 0, 1, call.faults);
      if !body.outcome.Success? {
        FirstAmongMore(call.faults, Chunks(rate, whole), body.outcome);
      } else if whole < call.length {
        var t := BytesFollow(Goal(rate, counter, whole, call.length, 0), call.faults);
        TailNames(call, whole, Chunks(rate, whole), Some(Pow2(call.valid.value) - 1));
      }
      hide FirstNames, Deliver, Chunk, Smooth, Chunks;
    }
  }

  lemma FirstAmongMore(faults: Faults, count: nat, o: Outcome)
    requires FirstNames(faults, 1, count, o)
    ensures FirstNames(faults, 1, 1 + count, o)
  {
    var i :| 1 <= i < 1 + count && Smooth(faults, 1, i - 1) && Names(faults(i), o);
  }

  lemma TailNames(call: Call, whole: nat, count: nat, mask: Option<int>)
    requires Smooth(call.faults, 1, count)
    ensures var o := Chunk(1, whole, mask, 1 + count, call.faults(1 + count)).outcome;
      !o.Success? ==> FirstNames(call.faults, 1, 1 + count, o)
  {
    ChunkNames(1, whole, mask, 1 + count, call.faults(1 + count));
  }

  /** What a consuming call tells behind its cleanup: the output and its length, or an error that the
      accelerated build numbers from twelve, or nothing while it unwinds. */
  lemma ConsumedTells(rate: nat, s: Status, call: Call, enabled: bool, fault: bool)
    requires rate > 0 && call.valid.Some?
    ensures var r := Consumed(rate, s, call, enabled, fault);
      var shape := if call.length == 0 then call.valid.value == 0
        else 1 <= call.valid.value <= 8 && 8 * (call.length - 1) + call.valid.value <= 0xffff_ffff_ffff_ffff;
      if fault then r.outcome == Unwound && r.result == []
      else if !shape then
        r.head == [ResultError(if enabled then 18 else 6), ResultTag(2)] && r.result == [] && !r.outcome.Success?
      else
        && r.outcome == Guarded(rate, s, call).outcome
        && match r.outcome
           case Success =>
             r.result == if call.length > 0 then [ResultOutput, ResultLength(call.length), ResultTag(1)]
                         else [ResultTag(0)]
           case Failure(code) =>
             var number := if code == 0 then 0 else if code == 1 then 3 else if code <= 3 then 4 else 5;
             r.result == [ResultError(if enabled then number + 12 else number), ResultTag(2)]
           case Unwound => r.result == []
  {
    hide Guarded;
  }

  // ---------- the order of a call ----------

  /** How far a guarded call has come. */
  datatype Stage = Outside | Begun | Armed | Working | Finished | Over

  /** Events of the operation itself. */
  predicate Work(e: Event) {
    e.CounterRead? || e.CounterWrite? || e.Fill? || e.SliceFailure? || e.FirstFailure? || e.Mask? || e.WriteFailure?
    || e.Copy? || e.Progress? || e.WipeStaging?
  }

  /** A call begins, clears the output, and arms its guard by deactivating the reader before it
      operates; only a finished operation makes the reader active again. */
  function Goes(stage: Stage, e: Event): Option<Stage> {
    match stage
    case Outside => if e.Begin? then Some(Begun) else None
    case Begun =>
      if e.WipeOutput? || e.ClearError? then Some(Begun)
      else if e == SetActive(false) then Some(Armed)
      else if e.ResultError? then Some(Over)
      else None
    case Armed =>
      if e.Operation? then Some(Working) else if e.WipeOwner? then Some(Armed)
      else if e.ResultError? then Some(Over) else None
    case Working =>
      if Work(e) then Some(Working) else if e.Finish? then Some(Finished)
      else if e.WipeOutput? || e.WipeOwner? || e.ResultError? then Some(Over)
      else None
    case Finished => if e == SetActive(true) then Some(Over) else None
    case Over =>
      if e.ResultError? || e.ResultTag? || e.ResultOutput? || e.ResultLength? || e.WipeOutput? || e.WipeOwner?
      then Some(Over) else None
  }

  function Ordered(stage: Stage, trace: seq<Event>): Option<Stage>
    decreases |trace|
  {
    if trace == [] then Some(stage)
    else if Goes(stage, trace[0]).None? then None
    else Ordered(Goes(stage, trace[0]).value, trace[1..])
  }

  lemma {:induction false} OrderedAppend(stage: Stage, a: seq<Event>, b: seq<Event>)
    requires Ordered(stage, a).Some?
    ensures Ordered(stage, a + b) == Ordered(Ordered(stage, a).value, b)
    decreases |a|
  {
    if a == [] {
      assert a + b == b;
    } else {
      assert (a + b)[0] == a[0] && (a + b)[1..] == a[1..] + b;
      OrderedAppend(Goes(stage, a[0]).value, a[1..], b);
    }
  }

  /** Events that all leave the stage as it is. */
  lemma {:induction false} Stays(stage: Stage, trace: seq<Event>)
    requires forall e :: e in trace ==> Goes(stage, e) == Some(stage)
    ensures Ordered(stage, trace) == Some(stage)
    decreases |trace|
  {
    if trace != [] { Stays(stage, trace[1..]); }
  }

  lemma ChunkWorks(count: nat, done: nat, mask: Option<int>, iteration: nat, fault: Fault)
    ensures forall e :: e in Chunk(count, done, mask, iteration, fault).trace ==> Work(e)
  {
  }

  lemma {:induction false} DeliverWorks(rate: nat, length: nat, done: nat, iteration: nat, faults: Faults)
    requires rate > 0 && done <= length
    ensures forall e :: e in Deliver(rate, length, done, iteration, faults).trace ==> Work(e)
    decreases length - done
  {
    DeliverStep(rate, length, done, iteration, faults);
    if done < length {
      var n := Min(rate, length - done);
      ChunkWorks(n, done, None, iteration, faults(iteration));
      hide Deliver, Chunk, Work;
      if Chunk(n, done, None, iteration, faults(iteration)).outcome == Success {
        DeliverWorks(rate, length, done + n, iteration + 1, faults);
      }
    }
  }

  lemma InnerWorks(rate: nat, counter: nat, call: Call)
    requires rate > 0
    ensures forall e :: e in Inner(rate, counter, call).trace ==> Work(e)
  {
    var whole := Owed(call);
    DeliverWorks(rate, whole, 0, 1, call.faults);
    if call.valid.Some? && whole < call.length {
      var bytes := Bytes(rate, counter, whole, call.faults);
      ChunkWorks(1, whole, Some(Pow2(call.valid.value) - 1), bytes.iteration, call.faults(bytes.iteration));
    }
    hide Deliver, Chunk;
  }

  lemma EndingOrdered(o: Outcome, length: nat)
    ensures Ordered(Working, Ending(o, length)) == Some(Over)
  {
    match o {
      case Success =>
        var rest := Hands(length);
        assert [Finish, SetActive(true)] + rest == [Finish] + ([SetActive(true)] + rest);
        assert Ordered(Working, [Finish]) == Some(Finished);
        OrderedAppend(Working, [Finish], [SetActive(true)] + rest);
        assert Ordered(Finished, [SetActive(true)]) == Some(Over);
        OrderedAppend(Finished, [SetActive(true)], rest);
        Stays(Over, rest);
      case Failure(code) => FirstOver(ClearOutput(length) + Reports(code) + Cleanup());
      case Unwound =>
        CleanupNotEmpty();
        FirstOver(ClearOutput(length) + Cleanup());
    }
  }

  lemma CleanupNotEmpty()
    ensures Cleanup() != [] && forall e :: e in Cleanup() ==> e.WipeOwner?
  {
  }

  lemma FirstOver(trace: seq<Event>)
    requires trace != [] && forall e :: e in trace ==> e.WipeOutput? || e.WipeOwner? || e.ResultError? || e.ResultTag?
    requires !trace[0].ResultTag?
    ensures Ordered(Working, trace) == Some(Over)
  {
    Stays(Over, trace[1..]);
  }

  /** Every guarded call keeps to this order, whatever fails. */
  lemma GuardedIsOrdered(rate: nat, s: Status, call: Call)
    requires rate > 0
    ensures Ordered(Outside, Guarded(rate, s, call).trace) == Some(Over)
  {
    RefusedTrace(rate, s, call);
    var clear := ClearOutput(call.length);
    assert Ordered(Outside, [Begin]) == Some(Begun);
    Stays(Begun, clear);
    CleanupNotEmpty();
    if call.length > 0 && call.clearError.Some? {
      var first := [Begin, ClearError(call.clearError.value), SetActive(false)];
      ClearRefused(call.clearError.value);
      hide Guarded, Cleanup, Reports;
      Stays(Armed, Cleanup());
      OrderedAppend(Outside, first, Cleanup());
      assert Ordered(Armed, Reports(4)) == Some(Over) by { ReportsOver(Armed); }
      OrderedAppend(Outside, first + Cleanup(), Reports(4));
    } else if !s.active {
      hide Guarded, Reports;
      OrderedAppend(Outside, [Begin], clear);
      assert Ordered(Begun, Reports(0)) == Some(Over) by { ReportsOver(Begun); }
      OrderedAppend(Outside, [Begin] + clear, Reports(0));
      Stays(Over, clear);
      OrderedAppend(Outside, [Begin] + clear + Reports(0), clear);
    } else {
      LiveIsOrdered(rate, s, call);
    }
  }

  lemma ClearRefused(code: Code)
    ensures Ordered(Outside, [Begin, ClearError(code), SetActive(false)]) == Some(Armed)
  {
    var a, b := [Begin, ClearError(code), SetActive(false)], [ClearError(code), SetActive(false)];
    var c := [SetActive(false)];
    assert a[1..] == b && b[1..] == c && c[1..] == [];
    assert Ordered(Armed, []) == Some(Armed);
    assert Ordered(Begun, c) == Some(Armed);
    assert Ordered(Begun, b) == Some(Armed);
  }

  lemma ReportsOver(stage: Stage)
    requires stage == Begun || stage == Armed
    ensures forall code: nat :: Ordered(stage, Reports(code)) == Some(Over)
  {
    forall code: nat ensures Ordered(stage, Reports(code)) == Some(Over) {
      assert Reports(code)[1..] == [ResultTag(2)];
      Stays(Over, [ResultTag(2)]);
    }
  }

  lemma LiveIsOrdered(rate: nat, s: Status, call: Call)
    requires rate > 0 && s.active && (call.length > 0 ==> call.clearError.None?)
    ensures Ordered(Outside, Guarded(rate, s, call).trace) == Some(Over)
  {
    var inner := Inner(rate, s.counter, call);
    var clear, arm, end := ClearOutput(call.length), [SetActive(false), Operation], Ending(inner.outcome, call.length);
    InnerWorks(rate, s.counter, call);
    Stays(Begun, clear);
    assert Ordered(Outside, [Begin]) == Some(Begun);
    assert Ordered(Begun, arm) == Some(Working) by { assert arm[1..] == [Operation]; }
    EndingOrdered(inner.outcome, call.length);
    hide Inner, Ending, ClearOutput;
    assert Guarded(rate, s, call).trace == [Begin] + clear + arm + inner.trace + end;
    OrderedAppend(Outside, [Begin], clear);
    OrderedAppend(Outside, [Begin] + clear, arm);
    Stays(Working, inner.trace);
    OrderedAppend(Outside, [Begin] + clear + arm, inner.trace);
    OrderedAppend(Outside, [Begin] + clear + arm + inner.trace, end);
  }
}
