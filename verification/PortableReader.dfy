/** The portable secret reader step by step: the chunk loop, the final byte, the guard and the
    consuming call, each proved to leave exactly the trace that its specification names. */
module PortableReader {
  import opened Options
  import opened Arithmetic
  import opened Counter
  import opened ReaderTraces
  import opened ReaderSafety

  class Reader {
    const rate: nat
    var active: bool
    var counter: nat
    var progress: nat
    var iteration: nat
    var events: seq<Event>

    constructor (rate: nat, counter: nat)
      ensures this.rate == rate && active && this.counter == counter && events == []
    {
      this.rate := rate;
      this.counter := counter;
      active := true;
      events, progress, iteration := [], 0, 1;
    }

    ghost predicate Valid()
      reads this
    {
      rate > 0 && counter <= MAXIMUM
    }

    function State(): Status
      reads this
    {
      Status.Status(active, counter)
    }

    /** What one chunk adds to the events and to the initialized prefix. */
    twostate predicate Added(r: Ran)
      reads this
    {
      events == old(events) + r.trace && progress == r.progress && iteration == r.iteration
    }

    method WriteChunk(count: nat, mask: Option<int>, fault: Fault) returns (o: Outcome)
      modifies this`events, this`progress, this`iteration
      ensures var r := Chunk(count, old(progress), mask, old(iteration), fault); Added(r) && o == r.outcome
    {
      events, iteration := events + [Fill(count)], iteration + 1;
      if fault.FillError? { return Failure(fault.code); }
      if fault.FillUnwinds? { return Unwound; }
      if mask.Some? {
        if fault.FirstMissing? {
          events := events + [FirstFailure];
          return Failure(3);
        }
        events := events + [Mask(mask.value)];
      } else if fault.SliceMissing? {
        events := events + [SliceFailure];
        return Failure(3);
      }
      if fault.WriteError? {
        events := events + [WriteFailure(fault.code), WipeStaging];
        return Failure(4);
      }
      events := events + [Copy(count)];
      if fault.CopyUnwinds? { return Unwound; }
      progress := progress + count;
      events := events + [Progress(progress), WipeStaging];
      o := Success;
    }

    method Squeeze(length: nat, faults: Faults) returns (o: Outcome)
      requires Valid() && progress == 0 && iteration == 1
      modifies this`events, this`progress, this`iteration, this`counter
      ensures var r := Bytes(rate, old(counter), length, faults);
        && Added(r) && o == r.outcome
        && counter == if r.outcome.Success? then old(counter) + length else old(counter)
      ensures Valid()
    {
      hide Chunk, Deliver;
      events := events + [CounterRead];
      if counter + length > MAXIMUM { return Failure(2); }
      ghost var begun, whole := events, Deliver(rate, length, 0, 1, faults);
      assert begun + whole.trace == events + whole.trace;
      var remaining: nat := length;
      while remaining > 0
        invariant Valid() && counter == old(counter) && progress + remaining == length
        invariant var rest := Deliver(rate, length, progress, iteration, faults);
          begun + whole.trace == events + rest.trace && whole == rest.(trace := whole.trace)
      {
        var n := Min(rate, remaining);
        DeliverStep(rate, length, progress, iteration, faults);
        ghost var before := events;
        ghost var chunk := Chunk(n, progress, None, iteration, faults(iteration));
        o := WriteChunk(n, None, faults(iteration));
        assert events == before + chunk.trace;
        if o != Success {
          assert events == begun + whole.trace == old(events) + ([CounterRead] + whole.trace + []);
          return;
        }
        assert before + (chunk.trace + Deliver(rate, length, progress, iteration, faults).trace)
          == before + chunk.trace + Deliver(rate, length, progress, iteration, faults).trace;
        remaining := remaining - n;
      }
      DeliverStep(rate, length, progress, iteration, faults);
      assert events == begun + whole.trace;
      counter := counter + length;
      events := events + [CounterWrite(counter)];
      assert events == old(events) + ([CounterRead] + whole.trace + [CounterWrite(counter)]);
      o := Success;
    }

    method SqueezeFinal(length: nat, valid: nat, faults: Faults) returns (o: Outcome)
      requires Valid() && progress == 0 && iteration == 1 && valid <= 8
      modifies this`events, this`progress, this`iteration, this`counter
      ensures var r := Bits(rate, old(counter), length, valid, faults);
        && Added(r) && o == r.outcome
        && counter == if r.progress >= Prefix(length, valid) then old(counter) + Prefix(length, valid) else old(counter)
      ensures Valid()
    {
      hide Bytes, Follow, Chunk;
      var complete := Prefix(length, valid);
      events := events + [CounterRead];
      var bits := complete * 8 + if valid == 8 then 0 else valid;
      assert bits / 8 == complete;
      if counter + bits / 8 > MAXIMUM { return Failure(2); }
      ghost var whole := Bytes(rate, counter, complete, faults);
      ghost var t := BytesFollow(Goal(rate, counter, complete, length, 0), faults);
      o := Squeeze(complete, faults);
      assert events == old(events) + ([CounterRead] + whole.trace);
      if o != Success || complete == length { return; }
      ghost var last := Chunk(1, complete, Some(Pow2(valid) - 1), iteration, faults(iteration));
      TailProgress(complete, Some(Pow2(valid) - 1), iteration, faults(iteration));
      o := WriteChunk(1, Some(Pow2(valid) - 1), faults(iteration));
      assert events == old(events) + ([CounterRead] + whole.trace + last.trace);
    }

    /** Clears every region of the owner; the counter is one of them. */
    method WipeAll()
      modifies this`events, this`counter, this`active
      ensures events == old(events) + Cleanup() && State() == DEAD
    {
      var c := Cleanup();
      for k := 0 to |c|
        invariant events == old(events) + c[..k]
      {
        events := events + [WipeOwner(Regions()[k].0, Regions()[k].1)];
        assert c[..k + 1] == c[..k] + [c[k]];
      }
      assert c[..|c|] == c;
      counter, active := 0, false;
    }

    /** The operation under the guard. */
    method Operate(call: Call) returns (o: Outcome)
      requires Valid() && progress == 0 && iteration == 1 && call.Typed()
      modifies this`events, this`progress, this`iteration, this`counter
      ensures var r := Inner(rate, old(counter), call);
        && events == old(events) + r.trace && o == r.outcome
        && (o.Success? ==> counter == old(counter) + Owed(call))
      ensures Valid()
    {
      hide Bits, Bytes, Follow, Smooth, Chunks, Strikes;
      if call.length == 0 {
        events := events + [CounterRead];
        o := Success;
      } else if call.valid.None? {
        o := Squeeze(call.length, call.faults);
      } else {
        ghost var t := BitsFollow(Goal(rate, counter, Owed(call), call.length, Pow2(call.valid.value) - 1),
          call.valid.value, call.faults);
        o := SqueezeFinal(call.length, call.valid.value, call.faults);
      }
    }

    /** A guarded call: the guard is armed by deactivating the reader, and only success disarms it. */
    method Secret(call: Call) returns (o: Outcome)
      requires Valid() && call.Typed()
      modifies this
      ensures var d := Guarded(rate, old(State()), call);
        events == old(events) + d.trace && State() == d.status && o == d.outcome
      ensures Valid()
    {
      hide Guarded, Inner, Owed, Cleanup, Hands, Reports, ClearOutput;
      RefusedTrace(rate, State(), call);
      events := events + [Begin];
      if call.length > 0 && call.clearError.Some? {
        events := events + [ClearError(call.clearError.value), SetActive(false)];
        assert events == old(events) + [Begin, ClearError(call.clearError.value), SetActive(false)];
        WipeAll();
        events := events + Reports(4);
        assert events == old(events) + Guarded(rate, old(State()), call).trace;
        return Failure(4);
      }
      progress, iteration := 0, 1;
      events := events + ClearOutput(call.length);
      if !active {
        events := events + Reports(0) + ClearOutput(call.length);
        assert events == old(events) + Guarded(rate, old(State()), call).trace;
        return Failure(0);
      }
      o := Live(call);
      assert events == old(events) + Guarded(rate, old(State()), call).trace by {
        assert [Begin] + ClearOutput(call.length)
          + Guarded(rate, old(State()), call).trace[1 + |ClearOutput(call.length)|..]
            == Guarded(rate, old(State()), call).trace;
      }
    }

    /** A live call once its output is clear. */
    method Live(call: Call) returns (o: Outcome)
      requires Valid() && call.Typed() && active && progress == 0 && iteration == 1
      requires call.length > 0 ==> call.clearError.None?
      modifies this
      ensures var d, begun := Guarded(rate, old(State()), call), [Begin] + ClearOutput(call.length);
        && begun <= d.trace && events == old(events) + d.trace[|begun|..] && State() == d.status && o == d.outcome
      ensures Valid()
    {
      hide Inner, Owed, Ending, ClearOutput;
      ghost var inner := Inner(rate, counter, call);
      active := false;
      events := events + [SetActive(false), Operation];
      o := Operate(call);
      End(o, call.length);
      ghost var begun := [Begin] + ClearOutput(call.length);
      assert begun + [SetActive(false), Operation] + inner.trace + Ending(o, call.length)
        == begun + ([SetActive(false), Operation] + inner.trace + Ending(o, call.length));
    }

    method End(o: Outcome, length: nat)
      requires Valid()
      modifies this`events, this`counter, this`active
      ensures events == old(events) + Ending(o, length)
      ensures State() == if o.Success? then Status.Status(true, old(counter)) else DEAD
      ensures Valid()
    {
      hide Hands, ClearOutput, Reports, Cleanup;
      if o.Success? {
        active := true;
        events := events + [Finish, SetActive(true)] + Hands(length);
      } else {
        events := events + ClearOutput(length);
        if o.Failure? {
          events := events + Reports(o.code);
        }
        WipeAll();
      }
      assert events == old(events) + Ending(o, length);
    }

    /** A consuming call: whatever happens, the owner is wiped and the reader gone. */
    method Consume(call: Call, enabled: bool, fault: bool) returns (o: Outcome)
      requires Valid() && call.valid.Some?
      modifies this
      ensures var r := Consumed(rate, old(State()), call, enabled, fault);
        events == old(events) + r.Trace() && o == r.outcome && State() == DEAD
    {
      hide Guarded, Cleanup, Hands, Reports, Shaped, Mapped;
      ghost var r := Consumed(rate, State(), call, enabled, fault);
      if fault {
        events := events + [ConstructorUnwind];
        o := Unwound;
      } else if !Shaped(call.length, call.valid.value) {
        events := events + Reports(if enabled then 18 else 6);
        o := Failure(0);
      } else {
        ShapedIsTyped(call);
        events := events + [ProducerEnter];
        o := Secret(call);
        events := events + [ProducerExit];
      }
      assert events == old(events) + r.head;
      ghost var head := events;
      WipeAll();
      if !fault && Shaped(call.length, call.valid.value) {
        match o
        case Success => events := events + Hands(call.length);
        case Failure(code) => events := events + Reports(Mapped(code, enabled));
        case Unwound =>
      }
      assert events == head + Cleanup() + r.result;
      Appended(old(events), r.head, Cleanup(), r.result);
    }
  }

  lemma Appended<T>(a: seq<T>, b: seq<T>, c: seq<T>, d: seq<T>)
    ensures a + b + c + d == a + (b + c + d)
  {
  }
}
