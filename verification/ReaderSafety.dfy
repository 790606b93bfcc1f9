/** Every trace of the portable secret reader is allowed, whatever faults strike it, and a reader
    conserves its counter over any sequence of calls. */
module ReaderSafety {
  import opened Options
  import opened Arithmetic
  import opened Counter
  import opened ReaderTraces

  lemma {:induction false} FollowAppend(g: Goal, w: Watch, a: seq<Event>, b: seq<Event>)
    ensures Follow(g, w, a + b) == if Follow(g, w, a).None? then None else Follow(g, Follow(g, w, a).value, b)
    decreases |a|
  {
    if a == [] {
      assert a + b == b;
    } else {
      assert (a + b)[0] == a[0] && (a + b)[1..] == a[1..] + b;
      if Allowed(g, w, a[0]) {
        FollowAppend(g, Next(w, a[0]), a[1..], b);
      }
    }
  }

  lemma FollowStep(g: Goal, w: Watch, e: Event, rest: seq<Event>)
    requires Allowed(g, w, e)
    ensures Follow(g, w, [e] + rest) == Follow(g, Next(w, e), rest)
  {
    assert ([e] + rest)[0] == e && ([e] + rest)[1..] == rest;
  }

  predicate Idle(w: Watch) {
    w.staged == 0 && !w.masked && !w.copied
  }

  lemma FollowNothing(g: Goal, w: Watch)
    ensures Follow(g, w, []) == Some(w)
  {
  }

  lemma FollowOne(g: Goal, w: Watch, e: Event)
    requires Allowed(g, w, e)
    ensures Follow(g, w, [e]) == Some(Next(w, e))
  {
    assert [e] + [] == [e];
    FollowStep(g, w, e, []);
  }

  lemma FollowTwo(g: Goal, w: Watch, a: Event, b: Event)
    requires Allowed(g, w, a) && Allowed(g, Next(w, a), b)
    ensures Follow(g, w, [a, b]) == Some(Next(Next(w, a), b))
  {
    assert [a] + [b] == [a, b];
    FollowStep(g, w, a, [b]);
    FollowOne(g, Next(w, a), b);
  }

  /** Filling and, at the tail, masking. */
  lemma MaskedFollows(g: Goal, w: Watch, count: nat, mask: Option<int>, rest: seq<Event>)
    requires Idle(w) && Allowed(g, w, Fill(count)) && mask == if w.written then Some(g.mask) else None
    ensures var masked := [Fill(count)] + if mask.Some? then [Mask(mask.value)] else [];
      Follow(g, w, masked + rest) == Follow(g, w.(staged := count, masked := w.written), rest)
  {
    var filled := Next(w, Fill(count));
    if mask.Some? {
      assert [Fill(count)] + [Mask(g.mask)] + rest == [Fill(count)] + ([Mask(g.mask)] + rest);
      FollowStep(g, w, Fill(count), [Mask(g.mask)] + rest);
      FollowStep(g, filled, Mask(g.mask), rest);
    } else {
      assert [Fill(count)] + [] + rest == [Fill(count)] + rest;
      FollowStep(g, w, Fill(count), rest);
    }
  }

  /** A chunk is allowed; without a fault it leaves the staging clear and the prefix longer,
      and with one the prefix stays. */
  lemma ChunkFollows(g: Goal, w: Watch, count: nat, mask: Option<int>, iteration: nat, fault: Fault) returns (t: Watch)
    requires Idle(w) && Allowed(g, w, Fill(count)) && mask == if w.written then Some(g.mask) else None
    ensures var r := Chunk(count, w.progress, mask, iteration, fault);
      && Follow(g, w, r.trace) == Some(t) && t.progress == r.progress && t.written == w.written
      && (r.outcome.Success? ==> Idle(t) && t.exposed && r.progress == w.progress + count)
      && (!r.outcome.Success? ==> r.progress == w.progress)
      && (r.outcome.Success? <==> !Strikes(fault, mask.Some?))
  {
    hide Follow;
    var filled, masked := Next(w, Fill(count)), w.(staged := count, masked := w.written);
    var copied := Next(masked, Copy(count));
    var done := w.progress + count;
    if !Strikes(fault, mask.Some?) {
      t := Next(Next(copied, Progress(done)), WipeStaging);
      MaskedFollows(g, w, count, mask, [Copy(count), Progress(done), WipeStaging]);
      assert [Copy(count), Progress(done), WipeStaging] == [Copy(count)] + [Progress(done), WipeStaging];
      FollowStep(g, masked, Copy(count), [Progress(done), WipeStaging]);
      FollowTwo(g, copied, Progress(done), WipeStaging);
    } else {
      match fault
      case FillError(_) => FollowOne(g, w, Fill(count)); t := filled;
      case FillUnwinds => FollowOne(g, w, Fill(count)); t := filled;
      case SliceMissing => FollowTwo(g, w, Fill(count), SliceFailure); t := filled;
      case FirstMissing => FollowTwo(g, w, Fill(count), FirstFailure); t := filled;
      case WriteError(code) =>
        MaskedFollows(g, w, count, mask, [WriteFailure(code), WipeStaging]);
        FollowTwo(g, masked, WriteFailure(code), WipeStaging);
        t := Next(masked, WipeStaging);
      case CopyUnwinds =>
        MaskedFollows(g, w, count, mask, [Copy(count)]);
        FollowOne(g, masked, Copy(count));
        t := copied;
    }
  }

  /** How many chunks deliver n bytes. */
  function Chunks(rate: nat, n: nat): nat
    requires rate > 0
  {
    if n == 0 then 0 else 1 + Chunks(rate, n - Min(rate, n))
  }

  predicate Smooth(faults: Faults, from: nat, count: nat) {
    forall i :: from <= i < from + count ==> !Strikes(faults(i), false)
  }

  lemma SmoothStep(faults: Faults, from: nat, count: nat)
    ensures Smooth(faults, from, 1 + count) <==> !Strikes(faults(from), false) && Smooth(faults, from + 1, count)
  {
  }

  lemma NextFill(g: Goal, w: Watch)
    requires g.rate > 0 && Idle(w) && !w.written && w.progress < g.prefix
    ensures Allowed(g, w, Fill(Min(g.rate, g.prefix - w.progress)))
  {
  }

  /** What a chunk loop from w on does: it is allowed, leaves the counter alone, and succeeds
      exactly if it delivers everything, after `count` more chunks. */
  ghost predicate Delivers(g: Goal, w: Watch, t: Watch, r: Ran, iteration: nat, count: nat) {
    && Follow(g, w, r.trace) == Some(t) && t.progress == r.progress <= g.prefix && !t.written
    && (r.outcome.Success? <==> r.progress == g.prefix)
    && (r.outcome.Success? ==> Idle(t) && r.iteration == iteration + count)
    && (r.outcome.Success? ==> (t.exposed <==> w.exposed || g.prefix > w.progress))
  }

  lemma DeliversOn(g: Goal, w: Watch, u: Watch, t: Watch, first: seq<Event>, rest: Ran, iteration: nat, count: nat)
    requires Follow(g, w, first) == Some(u) && Delivers(g, u, t, rest, iteration + 1, count)
    requires u.exposed && w.progress < u.progress <= g.prefix
    ensures Delivers(g, w, t, Then(first, rest), iteration, count + 1)
  {
    hide Follow;
    FollowAppend(g, w, first, rest.trace);
  }

  lemma DeliversStruck(g: Goal, w: Watch, u: Watch, chunk: Ran, iteration: nat, count: nat)
    requires Follow(g, w, chunk.trace) == Some(u) && !chunk.outcome.Success? && !u.written
    requires u.progress == chunk.progress == w.progress < g.prefix
    ensures Delivers(g, w, u, chunk, iteration, count)
  {
  }

  /** The chunk loop succeeds exactly if no chunk is struck. */
  lemma {:induction false} DeliverFollows(g: Goal, w: Watch, iteration: nat, faults: Faults) returns (t: Watch)
    requires g.rate > 0 && Idle(w) && !w.written && w.progress <= g.prefix
    ensures var r, count := Deliver(g.rate, g.prefix, w.progress, iteration, faults),
      Chunks(g.rate, g.prefix - w.progress);
      Delivers(g, w, t, r, iteration, count) && (r.outcome.Success? <==> Smooth(faults, iteration, count))
    decreases g.prefix - w.progress
  {
    if w.progress == g.prefix {
      t := w;
      return;
    }
    var count := Chunks(g.rate, g.prefix - w.progress);
    var chunk, u := NextChunk(g, w, iteration, faults);
    hide Follow, Deliver, Smooth, Chunks, Delivers, Then;
    t := u;
    if !chunk.outcome.Success? {
      DeliversStruck(g, w, u, chunk, iteration, count);
    } else {
      var rest := Deliver(g.rate, g.prefix, u.progress, iteration + 1, faults);
      t := DeliverFollows(g, u, iteration + 1, faults);
      DeliversOn(g, w, u, t, chunk.trace, rest, iteration, count - 1);
    }
  }

  /** The next chunk of the loop: either it is struck, or the loop goes on behind it. */
  lemma NextChunk(g: Goal, w: Watch, iteration: nat, faults: Faults) returns (chunk: Ran, u: Watch)
    requires g.rate > 0 && Idle(w) && !w.written && w.progress < g.prefix
    ensures Follow(g, w, chunk.trace) == Some(u) && !u.written
    ensures var r, count := Deliver(g.rate, g.prefix, w.progress, iteration, faults),
      Chunks(g.rate, g.prefix - w.progress);
      if chunk.outcome.Success? then
        && Idle(u) && u.exposed && w.progress < u.progress <= g.prefix
        && r == Then(chunk.trace, Deliver(g.rate, g.prefix, u.progress, iteration + 1, faults))
        && count == 1 + Chunks(g.rate, g.prefix - u.progress)
        && (Smooth(faults, iteration, count) <==> Smooth(faults, iteration + 1, count - 1))
      else r == chunk && u.progress == chunk.progress == w.progress && !Smooth(faults, iteration, count)
  {
    var n := Min(g.rate, g.prefix - w.progress);
    chunk := Chunk(n, w.progress, None, iteration, faults(iteration));
    var more := Chunks(g.rate, g.prefix - w.progress - n);
    DeliverStep(g.rate, g.prefix, w.progress, iteration, faults);
    SmoothStep(faults, iteration, more);
    NextFill(g, w);
    assert Chunks(g.rate, g.prefix - w.progress) == 1 + more && 0 < n <= g.prefix - w.progress;
    hide Follow, Chunk, Strikes, Allowed, Deliver, Smooth, Chunks, Min, Then;
    u := ChunkFollows(g, w, n, None, iteration, faults(iteration));
  }

  lemma DeliverStep(rate: nat, length: nat, done: nat, iteration: nat, faults: Faults)
    requires rate > 0 && done <= length
    ensures Deliver(rate, length, done, iteration, faults) ==
      if done == length then Ran([], done, iteration, Success) else
        var n := Min(rate, length - done);
        var chunk := Chunk(n, done, None, iteration, faults(iteration));
        if chunk.outcome != Success then chunk
        else Then(chunk.trace, Deliver(rate, length, done + n, iteration + 1, faults))
    ensures done < length ==> var n := Min(rate, length - done);
      var chunk := Chunk(n, done, None, iteration, faults(iteration));
      chunk.iteration == iteration + 1 && chunk.progress == if chunk.outcome.Success? then done + n else done
  {
  }

  lemma TailProgress(done: nat, mask: Option<int>, iteration: nat, fault: Fault)
    ensures Chunk(1, done, mask, iteration, fault).progress >= done
  {
  }

  /** Whole bytes: the counter is written once, when the last chunk is done, and not otherwise. */
  lemma BytesFollow(g: Goal, faults: Faults) returns (t: Watch)
    requires g.rate > 0 && g.counter <= MAXIMUM
    ensures var r := Bytes(g.rate, g.counter, g.prefix, faults);
      && Follow(g, START, r.trace) == Some(t) && t.progress == r.progress <= g.prefix
      && (t.written <==> r.progress == g.prefix) && (t.written <==> r.outcome.Success?)
      && (t.written ==> Idle(t) && r.iteration == 1 + Chunks(g.rate, g.prefix) && (t.exposed <==> g.prefix > 0))
      && (t.written <==> g.counter + g.prefix <= MAXIMUM && Smooth(faults, 1, Chunks(g.rate, g.prefix)))
  {
    var r := Bytes(g.rate, g.counter, g.prefix, faults);
    if g.counter + g.prefix > MAXIMUM {
      FollowOne(g, START, CounterRead);
      t := START;
      return;
    }
    var body := Deliver(g.rate, g.prefix, 0, 1, faults);
    hide Follow, Smooth, Chunks, Deliver;
    t := DeliverFollows(g, START, 1, faults);
    FollowStep(g, START, CounterRead, body.trace);
    assert [CounterRead] + body.trace + [] == [CounterRead] + body.trace;
    if body.outcome.Success? {
      FollowAppend(g, START, [CounterRead] + body.trace, [CounterWrite(g.counter + g.prefix)]);
      FollowOne(g, t, CounterWrite(g.counter + g.prefix));
      t := Next(t, CounterWrite(g.counter + g.prefix));
    }
  }

  /** Final bits: the counter is written exactly when the prefix is delivered, so a failing tail
      leaves it written and a failing prefix leaves it alone. */
  lemma BitsFollow(g: Goal, valid: nat, faults: Faults) returns (t: Watch)
    requires g.rate > 0 && g.counter <= MAXIMUM && g.length > 0
    requires g.prefix == Prefix(g.length, valid) && g.mask == Pow2(valid) - 1
    ensures var r := Bits(g.rate, g.counter, g.length, valid, faults);
      && Follow(g, START, r.trace) == Some(t) && t.progress == r.progress <= g.length
      && (t.written <==> r.progress >= g.prefix) && (r.outcome.Success? <==> r.progress == g.length)
      && (r.outcome.Success? ==> Idle(t) && t.exposed)
      && (t.written <==> g.counter + g.prefix <= MAXIMUM && Smooth(faults, 1, Chunks(g.rate, g.prefix)))
      && (r.outcome.Success? <==>
            t.written && (g.prefix < g.length ==> !Strikes(faults(1 + Chunks(g.rate, g.prefix)), true)))
  {
    var r := Bits(g.rate, g.counter, g.length, valid, faults);
    var whole := Bytes(g.rate, g.counter, g.prefix, faults);
    hide Follow, Smooth, Chunks, Chunk, Strikes;
    if g.counter + g.prefix > MAXIMUM {
      FollowOne(g, START, CounterRead);
      t := START;
      return;
    }
    t := BytesFollow(g, faults);
    hide Bytes;
    FollowStep(g, START, CounterRead, whole.trace);
    if whole.outcome.Success? && g.prefix < g.length {
      var last := Chunk(1, g.prefix, Some(g.mask), whole.iteration, faults(whole.iteration));
      FollowAppend(g, START, [CounterRead] + whole.trace, last.trace);
      t := ChunkFollows(g, t, 1, Some(g.mask), whole.iteration, faults(whole.iteration));
    }
  }

  // ---------- the guard ----------

  function GoalOf(rate: nat, s: Status, call: Call): Goal {
    Goal(rate, s.counter, Owed(call), call.length, if call.valid.Some? then Pow2(call.valid.value) - 1 else 0)
  }

  predicate InRegion(k: nat, b: nat)
    requires k < |Regions()|
  {
    Regions()[k].0 <= b < Regions()[k].0 + Regions()[k].1
  }

  /** The owner's regions tile its 1040 bytes: the cleanup clears each of them exactly once. */
  lemma RegionsTile(b: nat)
    requires b < OWNER
    ensures exists k :: 0 <= k < |Regions()| && InRegion(k, b)
    ensures forall k, j :: 0 <= k < |Regions()| && 0 <= j < |Regions()| && InRegion(k, b) && InRegion(j, b) ==> k == j
  {
    var r := Regions();
    assert r[0] == (48, 200) && r[1] == (248, 168) && r[2] == (0, 16) && r[3] == (16, 16) && r[4] == (32, 16)
      && r[5] == (1036, 1) && r[6] == (1037, 3) && r[7] == (1032, 4) && r[8] == (416, 168) && r[9] == (584, 168)
      && r[10] == (752, 40) && r[11] == (792, 40) && r[12] == (832, 200);
    assert InRegion(0, b) || InRegion(1, b) || InRegion(2, b) || InRegion(3, b) || InRegion(4, b) || InRegion(5, b)
      || InRegion(6, b) || InRegion(7, b) || InRegion(8, b) || InRegion(9, b) || InRegion(10, b) || InRegion(11, b)
      || InRegion(12, b);
  }

  /** What the observer knows after a complete cleanup: nothing is staged. */
  function Cleaned(w: Watch): Watch {
    w.(staged := 0, masked := false, copied := false)
  }

  /** The tenth region, and no other, is the staging buffer. */
  lemma StagingRegion(k: nat)
    requires k < |Regions()|
    ensures |Regions()| == 13 && (Regions()[k] == (STAGING_AT, STAGING) <==> k == 9)
  {
    var r := Regions();
    assert r[0] == (48, 200) && r[1] == (248, 168) && r[2] == (0, 16) && r[3] == (16, 16) && r[4] == (32, 16)
      && r[5] == (1036, 1) && r[6] == (1037, 3) && r[7] == (1032, 4) && r[8] == (416, 168) && r[9] == (584, 168)
      && r[10] == (752, 40) && r[11] == (792, 40) && r[12] == (832, 200);
  }

  lemma {:induction false} CleanupFollows(g: Goal, w: Watch, k: nat)
    requires k <= |Cleanup()|
    ensures Follow(g, w, Cleanup()[..k]) == Some(if k > 9 then Cleaned(w) else w)
    decreases k
  {
    var c := Cleanup();
    hide Regions, Cleanup, Follow;
    if k == 0 {
      FollowNothing(g, w);
    } else {
      var t := if k > 10 then Cleaned(w) else w;
      CleanupFollows(g, w, k - 1);
      assert c[..k] == c[..k - 1] + [c[k - 1]];
      FollowAppend(g, w, c[..k - 1], [c[k - 1]]);
      FollowOne(g, t, c[k - 1]);
      StagingRegion(k - 1);
    }
  }

  lemma CleanupThen(g: Goal, w: Watch, rest: seq<Event>)
    ensures Follow(g, w, Cleanup() + rest) == Follow(g, Cleaned(w), rest)
  {
    StagingRegion(0);
    hide Regions, Cleanup, Follow;
    CleanupFollows(g, w, |Cleanup()|);
    assert Cleanup()[..|Cleanup()|] == Cleanup();
    FollowAppend(g, w, Cleanup(), rest);
  }

  lemma ClearThen(g: Goal, w: Watch, length: nat, rest: seq<Event>)
    requires length == g.length && (length == 0 ==> !w.exposed)
    ensures Follow(g, w, ClearOutput(length) + rest) == Follow(g, w.(exposed := false), rest)
  {
    if length > 0 {
      FollowStep(g, w, WipeOutput(length), rest);
    } else {
      assert ClearOutput(length) + rest == rest;
    }
  }

  lemma ReportsThen(g: Goal, w: Watch, code: nat, rest: seq<Event>)
    requires !w.exposed
    ensures Follow(g, w, Reports(code) + rest) == Follow(g, w, rest)
  {
    FollowTwo(g, w, ResultError(code), ResultTag(2));
    FollowAppend(g, w, Reports(code), rest);
  }

  /** Exactly the calls that complete: the reader is live, the output clears, the counter has
      room for the whole bytes, and no boundary of a chunk that is reached fails. */
  ghost predicate Completes(rate: nat, s: Status, call: Call)
    requires rate > 0
  {
    && s.active && s.counter + Owed(call) <= MAXIMUM && Unhindered(rate, call)
  }

  ghost predicate Unhindered(rate: nat, call: Call)
    requires rate > 0
  {
    var whole := Chunks(rate, Owed(call));
    call.length > 0 ==>
      call.clearError.None? && Smooth(call.faults, 1, whole)
      && (Owed(call) < call.length ==> !Strikes(call.faults(1 + whole), true))
  }

  lemma InnerFollows(g: Goal, s: Status, call: Call) returns (t: Watch)
    requires g.rate > 0 && s.active && s.counter <= MAXIMUM && g == GoalOf(g.rate, s, call)
    requires call.length > 0 ==> call.clearError.None?
    ensures var r := Inner(g.rate, s.counter, call);
      && Follow(g, START, r.trace) == Some(t) && t.progress == r.progress
      && (t.written <==> call.length > 0 && t.progress >= Owed(call))
      && (r.outcome.Success? <==> Completes(g.rate, s, call))
      && (r.outcome.Success? ==> Idle(t) && t.progress == call.length && (t.exposed <==> call.length > 0))
      && (call.length == 0 ==> !t.exposed)
  {
    hide Follow, Smooth, Chunks, Bits, Bytes, Strikes;
    if call.length == 0 {
      FollowOne(g, START, CounterRead);
      t := START;
    } else if call.valid.None? {
      t := BytesFollow(g, call.faults);
    } else {
      t := BitsFollow(g, call.valid.value, call.faults);
    }
  }

  /** The part of a live call before its outcome is known. */
  lemma BegunFollows(g: Goal, length: nat, inner: seq<Event>, rest: seq<Event>)
    requires length == g.length
    ensures Follow(g, START, [Begin] + ClearOutput(length) + [SetActive(false), Operation] + inner + rest)
         == Follow(g, START, inner + rest)
  {
    hide Follow, ClearOutput;
    var after := [SetActive(false), Operation] + (inner + rest);
    assert [Begin] + ClearOutput(length) + [SetActive(false), Operation] + inner + rest
        == [Begin] + (ClearOutput(length) + after);
    FollowStep(g, START, Begin, ClearOutput(length) + after);
    ClearThen(g, START, length, after);
    FollowTwo(g, START, SetActive(false), Operation);
    FollowAppend(g, START, [SetActive(false), Operation], inner + rest);
  }

  lemma HandsFollow(g: Goal, w: Watch)
    requires Idle(w) && w.progress == g.length && (w.written <==> g.length > 0) && (w.exposed <==> g.length > 0)
    ensures Follow(g, w, [Finish, SetActive(true)] + Hands(g.length)) == Some(w)
  {
    hide Follow;
    FollowTwo(g, w, Finish, SetActive(true));
    FollowAppend(g, w, [Finish, SetActive(true)], Hands(g.length));
    if g.length > 0 {
      assert Hands(g.length) == [ResultOutput] + [ResultLength(g.length), ResultTag(1)];
      FollowStep(g, w, ResultOutput, [ResultLength(g.length), ResultTag(1)]);
      FollowTwo(g, w, ResultLength(g.length), ResultTag(1));
    } else {
      FollowOne(g, w, ResultTag(0));
    }
  }

  lemma LiveFollows(g: Goal, s: Status, call: Call) returns (t: Watch)
    requires g.rate > 0 && s.active && s.counter <= MAXIMUM && g == GoalOf(g.rate, s, call)
    requires call.length > 0 ==> call.clearError.None?
    ensures var d := Guarded(g.rate, s, call);
      && Follow(g, START, d.trace) == Some(t)
      && t.staged == 0 && (t.exposed <==> d.outcome.Success? && call.length > 0)
      && (t.written <==> call.length > 0 && t.progress >= Owed(call))
      && (d.outcome.Success? <==> Completes(g.rate, s, call))
      && (d.outcome.Success? ==> t.progress == call.length && d.status == Status(true, s.counter + Owed(call)))
      && (!d.outcome.Success? ==> d.status == DEAD)
  {
    var inner := Inner(g.rate, s.counter, call);
    hide Follow, Inner, Owed, ClearOutput, Ending, Completes, GoalOf, Allowed;
    GoalLength(g.rate, s, call);
    t := InnerFollows(g, s, call);
    var rest := Ending(inner.outcome, call.length);
    BegunFollows(g, call.length, inner.trace, rest);
    FollowAppend(g, START, inner.trace, rest);
    EndingFollows(g, t, call.length, inner.outcome);
    if !inner.outcome.Success? {
      t := Cleaned(t.(exposed := false));
    }
  }

  lemma GoalLength(rate: nat, s: Status, call: Call)
    ensures GoalOf(rate, s, call).length == call.length
  {
  }

  /** The calls that never get to the operation. */
  lemma RefusedTrace(rate: nat, s: Status, call: Call)
    requires rate > 0
    ensures var d := Guarded(rate, s, call);
      if call.length > 0 && call.clearError.Some? then
        d.trace == [Begin, ClearError(call.clearError.value), SetActive(false)] + Cleanup() + Reports(4)
        && d.status == DEAD && d.outcome == Failure(4)
      else !s.active ==>
        d.trace == [Begin] + ClearOutput(call.length) + Reports(0) + ClearOutput(call.length)
        && d.status == s && d.outcome == Failure(0)
  {
    hide Inner, ClearOutput, Reports, Cleanup, Hands, Owed;
  }

  lemma EndingFollows(g: Goal, w: Watch, length: nat, outcome: Outcome)
    requires length == g.length && (length == 0 ==> !w.exposed)
    requires outcome.Success? ==>
      Idle(w) && w.progress == length && (w.written <==> length > 0) && (w.exposed <==> length > 0)
    ensures Follow(g, w, Ending(outcome, length))
         == Some(if outcome.Success? then w else Cleaned(w.(exposed := false)))
  {
    hide Follow, ClearOutput, Reports, Cleanup, Hands;
    var hidden := w.(exposed := false);
    if outcome.Success? {
      HandsFollow(g, w);
      return;
    }
    assert Cleanup() + [] == Cleanup();
    CleanupThen(g, hidden, []);
    FollowNothing(g, Cleaned(hidden));
    if outcome.Failure? {
      assert ClearOutput(length) + Reports(outcome.code) + Cleanup()
        == ClearOutput(length) + (Reports(outcome.code) + Cleanup());
      ClearThen(g, w, length, Reports(outcome.code) + Cleanup());
      ReportsThen(g, hidden, outcome.code, Cleanup());
    } else {
      ClearThen(g, w, length, Cleanup());
    }
  }

  /** Every guarded call, whatever fails: its trace is allowed; afterwards nothing is staged and
      the output holds key bytes only if the call succeeded; the counter was written exactly if
      all the whole bytes were delivered; and the reader stays live exactly on success. */
  lemma GuardedFollows(rate: nat, s: Status, call: Call) returns (t: Watch)
    requires rate > 0 && s.counter <= MAXIMUM
    ensures var d := Guarded(rate, s, call);
      && Follow(GoalOf(rate, s, call), START, d.trace) == Some(t)
      && t.staged == 0 && (t.exposed <==> d.outcome.Success? && call.length > 0)
      && (t.written <==> s.active && call.length > 0 && call.clearError.None? && t.progress >= Owed(call))
      && (d.outcome.Success? <==> Completes(rate, s, call))
      && (d.outcome.Success? ==> t.progress == call.length && d.status == Status(true, s.counter + Owed(call)))
      && (!d.outcome.Success? ==> !d.status.active && d.status.counter <= MAXIMUM)
  {
    var g := GoalOf(rate, s, call);
    RefusedTrace(rate, s, call);
    hide Guarded, Follow, Inner, Owed, Smooth, Chunks, Strikes, ClearOutput, Reports, Cleanup;
    if call.length > 0 && call.clearError.Some? {
      ClearFailureFollows(g, call.clearError.value);
      t := START;
    } else if !s.active {
      DeadFollows(g);
      t := START;
    } else {
      t := LiveFollows(g, s, call);
    }
  }

  lemma ClearFailureFollows(g: Goal, code: Code)
    ensures Follow(g, START, [Begin, ClearError(code), SetActive(false)] + Cleanup() + Reports(4)) == Some(START)
  {
    hide Follow, Cleanup, Reports;
    var rest := Cleanup() + Reports(4);
    assert [Begin, ClearError(code), SetActive(false)] + Cleanup() + Reports(4)
        == [Begin] + ([ClearError(code)] + ([SetActive(false)] + rest));
    FollowStep(g, START, Begin, [ClearError(code)] + ([SetActive(false)] + rest));
    FollowStep(g, START, ClearError(code), [SetActive(false)] + rest);
    FollowStep(g, START, SetActive(false), rest);
    CleanupThen(g, START, Reports(4));
    assert Reports(4) + [] == Reports(4);
    ReportsThen(g, START, 4, []);
    FollowNothing(g, START);
  }

  lemma DeadFollows(g: Goal)
    ensures Follow(g, START, [Begin] + ClearOutput(g.length) + Reports(0) + ClearOutput(g.length)) == Some(START)
  {
    hide Follow, ClearOutput, Reports;
    var last := ClearOutput(g.length);
    assert [Begin] + last + Reports(0) + last == [Begin] + (last + (Reports(0) + last));
    FollowStep(g, START, Begin, last + (Reports(0) + last));
    ClearThen(g, START, g.length, Reports(0) + last);
    ReportsThen(g, START, 0, last);
    assert last + [] == last;
    ClearThen(g, START, g.length, []);
    FollowNothing(g, START);
  }

  // ---------- runs of calls ----------

  /** The reader after a sequence of guarded calls. */
  function Afterwards(rate: nat, s: Status, calls: seq<Call>): Status
    requires rate > 0
    decreases |calls|
  {
    if calls == [] then s
    else Guarded(rate, Afterwards(rate, s, calls[..|calls| - 1]), calls[|calls| - 1]).status
  }

  /** All whole bytes that the calls deliver. */
  function Total(calls: seq<Call>): nat
    decreases |calls|
  {
    if calls == [] then 0 else Total(calls[..|calls| - 1]) + Owed(calls[|calls| - 1])
  }

  ghost predicate AllUnhindered(rate: nat, calls: seq<Call>)
    requires rate > 0
  {
    forall j :: 0 <= j < |calls| ==> Unhindered(rate, calls[j])
  }

  /** Conservation: after any calls the reader is live exactly if no call was hindered and the
      counter has room for all their whole bytes, and then it has counted exactly these. */
  lemma {:induction false} RunConserves(rate: nat, s: Status, calls: seq<Call>)
    requires rate > 0 && s.active && s.counter <= MAXIMUM
    ensures var t := Afterwards(rate, s, calls);
      && (t.active <==> AllUnhindered(rate, calls) && s.counter + Total(calls) <= MAXIMUM)
      && (t.active ==> t.counter == s.counter + Total(calls))
      && t.counter <= MAXIMUM
    decreases |calls|
  {
    if calls != [] {
      var n := |calls| - 1;
      hide Guarded, Follow, Owed, Unhindered;
      RunConserves(rate, s, calls[..n]);
      var t := GuardedFollows(rate, Afterwards(rate, s, calls[..n]), calls[n]);
      assert calls == calls[..n] + [calls[n]];
      assert AllUnhindered(rate, calls) <==> AllUnhindered(rate, calls[..n]) && Unhindered(rate, calls[n]);
    }
  }

  /** Events of a reader that no longer produces. */
  predicate Quiet(e: Event) {
    !e.CounterRead? && !e.CounterWrite? && !e.Fill? && !e.Copy? && !e.Mask? && !e.Operation? && !e.ResultOutput?
    && !(e.SetActive? && e.active)
  }

  lemma DeadStaysDead(rate: nat, s: Status, call: Call)
    requires rate > 0 && !s.active
    ensures !Guarded(rate, s, call).status.active && !Guarded(rate, s, call).outcome.Success?
    ensures forall e :: e in Guarded(rate, s, call).trace ==> Quiet(e)
  {
  }

  /** After a failure the reader stays dead: no later call touches the counter, fills, copies
      or hands anything out. */
  lemma {:induction false} DeadForever(rate: nat, s: Status, calls: seq<Call>, k: nat, j: nat)
    requires rate > 0 && k <= j < |calls| && !Afterwards(rate, s, calls[..k]).active
    ensures !Afterwards(rate, s, calls[..j]).active
    ensures forall e :: e in Guarded(rate, Afterwards(rate, s, calls[..j]), calls[j]).trace ==> Quiet(e)
    decreases j
  {
    hide Guarded;
    if k < j {
      DeadForever(rate, s, calls, k, j - 1);
      assert calls[..j][..j - 1] == calls[..j - 1] && calls[..j][j - 1] == calls[j - 1];
      DeadStaysDead(rate, Afterwards(rate, s, calls[..j - 1]), calls[j - 1]);
    }
    DeadStaysDead(rate, Afterwards(rate, s, calls[..j]), calls[j]);
  }

  lemma {:induction false} WritesAreTheGoal(g: Goal, w: Watch, trace: seq<Event>, v: nat)
    requires Follow(g, w, trace).Some? && CounterWrite(v) in trace
    ensures v == g.counter + g.prefix <= MAXIMUM
    decreases |trace|
  {
    if trace[0] != CounterWrite(v) {
      WritesAreTheGoal(g, Next(w, trace[0]), trace[1..], v);
    }
  }

  /** Whatever is written to the counter in any run is the sum of the whole bytes that were
      delivered up to and including that call, and no call before it was hindered. */
  lemma EveryCommitIsTheSum(rate: nat, s: Status, calls: seq<Call>, j: nat, v: nat)
    requires rate > 0 && s.active && s.counter <= MAXIMUM && j < |calls|
    requires CounterWrite(v) in Guarded(rate, Afterwards(rate, s, calls[..j]), calls[j]).trace
    ensures v == s.counter + Total(calls[..j + 1]) <= MAXIMUM && AllUnhindered(rate, calls[..j])
  {
    hide Guarded, Follow, Unhindered, Owed;
    var before := Afterwards(rate, s, calls[..j]);
    RunConserves(rate, s, calls[..j]);
    if before.active {
      var t := GuardedFollows(rate, before, calls[j]);
      WritesAreTheGoal(GoalOf(rate, before, calls[j]), START, Guarded(rate, before, calls[j]).trace, v);
      assert calls[..j + 1][..j] == calls[..j] && calls[..j + 1][j] == calls[j];
    } else {
      DeadStaysDead(rate, before, calls[j]);
    }
  }

  ghost predicate OnlyReports(trace: seq<Event>) {
    forall e :: e in trace ==> e.ResultError? || e.ResultTag? || e.ResultOutput? || e.ResultLength?
  }

  lemma ResultFollows(g: Goal, w: Watch, outcome: Outcome, enabled: bool)
    requires w.exposed <==> outcome.Success? && g.length > 0
    requires outcome.Success? ==> w.progress == g.length
    ensures var rest := match outcome
        case Success => Hands(g.length)
        case Failure(code) => Reports(Mapped(code, enabled))
        case Unwound => [];
      Follow(g, w, rest) == Some(w) && OnlyReports(rest)
  {
    hide Follow;
    FollowNothing(g, w);
    match outcome
    case Success =>
      if g.length > 0 {
        assert Hands(g.length) == [ResultOutput] + [ResultLength(g.length), ResultTag(1)];
        FollowStep(g, w, ResultOutput, [ResultLength(g.length), ResultTag(1)]);
        FollowTwo(g, w, ResultLength(g.length), ResultTag(1));
      } else {
        FollowOne(g, w, ResultTag(0));
      }
    case Failure(code) => FollowTwo(g, w, ResultError(Mapped(code, enabled)), ResultTag(2));
    case Unwound =>
  }

  /** What precedes the cleanup. */
  lemma HeadFollows(rate: nat, s: Status, call: Call, enabled: bool, fault: bool) returns (t: Watch)
    requires rate > 0 && s.counter <= MAXIMUM && call.valid.Some?
    ensures var r := Consumed(rate, s, call, enabled, fault);
      && Follow(GoalOf(rate, s, call), START, r.head) == Some(t)
      && (t.exposed <==> r.outcome.Success? && call.length > 0) && (r.outcome.Success? ==> t.progress == call.length)
      && (r.outcome.Success? <==> !fault && Shaped(call.length, call.valid.value) && Completes(rate, s, call))
  {
    var g := GoalOf(rate, s, call);
    hide Follow, Guarded, Cleanup, Reports, Completes, GoalOf, Hands, Mapped, Shaped;
    t := START;
    if fault {
      FollowOne(g, START, ConstructorUnwind);
    } else if !Shaped(call.length, call.valid.value) {
      var code := if enabled then 18 else 6;
      assert Reports(code) + [] == Reports(code);
      ReportsThen(g, START, code, []);
      FollowNothing(g, START);
    } else {
      var d := Guarded(rate, s, call);
      t := GuardedFollows(rate, s, call);
      assert [ProducerEnter] + d.trace + [ProducerExit] == [ProducerEnter] + (d.trace + [ProducerExit]);
      FollowStep(g, START, ProducerEnter, d.trace + [ProducerExit]);
      FollowAppend(g, START, d.trace, [ProducerExit]);
      FollowOne(g, t, ProducerExit);
    }
  }

  /** A consuming call is allowed whatever fails; behind its final cleanup it only reports; it
      hands the output over exactly when shape and guarded call allow it; nothing stays staged. */
  lemma ConsumingEndsClean(rate: nat, s: Status, call: Call, enabled: bool, fault: bool) returns (t: Watch)
    requires rate > 0 && s.counter <= MAXIMUM && call.valid.Some?
    ensures var r := Consumed(rate, s, call, enabled, fault);
      && Follow(GoalOf(rate, s, call), START, r.Trace()) == Some(t) && t.staged == 0 && OnlyReports(r.result)
      && (t.exposed <==> r.outcome.Success? && call.length > 0)
      && (r.outcome.Success? <==> !fault && Shaped(call.length, call.valid.value) && Completes(rate, s, call))
  {
    var g, r := GoalOf(rate, s, call), Consumed(rate, s, call, enabled, fault);
    hide Follow, Guarded, Cleanup, Completes, GoalOf, Shaped, Reports, Hands, Mapped;
    t := HeadFollows(rate, s, call, enabled, fault);
    assert r.Trace() == r.head + (Cleanup() + r.result);
    FollowAppend(g, START, r.head, Cleanup() + r.result);
    CleanupThen(g, t, r.result);
    t := Cleaned(t);
    GoalLength(rate, s, call);
    if fault || !Shaped(call.length, call.valid.value) {
      FollowNothing(g, t);
    } else {
      ResultFollows(g, t, r.outcome, enabled);
    }
  }
}
