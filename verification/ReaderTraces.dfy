/** The portable secret reader: byte and final-bit squeezing through the staging buffer under
    the owner guard. The trace of a call is modelled exactly, for any pattern of faults at its
    boundaries; a monitor that knows nothing about the code says what a trace may do. */
module ReaderTraces {
  import opened Options
  import opened Arithmetic
  import opened Counter

  const STAGING_AT: nat := 584
  const STAGING: nat := 168
  const OWNER: nat := 1040

  // Error codes: 0 terminal reader, 2 counter overflow, 3 missing slice, 4 write or clear failure.
  type Code = n: nat | n < 5

  /** What goes wrong at the boundaries of one chunk. */
  datatype Fault = NoFault | FillError(code: Code) | FillUnwinds | SliceMissing | FirstMissing
                 | WriteError(code: Code) | CopyUnwinds
  type Faults = nat -> Fault

  datatype Outcome = Success | Failure(code: Code) | Unwound

  datatype Event =
    | CounterRead | CounterWrite(value: nat)
    | Fill(count: nat) | SliceFailure | FirstFailure | Mask(mask: int) | WriteFailure(code: Code)
    | Copy(count: nat) | Progress(value: nat) | WipeStaging
    | Begin | ClearError(code: Code) | Operation | Finish | SetActive(active: bool)
    | WipeOutput(length: nat) | WipeOwner(offset: nat, width: nat)
    | ResultError(error: nat) | ResultTag(tag: nat) | ResultOutput | ResultLength(length: nat)
    | ProducerEnter | ProducerExit | ConstructorUnwind

  /** What a piece of a call did: its events, the initialized prefix, the next iteration. */
  datatype Ran = Ran(trace: seq<Event>, progress: nat, iteration: nat, outcome: Outcome)

  // ---------- the squeeze ----------

  predicate Strikes(fault: Fault, tail: bool) {
    !fault.NoFault? && !(tail && fault.SliceMissing?) && !(!tail && fault.FirstMissing?)
  }

  /** One chunk: fill the staging, mask it if it is the tail, write it, clear the staging. */
  function Chunk(count: nat, done: nat, mask: Option<int>, iteration: nat, fault: Fault): Ran {
    var masked := [Fill(count)] + if mask.Some? then [Mask(mask.value)] else [];
    if !Strikes(fault, mask.Some?) then
      Ran(masked + [Copy(count), Progress(done + count), WipeStaging], done + count, iteration + 1, Success)
    else match fault
      case FillError(code) => Ran([Fill(count)], done, iteration + 1, Failure(code))
      case FillUnwinds => Ran([Fill(count)], done, iteration + 1, Unwound)
      case SliceMissing => Ran([Fill(count), SliceFailure], done, iteration + 1, Failure(3))
      case FirstMissing => Ran([Fill(count), FirstFailure], done, iteration + 1, Failure(3))
      case WriteError(code) => Ran(masked + [WriteFailure(code), WipeStaging], done, iteration + 1, Failure(4))
      case _ => Ran(masked + [Copy(count)], done, iteration + 1, Unwound)
  }

  function Then(first: seq<Event>, rest: Ran): Ran {
    rest.(trace := first + rest.trace)
  }

  /** The chunk loop from `done` bytes on. */
  function Deliver(rate: nat, length: nat, done: nat, iteration: nat, faults: Faults): Ran
    requires rate > 0 && done <= length
    decreases length - done
  {
    if done == length then Ran([], done, iteration, Success) else
      var n := Min(rate, length - done);
      var chunk := Chunk(n, done, None, iteration, faults(iteration));
      if chunk.outcome != Success then chunk
      else Then(chunk.trace, Deliver(rate, length, done + n, iteration + 1, faults))
  }

  /** Squeezing whole bytes: admission, the chunk loop, then the counter commit. */
  function Bytes(rate: nat, counter: nat, length: nat, faults: Faults): Ran
    requires rate > 0
  {
    if counter + length > MAXIMUM then Ran([CounterRead], 0, 1, Failure(2)) else
      var body := Deliver(rate, length, 0, 1, faults);
      Ran([CounterRead] + body.trace + if body.outcome.Success? then [CounterWrite(counter + length)] else [],
          body.progress, body.iteration, body.outcome)
  }

  function Prefix(length: nat, valid: nat): nat {
    if valid == 0 || valid == 8 || length == 0 then length else length - 1
  }

  /** Squeezing final bits: the complete bytes, then one masked byte. */
  function Bits(rate: nat, counter: nat, length: nat, valid: nat, faults: Faults): Ran
    requires rate > 0
  {
    var prefix := Prefix(length, valid);
    if counter + prefix > MAXIMUM then Ran([CounterRead], 0, 1, Failure(2)) else
      var whole := Bytes(rate, counter, prefix, faults);
      if whole.outcome != Success || prefix == length then Then([CounterRead], whole)
      else Then([CounterRead] + whole.trace,
                Chunk(1, prefix, Some(Pow2(valid) - 1), whole.iteration, faults(whole.iteration)))
  }

  // ---------- the guarded call ----------

  /** A call on the reader: `valid` is given in final mode; a nonempty output may fail to clear. */
  datatype Call = Call(length: nat, valid: Option<nat>, faults: Faults, clearError: Option<Code>) {
    /** The output type admits no more than eight bits in a byte. */
    predicate Typed() {
      valid.Some? ==> valid.value <= 8
    }
  }

  datatype Status = Status(active: bool, counter: nat)

  datatype Done = Done(trace: seq<Event>, status: Status, outcome: Outcome)

  function Owed(call: Call): nat {
    if call.valid.None? then call.length else Prefix(call.length, call.valid.value)
  }

  /** The thirteen owned regions, in clearing order. */
  function Regions(): seq<(nat, nat)> {
    [(48, 200), (248, 168), (0, 16), (16, 16), (32, 16), (1036, 1), (1037, 3), (1032, 4),
     (416, 168), (584, 168), (752, 40), (792, 40), (832, 200)]
  }

  function Cleanup(): (c: seq<Event>)
    ensures |c| == |Regions()| && forall k :: 0 <= k < |c| ==> c[k] == WipeOwner(Regions()[k].0, Regions()[k].1)
  {
    seq(|Regions()|, k requires 0 <= k < |Regions()| => WipeOwner(Regions()[k].0, Regions()[k].1))
  }

  function ClearOutput(length: nat): seq<Event> {
    if length > 0 then [WipeOutput(length)] else []
  }

  function Reports(code: nat): seq<Event> {
    [ResultError(code), ResultTag(2)]
  }

  function Hands(length: nat): seq<Event> {
    if length > 0 then [ResultOutput, ResultLength(length), ResultTag(1)] else [ResultTag(0)]
  }

  /** The operation inside the guard; an empty output only checks the counter. */
  function Inner(rate: nat, counter: nat, call: Call): Ran
    requires rate > 0
  {
    if call.length == 0 then Ran([CounterRead], 0, 1, Success)
    else if call.valid.None? then Bytes(rate, counter, call.length, call.faults)
    else Bits(rate, counter, call.length, call.valid.value, call.faults)
  }

  const DEAD := Status(false, 0)

  /** How the guard ends a live call. */
  function Ending(outcome: Outcome, length: nat): seq<Event> {
    match outcome
    case Success => [Finish, SetActive(true)] + Hands(length)
    case Failure(code) => ClearOutput(length) + Reports(code) + Cleanup()
    case Unwound => ClearOutput(length) + Cleanup()
  }

  /** The whole guarded call; the cleanup leaves nothing of the owner, its counter included. */
  function Guarded(rate: nat, s: Status, call: Call): Done
    requires rate > 0
  {
    if call.length > 0 && call.clearError.Some? then
      Done([Begin, ClearError(call.clearError.value), SetActive(false)] + Cleanup() + Reports(4), DEAD, Failure(4))
    else if !s.active then
      Done([Begin] + ClearOutput(call.length) + Reports(0) + ClearOutput(call.length), s, Failure(0))
    else
      var inner := Inner(rate, s.counter, call);
      Done([Begin] + ClearOutput(call.length) + [SetActive(false), Operation] + inner.trace
        + Ending(inner.outcome, call.length),
           if inner.outcome.Success? then Status(true, s.counter + Owed(call)) else DEAD, inner.outcome)
  }

  // ---------- the consuming call ----------

  /** Whether the output constructor admits the shape: a 64-bit bit count. */
  predicate Shaped(length: nat, valid: nat) {
    if length == 0 then valid == 0 else 1 <= valid <= 8 && (length - 1) * 8 + valid < 0x1_0000_0000_0000_0000
  }

  /** Counts that the output type excludes do not come past the constructor. */
  lemma ShapedIsTyped(call: Call)
    requires call.valid.Some? && Shaped(call.length, call.valid.value)
    ensures call.Typed()
  {
  }

  /** The public error of a consuming call; the accelerated build numbers its errors from 12. */
  function Mapped(code: Code, enabled: bool): nat {
    [0, 3, 4, 4, 5][code] + if enabled then 12 else 0
  }

  /** A consuming call: what it did before the final cleanup, and what it told afterwards. */
  datatype Report = Report(head: seq<Event>, result: seq<Event>, outcome: Outcome) {
    function Trace(): seq<Event> {
      head + Cleanup() + result
    }
  }

  /** Constructor, guarded call, cleanup, and only then the public result. */
  function Consumed(rate: nat, s: Status, call: Call, enabled: bool, fault: bool): Report
    requires rate > 0 && call.valid.Some?
  {
    if fault then Report([ConstructorUnwind], [], Unwound)
    else if !Shaped(call.length, call.valid.value) then Report(Reports(if enabled then 18 else 6), [], Failure(0))
    else
      var d := Guarded(rate, s, call);
      Report([ProducerEnter] + d.trace + [ProducerExit],
             match d.outcome
             case Success => Hands(call.length)
             case Failure(code) => Reports(Mapped(code, enabled))
             case Unwound => [],
             d.outcome)
  }

  // ---------- what a trace may do ----------

  /** What a call is meant to deliver: `prefix` whole bytes of `length`, behind `counter`. */
  datatype Goal = Goal(rate: nat, counter: nat, prefix: nat, length: nat, mask: int)

  /** What an observer of the events knows: the staged bytes, whether they are masked and copied
      out, the initialized prefix, whether the counter was written, and whether the output may
      hold key bytes. */
  datatype Watch = Watch(staged: nat, masked: bool, copied: bool, progress: nat, written: bool, exposed: bool)

  const START := Watch(0, false, false, 0, false, false)

  predicate Allowed(g: Goal, w: Watch, e: Event) {
    match e
    case Fill(n) => w.staged == 0 && n > 0 &&
                    if w.written then w.progress == g.prefix < g.length && n == 1
                    else w.progress + n == Min(w.progress + g.rate, g.prefix)
    case Mask(m) => w.staged == 1 && w.written && m == g.mask && !w.masked && !w.copied
    case Copy(n) => 0 < n == w.staged && !w.copied && w.masked == w.written
    case Progress(v) => w.copied && v == w.progress + w.staged
    case WipeStaging => w.staged > 0
    case CounterWrite(v) => !w.written && w.staged == 0 && w.progress == g.prefix
      && v == g.counter + g.prefix <= MAXIMUM
    case SliceFailure => w.staged > 0 && !w.written
    case FirstFailure => w.staged == 1 && w.written
    case WriteFailure(_) => w.staged > 0 && !w.copied && w.masked == w.written
    case Finish => w.staged == 0 && w.progress == g.length && (w.written <==> g.length > 0)
    case SetActive(active) => active ==> w.staged == 0 && w.progress == g.length && (w.written <==> g.length > 0)
    case WipeOutput(n) => n == g.length
    case ResultError(_) => !w.exposed
    case ResultLength(n) => w.exposed && n == w.progress == g.length
    case _ => true
  }

  function Next(w: Watch, e: Event): Watch {
    match e
    case Fill(n) => w.(staged := n)
    case Mask(_) => w.(masked := true)
    case Copy(_) => w.(copied := true, exposed := true)
    case Progress(v) => w.(progress := v, copied := false)
    case WipeStaging => w.(staged := 0, masked := false)
    case CounterWrite(_) => w.(written := true)
    case WipeOutput(_) => w.(exposed := false)
    case WipeOwner(offset, width) =>
      if (offset, width) == (STAGING_AT, STAGING) then w.(staged := 0, masked := false, copied := false) else w
    case _ => w
  }

  /** What the observer knows after a trace; None when the trace does what is not allowed. */
  function Follow(g: Goal, w: Watch, trace: seq<Event>): Option<Watch>
    decreases |trace|
  {
    if trace == [] then Some(w)
    else if !Allowed(g, w, trace[0]) then None
    else Follow(g, Next(w, trace[0]), trace[1..])
  }
}
