/** Real runs of the blocks that the walker reviews: landing pads deliver some payload, phis
    read the registers as they were at block entry, and an invoke comes back or unwinds. A
    request that comes back has cleared its bytes; one that unwinds has only been made.

    Every block of such a run is shown to do what the walk of the block foresees. */
module StagingRuns {
  import opened Options
  import opened Ranges
  import opened ControlGraph
  import opened StagingWalk

  /** `asked` holds the requests made, `done` those that came back, `clean` the storage bytes
      that were cleared and not stored to since. */
  datatype Config = Config(at: Label, prev: Option<Label>, regs: Env, heap: Memory, asked: set<Event>, done: set<Event>,
                           clean: set<int>)

  datatype Executed = Stuck | Aborted | Steps(c: Config) | Exits(c: Config, returned: bool) | Leaves(next: seq<Config>)

  const CLEARING: Event := Clear(864, 168)
  const STAGE: set<int> := Bytes(864, 168)

  function EventBytes(e: Event): set<int> {
    match e
    case Clear(offset, width) => Bytes(offset, width)
    case Wipe(offset, width) => Bytes(offset, width)
    case Drop => {}
  }

  ghost function ClearedBytes(events: set<Event>): set<int> {
    set e, b | e in events && b in EventBytes(e) :: b
  }

  /** The requests that a call makes, on whatever its arguments address. */
  function Asks(callee: Callee, regs: Env): Option<set<Event>> {
    match callee
    case ClearRegion(ptr, width) =>
      var p, w := Look(ptr, regs), Look(width, regs);
      if p.Some? && p.value.Address? && w.Some? && w.value.Num?
      then Some(if p.value.place.0.Storage? then {Clear(p.value.place.1, w.value.n)} else {}) else None
    case WipeMemory(ptr) =>
      var p := Look(ptr, regs);
      if p.Some? && p.value.Address?
      then Some(if p.value.place.0.Storage? then {Wipe(p.value.place.1, 234)} else {}) else None
    case DropInitialization(ptr) =>
      var p := Look(ptr, regs);
      if p.Some? && p.value.Address?
      then Some(if p.value.place == (Initialization, 8) then {Drop} else {}) else None
    case DropGuard(ptr, incomplete) =>
      var p := Look(ptr, regs);
      if p.None? || !p.value.Address? then None
      else if !p.value.place.0.Storage? then Some({})
      else
        var base := p.value.place.1;
        Some({Clear(base + 864, 168)} + if incomplete then {Wipe(base + 624, 234), Clear(base + 1056, 2)} else {})
    case OtherCallee => None
  }

  ghost function Completed(c: Config, events: set<Event>): Config {
    c.(asked := c.asked + events, done := c.done + events, clean := c.clean + ClearedBytes(events))
  }

  function Unfinished(c: Config, events: set<Event>): Config {
    c.(asked := c.asked + events)
  }

  /** A store of `bits` bits makes the storage bytes it covers dirty. */
  function Written(c: Config, place: Place, bits: nat, x: Value): Config {
    var d := c.(heap := c.heap[place := (bits, x)]);
    if place.0.Storage? then d.(clean := d.clean - Bytes(place.1, bits / 8)) else d
  }

  function Set(c: Config, dst: Register, x: Value): Executed {
    Steps(c.(regs := c.regs[dst := x]))
  }

  function GoTo(c: Config, target: Label): Config {
    c.(at := target, prev := Some(c.at))
  }

  /** Line i of a block; `entry` are the registers at block entry, `payload` is what a landing
      pad delivers. A conditional branch needs a number, and only the last line leaves. The
      first of two successors is the one that an invoke takes when it comes back. */
  ghost function Execute(body: seq<Instr>, i: nat, entry: Env, c: Config, payload: int): Executed
    requires i < |body|
  {
    match body[i]
    case Phi(dst, arms) =>
      var o := Select(arms, c.prev);
      if o.None? || Look(o.value, entry).None? then Stuck else Set(c, dst, Look(o.value, entry).value)
    case Gep(dst, base, offset) =>
      var b, o := Look(Reg(base), c.regs), Look(offset, c.regs);
      if b.Some? && b.value.Address? && o.Some? && o.value.Num?
      then Set(c, dst, Address((b.value.place.0, b.value.place.1 + o.value.n))) else Stuck
    case LoadPresence(dst, ptr) =>
      var p := Look(Reg(ptr), c.regs);
      if p.Some? && p.value.Address? && p.value.place in c.heap && c.heap[p.value.place].0 == 64
      then Set(c, dst, c.heap[p.value.place].1) else Stuck
    case Store(bits, value, ptr) =>
      var a, x := Look(Reg(ptr), c.regs), Look(value, c.regs);
      if a.Some? && a.value.Address? && x.Some? then Steps(Written(c, a.value.place, bits, x.value)) else Stuck
    case Compare(dst, equal, left, right) =>
      var x := Look(Reg(left), c.regs);
      if x.None? then Stuck else Set(c, dst, Num(if (x.value == Num(right)) == equal then 1 else 0))
    case Truncate(dst, src) =>
      var x := Look(Reg(src), c.regs);
      if x.Some? && x.value.Num? then Set(c, dst, Num(x.value.n % 2)) else Stuck
    case LandingPad(dst) => Set(c, dst, Payload(payload))
    case Marker => Steps(c)
    case Call(callee, edges) =>
      var e := Asks(callee, c.regs);
      if e.None? then Stuck
      else if edges.None? then Steps(Completed(c, e.value))
      else if i + 1 != |body| then Stuck
      else Leaves([GoTo(Completed(c, e.value), edges.value.0), GoTo(Unfinished(c, e.value), edges.value.1)])
    case Jump(target) => if i + 1 == |body| then Leaves([GoTo(c, target)]) else Stuck
    case Branch(condition, yes, no) =>
      var x := Look(Reg(condition), c.regs);
      if i + 1 == |body| && x.Some? && x.value.Num?
      then Leaves([GoTo(c, if x.value.n != 0 then yes else no)]) else Stuck
    case Return => if i + 1 == |body| then Exits(c, true) else Stuck
    case Resume => if i + 1 == |body| then Exits(c, false) else Stuck
    case PanicInCleanup => Aborted
    case _ => Stuck
  }

  ghost function ExecuteFrom(body: seq<Instr>, i: nat, entry: Env, c: Config, payload: int): Executed
    requires i <= |body|
    decreases |body| - i
  {
    if i == |body| then Stuck
    else
      var r := Execute(body, i, entry, c, payload);
      if r.Steps? then ExecuteFrom(body, i + 1, entry, r.c, payload) else r
  }

  /** One block of a run. */
  ghost function Block(v: Review, c: Config, payload: int): Executed {
    if c.at !in v.blocks then Stuck else ExecuteFrom(v.blocks[c.at], 0, c.regs, c, payload)
  }

  ghost predicate Step(v: Review, c: Config, d: Config) {
    exists payload :: Block(v, c, payload).Leaves? && d in Block(v, c, payload).next
  }

  ghost predicate IsRun(v: Review, run: seq<Config>) {
    |run| > 0 && forall i :: 0 <= i < |run| - 1 ==> Step(v, run[i], run[i + 1])
  }

  /** A block that panics inside a cleanup is where a run ends, without leaving or exiting. */
  lemma {:induction false} PanicEnds(body: seq<Instr>, i: nat, entry: Env, c: Config, payload: int)
    requires i <= |body| && PanicInCleanup in body[i..]
    ensures !ExecuteFrom(body, i, entry, c, payload).Leaves? && !ExecuteFrom(body, i, entry, c, payload).Exits?
    decreases |body| - i
  {
    var r := Execute(body, i, entry, c, payload);
    if body[i] != PanicInCleanup {
      assert PanicInCleanup in body[i + 1..];
      if r.Steps? { PanicEnds(body, i + 1, entry, r.c, payload); }
    }
  }

  // ---------- what the walk knows ----------

  /** Where the staging buffer stands on a path: no request for it has come back, the last one
      that did was not followed by a wide store, or it was. */
  datatype Staging = Untouched | Clean | Dirtied

  predicate WideStore(line: Instr, env: Env) {
    line.Store? && line.bits == 64 && Look(Reg(line.ptr), env) == Some(Address((Storage, 859)))
  }

  /** The standing after a line; `back` says whether an invoke comes back. */
  function Track(v: Review, line: Instr, p: Path, s: Staging, back: bool): Staging {
    match line
    case Store(_, _, _) => if WideStore(line, p.env) && s.Clean? then Dirtied else s
    case Call(callee, edges) =>
      var e := Requests(v, callee, p.env);
      if e.Some? && CLEARING in e.value && (edges.None? || back) then Clean else s
    case _ => s
  }

  function TrackLines(v: Review, body: seq<Instr>, i: nat, p: Path, s: Staging, back: bool): Staging
    requires i <= |body|
    decreases |body| - i
  {
    if i == |body| then s
    else
      var o, u := Line(v, body, i, p), Track(v, body[i], p, s, back);
      if o.Continues? then TrackLines(v, body, i + 1, o.path, u, back) else u
  }

  /** The lines that the path passes branch on nothing but numbers. */
  predicate NumericLines(v: Review, body: seq<Instr>, i: nat, p: Path)
    requires i <= |body|
    decreases |body| - i
  {
    i < |body| ==>
      && (body[i].Branch? ==>
           Look(Reg(body[i].condition), p.env).Some? && Look(Reg(body[i].condition), p.env).value.Num?)
      && (Line(v, body, i, p).Continues? ==> NumericLines(v, body, i + 1, Line(v, body, i, p).path))
  }

  /** Each phi among the lines from i to n that the path passes selects an operand whose value at
      block entry is the one that the walk, reading the phis one after the other, takes. */
  predicate PhiLinesHold(v: Review, body: seq<Instr>, i: nat, n: nat, entry: Env, p: Path)
    requires i <= n <= |body|
    decreases n - i
  {
    i < n ==>
      && (body[i].Phi? && Select(body[i].arms, p.prev).Some? ==>
            Look(Select(body[i].arms, p.prev).value, entry) == Look(Select(body[i].arms, p.prev).value, p.env))
      && (Line(v, body, i, p).Continues? ==> PhiLinesHold(v, body, i + 1, n, entry, Line(v, body, i, p).path))
  }

  function Entering(p: Path): Path {
    p.(history := p.history + [p.at])
  }

  function TrackBlock(v: Review, p: Path, s: Staging, back: bool): Staging {
    if p.at in v.blocks then TrackLines(v, v.blocks[p.at], 0, Entering(p), s, back) else s
  }

  predicate Numeric(v: Review, p: Path) {
    p.at in v.blocks ==> NumericLines(v, v.blocks[p.at], 0, Entering(p))
  }

  predicate PhisHold(v: Review, p: Path) {
    p.at in v.blocks ==> PhiLinesHold(v, v.blocks[p.at], 0, |v.blocks[p.at]|, p.env, Entering(p))
  }

  // ---------- the simulation ----------

  /** What the walk knows about a value is what the run has; what it does not know is a payload. */
  predicate Agrees(known: Value, actual: Value) {
    if known.Unknown? then actual.Payload? else known == actual && !known.Payload?
  }

  ghost predicate Known(env: Env, regs: Env) {
    forall r :: r in env ==> r in regs && Agrees(env[r], regs[r])
  }

  /** The staging bytes that a 64-bit store at 859 covers. */
  const OVERLAP: set<int> := Bytes(864, 3)
  const REVIEWED: set<Event> := GUARD_EVENTS + {Drop}

  /** What came back is still clean, but for the overlap. */
  ghost predicate Kept(c: Config) {
    forall e :: e in c.done ==> if e == CLEARING then STAGE - OVERLAP <= c.clean else EventBytes(e) <= c.clean
  }

  ghost predicate Stands(s: Staging, c: Config) {
    match s
    case Untouched => CLEARING !in c.done
    case Clean => CLEARING in c.done && STAGE <= c.clean
    case Dirtied => CLEARING in c.done && !(STAGE <= c.clean)
  }

  ghost predicate Requested(p: Path, s: Staging, c: Config) {
    p.events == c.asked && c.done <= c.asked <= REVIEWED && Kept(c) && Stands(s, c)
  }

  ghost predicate Mirrors(p: Path, s: Staging, c: Config) {
    && p.at == c.at && p.prev == c.prev
    && Known(p.env, c.regs)
    && (forall a :: a in p.memory ==> a in c.heap && c.heap[a].0 == p.memory[a].0 && Agrees(p.memory[a].1, c.heap[a].1))
    && (Initialization, 0) in c.heap && c.heap[(Initialization, 0)] == (64, Num(1))
    && Requested(p, s, c)
  }

  lemma LookKnown(o: Operand, env: Env, regs: Env)
    requires Known(env, regs) && Look(o, env).Some?
    ensures Look(o, regs).Some? && Agrees(Look(o, env).value, Look(o, regs).value)
  {
  }

  /** A reviewed call makes the requests that the walk records. */
  lemma AsksRequests(v: Review, callee: Callee, env: Env, regs: Env)
    requires Known(env, regs) && Requests(v, callee, env).Some?
    ensures Asks(callee, regs) == Requests(v, callee, env) && Requests(v, callee, env).value <= REVIEWED
  {
    match callee {
      case ClearRegion(ptr, width) =>
        LookKnown(ptr, env, regs);
        LookKnown(width, env, regs);
      case WipeMemory(ptr) => LookKnown(ptr, env, regs);
      case DropInitialization(ptr) => LookKnown(ptr, env, regs);
      case DropGuard(ptr, _) =>
        LookKnown(ptr, env, regs);
        assert {CLEARING} + {Wipe(624, 234), Clear(1056, 2)} == GUARD_EVENTS;
      case OtherCallee =>
    }
  }

  lemma ReviewedBytes(events: set<Event>, e: Event)
    requires events <= REVIEWED && e in events
    ensures EventBytes(e) <= ClearedBytes(events)
    ensures CLEARING !in events ==> STAGE !! ClearedBytes(events)
  {
    if CLEARING !in events {
      forall b | b in STAGE ensures b !in ClearedBytes(events) {
        assert Within(b, 864, 168);
        assert b !in EventBytes(Wipe(624, 234)) && b !in EventBytes(Clear(1056, 2)) && b !in EventBytes(Drop);
      }
    }
  }

  /** Requests that come back: their bytes are clean, and nothing gets dirty. */
  lemma CompletedRequested(p: Path, s: Staging, c: Config, events: set<Event>)
    requires Requested(p, s, c) && events <= REVIEWED
    ensures Requested(p.(events := p.events + events), if CLEARING in events then Clean else s, Completed(c, events))
  {
    var d := Completed(c, events);
    if events == {} {
      assert d == c;
    } else {
      forall e | e in d.done
        ensures if e == CLEARING then STAGE - OVERLAP <= d.clean else EventBytes(e) <= d.clean
      {
        if e in events { ReviewedBytes(events, e); }
      }
      var e :| e in events;
      ReviewedBytes(events, if CLEARING in events then CLEARING else e);
    }
  }

  /** A store to the four metadata places dirties no cleared byte, but for the overlap under a
      64-bit store at 859, which it does dirty. */
  lemma StoreRequested(p: Path, s: Staging, c: Config, place: Place, bits: nat, known: Value, actual: Value)
    requires Requested(p, s, c) && place in METADATA && bits in {8, 64}
    ensures var wide := bits == 64 && place == (Storage, 859);
      Requested(p.(memory := p.memory[place := (bits, known)]), if wide && s.Clean? then Dirtied else s,
                Written(c, place, bits, actual))
  {
    var d := Written(c, place, bits, actual);
    var wide := bits == 64 && place == (Storage, 859);
    if place.0.Storage? {
      forall e | e in c.done
        ensures if e == CLEARING then STAGE - OVERLAP <= d.clean else EventBytes(e) <= d.clean
      {
        StoreSpares(e, place, bits);
      }
      StoreSpares(CLEARING, place, bits);
      if wide {
        assert Within(864, 859, 8) && 864 in Bytes(859, 8) && Within(864, 864, 168) && 864 in STAGE;
      }
    }
  }

  lemma StoreSpares(e: Event, place: Place, bits: nat)
    requires e in REVIEWED && place in {(Storage, 859), (Storage, 616)} && bits in {8, 64}
    ensures e != CLEARING ==> EventBytes(e) !! Bytes(place.1, bits / 8)
    ensures e == CLEARING ==> STAGE - OVERLAP !! Bytes(place.1, bits / 8)
    ensures e == CLEARING && !(bits == 64 && place.1 == 859) ==> STAGE !! Bytes(place.1, bits / 8)
  {
    forall b | b in EventBytes(e) && b in Bytes(place.1, bits / 8)
      ensures e == CLEARING && bits == 64 && place.1 == 859 && b in OVERLAP
    {
      assert Within(b, place.1, bits / 8);
      assert !e.Drop? && Within(b, e.offset, e.width);
    }
  }

  lemma StoreMirrors(p: Path, s: Staging, c: Config, place: Place, bits: nat, known: Value, actual: Value)
    requires Mirrors(p, s, c) && place in METADATA && bits in {8, 64} && Agrees(known, actual)
    ensures var wide := bits == 64 && place == (Storage, 859);
      Mirrors(p.(memory := p.memory[place := (bits, known)]), if wide && s.Clean? then Dirtied else s,
              Written(c, place, bits, actual))
  {
    StoreRequested(p, s, c, place, bits, known, actual);
    hide Requested, Known;
  }

  lemma CallMirrors(v: Review, callee: Callee, p: Path, s: Staging, c: Config)
    requires Mirrors(p, s, c) && Requests(v, callee, p.env).Some?
    ensures Asks(callee, c.regs) == Requests(v, callee, p.env)
    ensures var e := Requests(v, callee, p.env).value; var q := p.(events := p.events + e);
      && Mirrors(q, if CLEARING in e then Clean else s, Completed(c, e))
      && Mirrors(q, s, Unfinished(c, e))
  {
    AsksRequests(v, callee, p.env, c.regs);
    var e := Requests(v, callee, p.env).value;
    CompletedRequested(p, s, c, e);
    hide Requests, Asks, Known;
  }

  // ---------- inside a block ----------

  lemma BindMirrors(p: Path, s: Staging, c: Config, dst: Register, known: Value, actual: Value)
    requires Mirrors(p, s, c) && Agrees(known, actual)
    ensures Mirrors(p.(env := p.env[dst := known]), s, c.(regs := c.regs[dst := actual]))
  {
    BindRequested(p, s, c, p.env[dst := known], c.regs[dst := actual]);
    hide Requested, Agrees;
  }

  lemma BindRequested(p: Path, s: Staging, c: Config, env: Env, regs: Env)
    requires Requested(p, s, c)
    ensures Requested(p.(env := env), s, c.(regs := regs))
  {
  }

  lemma MirrorsKnown(p: Path, s: Staging, c: Config)
    requires Mirrors(p, s, c)
    ensures Known(p.env, c.regs) && p.at == c.at && p.prev == c.prev
    ensures (Initialization, 0) in c.heap && c.heap[(Initialization, 0)] == (64, Num(1))
  {
  }

  lemma LookMirrors(p: Path, s: Staging, c: Config, o: Operand)
    requires Mirrors(p, s, c) && Look(o, p.env).Some?
    ensures Look(o, c.regs).Some? && Agrees(Look(o, p.env).value, Look(o, c.regs).value)
  {
    LookKnown(o, p.env, c.regs);
  }

  /** A line that changes memory or makes a request, but sets no register. */
  lemma EffectContinues(v: Review, body: seq<Instr>, i: nat, entry: Env, p: Path, s: Staging, c: Config, payload: int,
      back: bool)
    requires i < |body| && Mirrors(p, s, c)
    requires Line(v, body, i, p).Continues? && (body[i].Store? || body[i].Marker? || body[i].Call?)
    ensures Execute(body, i, entry, c, payload).Steps?
    ensures Mirrors(Line(v, body, i, p).path, Track(v, body[i], p, s, back), Execute(body, i, entry, c, payload).c)
  {
    hide Mirrors, Known, Requests, Asks, ClearedBytes;
    match body[i] {
      case Store(bits, value, ptr) =>
        LookMirrors(p, s, c, Reg(ptr));
        LookMirrors(p, s, c, value);
        var a := Look(Reg(ptr), p.env).value.place;
        StoreMirrors(p, s, c, a, bits, Look(value, p.env).value, Look(value, c.regs).value);
      case Marker =>
      case Call(callee, _) =>
        CallMirrors(v, callee, p, s, c);
    }
  }

  /** One line that does not leave the block: a phi that holds sets what the walk sets. */
  lemma LineContinues(v: Review, body: seq<Instr>, i: nat, n: nat, e: Env, entry: Env, p: Path, s: Staging, c: Config,
      payload: int, back: bool)
    requires i < n <= |body| && Mirrors(p, s, c) && Known(e, entry) && Line(v, body, i, p).Continues?
    requires PhiLinesHold(v, body, i, n, e, p)
    ensures Execute(body, i, entry, c, payload).Steps?
    ensures Mirrors(Line(v, body, i, p).path, Track(v, body[i], p, s, back), Execute(body, i, entry, c, payload).c)
  {
    hide Mirrors, Known, Requests, Asks, Completed;
    MirrorsKnown(p, s, c);
    match body[i] {
      case Phi(dst, arms) =>
        var o := Select(arms, p.prev).value;
        LookKnown(o, e, entry);
        BindMirrors(p, s, c, dst, Look(o, p.env).value, Look(o, entry).value);
      case Gep(dst, base, offset) =>
        LookMirrors(p, s, c, Reg(base));
        LookMirrors(p, s, c, offset);
        var b, o := Look(Reg(base), p.env).value, Look(offset, p.env).value;
        var a := Address((b.place.0, b.place.1 + o.n));
        BindMirrors(p, s, c, dst, a, a);
      case LoadPresence(dst, ptr) =>
        LookMirrors(p, s, c, Reg(ptr));
        BindMirrors(p, s, c, dst, Num(1), Num(1));
      case Compare(dst, equal, left, right) =>
        LookMirrors(p, s, c, Reg(left));
        var x := Num(if (Look(Reg(left), p.env).value == Num(right)) == equal then 1 else 0);
        BindMirrors(p, s, c, dst, x, x);
      case Truncate(dst, src) =>
        LookMirrors(p, s, c, Reg(src));
        var x := Num(Look(Reg(src), p.env).value.n % 2);
        BindMirrors(p, s, c, dst, x, x);
      case LandingPad(dst) =>
        BindMirrors(p, s, c, dst, Unknown, Payload(payload));
      case _ =>
        EffectContinues(v, body, i, entry, p, s, c, payload, back);
    }
  }

  /** Successors on both sides; the run has one more where the walk leaves out a double panic. */
  ghost predicate Matched(v: Review, paths: seq<Path>, back: Staging, unwound: Staging, next: seq<Config>) {
    && 1 <= |paths| <= |next| <= 2
    && (forall k :: 0 <= k < |paths| ==> Mirrors(paths[k], if k == 0 then back else unwound, next[k]))
    && (|paths| < |next| ==> Aborts(v, next[1].at))
  }

  lemma EnterMirrors(p: Path, s: Staging, c: Config, target: Label)
    requires Mirrors(p, s, c)
    ensures Mirrors(Enter(p, target), s, GoTo(c, target))
  {
    hide Known;
  }

  /** One line that leaves the block: it does, unless it branches on something else than a number. */
  lemma LineLeaves(v: Review, body: seq<Instr>, i: nat, entry: Env, p: Path, s: Staging, c: Config, payload: int)
    requires i < |body| && Mirrors(p, s, c) && Line(v, body, i, p).Forks?
    ensures var r := Execute(body, i, entry, c, payload);
      if NumericLines(v, body, i, p)
      then r.Leaves? && Matched(v, Line(v, body, i, p).paths, Track(v, body[i], p, s, true),
        Track(v, body[i], p, s, false), r.next)
      else r.Stuck?
  {
    hide Mirrors, Requests, Asks, Completed;
    match body[i] {
      case Call(callee, edges) =>
        CallMirrors(v, callee, p, s, c);
        var e := Requests(v, callee, p.env).value;
        var q := p.(events := p.events + e);
        EnterMirrors(q, if CLEARING in e then Clean else s, Completed(c, e), edges.value.0);
        EnterMirrors(q, s, Unfinished(c, e), edges.value.1);
      case Jump(target) =>
        EnterMirrors(p, s, c, target);
      case Branch(condition, yes, no) =>
        MirrorsKnown(p, s, c);
        LookKnown(Reg(condition), p.env, c.regs);
        EnterMirrors(p, s, c, yes);
        EnterMirrors(p, s, c, no);
      case _ =>
    }
  }

  /** What the run shows at an exit: every required request made, what came back still clean. */
  ghost predicate ExitsWell(v: Review, c: Config, returned: bool) {
    && v.required <= c.asked && c.done <= c.asked && Kept(c)
    && (v.exit.ErrorExit? && returned ==> (Result, 0) in c.heap && c.heap[(Result, 0)] == (64, Num(2)))
    && (v.exit.UnwindExit? ==> !returned)
  }

  ghost predicate Faithful(v: Review, o: Outcome, back: Staging, unwound: Staging, numeric: bool, r: Executed) {
    match o
    case Ends => r.Exits? && ExitsWell(v, r.c, r.returned) && Stands(back, r.c)
    case Forks(paths) => if numeric then r.Leaves? && Matched(v, paths, back, unwound, r.next) else r.Stuck?
    case _ => true
  }

  lemma LineEnds(v: Review, body: seq<Instr>, i: nat, entry: Env, p: Path, s: Staging, c: Config, payload: int)
    requires i < |body| && Mirrors(p, s, c) && Line(v, body, i, p).Ends?
    ensures Execute(body, i, entry, c, payload) == Exits(c, body[i].Return?)
    ensures ExitsWell(v, c, body[i].Return?) && Stands(Track(v, body[i], p, s, true), c)
  {
    hide Known;
  }

  /** From line i on, a block does what the walk of it foresees. */
  lemma {:induction false} LinesFaithful(v: Review, body: seq<Instr>, i: nat, e: Env, entry: Env, p: Path, s: Staging,
      u: Staging, c: Config, payload: int)
    requires i <= |body| && Mirrors(p, s, c) && Known(e, entry) && PhiLinesHold(v, body, i, |body|, e, p) && s == u
    ensures Faithful(v, Lines(v, body, i, p), TrackLines(v, body, i, p, s, true), TrackLines(v, body, i, p, u, false),
                     NumericLines(v, body, i, p), ExecuteFrom(body, i, entry, c, payload))
    decreases |body| - i
  {
    hide Line, Execute, Mirrors, Known, Track, Matched, ExitsWell, Stands;
    if i < |body| {
      var o := Line(v, body, i, p);
      if o.Continues? {
        LineContinues(v, body, i, |body|, e, entry, p, s, c, payload, true);
        ContinuesAlike(v, body, i, p, s);
        LinesFaithful(v, body, i + 1, e, entry, o.path, Track(v, body[i], p, s, true), Track(v, body[i], p, s, false),
                      Execute(body, i, entry, c, payload).c, payload);
      } else {
        if o.Forks? { LineLeaves(v, body, i, entry, p, s, c, payload); }
        if o.Ends? { LineEnds(v, body, i, entry, p, s, c, payload); }
      }
    }
  }

  /** Only the last line of a block can tell an invoke that comes back from one that unwinds. */
  lemma ContinuesAlike(v: Review, body: seq<Instr>, i: nat, p: Path, s: Staging)
    requires i < |body| && Line(v, body, i, p).Continues?
    ensures Track(v, body[i], p, s, true) == Track(v, body[i], p, s, false)
    ensures !body[i].Branch?
  {
    hide Requests;
  }

  lemma BlockFaithful(v: Review, p: Path, s: Staging, c: Config, payload: int)
    requires Mirrors(p, s, c) && !Visit(v, p).Fails? && PhisHold(v, p)
    ensures Faithful(v, Visit(v, p), TrackBlock(v, p, s, true), TrackBlock(v, p, s, false), Numeric(v, p),
      Block(v, c, payload))
  {
    MirrorsKnown(p, s, c);
    EnteringMirrors(p, s, c);
    hide Mirrors, Known, TrackLines, NumericLines, PhiLinesHold, Faithful;
    LinesFaithful(v, v.blocks[p.at], 0, p.env, c.regs, Entering(p), s, s, c, payload);
  }

  lemma EnteringMirrors(p: Path, s: Staging, c: Config)
    requires Mirrors(p, s, c)
    ensures Mirrors(Entering(p), s, c)
  {
    hide Known;
  }
}
