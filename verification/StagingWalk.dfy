/** The walker over post-error paths: it interprets a closed instruction set with partly known
    values, forks at every invoke, and demands that each path ends in a return or resume after
    all required cleanup requests.

    `Good` says by plain recursion what the walk checks; `Walk` is the worklist that decides it. */
module StagingWalk {
  import opened Options
  import opened ControlGraph

  type Register = string
  datatype Region = Storage | Initialization | Result
  type Place = (Region, int)

  /** A register's value. The walk knows nothing about a landing pad's payload; real runs
      have some payload and no unknown values. */
  datatype Value = Num(n: int) | Address(place: Place) | Unknown | Payload(id: int)
  datatype Operand = Reg(r: Register) | Lit(n: int)
  datatype Callee = ClearRegion(ptr: Operand, width: Operand) | WipeMemory(ptr: Operand)
      | DropInitialization(ptr: Operand)
                  | DropGuard(ptr: Operand, incomplete: bool) | OtherCallee

  datatype Instr =
    | Phi(dst: Register, arms: seq<(Operand, Label)>)
    | Gep(dst: Register, base: Register, offset: Operand)
    | LoadPresence(dst: Register, ptr: Register)
    | Store(bits: nat, value: Operand, ptr: Register)
    | Compare(dst: Register, equal: bool, left: Register, right: int)
    | Truncate(dst: Register, src: Register)
    | LandingPad(dst: Register)
    | Marker
    | Call(callee: Callee, edges: Option<(Label, Label)>)
    | Jump(target: Label)
    | Branch(condition: Register, yes: Label, no: Label)
    | Return
    | Resume
    | PanicInCleanup
    | Unreachable
    | Unreviewed

  datatype Event = Clear(offset: int, width: int) | Wipe(offset: int, width: int) | Drop
  datatype Exit = GuardExit | ErrorExit | UnwindExit

  /** One review: the blocks, whether the guard's own definition has been validated, and what
      every path has to show at its end. */
  datatype Review = Review(blocks: map<Label, seq<Instr>>, guard: bool, required: set<Event>, exit: Exit)

  type Env = map<Register, Value>
  type Memory = map<Place, (nat, Value)>
  datatype Path = Path(at: Label, prev: Option<Label>, env: Env, memory: Memory, events: set<Event>,
      history: seq<Label>)

  const METADATA: set<Place> := {(Result, 0), (Result, 8), (Storage, 859), (Storage, 616)}
  const GUARD_EVENTS: set<Event> := {Wipe(624, 234), Clear(864, 168), Clear(1056, 2)}

  /** A token's value: a literal, or a register that must be known. */
  function Look(o: Operand, env: Env): Option<Value> {
    match o
    case Lit(n) => Some(Num(n))
    case Reg(r) => if r in env then Some(env[r]) else None
  }

  /** The operand that a phi selects: its predecessors are distinct and one is the actual one. */
  function Select(arms: seq<(Operand, Label)>, prev: Option<Label>): Option<Operand> {
    if prev.Some? && (forall i, j :: 0 <= i < j < |arms| ==> arms[i].1 != arms[j].1) then Pick(arms, prev.value)
      else None
  }

  function Pick(arms: seq<(Operand, Label)>, prev: Label): (o: Option<Operand>)
    ensures o.Some? ==> exists i :: 0 <= i < |arms| && arms[i] == (o.value, prev)
  {
    if arms == [] then None
    else if arms[0].1 == prev then
      assert arms[0] == (arms[0].0, prev);
      Some(arms[0].0)
    else
      var rest := Pick(arms[1..], prev);
      assert rest.Some? ==> exists i :: 0 <= i < |arms| && arms[i] == (rest.value, prev) by {
        if rest.Some? {
          var i :| 0 <= i < |arms[1..]| && arms[1..][i] == (rest.value, prev);
          assert arms[i + 1] == (rest.value, prev);
        }
      }
      rest
  }

  /** The events of a reviewed call on the original regions, or nothing for any other call. */
  function Requests(v: Review, callee: Callee, env: Env): Option<set<Event>> {
    match callee
    case ClearRegion(ptr, width) =>
      var p, w := Look(ptr, env), Look(width, env);
      if (p, w) == (Some(Address((Storage, 864))), Some(Num(168))) then Some({Clear(864, 168)})
      else if (p, w) == (Some(Address((Storage, 1056))), Some(Num(2))) then Some({Clear(1056, 2)})
      else None
    case WipeMemory(ptr) => if Look(ptr, env) == Some(Address((Storage, 624))) then Some({Wipe(624, 234)}) else None
    case DropInitialization(ptr) => if Look(ptr, env) == Some(Address((Initialization, 8))) then Some({Drop}) else None
    case DropGuard(ptr, incomplete) =>
      if Look(ptr, env) == Some(Address((Storage, 0))) && incomplete && v.guard then Some(GUARD_EVENTS) else None
    case OtherCallee => None
  }

  /** An unwind target that only aborts is left out of the walk; it must not return. */
  predicate Aborts(v: Review, l: Label) {
    l in v.blocks && PanicInCleanup in v.blocks[l]
  }

  /** Python's truth value: only the number zero is false. */
  predicate Truthy(x: Value) {
    x != Num(0)
  }

  predicate EndsWell(v: Review, p: Path, returning: bool) {
    && v.required <= p.events
    && (v.exit.ErrorExit? && returning ==> (Result, 0) in p.memory && p.memory[(Result, 0)] == (64, Num(2)))
    && (v.exit.UnwindExit? ==> !returning)
  }

  datatype Outcome = Fails | Continues(path: Path) | Ends | Forks(paths: seq<Path>)

  function Bind(p: Path, dst: Register, x: Value): Outcome {
    Continues(p.(env := p.env[dst := x]))
  }

  function Enter(p: Path, target: Label): Path {
    p.(at := target, prev := Some(p.at))
  }

  /** Line i of the block that the path is in. */
  function Line(v: Review, body: seq<Instr>, i: nat, p: Path): Outcome
    requires i < |body|
  {
    match body[i]
    case Phi(dst, arms) =>
      var o := Select(arms, p.prev);
      if o.None? || Look(o.value, p.env).None? then Fails else Bind(p, dst, Look(o.value, p.env).value)
    case Gep(dst, base, offset) =>
      var b, o := Look(Reg(base), p.env), Look(offset, p.env);
      if b.Some? && b.value.Address? && o.Some? && o.value.Num?
      then Bind(p, dst, Address((b.value.place.0, b.value.place.1 + o.value.n))) else Fails
    case LoadPresence(dst, ptr) =>
      if Look(Reg(ptr), p.env) == Some(Address((Initialization, 0))) then Bind(p, dst, Num(1)) else Fails
    case Store(bits, value, ptr) =>
      var a, x := Look(Reg(ptr), p.env), Look(value, p.env);
      if bits in {8, 64} && a.Some? && a.value.Address? && a.value.place in METADATA && x.Some?
      then Continues(p.(memory := p.memory[a.value.place := (bits, x.value)])) else Fails
    case Compare(dst, equal, left, right) =>
      var x := Look(Reg(left), p.env);
      if x.None? || x.value.Unknown? then Fails
      else Bind(p, dst, Num(if (x.value == Num(right)) == equal then 1 else 0))
    case Truncate(dst, src) =>
      var x := Look(Reg(src), p.env);
      if x.Some? && x.value.Num? then Bind(p, dst, Num(x.value.n % 2)) else Fails
    case LandingPad(dst) => Bind(p, dst, Unknown)
    case Marker => Continues(p)
    case Call(callee, edges) =>
      var e := Requests(v, callee, p.env);
      if e.None? then Fails
      else
        var q := p.(events := p.events + e.value);
        if edges.None? then Continues(q)
        else if i + 1 != |body| then Fails
        else if !Aborts(v, edges.value.1) then Forks([Enter(q, edges.value.0), Enter(q, edges.value.1)])
        else if v.blocks[edges.value.1][|v.blocks[edges.value.1]| - 1].Unreachable?
          then Forks([Enter(q, edges.value.0)])
        else Fails
    case Jump(target) => if i + 1 == |body| then Forks([Enter(p, target)]) else Fails
    case Branch(condition, yes, no) =>
      var x := Look(Reg(condition), p.env);
      if i + 1 == |body| && x.Some? then Forks([Enter(p, if Truthy(x.value) then yes else no)]) else Fails
    case Return => if i + 1 == |body| && EndsWell(v, p, true) then Ends else Fails
    case Resume => if i + 1 == |body| && EndsWell(v, p, false) then Ends else Fails
    case PanicInCleanup => Fails
    case Unreachable => Fails
    case Unreviewed => Fails
  }

  /** The lines from i on; a block without a terminator fails. */
  function Lines(v: Review, body: seq<Instr>, i: nat, p: Path): (o: Outcome)
    requires i <= |body|
    ensures !o.Continues?
    ensures o.Forks? ==> 1 <= |o.paths| <= 2 && forall q :: q in o.paths ==> q.history == p.history
    decreases |body| - i
  {
    if i == |body| then Fails
    else
      var o := Line(v, body, i, p);
      if o.Continues? then Lines(v, body, i + 1, o.path) else o
  }

  /** One block of a path. */
  function Visit(v: Review, p: Path): (o: Outcome)
    ensures !o.Continues?
    ensures o.Forks? ==> p.at in v.blocks && p.at !in p.history && 1 <= |o.paths| <= 2
    ensures o.Forks? ==> forall q :: q in o.paths ==> q.history == p.history + [p.at]
  {
    if p.at !in v.blocks || p.at in p.history then Fails
    else Lines(v, v.blocks[p.at], 0, p.(history := p.history + [p.at]))
  }

  /** The labels that a path may still enter. */
  ghost function Left(v: Review, p: Path): set<Label> {
    v.blocks.Keys - (set l | l in p.history)
  }

  lemma FewerLeft(v: Review, p: Path, q: Path)
    requires p.at in v.blocks && p.at !in p.history && q.history == p.history + [p.at]
    ensures |Left(v, q)| < |Left(v, p)|
  {
    assert Left(v, q) == Left(v, p) - {p.at};
    assert p.at in Left(v, p);
  }

  /** Every continuation of the path is finite and ends well. */
  ghost predicate Good(v: Review, p: Path)
    decreases |Left(v, p)|
  {
    var o := Visit(v, p);
    match o
    case Ends => true
    case Forks(paths) => forall q :: q in paths ==> (FewerLeft(v, p, q); Good(v, q))
    case _ => false
  }

  /** The number of ends that the walk counts below a path. */
  ghost function Terminals(v: Review, p: Path): nat
    decreases |Left(v, p)|
  {
    var o := Visit(v, p);
    if o.Ends? then 1
    else if !o.Forks? then 0
    else
      FewerLeft(v, p, o.paths[0]);
      if |o.paths| == 1 then Terminals(v, o.paths[0])
      else
        FewerLeft(v, p, o.paths[1]);
        Terminals(v, o.paths[0]) + Terminals(v, o.paths[1])
  }

  /** The last check of the walk, that some end was counted, can never fail. */
  lemma {:induction false} GoodHasTerminal(v: Review, p: Path)
    requires Good(v, p)
    ensures Terminals(v, p) > 0
    decreases |Left(v, p)|
  {
    var o := Visit(v, p);
    if o.Forks? {
      FewerLeft(v, p, o.paths[0]);
      GoodHasTerminal(v, o.paths[0]);
    }
  }

  // ---------- the worklist ----------

  function Power3(n: nat): nat {
    if n == 0 then 1 else 3 * Power3(n - 1)
  }

  lemma {:induction false} Power3Grows(m: nat, n: nat)
    requires m <= n
    ensures 1 <= Power3(m) <= Power3(n)
    decreases n
  {
    if m < n {
      Power3Grows(m, n - 1);
    } else if n > 0 {
      Power3Grows(n - 1, n - 1);
    }
  }

  /** The termination measure: a path weighs three times what each of its two children can. */
  ghost function Weight(v: Review, pending: seq<Path>): nat {
    if pending == [] then 0
    else Power3(|Left(v, pending[|pending| - 1])|) + Weight(v, pending[..|pending| - 1])
  }

  ghost function Count(v: Review, pending: seq<Path>): nat {
    if pending == [] then 0
    else Terminals(v, pending[|pending| - 1]) + Count(v, pending[..|pending| - 1])
  }

  lemma WeightPush(v: Review, pending: seq<Path>, p: Path)
    ensures Weight(v, pending + [p]) == Power3(|Left(v, p)|) + Weight(v, pending)
    ensures Count(v, pending + [p]) == Terminals(v, p) + Count(v, pending)
  {
    assert (pending + [p])[..|pending|] == pending;
  }

  lemma TerminalsFork(v: Review, p: Path)
    requires Visit(v, p).Forks?
    ensures var q := Visit(v, p).paths;
      Terminals(v, p) == if |q| == 1 then Terminals(v, q[0]) else Terminals(v, q[0]) + Terminals(v, q[1])
  {
    hide Visit, Line, Lines, Left;
  }

  lemma ForksWeighLess(v: Review, pending: seq<Path>, p: Path)
    requires Visit(v, p).Forks?
    ensures Weight(v, pending + Visit(v, p).paths) < Power3(|Left(v, p)|) + Weight(v, pending)
    ensures Count(v, pending + Visit(v, p).paths) == Terminals(v, p) + Count(v, pending)
  {
    hide Visit, Line, Lines, Left;
    var q := Visit(v, p).paths;
    TerminalsFork(v, p);
    ChildWeighsLess(v, p, q[0]);
    ChildWeighsLess(v, p, q[|q| - 1]);
    hide *;
    WeightPush(v, pending, q[0]);
    if |q| == 1 {
      assert pending + q == pending + [q[0]];
    } else {
      WeightPush(v, pending + [q[0]], q[1]);
      assert pending + q == pending + [q[0]] + [q[1]];
    }
  }

  lemma ChildWeighsLess(v: Review, p: Path, q: Path)
    requires Visit(v, p).Forks? && q in Visit(v, p).paths
    ensures 1 <= Power3(|Left(v, q)|) && 3 * Power3(|Left(v, q)|) <= Power3(|Left(v, p)|)
  {
    hide Visit, Line, Lines;
    FewerLeft(v, p, q);
    Power3Grows(|Left(v, q)|, |Left(v, p)| - 1);
  }

  /** Interprets one block in place, line by line. */
  method VisitBlock(v: Review, p: Path) returns (o: Outcome)
    ensures o == Visit(v, p)
  {
    if p.at !in v.blocks || p.at in p.history { return Fails; }
    var body, q := v.blocks[p.at], p.(history := p.history + [p.at]);
    var i := 0;
    while i < |body|
      invariant 0 <= i <= |body|
      invariant Visit(v, p) == Lines(v, body, i, q)
    {
      var step := Line(v, body, i, q);
      if !step.Continues? { return step; }
      q := step.path;
      i := i + 1;
    }
    return Fails;
  }

  ghost predicate AllGood(v: Review, paths: seq<Path>) {
    forall q :: q in paths ==> Good(v, q)
  }

  lemma AllGoodPop(v: Review, pending: seq<Path>, p: Path)
    ensures AllGood(v, pending + [p]) <==> AllGood(v, pending) && Good(v, p)
    ensures Visit(v, p).Ends? ==> Good(v, p) && Terminals(v, p) == 1
    ensures Visit(v, p).Fails? ==> !Good(v, p)
    ensures Visit(v, p).Forks? ==> (AllGood(v, pending + Visit(v, p).paths) <==> AllGood(v, pending) && Good(v, p))
  {
    assert p in pending + [p];
    if Visit(v, p).Forks? {
      assert Good(v, p) <==> AllGood(v, Visit(v, p).paths);
    }
  }

  /** The walk. It accepts exactly when every continuation of the start is good, and then it
      has counted every end. */
  method Walk(v: Review, start: Label, predecessor: Option<Label>, env: Env) returns (r: Option<nat>)
    ensures var p := Path(start, predecessor, env, map[], {}, []);
      && (r.Some? <==> Good(v, p) && Terminals(v, p) > 0)
      && (r.Some? ==> r.value == Terminals(v, p))
  {
    hide *;
    var p0 := Path(start, predecessor, env, map[], {}, []);
    var pending, terminals := [p0], 0;
    assert [] + [p0] == pending;
    NothingPending(v);
    WeightPush(v, [], p0);
    AllGoodPop(v, [], p0);
    while pending != []
      invariant Good(v, p0) <==> AllGood(v, pending)
      invariant Terminals(v, p0) == terminals + Count(v, pending)
      decreases Weight(v, pending)
    {
      var p := pending[|pending| - 1];
      assert pending == pending[..|pending| - 1] + [p];
      pending := pending[..|pending| - 1];
      WeightPush(v, pending, p);
      AllGoodPop(v, pending, p);
      Power3Grows(0, |Left(v, p)|);
      var o := VisitBlock(v, p);
      match o {
        case Forks(paths) =>
          ForksWeighLess(v, pending, p);
          pending := pending + paths;
        case Ends =>
          terminals := terminals + 1;
        case _ =>
          VisitNeverContinues(v, p);
          return None;
      }
    }
    NothingPending(v);
    return if terminals > 0 then Some(terminals) else None;
  }

  lemma NothingPending(v: Review)
    ensures Weight(v, []) == 0 && Count(v, []) == 0 && AllGood(v, [])
  {
  }

  lemma VisitNeverContinues(v: Review, p: Path)
    ensures !Visit(v, p).Continues?
  {
  }
}
