/** The machine that the constructor's blocks run on: words wrap, a promise that is broken or a
    shift that is too wide gives anything at all, phis read the registers as they were at block
    entry, stores may overlap, registers may be set again and blocks entered again.

    The interpreter checks more and reads its phis one after the other; what it accepts is shown
    to run here to the same stores through the same blocks, exactly if its phis read at entry. */
module OutputMachine {
  import opened Options
  import opened Arithmetic
  import opened Ranges
  import opened ControlGraph
  import opened OutputConstructor

  datatype Config =
    | At(at: Label, prev: Option<Label>, line: nat, entry: Env, env: Env, stores: Stores)
    | Halted(stores: Stores)

  /** An operand as a word: whatever integer is in it, wrapped. */
  function Word(o: Operand, width: Bits, env: Env): Option<nat> {
    var v := Get(o, env);
    if v.Some? && v.value.Int? then Some(v.value.n % Pow2(width)) else None
  }

  /** A result that is not what its flags promise. */
  predicate Breaks(nuw: bool, nsw: bool, width: Bits, wrapped: nat, exact: int, exactSigned: int) {
    (nuw && wrapped != exact) || (nsw && Signed(wrapped, width) != exactSigned)
  }

  /** The operand that a phi takes along an edge. */
  function Chosen(line: Instr, prev: Option<Label>): Option<Operand>
    requires line.Phi?
  {
    if prev == Some(line.first) then Some(line.left) else if prev == Some(line.second) then Some(line.right) else None
  }

  /** The value that a line sets; `poison` is what a broken promise leaves there. */
  function Eval(line: Instr, entry: Env, env: Env, prev: Option<Label>, poison: Register -> Value): Option<Value>
    requires !line.Store? && !line.Branch? && !line.Jump? && !line.Return?
  {
    match line
    case Compare(dst, samesign, test, width, left, right) =>
      var a, b := Word(left, width, env), Word(right, width, env);
      if a.None? || b.None? then None
      else if samesign && (Signed(a.value, width) < 0) != (Signed(b.value, width) < 0) then Some(poison(dst))
      else Some(Bool(match test case Equal => a.value == b.value case Below => a.value < b.value
        case Above => a.value > b.value))
    case Add(dst, nuw, nsw, width, left, right) =>
      var a, b := Word(left, width, env), Word(right, width, env);
      if a.None? || b.None? then None
      else
        var w := (a.value + b.value) % Pow2(width);
        Some(if Breaks(nuw, nsw, width, w, a.value + b.value, Signed(a.value, width) + Signed(b.value, width))
             then poison(dst) else Int(w))
    case Shl(dst, nuw, nsw, width, left, right) =>
      var a, b := Word(left, width, env), Word(right, width, env);
      if a.None? || b.None? then None
      else if b.value >= width then Some(poison(dst))
      else
        var w := (a.value * Pow2(b.value)) % Pow2(width);
        Some(if Breaks(nuw, nsw, width, w, a.value * Pow2(b.value), Signed(a.value, width) * Pow2(b.value))
             then poison(dst) else Int(w))
    case Select(_, condition, yes, no) =>
      var c := Get(condition, env);
      if c.Some? && c.value.Bool? then Get(if c.value.b then yes else no, env) else None
    case Zext(_, operand) =>
      var a := Word(operand, 8, env);
      if a.Some? then Some(Int(a.value)) else None
    case Overflow(_, left, right) =>
      var a, b := Word(left, 64, env), Word(right, 64, env);
      if a.None? || b.None? then None
      else Some(Pair((a.value + b.value) % Pow2(64), (a.value + b.value) % Pow2(64) != a.value + b.value))
    case Extract(_, src, index) =>
      var a := Get(Reg(src), env);
      if a.None? || !a.value.Pair? then None else Some(if index == 0 then Int(a.value.sum) else Bool(a.value.carry))
    case Phi(_, _, _, _, _) =>
      var o := Chosen(line, prev);
      if o.None? then None
      else
        var a := Word(o.value, 64, entry);
        if a.Some? then Some(Int(a.value)) else None
    case Gep(_, base, offset) =>
      var a := Get(Reg(base), env);
      if a.Some? && a.value.Pointer? then Some(Pointer(a.value.region, a.value.offset + offset)) else None
  }

  /** What a store writes: any value into a pointer field, else a word of the field's width. */
  function StoredValue(field: Field, operand: Operand, env: Env): Option<Value> {
    if field.PointerField? then Get(operand, env)
    else
      var w := Word(operand, Width(field) * 8, env);
      if w.Some? then Some(Int(w.value)) else None
  }

  /** A store inside the result takes the place of every field that it overlaps. */
  function Written(stores: Stores, at: int, field: Field, v: Value): Stores {
    (map o | o in stores && Bytes(o, Width(stores[o].0)) !! Bytes(at, Width(field)) :: stores[o])[at := (field, v)]
  }

  function Enter(c: Config, target: Label): Config
    requires c.At?
  {
    At(target, Some(c.at), 0, c.env, c.env, c.stores)
  }

  /** One line, or nothing where the machine is stuck. */
  function Next(program: Program, c: Config, poison: Register -> Value): Option<Config> {
    if c.Halted? || c.at !in program || c.line >= |program[c.at]| then None
    else
      var line := program[c.at][c.line];
      match line
      case Store(field, operand, address) =>
        var a := Get(Reg(address), c.env);
        var v := StoredValue(field, operand, c.env);
        if a.None? || !a.value.Pointer? || !a.value.region.Output? || !(0 <= a.value.offset <= 32 - Width(field))
          || v.None? then None
        else Some(c.(line := c.line + 1, stores := Written(c.stores, a.value.offset, field, v.value)))
      case Branch(condition, yes, no) =>
        var b := Get(condition, c.env);
        if b.Some? && b.value.Bool? then Some(Enter(c, if b.value.b then yes else no)) else None
      case Jump(target) => Some(Enter(c, target))
      case Return => Some(Halted(c.stores))
      case _ =>
        var v := Eval(line, c.entry, c.env, c.prev, poison);
        if v.None? then None else Some(c.(line := c.line + 1, env := c.env[line.dst := v.value]))
  }

  ghost predicate IsRun(program: Program, run: seq<Config>, poison: Register -> Value) {
    |run| > 0 && forall i :: 0 <= i < |run| - 1 ==> Next(program, run[i], poison) == Some(run[i + 1])
  }

  function Begin(length: int, valid: int): Config {
    At("start", None, 0, Arguments(length, valid), Arguments(length, valid), map[])
  }

  /** A run of the body from its start to its end. */
  ghost predicate Completes(program: Program, length: int, valid: int, poison: Register -> Value, run: seq<Config>) {
    IsRun(program, run, poison) && run[0] == Begin(length, valid) && run[|run| - 1].Halted?
  }

  ghost function Labels(run: seq<Config>): set<Label> {
    set c | c in run && c.At? :: c.at
  }

  // ---------- phis ----------

  predicate Sets(line: Instr, r: Register) {
    !line.Store? && !line.Branch? && !line.Jump? && !line.Return? && line.dst == r
  }

  predicate SetBefore(body: seq<Instr>, i: nat, r: Register)
    requires i <= |body|
  {
    exists j :: 0 <= j < i && Sets(body[j], r)
  }

  /** The line is a phi that takes along this edge what an earlier line of its block sets. */
  predicate ReadsOwn(body: seq<Instr>, i: nat, prev: Option<Label>)
    requires i < |body|
  {
    && body[i].Phi? && Chosen(body[i], prev).Some?
    && Chosen(body[i], prev).value.Reg? && SetBefore(body, i, Chosen(body[i], prev).value.r)
  }

  /** From line i on, no phi does. */
  predicate ReadsEntry(body: seq<Instr>, i: nat, prev: Option<Label>) {
    forall k :: i <= k < |body| ==> !ReadsOwn(body, k, prev)
  }

  /** Along the accepted interpretation, every block's phis read what was there at its entry. */
  ghost predicate PhisReadEntry(program: Program, at: Label, prev: Option<Label>, visited: set<Label>, m: Machine)
    decreases |program.Keys - visited|
  {
    at in program && at !in visited ==>
      && ReadsEntry(program[at], 0, prev)
      && var s := RunBlock(program[at], m, prev, _ => Poison);
         (s.Some? && !s.value.returned && s.value.next.Some? ==>
            (Shrinks(program.Keys, visited, at);
             PhisReadEntry(program, s.value.next.value, Some(at), visited + {at}, s.value.(next := None))))
  }

  // ---------- one line ----------

  lemma WordIsUnsigned(o: Operand, width: Bits, env: Env)
    requires Unsigned(o, width, env).Some?
    ensures Word(o, width, env) == Unsigned(o, width, env) && Unsigned(o, width, env).value < Pow2(width)
  {
    hide Get;
    var n := Get(o, env).value.n;
    assert 0 <= n % Pow2(width) < Pow2(width);
  }

  /** The interpreter's test for poison is that the wrapped result is not the promised one. */
  lemma PoisonsWhereBroken(line: Instr, left: nat, right: nat)
    requires line.Add? || line.Shl?
    requires left < Pow2(line.width) && right < Pow2(line.width) && Exact(line, left, right) >= 0
    ensures Poisons(line, left, right) <==> Breaks(line.nuw, line.nsw, line.width,
      Exact(line, left, right) % Pow2(line.width), Exact(line, left, right), ExactSigned(line, left, right))
  {
    var p := Pow2(line.width);
    var w := Exact(line, left, right) % p;
    assert 0 <= w < p && p == 2 * Pow2(line.width - 1);
    hide Exact, ExactSigned;
    if !Poisons(line, left, right) { UnpoisonedIsExact(line, left, right); }
  }

  lemma ShiftedIsNat(left: nat, right: nat)
    ensures left * Pow2(right) >= 0
  {
  }

  lemma ArithmeticAgrees(line: Instr, entry: Env, env: Env, prev: Option<Label>, poison: Register -> Value)
    requires (line.Add? || line.Shl?) && Compute(line, env, prev, poison).Some?
    ensures Eval(line, entry, env, prev, poison) == Compute(line, env, prev, poison)
  {
    hide Pow2, Signed, Unsigned, Word, Poisons, Breaks;
    WordsAre(line.left, line.right, line.width, env);
    var a, b := Word(line.left, line.width, env).value, Word(line.right, line.width, env).value;
    ShiftedIsNat(a, b);
    PoisonsWhereBroken(line, a, b);
  }

  lemma SignIsTopBit(a: nat, width: Bits)
    requires a < Pow2(width)
    ensures Signed(a, width) < 0 <==> a >= Pow2(width - 1)
  {
  }

  lemma CarryIsLoss(sum: nat, p: nat)
    requires p > 0
    ensures sum % p != sum <==> sum >= p
  {
    if sum < p { DivMod(sum, p, 0, sum); }
  }

  lemma WordOf(o: Operand, entry: Env, env: Env)
    requires Get(o, entry) == Get(o, env)
    ensures Word(o, 64, entry) == Word(o, 64, env)
  {
  }

  /** What the interpreter computes, the machine does, if a phi finds its operand at entry. */
  lemma EvalIsCompute(line: Instr, entry: Env, env: Env, prev: Option<Label>, poison: Register -> Value)
    requires !line.Store? && !line.Branch? && !line.Jump? && !line.Return?
    requires Compute(line, env, prev, poison).Some?
    requires line.Phi? && Chosen(line, prev).Some? ==>
      Get(Chosen(line, prev).value, entry) == Get(Chosen(line, prev).value, env)
    ensures Eval(line, entry, env, prev, poison) == Compute(line, env, prev, poison)
  {
    hide Pow2, Signed, Unsigned, Word, Poisons, Breaks, Get, Exact;
    match line {
      case Compare(_, _, _, width, left, right) =>
        WordsAre(left, right, width, env);
        SignIsTopBit(Word(left, width, env).value, width);
        SignIsTopBit(Word(right, width, env).value, width);
      case Add(_, _, _, _, _, _) => ArithmeticAgrees(line, entry, env, prev, poison);
      case Shl(_, _, _, _, _, _) => ArithmeticAgrees(line, entry, env, prev, poison);
      case Zext(_, operand) => WordIsUnsigned(operand, 8, env);
      case Overflow(_, left, right) =>
        WordsAre(left, right, 64, env);
        CarryIsLoss(Word(left, 64, env).value + Word(right, 64, env).value, Pow2(64));
      case Phi(_, _, _, _, _) =>
        WordIsUnsigned(Chosen(line, prev).value, 64, env);
        WordOf(Chosen(line, prev).value, entry, env);
      case _ =>
    }
  }

  lemma WordsAre(left: Operand, right: Operand, width: Bits, env: Env)
    requires Unsigned(left, width, env).Some? && Unsigned(right, width, env).Some?
    ensures Word(left, width, env) == Unsigned(left, width, env)
    ensures Word(right, width, env) == Unsigned(right, width, env)
    ensures Unsigned(left, width, env).value < Pow2(width) && Unsigned(right, width, env).value < Pow2(width)
    ensures Pow2(width) == 2 * Pow2(width - 1)
  {
    WordIsUnsigned(left, width, env);
    WordIsUnsigned(right, width, env);
  }

  // ---------- the interpreter's blocks on the machine ----------

  /** The registers in the middle of a block whose lines set only new ones. */
  ghost predicate Since(body: seq<Instr>, i: nat, entry: Env, env: Env)
    requires i <= |body|
  {
    forall r: Register ::
      if SetBefore(body, i, r) then r !in entry && r in env
      else (r in entry <==> r in env) && (r in entry ==> entry[r] == env[r])
  }

  lemma SetByNext(body: seq<Instr>, i: nat, r: Register)
    requires i < |body|
    ensures SetBefore(body, i + 1, r) <==> SetBefore(body, i, r) || Sets(body[i], r)
  {
  }

  lemma SinceNext(body: seq<Instr>, i: nat, entry: Env, env: Env, v: Value)
    requires i < |body| && Since(body, i, entry, env)
    requires !body[i].Store? && !body[i].Branch? && !body[i].Jump? && !body[i].Return? && body[i].dst !in env
    ensures Since(body, i + 1, entry, env[body[i].dst := v])
  {
    hide SetBefore;
    forall r ensures SetBefore(body, i + 1, r) <==> SetBefore(body, i, r) || Sets(body[i], r) {
      SetByNext(body, i, r);
    }
  }

  lemma SinceSame(body: seq<Instr>, i: nat, entry: Env, env: Env)
    requires i < |body| && Since(body, i, entry, env)
    requires body[i].Store? || body[i].Branch? || body[i].Jump? || body[i].Return?
    ensures Since(body, i + 1, entry, env)
  {
    hide SetBefore;
    forall r ensures SetBefore(body, i + 1, r) <==> SetBefore(body, i, r) {
      SetByNext(body, i, r);
    }
  }

  /** Where the machine stands when the interpreter has done a line. */
  function Beside(at: Label, prev: Option<Label>, line: nat, entry: Env, m: Machine): Config {
    if m.returned then Halted(m.stores)
    else if m.next.Some? then At(m.next.value, Some(at), 0, m.env, m.env, m.stores)
    else At(at, prev, line, entry, m.env, m.stores)
  }

  /** No field of the interpreter's stores overlaps one that it admits. */
  lemma StoresApart(m: Machine, at: int, field: Field, v: Value)
    requires WrittenOnce(m) && Bytes(at, Width(field)) !! m.written
    ensures Written(m.stores, at, field, v) == m.stores[at := (field, v)]
  {
    hide Bytes, Descriptor;
  }

  lemma StoredIsValue(field: Field, operand: Operand, env: Env)
    requires Stored(field, operand, env).Some?
    ensures StoredValue(field, operand, env) == Stored(field, operand, env)
  {
    if !field.PointerField? { WordIsUnsigned(operand, Width(field) * 8, env); }
    hide Unsigned, Word;
  }

  lemma StoreRuns(program: Program, at: Label, prev: Option<Label>, i: nat, entry: Env, m: Machine,
      poison: Register -> Value)
    requires at in program && i < |program[at]| && program[at][i].Store? && WrittenOnce(m)
    requires Step(program[at][i], m, prev, poison).Some?
    ensures Next(program, At(at, prev, i, entry, m.env, m.stores), poison) ==
      Some(Beside(at, prev, i + 1, entry, Step(program[at][i], m, prev, poison).value))
  {
    var line := program[at][i];
    hide Stored, StoredValue, Bytes, WrittenOnce, Written;
    StoredIsValue(line.field, line.operand, m.env);
    StoresApart(m, m.env[line.address].offset, line.field, Stored(line.field, line.operand, m.env).value);
  }

  lemma LineKeeps(body: seq<Instr>, i: nat, prev: Option<Label>, entry: Env, m: Machine, poison: Register -> Value)
    requires i < |body| && Since(body, i, entry, m.env) && WrittenOnce(m) && Step(body[i], m, prev, poison).Some?
    ensures var s := Step(body[i], m, prev, poison).value; Since(body, i + 1, entry, s.env) && WrittenOnce(s)
  {
    StepWrites(body[i], m, prev, poison);
    hide Compute, Since, WrittenOnce, Stored, Bytes;
    if body[i].Store? || body[i].Branch? || body[i].Jump? || body[i].Return? {
      SinceSame(body, i, entry, m.env);
    } else {
      SinceNext(body, i, entry, m.env, Compute(body[i], m.env, prev, poison).value);
    }
  }

  /** One line: the machine does it too, unless it is a phi that reads what its own block set. */
  lemma LineRuns(program: Program, at: Label, prev: Option<Label>, i: nat, entry: Env, m: Machine,
      poison: Register -> Value)
    requires at in program && i < |program[at]| && Since(program[at], i, entry, m.env) && WrittenOnce(m)
    requires Step(program[at][i], m, prev, poison).Some?
    ensures Next(program, At(at, prev, i, entry, m.env, m.stores), poison) ==
      if ReadsOwn(program[at], i, prev) then None
      else Some(Beside(at, prev, i + 1, entry, Step(program[at][i], m, prev, poison).value))
  {
    var body := program[at];
    hide Compute, Eval, Since, SetBefore, WrittenOnce, Stored, Word, Bytes, Written;
    if body[i].Store? {
      StoreRuns(program, at, prev, i, entry, m, poison);
    } else if !body[i].Branch? && !body[i].Jump? && !body[i].Return? {
      EvalRuns(body, i, entry, m.env, prev, poison);
    }
  }

  lemma EvalRuns(body: seq<Instr>, i: nat, entry: Env, env: Env, prev: Option<Label>, poison: Register -> Value)
    requires i < |body| && Since(body, i, entry, env)
    requires !body[i].Store? && !body[i].Branch? && !body[i].Jump? && !body[i].Return?
    requires Compute(body[i], env, prev, poison).Some?
    ensures Eval(body[i], entry, env, prev, poison) ==
      if ReadsOwn(body, i, prev) then None else Compute(body[i], env, prev, poison)
  {
    hide SetBefore;
    if !ReadsOwn(body, i, prev) {
      hide Eval, Compute;
      EvalIsCompute(body[i], entry, env, prev, poison);
    }
  }

  // ---------- blocks and runs ----------

  /** A run inside one block: to where it leaves the block, or to where it is stuck. */
  ghost predicate Stretch(program: Program, at: Label, run: seq<Config>, from: Config, to: Option<Config>,
      poison: Register -> Value)
  {
    && IsRun(program, run, poison) && run[0] == from
    && (forall c :: c in run[..|run| - 1] ==> c.At? && c.at == at)
    && var last := run[|run| - 1];
       if to.Some? then last == to.value else last.At? && Next(program, last, poison).None?
  }

  lemma StretchGrows(program: Program, at: Label, c: Config, rest: seq<Config>, from: Config, to: Option<Config>,
      poison: Register -> Value)
    requires Stretch(program, at, rest, from, to, poison) && Next(program, c, poison) == Some(from)
    requires c.At? && c.at == at
    ensures Stretch(program, at, [c] + rest, c, to, poison) && |[c] + rest| > 1
  {
    hide Next;
    RunGrows(program, c, rest, poison);
    assert ([c] + rest)[..|rest|] == [c] + rest[..|rest| - 1];
  }

  /** From line i on, the block runs on the machine to where the interpreter leaves it, or is stuck
      at the first phi that reads what its own block set. */
  lemma {:induction false} BlockRuns(program: Program, at: Label, prev: Option<Label>, i: nat, entry: Env, m: Machine,
      s: Machine, poison: Register -> Value) returns (run: seq<Config>)
    requires at in program && i <= |program[at]| && Since(program[at], i, entry, m.env) && WrittenOnce(m)
    requires !m.returned && m.next.None? && (s.returned || s.next.Some?)
    requires RunBlock(program[at][i..], m, prev, poison) == Some(s)
    ensures Stretch(program, at, run, At(at, prev, i, entry, m.env, m.stores),
      if ReadsEntry(program[at], i, prev) then Some(Beside(at, prev, 0, entry, s)) else None, poison)
    ensures ReadsEntry(program[at], i, prev) ==> |run| > 1
    decreases |program[at]| - i
  {
    var body := program[at];
    assert i < |body| && body[i..][0] == body[i] && body[i..][1..] == body[i + 1..];
    var n := Step(body[i], m, prev, poison).value;
    assert RunBlock(body[i + 1..], n, prev, poison) == Some(s);
    hide RunBlock, IsRun, Stretch, Step, Next, Since, WrittenOnce, ReadsOwn, ReadsEntry;
    LineRuns(program, at, prev, i, entry, m, poison);
    LineKeeps(body, i, prev, entry, m, poison);
    ReadsEntryHere(body, i, prev);
    var c, d := At(at, prev, i, entry, m.env, m.stores), Beside(at, prev, i + 1, entry, n);
    run := [c];
    if ReadsOwn(body, i, prev) {
      StretchStuck(program, at, c, poison);
    } else {
      var rest, to := [d], Some(d);
      if n.returned || n.next.Some? {
        LeavesLast(body[i + 1..], n, s, prev, poison);
        StretchArrives(program, at, d, poison);
        NothingBehind(body, prev);
      } else {
        rest := BlockRuns(program, at, prev, i + 1, entry, n, s, poison);
        to := if ReadsEntry(body, i + 1, prev) then Some(Beside(at, prev, 0, entry, s)) else None;
      }
      StretchGrows(program, at, c, rest, d, to, poison);
      run := [c] + rest;
    }
  }

  lemma StretchStuck(program: Program, at: Label, c: Config, poison: Register -> Value)
    requires c.At? && Next(program, c, poison).None?
    ensures Stretch(program, at, [c], c, None, poison)
  {
  }

  lemma StretchArrives(program: Program, at: Label, c: Config, poison: Register -> Value)
    ensures Stretch(program, at, [c], c, Some(c), poison)
  {
  }

  lemma NothingBehind(body: seq<Instr>, prev: Option<Label>)
    ensures ReadsEntry(body, |body|, prev)
  {
  }

  lemma ReadsEntryHere(body: seq<Instr>, i: nat, prev: Option<Label>)
    requires i < |body|
    ensures ReadsEntry(body, i, prev) <==> !ReadsOwn(body, i, prev) && ReadsEntry(body, i + 1, prev)
  {
    hide ReadsOwn;
  }

  lemma LeavesLast(rest: seq<Instr>, n: Machine, s: Machine, prev: Option<Label>, poison: Register -> Value)
    requires (n.returned || n.next.Some?) && RunBlock(rest, n, prev, poison) == Some(s)
    ensures rest == [] && s == n
  {
  }

  lemma RunGrows(program: Program, c: Config, rest: seq<Config>, poison: Register -> Value)
    requires IsRun(program, rest, poison) && Next(program, c, poison) == Some(rest[0])
    ensures IsRun(program, [c] + rest, poison)
  {
    hide Next;
  }

  lemma RunsJoin(program: Program, a: seq<Config>, b: seq<Config>, poison: Register -> Value)
    requires IsRun(program, a, poison) && IsRun(program, b, poison) && a[|a| - 1] == b[0]
    ensures var run := a[..|a| - 1] + b; IsRun(program, run, poison) && run[0] == a[0] && run[|run| - 1] == b[|b| - 1]
  {
    hide Next;
    var run, n := a[..|a| - 1] + b, |a| - 1;
    forall i | 0 <= i < |run| - 1 ensures Next(program, run[i], poison) == Some(run[i + 1]) {
      if i < n { assert (run[i], run[i + 1]) == (a[i], a[i + 1]); } else { assert run[i] == b[i - n]; }
    }
  }

  lemma LabelsOf(head: seq<Config>, at: Label)
    requires |head| > 1 && forall c :: c in head[..|head| - 1] ==> c.At? && c.at == at
    ensures Labels(head[..|head| - 1]) == {at} && (head[|head| - 1].Halted? ==> Labels(head) == {at})
  {
    var front := head[..|head| - 1];
    assert front[0] in front && front[0] in head;
    assert head == front + [head[|head| - 1]];
  }

  lemma LabelsJoin(head: seq<Config>, rest: seq<Config>, at: Label)
    requires |head| > 1 && forall c :: c in head[..|head| - 1] ==> c.At? && c.at == at
    ensures Labels(head[..|head| - 1] + rest) == {at} + Labels(rest)
  {
    LabelsOf(head, at);
  }

  /** A block that the interpreter passes, with poison kept and with other values in its place. */
  lemma AcceptedBlock(program: Program, at: Label, prev: Option<Label>, visited: set<Label>, m: Machine, n: Machine,
      poison: Register -> Value) returns (s: Machine, t: Machine)
    requires MachinesAgree(m, n) && WrittenOnce(n) && RunFrom(program, at, prev, visited, m, _ => Poison).Done?
    ensures at in program && at !in visited && RunBlock(program[at], n, prev, poison) == Some(t)
    ensures (t.returned || t.next.Some?) && t.returned == s.returned && t.next == s.next
    ensures s.stores == t.stores && WrittenOnce(t.(next := None)) && MachinesAgree(s.(next := None), t.(next := None))
    ensures var r := RunFrom(program, at, prev, visited, m, _ => Poison);
      var phis := PhisReadEntry(program, at, prev, visited, m);
      if s.returned then r == Done(s.stores, visited + {at}) && phis == ReadsEntry(program[at], 0, prev)
      else
        var rest := s.(next := None);
        && r == RunFrom(program, s.next.value, Some(at), visited + {at}, rest, _ => Poison)
        && phis == (ReadsEntry(program[at], 0, prev)
                    && PhisReadEntry(program, s.next.value, Some(at), visited + {at}, rest))
  {
    BlockAgrees(program[at], m, n, prev, poison);
    BlockWrites(program[at], n, prev, poison);
    s, t := RunBlock(program[at], m, prev, _ => Poison).value, RunBlock(program[at], n, prev, poison).value;
    hide RunBlock, ReadsEntry;
    Shrinks(program.Keys, visited, at);
  }

  /** From a block on, whatever stands for poison. */
  lemma {:induction false} FromRuns(program: Program, at: Label, prev: Option<Label>, visited: set<Label>, m: Machine,
      n: Machine, poison: Register -> Value) returns (run: seq<Config>)
    requires MachinesAgree(m, n) && WrittenOnce(n) && !n.returned && n.next.None?
    requires RunFrom(program, at, prev, visited, m, _ => Poison).Done?
    ensures IsRun(program, run, poison) && run[0] == At(at, prev, 0, n.env, n.env, n.stores)
    ensures var r, last := RunFrom(program, at, prev, visited, m, _ => Poison), run[|run| - 1];
      if PhisReadEntry(program, at, prev, visited, m)
      then last == Halted(r.stores) && visited + Labels(run) == r.visited
      else last.At? && Next(program, last, poison).None?
    decreases |program.Keys - visited|
  {
    hide RunFrom, PhisReadEntry, RunBlock, WrittenOnce, MachinesAgree, Next, IsRun, ReadsEntry, Labels, Stretch;
    var s, t := AcceptedBlock(program, at, prev, visited, m, n, poison);
    assert program[at][0..] == program[at] && Since(program[at], 0, n.env, n.env);
    hide Since;
    run := BlockRuns(program, at, prev, 0, n.env, n, t, poison);
    var from := At(at, prev, 0, n.env, n.env, n.stores);
    if !ReadsEntry(program[at], 0, prev) {
      StretchIs(program, at, run, from, None, poison);
    } else if s.returned {
      StretchIs(program, at, run, from, Some(Halted(t.stores)), poison);
      LabelsOf(run, at);
    } else {
      Shrinks(program.Keys, visited, at);
      var rest := FromRuns(program, s.next.value, Some(at), visited + {at}, s.(next := None), t.(next := None), poison);
      StretchJoins(program, at, run, from, rest, poison);
      run := run[..|run| - 1] + rest;
      assert visited + ({at} + Labels(rest)) == visited + {at} + Labels(rest);
    }
  }

  lemma StretchIs(program: Program, at: Label, run: seq<Config>, from: Config, to: Option<Config>,
      poison: Register -> Value)
    requires Stretch(program, at, run, from, to, poison)
    ensures IsRun(program, run, poison) && run[0] == from
    ensures forall c :: c in run[..|run| - 1] ==> c.At? && c.at == at
    ensures var last := run[|run| - 1];
      if to.Some? then last == to.value else last.At? && Next(program, last, poison).None?
  {
    hide Next;
  }

  lemma StretchJoins(program: Program, at: Label, head: seq<Config>, from: Config, rest: seq<Config>,
      poison: Register -> Value)
    requires IsRun(program, rest, poison) && Stretch(program, at, head, from, Some(rest[0]), poison) && |head| > 1
    ensures var run := head[..|head| - 1] + rest;
      && IsRun(program, run, poison) && run[0] == from && run[|run| - 1] == rest[|rest| - 1]
      && Labels(run) == {at} + Labels(rest)
  {
    StretchIs(program, at, head, from, Some(rest[0]), poison);
    hide IsRun, Stretch, Labels;
    RunsJoin(program, head, rest, poison);
    LabelsJoin(head, rest, at);
  }

  // ---------- whole bodies ----------

  lemma {:induction false} SameSteps(program: Program, a: seq<Config>, b: seq<Config>, poison: Register -> Value,
      i: nat)
    requires IsRun(program, a, poison) && IsRun(program, b, poison) && a[0] == b[0] && i < |a| && i < |b|
    ensures a[i] == b[i]
    decreases i
  {
    hide Next;
    if i > 0 {
      SameSteps(program, a, b, poison, i - 1);
      assert Next(program, a[i - 1], poison) == Some(a[i]);
    }
  }

  lemma NoLonger(program: Program, a: seq<Config>, b: seq<Config>, poison: Register -> Value)
    requires IsRun(program, a, poison) && IsRun(program, b, poison) && a[0] == b[0]
    requires Next(program, a[|a| - 1], poison).None?
    ensures |b| <= |a|
  {
    hide Next;
    if |a| < |b| {
      StepOf(program, b, poison, |a| - 1);
      SameSteps(program, a, b, poison, |a| - 1);
    }
  }

  lemma StepOf(program: Program, run: seq<Config>, poison: Register -> Value, i: nat)
    requires IsRun(program, run, poison) && i < |run| - 1
    ensures Next(program, run[i], poison) == Some(run[i + 1])
  {
    hide Next;
  }

  /** The machine has one run that goes as far as it can. */
  lemma OneRun(program: Program, a: seq<Config>, b: seq<Config>, poison: Register -> Value)
    requires IsRun(program, a, poison) && IsRun(program, b, poison) && a[0] == b[0]
    requires Next(program, a[|a| - 1], poison).None? && Next(program, b[|b| - 1], poison).None?
    ensures a == b
  {
    hide Next;
    NoLonger(program, a, b, poison);
    NoLonger(program, b, a, poison);
    forall i | 0 <= i < |a| ensures a[i] == b[i] { SameSteps(program, a, b, poison, i); }
  }

  function Start(length: int, valid: int): Machine {
    Machine(Arguments(length, valid), map[], {}, None, false)
  }

  /** What the interpreter accepts runs on the machine to the same stores through the same blocks,
      whatever broken promises leave behind, exactly if its phis read at entry; if one does not,
      the machine is stuck there. */
  lemma CompletesExactly(program: Program, length: int, valid: int, poison: Register -> Value)
    requires Run(program, length, valid, _ => Poison).Done?
    ensures (exists run :: Completes(program, length, valid, poison, run))
      <==> PhisReadEntry(program, "start", None, {}, Start(length, valid))
    ensures forall run: seq<Config> :: Completes(program, length, valid, poison, run) ==>
      Run(program, length, valid, _ => Poison) == Done(run[|run| - 1].stores, Labels(run))
  {
    var m := Start(length, valid);
    var a := FromRuns(program, "start", None, {}, m, m, poison);
    assert {} + Labels(a) == Labels(a);
    if a[|a| - 1].Halted? { assert Completes(program, length, valid, poison, a); }
    forall run | Completes(program, length, valid, poison, run) ensures run == a {
      OneRun(program, run, a, poison);
    }
  }

  // ---------- SSA form ----------

  function Targets(line: Instr): seq<Label> {
    match line
    case Branch(_, yes, no) => [yes, no]
    case Jump(target) => [target]
    case _ => []
  }

  function BlockGraph(program: Program): Graph {
    map l | l in program :: if program[l] == [] then [] else Targets(program[l][|program[l]| - 1])
  }

  /** A phi that reads what its own block sets does so along an edge from a block that it dominates. */
  ghost predicate SsaForm(program: Program) {
    forall l, i: nat, p :: l in program && i < |program[l]| && ReadsOwn(program[l], i, Some(p)) ==>
      !Reaches(BlockGraph(program), None, {l}, "start", p)
  }

  /** How the interpreter came to a block: along blocks that it has visited. */
  ghost predicate Came(program: Program, lead: seq<Label>, visited: set<Label>, prev: Option<Label>, at: Label) {
    if prev.None? then at == "start"
    else
      && IsPath(BlockGraph(program), None, lead) && lead[0] == "start" && lead[|lead| - 1] == prev.value
      && (forall l :: l in lead ==> l in visited) && Arc(BlockGraph(program), None, prev.value, at)
  }

  lemma {:induction false} LeavesAlongArc(body: seq<Instr>, m: Machine, prev: Option<Label>, poison: Register -> Value)
    requires RunBlock(body, m, prev, poison).Some? && !m.returned && m.next.None?
    requires RunBlock(body, m, prev, poison).value.next.Some?
    ensures body != [] && RunBlock(body, m, prev, poison).value.next.value in Targets(body[|body| - 1])
    decreases |body|
  {
    var n := Step(body[0], m, prev, poison).value;
    if n.next.None? && !n.returned {
      LeavesAlongArc(body[1..], n, prev, poison);
    } else {
      LeavesLast(body[1..], n, RunBlock(body, m, prev, poison).value, prev, poison);
      StepTargets(body[0], m, prev, poison);
    }
  }

  lemma StepTargets(line: Instr, m: Machine, prev: Option<Label>, poison: Register -> Value)
    requires Step(line, m, prev, poison).Some?
    ensures Step(line, m, prev, poison).value.next.Some? ==>
      Step(line, m, prev, poison).value.next.value in Targets(line)
  {
    hide Compute, Stored;
  }

  lemma EntersFresh(program: Program, lead: seq<Label>, visited: set<Label>, prev: Option<Label>, at: Label)
    requires SsaForm(program) && Came(program, lead, visited, prev, at) && at in program && at !in visited
    ensures ReadsEntry(program[at], 0, prev)
  {
    hide ReadsOwn, BlockGraph, Arc;
    forall k | 0 <= k < |program[at]| ensures !ReadsOwn(program[at], k, prev) {
      if prev.None? {
        StartReadsNothing(program[at], k);
      } else {
        assert Leads(BlockGraph(program), None, {at}, lead, "start", prev.value);
      }
    }
  }

  lemma StartReadsNothing(body: seq<Instr>, i: nat)
    requires i < |body|
    ensures !ReadsOwn(body, i, None)
  {
  }

  lemma {:induction false} ReadsFresh(program: Program, at: Label, prev: Option<Label>, visited: set<Label>, m: Machine,
      lead: seq<Label>)
    requires SsaForm(program) && Came(program, lead, visited, prev, at) && !m.returned && m.next.None?
    ensures PhisReadEntry(program, at, prev, visited, m)
    decreases |program.Keys - visited|
  {
    PhisHere(program, at, prev, visited, m);
    hide PhisReadEntry, RunBlock, ReadsEntry, SsaForm, Targets, Came, BlockGraph;
    if at in program && at !in visited {
      EntersFresh(program, lead, visited, prev, at);
      Shrinks(program.Keys, visited, at);
      var s := RunBlock(program[at], m, prev, _ => Poison);
      if s.Some? && !s.value.returned && s.value.next.Some? {
        LeavesAlongArc(program[at], m, prev, _ => Poison);
        var on := CameOn(program, lead, visited, prev, at, s.value.next.value);
        ReadsFresh(program, s.value.next.value, Some(at), visited + {at}, s.value.(next := None), on);
      }
    }
  }

  /** What one block of the interpretation says of the phis behind it. */
  ghost predicate PhisBehind(program: Program, at: Label, visited: set<Label>, s: Option<Machine>)
    requires at in program && at !in visited
  {
    s.Some? && !s.value.returned && s.value.next.Some? ==>
      PhisReadEntry(program, s.value.next.value, Some(at), visited + {at}, s.value.(next := None))
  }

  lemma PhisHere(program: Program, at: Label, prev: Option<Label>, visited: set<Label>, m: Machine)
    ensures PhisReadEntry(program, at, prev, visited, m) ==
      (at in program && at !in visited ==>
        ReadsEntry(program[at], 0, prev)
        && PhisBehind(program, at, visited, RunBlock(program[at], m, prev, _ => Poison)))
  {
    hide RunBlock, ReadsEntry;
    if at in program && at !in visited { Shrinks(program.Keys, visited, at); }
  }

  lemma CameOn(program: Program, lead: seq<Label>, visited: set<Label>, prev: Option<Label>, at: Label, next: Label)
    returns (on: seq<Label>)
    requires Came(program, lead, visited, prev, at)
    requires at in program && program[at] != [] && next in Targets(program[at][|program[at]| - 1])
    ensures Came(program, on, visited + {at}, Some(at), next)
  {
    var g := BlockGraph(program);
    assert Arc(g, None, at, next);
    on := if prev.None? then [at] else lead + [at];
    hide BlockGraph, Arc;
    assert prev.Some? ==> IsPath(g, None, lead) && Arc(g, None, lead[|lead| - 1], at);
  }

  /** An accepted body in SSA form runs to its end, with the interpreter's stores and blocks. */
  lemma SsaFormCompletes(program: Program, length: int, valid: int, poison: Register -> Value)
    requires SsaForm(program) && Run(program, length, valid, _ => Poison).Done?
    ensures exists run: seq<Config> ::
      && Completes(program, length, valid, poison, run)
      && Run(program, length, valid, _ => Poison) == Done(run[|run| - 1].stores, Labels(run))
  {
    ReadsFresh(program, "start", None, {}, Start(length, valid), []);
    CompletesExactly(program, length, valid, poison);
  }

  function LatePhi(): Program {
    map["start" := [Jump("end")],
        "end" := [Phi("a", IntLit(1), "start", IntLit(2), "back"), Phi("b", Reg("a"), "start", IntLit(3), "back"),
                  Return]]
  }

  /** What SSA form is needed for: the interpreter accepts a phi that reads the one before it, and
      the machine is stuck there. */
  lemma LatePhiIsAccepted(length: int, valid: int, poison: Register -> Value)
    ensures Run(LatePhi(), length, valid, _ => Poison).Done?
    ensures !exists run :: Completes(LatePhi(), length, valid, poison, run)
  {
    var m := Start(length, valid);
    hide RunBlock, ReadsOwn, Completes;
    StartPasses(m);
    LatePhiPasses(m);
    LatePhiReadsOwn();
    CompletesExactly(LatePhi(), length, valid, poison);
  }

  lemma LatePhiReadsOwn()
    ensures ReadsOwn(LatePhi()["end"], 1, Some("start"))
  {
    assert Sets(LatePhi()["end"][0], "a");
  }

  lemma StartPasses(m: Machine)
    requires m.next.None? && !m.returned
    ensures RunBlock(LatePhi()["start"], m, None, _ => Poison) == Some(m.(next := Some("end")))
  {
  }

  lemma PhiPasses(line: Instr, m: Machine)
    requires line.Phi? && line.first == "start" && line.second == "back" && Unsigned(line.left, 64, m.env) == Some(1)
    requires line.dst !in m.env && m.next.None? && !m.returned
    ensures Step(line, m, Some("start"), _ => Poison) == Some(m.(env := m.env[line.dst := Int(1)]))
  {
    hide Unsigned;
  }

  lemma LatePhiPasses(m: Machine)
    requires "a" !in m.env && "b" !in m.env && m.next.None? && !m.returned
    ensures var s := RunBlock(LatePhi()["end"], m, Some("start"), _ => Poison); s.Some? && s.value.returned
  {
    var body := LatePhi()["end"];
    var a := m.(env := m.env["a" := Int(1)]);
    var b := a.(env := a.env["b" := Int(1)]);
    assert Step(body[2], b, Some("start"), _ => Poison) == Some(b.(returned := true));
    hide Step, Unsigned;
    OneIsWord(m.env);
    OneIsWord(a.env);
    PhiPasses(body[0], m);
    PhiPasses(body[1], a);
    assert body[1..] == [body[1], body[2]] && body[1..][1..] == [body[2]] && body[1..][1..][1..] == [];
  }

  lemma OneIsWord(env: Env)
    ensures Unsigned(IntLit(1), 64, env) == Some(1)
    ensures "a" in env && env["a"] == Int(1) ==> Unsigned(Reg("a"), 64, env) == Some(1)
  {
    assert Pow2(64) == 2 * Pow2(63) && Pow2(63) == 2 * Pow2(62);
    DivMod(1, Pow2(64), 0, 1);
  }
}
