/** The interpreter for the output constructor: single-assignment blocks over 8- and 64-bit
    integers, where an add or shift that breaks its nuw or nsw promise yields poison.

    `Execute` interprets a body for one length and valid-bit count. `Run` is the same
    interpretation with a parameter that says what stands for each poison result. */
module OutputConstructor {
  import opened Options
  import opened Arithmetic
  import opened Ranges
  import opened ControlGraph

  type Register = string
  datatype Region = Output | Payload
  datatype Value = Int(n: int) | Bool(b: bool) | Pointer(region: Region, offset: int) | Null
                 | Pair(sum: int, carry: bool)
                 | Poison
  datatype Operand = Reg(r: Register) | IntLit(n: int) | BoolLit(b: bool) | NullLit
  datatype Predicate = Equal | Below | Above
  datatype Field = PointerField | ByteField | WordField

  datatype Instr =
    | Compare(dst: Register, samesign: bool, test: Predicate, width: Bits, left: Operand, right: Operand)
    | Add(dst: Register, nuw: bool, nsw: bool, width: Bits, left: Operand, right: Operand)
    | Shl(dst: Register, nuw: bool, nsw: bool, width: Bits, left: Operand, right: Operand)
    | Select(dst: Register, condition: Operand, yes: Operand, no: Operand)
    | Zext(dst: Register, operand: Operand)
    | Overflow(dst: Register, left: Operand, right: Operand)
    | Extract(dst: Register, src: Register, index: nat)
    | Phi(dst: Register, left: Operand, first: Label, right: Operand, second: Label)
    | Gep(dst: Register, base: Register, offset: nat)
    | Store(field: Field, operand: Operand, address: Register)
    | Branch(condition: Operand, onTrue: Label, onFalse: Label)
    | Jump(target: Label)
    | Return

  type Bits = n: nat | n == 8 || n == 64 witness 8
  type Program = map<Label, seq<Instr>>
  type Env = map<Register, Value>
  type Stores = map<int, (Field, Value)>

  /** The interpreter between two lines; `next` is the successor once a branch chose it. */
  datatype Machine = Machine(env: Env, stores: Stores, written: set<int>, next: Option<Label>, returned: bool)

  function Get(o: Operand, env: Env): Option<Value> {
    match o
    case Reg(r) => if r in env then Some(env[r]) else None
    case IntLit(n) => Some(Int(n))
    case BoolLit(b) => Some(Bool(b))
    case NullLit => Some(Null)
  }

  /** An operand as an unsigned integer: an integer in the signed or unsigned range. */
  function Unsigned(o: Operand, width: nat, env: Env): Option<nat>
    requires width > 0
  {
    var v := Get(o, env);
    if v.Some? && v.value.Int? && -Pow2(width - 1) <= v.value.n < Pow2(width) then Some(v.value.n % Pow2(width))
      else None
  }

  function Signed(n: int, width: nat): int
    requires width > 0
  {
    if n < Pow2(width - 1) then n else n - Pow2(width)
  }

  function Width(field: Field): nat {
    if field.ByteField? then 1 else 8
  }

  /** The exact result of an add or shift, and of the same operation on the signed readings. */
  function Exact(line: Instr, left: nat, right: nat): int
    requires line.Add? || line.Shl?
  {
    if line.Add? then left + right else left * Pow2(right)
  }

  function ExactSigned(line: Instr, left: nat, right: nat): int
    requires line.Add? || line.Shl?
  {
    if line.Add? then Signed(left, line.width) + Signed(right, line.width) else Signed(left, line.width) * Pow2(right)
  }

  predicate Poisons(line: Instr, left: nat, right: nat)
    requires line.Add? || line.Shl?
  {
    || (line.nuw && Exact(line, left, right) >= Pow2(line.width))
    || (line.nsw && !(-Pow2(line.width - 1) <= ExactSigned(line, left, right) < Pow2(line.width - 1)))
  }

  /** The value a line computes, or nothing when it is rejected. `poison` gives the value that
      stands for a poison result. */
  function Compute(line: Instr, env: Env, prev: Option<Label>, poison: Register -> Value): Option<Value>
    requires !line.Store? && !line.Branch? && !line.Jump? && !line.Return?
  {
    match line
    case Compare(_, samesign, test, width, left, right) =>
      var a, b := Unsigned(left, width, env), Unsigned(right, width, env);
      if a.None? || b.None? then None
      else if samesign && (a.value < Pow2(width - 1)) != (b.value < Pow2(width - 1)) then None
      else Some(Bool(match test case Equal => a.value == b.value case Below => a.value < b.value
        case Above => a.value > b.value))
    case Add(dst, _, _, width, left, right) =>
      var a, b := Unsigned(left, width, env), Unsigned(right, width, env);
      if a.None? || b.None? then None
      else if Poisons(line, a.value, b.value) then Some(poison(dst))
      else Some(Int(Exact(line, a.value, b.value) % Pow2(width)))
    case Shl(dst, _, _, width, left, right) =>
      var a, b := Unsigned(left, width, env), Unsigned(right, width, env);
      if a.None? || b.None? || b.value >= width then None
      else if Poisons(line, a.value, b.value) then Some(poison(dst))
      else Some(Int(Exact(line, a.value, b.value) % Pow2(width)))
    case Select(_, condition, yes, no) =>
      var c, y, n := Get(condition, env), Get(yes, env), Get(no, env);
      if c.Some? && y.Some? && n.Some? && c.value.Bool? && y.value.Bool? && n.value.Bool?
      then Some(if c.value.b then y.value else n.value) else None
    case Zext(_, operand) =>
      var a := Unsigned(operand, 8, env);
      if a.Some? then Some(Int(a.value)) else None
    case Overflow(_, left, right) =>
      var a, b := Unsigned(left, 64, env), Unsigned(right, 64, env);
      if a.None? || b.None? then None
      else Some(Pair((a.value + b.value) % Pow2(64), a.value + b.value >= Pow2(64)))
    case Extract(_, src, index) =>
      var a := Get(Reg(src), env);
      if a.None? || !a.value.Pair? then None else Some(if index == 0 then Int(a.value.sum) else Bool(a.value.carry))
    case Phi(_, left, first, right, second) =>
      if first == second || (prev != Some(first) && prev != Some(second)) then None
      else
        var a := Unsigned(if prev == Some(first) then left else right, 64, env);
        if a.Some? then Some(Int(a.value)) else None
    case Gep(_, base, offset) =>
      var a := Get(Reg(base), env);
      if a.Some? && a.value.Pointer? && a.value.region.Output? && 0 <= a.value.offset + offset < 32
      then Some(Pointer(Output, a.value.offset + offset)) else None
  }

  /** What a store writes: the output pointer or null, or an integer of the field's width. */
  function Stored(field: Field, operand: Operand, env: Env): Option<Value> {
    if field.PointerField? then
      var v := Get(operand, env);
      if v.Some? && v.value in {Null, Pointer(Payload, 0)} then v else None
    else
      var v := Unsigned(operand, Width(field) * 8, env);
      if v.Some? then Some(Int(v.value)) else None
  }

  function Step(line: Instr, m: Machine, prev: Option<Label>, poison: Register -> Value): Option<Machine> {
    if m.next.Some? || m.returned then None
    else match line
    case Store(field, operand, address) =>
      var a, v := Get(Reg(address), m.env), Stored(field, operand, m.env);
      if a.None? || !a.value.Pointer? || !a.value.region.Output? || !(0 <= a.value.offset <= 32 - Width(field))
        then None
      else if !(Bytes(a.value.offset, Width(field)) !! m.written) || v.None? then None
      else Some(m.(stores := m.stores[a.value.offset := (field, v.value)],
                   written := m.written + Bytes(a.value.offset, Width(field))))
    case Branch(condition, yes, no) =>
      var c := Get(condition, m.env);
      if c.Some? && c.value.Bool? then Some(m.(next := Some(if c.value.b then yes else no))) else None
    case Jump(target) => Some(m.(next := Some(target)))
    case Return => Some(m.(returned := true))
    case _ =>
      var v := Compute(line, m.env, prev, poison);
      if v.None? || line.dst in m.env then None else Some(m.(env := m.env[line.dst := v.value]))
  }

  function RunBlock(body: seq<Instr>, m: Machine, prev: Option<Label>, poison: Register -> Value): Option<Machine>
    decreases |body|
  {
    if body == [] then Some(m)
    else
      var s := Step(body[0], m, prev, poison);
      if s.None? then None else RunBlock(body[1..], s.value, prev, poison)
  }

  datatype Result = Refused | Done(stores: Stores, visited: set<Label>)

  /** The blocks from `at` on. A block is entered once, ends in one terminator, and exists. */
  function RunFrom(program: Program, at: Label, prev: Option<Label>, visited: set<Label>, m: Machine,
      poison: Register -> Value): Result
    decreases |program.Keys - visited|
  {
    if at !in program || at in visited then Refused
    else
      var s := RunBlock(program[at], m, prev, poison);
      if s.None? then Refused
      else if s.value.returned then Done(s.value.stores, visited + {at})
      else if s.value.next.None? then Refused
      else
        Shrinks(program.Keys, visited, at);
        RunFrom(program, s.value.next.value, Some(at), visited + {at}, s.value.(next := None), poison)
  }

  function Arguments(length: int, valid: int): Env {
    map["%_0" := Pointer(Output, 0), "%bytes.0" := Pointer(Payload, 0), "%bytes.1" := Int(length),
        "%valid_bits_in_last_byte" := Int(valid)]
  }

  function Run(program: Program, length: int, valid: int, poison: Register -> Value): Result {
    RunFrom(program, "start", None, {}, Machine(Arguments(length, valid), map[], {}, None, false), poison)
  }

  /** The interpreter itself: poison stays poison. */
  method Execute(program: Program, length: int, valid: int) returns (r: Result)
    ensures r == Run(program, length, valid, _ => Poison)
  {
    var poison: Register -> Value := _ => Poison;
    var m := Machine(Arguments(length, valid), map[], {}, None, false);
    var visited: set<Label>, at, prev: Option<Label> := {}, "start", None;
    while true
      invariant !m.returned && m.next.None?
      invariant Run(program, length, valid, poison) == RunFrom(program, at, prev, visited, m, poison)
      decreases |program.Keys - visited|
    {
      hide RunBlock, Step, Compute;
      if at !in program || at in visited { return Refused; }
      var s := ExecuteBlock(program[at], m, prev);
      if s.None? { return Refused; }
      Shrinks(program.Keys, visited, at);
      visited := visited + {at};
      if s.value.returned { return Done(s.value.stores, visited); }
      if s.value.next.None? { return Refused; }
      prev, at, m := Some(at), s.value.next.value, s.value.(next := None);
    }
  }

  method ExecuteBlock(body: seq<Instr>, m0: Machine, prev: Option<Label>) returns (r: Option<Machine>)
    ensures r == RunBlock(body, m0, prev, _ => Poison)
  {
    var poison: Register -> Value := _ => Poison;
    var m := m0;
    for i := 0 to |body|
      invariant RunBlock(body, m0, prev, poison) == RunBlock(body[i..], m, prev, poison)
    {
      hide Step, Compute;
      assert body[i..][0] == body[i] && body[i..][1..] == body[i + 1..];
      var s := Step(body[i], m, prev, poison);
      if s.None? { return None; }
      m := s.value;
    }
    return Some(m);
  }

  // ---------- poison is never observed ----------

  /** Environments that differ at most where the first one has poison. */
  ghost predicate Agree(a: Env, b: Env) {
    a.Keys == b.Keys && forall r :: r in a ==> a[r].Poison? || a[r] == b[r]
  }

  ghost predicate MachinesAgree(m: Machine, n: Machine) {
    Agree(m.env, n.env) && n == m.(env := n.env)
  }

  lemma UnsignedAgrees(o: Operand, width: nat, a: Env, b: Env)
    requires width > 0 && Agree(a, b) && Unsigned(o, width, a).Some?
    ensures Unsigned(o, width, b) == Unsigned(o, width, a)
  {
  }

  /** No line can read poison and be accepted, so what stands for it makes no difference. */
  lemma ComputeAgrees(line: Instr, a: Env, b: Env, prev: Option<Label>, poison: Register -> Value)
    requires !line.Store? && !line.Branch? && !line.Jump? && !line.Return?
    requires Agree(a, b) && Compute(line, a, prev, _ => Poison).Some?
    ensures Compute(line, b, prev, poison).Some?
    ensures var v := Compute(line, a, prev, _ => Poison).value;
      v.Poison? || v == Compute(line, b, prev, poison).value
  {
    hide Unsigned, Poisons, Exact;
    match line {
      case Compare(_, _, _, width, left, right) =>
        UnsignedAgrees(left, width, a, b);
        UnsignedAgrees(right, width, a, b);
      case Add(_, _, _, width, left, right) =>
        UnsignedAgrees(left, width, a, b);
        UnsignedAgrees(right, width, a, b);
      case Shl(_, _, _, width, left, right) =>
        UnsignedAgrees(left, width, a, b);
        UnsignedAgrees(right, width, a, b);
      case Zext(_, operand) => UnsignedAgrees(operand, 8, a, b);
      case Overflow(_, left, right) =>
        UnsignedAgrees(left, 64, a, b);
        UnsignedAgrees(right, 64, a, b);
      case Phi(_, left, first, right, _) => UnsignedAgrees(if prev == Some(first) then left else right, 64, a, b);
      case _ =>
    }
  }

  lemma StoredAgrees(field: Field, operand: Operand, a: Env, b: Env)
    requires Agree(a, b) && Stored(field, operand, a).Some?
    ensures Stored(field, operand, b) == Stored(field, operand, a)
  {
  }

  lemma BindAgrees(a: Env, b: Env, dst: Register, v: Value, w: Value)
    requires Agree(a, b) && (v.Poison? || v == w)
    ensures Agree(a[dst := v], b[dst := w]) && (dst in a <==> dst in b)
  {
  }

  lemma StepAgrees(line: Instr, m: Machine, n: Machine, prev: Option<Label>, poison: Register -> Value)
    requires MachinesAgree(m, n) && Step(line, m, prev, _ => Poison).Some?
    ensures Step(line, n, prev, poison).Some?
    ensures MachinesAgree(Step(line, m, prev, _ => Poison).value, Step(line, n, prev, poison).value)
  {
    hide Compute, Stored, Bytes, Width;
    match line {
      case Store(field, operand, address) => StoredAgrees(field, operand, m.env, n.env);
      case Branch(_, _, _) =>
      case Jump(_) =>
      case Return =>
      case _ =>
        ComputeAgrees(line, m.env, n.env, prev, poison);
        var v, w := Compute(line, m.env, prev, _ => Poison).value, Compute(line, n.env, prev, poison).value;
        BindAgrees(m.env, n.env, line.dst, v, w);
    }
  }

  lemma {:induction false} BlockAgrees(body: seq<Instr>, m: Machine, n: Machine, prev: Option<Label>,
      poison: Register -> Value)
    requires MachinesAgree(m, n) && RunBlock(body, m, prev, _ => Poison).Some?
    ensures RunBlock(body, n, prev, poison).Some?
    ensures MachinesAgree(RunBlock(body, m, prev, _ => Poison).value, RunBlock(body, n, prev, poison).value)
    decreases |body|
  {
    hide Step, MachinesAgree;
    if body != [] {
      StepAgrees(body[0], m, n, prev, poison);
      BlockAgrees(body[1..], Step(body[0], m, prev, _ => Poison).value, Step(body[0], n, prev, poison).value, prev,
        poison);
    }
  }

  lemma {:induction false} RunFromAgrees(program: Program, at: Label, prev: Option<Label>, visited: set<Label>,
      m: Machine, n: Machine, poison: Register -> Value)
    requires MachinesAgree(m, n) && RunFrom(program, at, prev, visited, m, _ => Poison).Done?
    ensures RunFrom(program, at, prev, visited, n, poison) == RunFrom(program, at, prev, visited, m, _ => Poison)
    decreases |program.Keys - visited|
  {
    hide RunBlock, Agree;
    BlockAgrees(program[at], m, n, prev, poison);
    var s, t := RunBlock(program[at], m, prev, _ => Poison).value, RunBlock(program[at], n, prev, poison).value;
    if !s.returned {
      Shrinks(program.Keys, visited, at);
      RunFromAgrees(program, s.next.value, Some(at), visited + {at}, s.(next := None), t.(next := None), poison);
    }
  }

  /** Poison non-interference: when the interpreter accepts, every choice of concrete values
      for the poison results leads to the same stores through the same blocks. */
  lemma PoisonIsUnobserved(program: Program, length: int, valid: int, poison: Register -> Value)
    requires Run(program, length, valid, _ => Poison).Done?
    ensures Run(program, length, valid, poison) == Run(program, length, valid, _ => Poison)
  {
    var m := Machine(Arguments(length, valid), map[], {}, None, false);
    RunFromAgrees(program, "start", None, {}, m, m, poison);
  }

  // ---------- the stores ----------

  ghost predicate InField(field: Field, v: Value) {
    match field
    case PointerField => v == Null || v == Pointer(Payload, 0)
    case ByteField => v.Int? && 0 <= v.n < Pow2(8)
    case WordField => v.Int? && 0 <= v.n < Pow2(64)
  }

  /** The fields lie inside the 32-byte result, do not overlap, and hold values that fit. */
  ghost predicate Descriptor(stores: Stores) {
    && (forall o :: o in stores ==> 0 <= o <= 32 - Width(stores[o].0) && InField(stores[o].0, stores[o].1))
    && (forall o, p :: o in stores && p in stores && o != p ==>
          Bytes(o, Width(stores[o].0)) !! Bytes(p, Width(stores[p].0)))
  }

  ghost predicate WrittenOnce(m: Machine) {
    Descriptor(m.stores) && forall o :: o in m.stores ==> Bytes(o, Width(m.stores[o].0)) <= m.written
  }

  lemma StoredFits(field: Field, operand: Operand, env: Env)
    requires Stored(field, operand, env).Some?
    ensures InField(field, Stored(field, operand, env).value)
  {
  }

  lemma FirstCell(offset: int, width: nat)
    requires width > 0
    ensures offset in Bytes(offset, width)
  {
    assert Within(offset, offset, width);
  }

  lemma StepWrites(line: Instr, m: Machine, prev: Option<Label>, poison: Register -> Value)
    requires WrittenOnce(m) && Step(line, m, prev, poison).Some?
    ensures WrittenOnce(Step(line, m, prev, poison).value)
  {
    hide Descriptor, Stored, Compute, InField, Bytes;
    if line.Store? {
      StoredFits(line.field, line.operand, m.env);
      StoreWrites(m, m.env[line.address].offset, line.field, Stored(line.field, line.operand, m.env).value);
    }
  }

  lemma StoreWrites(m: Machine, o: int, field: Field, x: Value)
    requires WrittenOnce(m) && InField(field, x) && 0 <= o <= 32 - Width(field)
    requires Bytes(o, Width(field)) !! m.written
    ensures WrittenOnce(m.(stores := m.stores[o := (field, x)], written := m.written + Bytes(o, Width(field))))
  {
    FirstCell(o, 1);
    FirstCell(o, 8);
    hide InField, Bytes;
    assert o !in m.stores;
  }

  lemma {:induction false} BlockWrites(body: seq<Instr>, m: Machine, prev: Option<Label>, poison: Register -> Value)
    requires WrittenOnce(m) && RunBlock(body, m, prev, poison).Some?
    ensures WrittenOnce(RunBlock(body, m, prev, poison).value)
    decreases |body|
  {
    hide Step, WrittenOnce;
    if body != [] {
      StepWrites(body[0], m, prev, poison);
      BlockWrites(body[1..], Step(body[0], m, prev, poison).value, prev, poison);
    }
  }

  lemma {:induction false} RunFromWrites(program: Program, at: Label, prev: Option<Label>, visited: set<Label>,
      m: Machine, poison: Register -> Value)
    requires WrittenOnce(m) && RunFrom(program, at, prev, visited, m, poison).Done?
    ensures Descriptor(RunFrom(program, at, prev, visited, m, poison).stores)
    decreases |program.Keys - visited|
  {
    hide RunBlock, Descriptor;
    BlockWrites(program[at], m, prev, poison);
    var s := RunBlock(program[at], m, prev, poison).value;
    if !s.returned {
      Shrinks(program.Keys, visited, at);
      RunFromWrites(program, s.next.value, Some(at), visited + {at}, s.(next := None), poison);
    }
  }

  /** An accepted body writes a well-formed descriptor. */
  lemma StoresAreDescriptor(program: Program, length: int, valid: int, poison: Register -> Value)
    requires Run(program, length, valid, poison).Done?
    ensures Descriptor(Run(program, length, valid, poison).stores)
  {
    RunFromWrites(program, "start", None, {}, Machine(Arguments(length, valid), map[], {}, None, false), poison);
  }

  // ---------- arithmetic ----------

  /** The signed reading of a wrapped result is the one number in the signed range that is
      congruent to the exact result. */
  lemma SignedOfWrapped(exact: int, signed: int, c: int, width: nat)
    requires width > 0 && exact == signed + c * Pow2(width)
    requires -Pow2(width - 1) <= signed < Pow2(width - 1)
    ensures Signed(exact % Pow2(width), width) == signed
  {
    var p := Pow2(width);
    var q, r := exact / p, exact % p;
    var k := if r < Pow2(width - 1) then 0 else 1;
    var s := Signed(r, width);
    assert exact == q * p + r && s == r - k * p;
    assert s - signed == (c - q - k) * p by {
      assert (c - q - k) * p == c * p - q * p - k * p;
    }
    MultipleGrows(c - q - k, p);
  }

  /** A result that is not poison is the exact mathematical one: under nuw as an unsigned
      number, under nsw as a signed number. */
  lemma UnpoisonedIsExact(line: Instr, left: nat, right: nat)
    requires line.Add? || line.Shl?
    requires left < Pow2(line.width) && right < Pow2(line.width) && !Poisons(line, left, right)
    ensures line.nuw ==> Exact(line, left, right) % Pow2(line.width) == Exact(line, left, right)
    ensures line.nsw ==>
      Signed(Exact(line, left, right) % Pow2(line.width), line.width) == ExactSigned(line, left, right)
  {
    if line.nuw { UnsignedIsExact(line, left, right); }
    if line.nsw { SignedIsExact(line, left, right); }
  }

  lemma UnsignedIsExact(line: Instr, left: nat, right: nat)
    requires line.Add? || line.Shl?
    requires Exact(line, left, right) < Pow2(line.width)
    ensures Exact(line, left, right) % Pow2(line.width) == Exact(line, left, right)
  {
    hide Pow2;
    var s := Pow2(right);
    assert left * s >= 0;
  }

  lemma SignedIsExact(line: Instr, left: nat, right: nat)
    requires line.Add? || line.Shl?
    requires -Pow2(line.width - 1) <= ExactSigned(line, left, right) < Pow2(line.width - 1)
    ensures Signed(Exact(line, left, right) % Pow2(line.width), line.width) == ExactSigned(line, left, right)
  {
    if line.Add? {
      WrappedSum(left, right, line.width);
    } else {
      WrappedShift(left, Pow2(right), line.width);
    }
  }

  lemma WrappedSum(left: nat, right: nat, width: nat)
    requires width > 0 && -Pow2(width - 1) <= Signed(left, width) + Signed(right, width) < Pow2(width - 1)
    ensures Signed((left + right) % Pow2(width), width) == Signed(left, width) + Signed(right, width)
  {
    var half, p := Pow2(width - 1), Pow2(width);
    var c := (if left < half then 0 else 1) + (if right < half then 0 else 1);
    assert left + right == Signed(left, width) + Signed(right, width) + c * p;
    hide *;
    SignedOfWrapped(left + right, Signed(left, width) + Signed(right, width), c, width);
  }

  lemma WrappedShift(left: nat, factor: int, width: nat)
    requires width > 0 && -Pow2(width - 1) <= Signed(left, width) * factor < Pow2(width - 1)
    ensures Signed((left * factor) % Pow2(width), width) == Signed(left, width) * factor
  {
    var a, p := Signed(left, width), Pow2(width);
    if a == left {
      SignedOfWrapped(left * factor, a * factor, 0, width);
    } else {
      assert a == left - p;
      hide *;
      assert left * factor == a * factor + factor * p by {
        assert (left - p) * factor == left * factor - p * factor;
      }
      SignedOfWrapped(left * factor, a * factor, factor, width);
    }
  }
}
