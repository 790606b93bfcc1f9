/** Which bodies the constructor's interpreter accepts, in terms of the machine alone: those that
    run on it to a return within the reviewed rules. */
module OutputExact {
  import opened Options
  import opened Arithmetic
  import opened Ranges
  import opened ControlGraph
  import opened OutputConstructor
  import opened OutputMachine

  // ---------- the rules ----------

  /** The operand is an integer in the signed or unsigned range of the width. */
  ghost predicate Ranged(o: Operand, width: Bits, env: Env) {
    exists n: int :: Get(o, env) == Some(Int(n)) && -Pow2(width - 1) <= n < Pow2(width)
  }

  ghost predicate IsBool(o: Operand, env: Env) {
    Get(o, env).Some? && Get(o, env).value.Bool?
  }

  ghost predicate Result(o: Operand, env: Env) {
    Get(o, env).Some? && Get(o, env).value.Pointer? && Get(o, env).value.region == Output
  }

  /** One reviewed line where the machine stands: known operands in range, a shift below its width,
      comparisons of one sign where they promise that, addresses inside the 32 bytes of the result
      and away from every field stored before, a register set once, nothing behind the last line. */
  ghost predicate Reviewed(body: seq<Instr>, c: Config)
    requires c.At? && c.line < |body|
  {
    var line, env := body[c.line], c.env;
    match line
    case Compare(dst, samesign, _, width, left, right) =>
      && dst !in env && Ranged(left, width, env) && Ranged(right, width, env)
      && (samesign ==>
            (Word(left, width, env).value < Pow2(width - 1) <==> Word(right, width, env).value < Pow2(width - 1)))
    case Add(dst, _, _, width, left, right) => dst !in env && Ranged(left, width, env) && Ranged(right, width, env)
    case Shl(dst, _, _, width, left, right) =>
      && dst !in env && Ranged(left, width, env) && Ranged(right, width, env)
      && Word(right, width, env).value < width
    case Select(dst, condition, yes, no) => dst !in env && IsBool(condition, env) && IsBool(yes, env) && IsBool(no, env)
    case Zext(dst, operand) => dst !in env && Ranged(operand, 8, env)
    case Overflow(dst, left, right) => dst !in env && Ranged(left, 64, env) && Ranged(right, 64, env)
    case Extract(dst, src, _) => dst !in env && src in env && env[src].Pair?
    case Phi(dst, left, first, right, second) =>
      && dst !in env && first != second
      && (c.prev == Some(first) || c.prev == Some(second))
      && Ranged(if c.prev == Some(first) then left else right, 64, c.entry)
    case Gep(dst, base, offset) =>
      dst !in env && Result(Reg(base), env) && 0 <= env[base].offset + offset < 32
    case Store(field, operand, address) =>
      var width := if field == ByteField then 1 else 8;
      && Result(Reg(address), env) && 0 <= env[address].offset && env[address].offset + width <= 32
      && (forall o :: o in c.stores ==> Bytes(o, Width(c.stores[o].0)) !! Bytes(env[address].offset, width))
      && (if field == PointerField
          then Get(operand, env) == Some(Null) || Get(operand, env) == Some(Pointer(Payload, 0))
          else Ranged(operand, 8 * width, env))
    case Branch(condition, _, _) => IsBool(condition, env) && c.line == |body| - 1
    case Jump(_) => c.line == |body| - 1
    case Return => c.line == |body| - 1
  }

  /** The machine runs from here to a return, every line reviewed, every block entered once, and
      poison left where a promise is broken. */
  ghost predicate RunsLawfully(program: Program, visited: set<Label>, c: Config)
    decreases |program.Keys - visited|, if c.At? && c.at in program then |program[c.at]| - c.line else 0
  {
    c.At? ==>
      && c.at in program && c.at !in visited && c.line < |program[c.at]| && Reviewed(program[c.at], c)
      && var d := Next(program, c, _ => Poison);
         && d.Some?
         && (d.value.At? ==>
               if c.line + 1 < |program[c.at]| then
                 d.value.at == c.at && d.value.line == c.line + 1 && RunsLawfully(program, visited, d.value)
               else
                 (Shrinks(program.Keys, visited, c.at);
                  RunsLawfully(program, visited + {c.at}, d.value)))
  }

  // ---------- one line ----------

  lemma RangedExactly(o: Operand, width: Bits, env: Env)
    ensures Ranged(o, width, env) <==> Unsigned(o, width, env).Some?
    ensures Ranged(o, width, env) ==> Word(o, width, env) == Unsigned(o, width, env)
  {
    hide Pow2, Word, Get;
    if Unsigned(o, width, env).Some? { WordIsUnsigned(o, width, env); }
  }

  /** What is written is what the stores cover. */
  ghost predicate Covered(m: Machine) {
    && WrittenOnce(m)
    && forall b :: b in m.written ==> exists o :: o in m.stores && b in Bytes(o, Width(m.stores[o].0))
  }

  lemma ApartExactly(m: Machine, at: int, width: nat)
    requires Covered(m)
    ensures Bytes(at, width) !! m.written
      <==> forall o :: o in m.stores ==> Bytes(o, Width(m.stores[o].0)) !! Bytes(at, width)
  {
    hide Bytes, Descriptor;
    if forall o :: o in m.stores ==> Bytes(o, Width(m.stores[o].0)) !! Bytes(at, width) {
      forall b | b in Bytes(at, width) ensures b !in m.written {
      }
    }
  }

  /** The interpreter's value-setting lines. Kept is what it leaves for poison. */
  lemma ComputesExactly(body: seq<Instr>, c: Config)
    requires c.At? && c.line < |body| && Since(body, c.line, c.entry, c.env)
    requires !body[c.line].Store? && !body[c.line].Branch? && !body[c.line].Jump? && !body[c.line].Return?
    ensures Reviewed(body, c) == (body[c.line].dst !in c.env && !ReadsOwn(body, c.line, c.prev)
                                  && Compute(body[c.line], c.env, c.prev, _ => Poison).Some?)
  {
    var line, env := body[c.line], c.env;
    hide Pow2, Unsigned, Word, Ranged, Poisons, Since, SetBefore, Get;
    match line {
      case Compare(_, _, _, width, left, right) =>
        RangedExactly(left, width, env);
        RangedExactly(right, width, env);
      case Add(_, _, _, width, left, right) =>
        RangedExactly(left, width, env);
        RangedExactly(right, width, env);
      case Shl(_, _, _, width, left, right) =>
        RangedExactly(left, width, env);
        RangedExactly(right, width, env);
      case Zext(_, operand) => RangedExactly(operand, 8, env);
      case Overflow(_, left, right) =>
        RangedExactly(left, 64, env);
        RangedExactly(right, 64, env);
      case Phi(_, left, first, right, _) => PhiExactly(body, c);
      case Extract(_, src, _) => RegisterRead(src, env);
      case Gep(_, base, _) => RegisterRead(base, env);
      case Select(_, _, _, _) =>
    }
  }

  lemma RegisterRead(r: Register, env: Env)
    ensures Get(Reg(r), env) == if r in env then Some(env[r]) else None
  {
  }

  lemma PhiExactly(body: seq<Instr>, c: Config)
    requires c.At? && c.line < |body| && body[c.line].Phi? && Since(body, c.line, c.entry, c.env)
    ensures Reviewed(body, c) == (body[c.line].dst !in c.env && !ReadsOwn(body, c.line, c.prev)
                                  && Compute(body[c.line], c.env, c.prev, _ => Poison).Some?)
  {
    var line := body[c.line];
    var o := if c.prev == Some(line.first) then line.left else line.right;
    RangedExactly(o, 64, c.entry);
    RangedExactly(o, 64, c.env);
    if o.Reg? && !SetBefore(body, c.line, o.r) { assert Get(o, c.entry) == Get(o, c.env); }
    SameGet(o, c.entry, c.env);
    hide Pow2, Unsigned, Word, Ranged, SetBefore;
  }

  lemma SameGet(o: Operand, entry: Env, env: Env)
    ensures Get(o, entry) == Get(o, env) ==> (Ranged(o, 64, entry) <==> Ranged(o, 64, env))
    ensures o.Reg? && o.r !in entry ==> !Ranged(o, 64, entry)
    ensures !o.Reg? ==> Get(o, entry) == Get(o, env)
  {
  }

  lemma StoresExactly(body: seq<Instr>, c: Config, m: Machine)
    requires c.At? && c.line < |body| && body[c.line].Store? && Covered(m) && Going(m)
    requires c.env == m.env && c.stores == m.stores
    ensures Reviewed(body, c) <==> Step(body[c.line], m, c.prev, _ => Poison).Some?
  {
    var line := body[c.line];
    RegisterRead(line.address, m.env);
    if line.address in m.env && m.env[line.address].Pointer? {
      ApartExactly(m, m.env[line.address].offset, Width(line.field));
    }
    RangedExactly(line.operand, if line.field.ByteField? then 8 else 64, m.env);
    hide Covered, Unsigned, Ranged, Bytes, Pow2, Get;
  }

  predicate Going(m: Machine) {
    m.next.None? && !m.returned
  }

  /** One line: reviewed and run by the machine exactly if the interpreter takes it and it reads no
      register that its own block has set. */
  lemma LineExactly(program: Program, c: Config, m: Machine)
    requires c.At? && c.at in program && c.line < |program[c.at]| && Covered(m) && Going(m)
    requires c.env == m.env && c.stores == m.stores && Since(program[c.at], c.line, c.entry, c.env)
    ensures var body, keep := program[c.at], _ => Poison; var line := body[c.line];
      Reviewed(body, c) == (Step(line, m, c.prev, keep).Some? && !ReadsOwn(body, c.line, c.prev)
                            && (line.Branch? || line.Jump? || line.Return? ==> c.line == |body| - 1))
  {
    var line := program[c.at][c.line];
    if line.Store? {
      StoresExactly(program[c.at], c, m);
    } else if !line.Branch? && !line.Jump? && !line.Return? {
      ComputesExactly(program[c.at], c);
    }
    hide Compute, Stored, Covered, Since, SetBefore, Ranged, Bytes;
  }

  // ---------- whole bodies ----------

  lemma StepCovers(line: Instr, m: Machine, prev: Option<Label>, poison: Register -> Value)
    requires Covered(m) && Step(line, m, prev, poison).Some?
    ensures Covered(Step(line, m, prev, poison).value)
  {
    StepWrites(line, m, prev, poison);
    var n := Step(line, m, prev, poison).value;
    hide WrittenOnce, Compute, Stored, Bytes;
    if line.Store? {
      var at := m.env[line.address].offset;
      forall b | b in n.written ensures exists o :: o in n.stores && b in Bytes(o, Width(n.stores[o].0)) {
        if b in m.written {
          var o :| o in m.stores && b in Bytes(o, Width(m.stores[o].0));
          assert o != at by { NotStored(m, at, line.field); }
          assert o in n.stores && n.stores[o] == m.stores[o];
        } else {
          assert at in n.stores && b in Bytes(at, Width(n.stores[at].0));
        }
      }
    }
  }

  lemma NotStored(m: Machine, at: int, field: Field)
    requires WrittenOnce(m) && Bytes(at, Width(field)) !! m.written
    ensures at !in m.stores
  {
    FirstCell(at, 1);
    FirstCell(at, 8);
    hide Bytes, Descriptor;
  }

  /** What the interpreter does from line i of a block on: it accepts, reading its phis at entry. */
  ghost predicate Passes(program: Program, visited: set<Label>, at: Label, prev: Option<Label>, i: nat, m: Machine)
    requires at in program && at !in visited && i <= |program[at]|
  {
    var s := RunBlock(program[at][i..], m, prev, _ => Poison);
    && s.Some? && ReadsEntry(program[at], i, prev)
    && (s.value.returned || (s.value.next.Some? && Enters(program, visited + {at}, s.value.next.value, at, s.value)))
  }

  ghost predicate Enters(program: Program, visited: set<Label>, to: Label, from: Label, m: Machine) {
    && RunFrom(program, to, Some(from), visited, m.(next := None), _ => Poison).Done?
    && PhisReadEntry(program, to, Some(from), visited, m.(next := None))
  }

  lemma EntersExactly(program: Program, visited: set<Label>, at: Label, prev: Option<Label>, m: Machine)
    requires Going(m)
    ensures at !in program || at in visited ==> !RunFrom(program, at, prev, visited, m, _ => Poison).Done?
    ensures at in program && at !in visited ==>
      (Passes(program, visited, at, prev, 0, m) <==>
       RunFrom(program, at, prev, visited, m, _ => Poison).Done? && PhisReadEntry(program, at, prev, visited, m))
  {
    if at in program && at !in visited {
      assert program[at][0..] == program[at];
      Shrinks(program.Keys, visited, at);
      hide RunBlock, ReadsEntry;
    }
  }

  lemma PassesHere(program: Program, visited: set<Label>, at: Label, prev: Option<Label>, i: nat, m: Machine)
    requires at in program && at !in visited && i <= |program[at]| && Going(m)
    ensures i == |program[at]| ==> !Passes(program, visited, at, prev, i, m)
    ensures i < |program[at]| ==>
      var line, s := program[at][i], Step(program[at][i], m, prev, _ => Poison);
      Passes(program, visited, at, prev, i, m) ==
        (s.Some? && !ReadsOwn(program[at], i, prev)
         && if s.value.returned then i == |program[at]| - 1
            else if s.value.next.Some?
            then i == |program[at]| - 1 && Enters(program, visited + {at}, s.value.next.value, at, s.value)
            else Passes(program, visited, at, prev, i + 1, s.value))
  {
    var body := program[at];
    if i < |body| {
      var s := Step(body[i], m, prev, _ => Poison);
      assert body[i..][0] == body[i] && body[i..][1..] == body[i + 1..];
      ReadsEntryHere(body, i, prev);
      hide Step, Enters, ReadsEntry;
      if s.Some? && (s.value.returned || s.value.next.Some?) {
        LeftBehind(body[i + 1..], s.value, prev);
        NothingBehind(body, prev);
      }
    } else {
      assert body[i..] == [];
    }
  }

  lemma LeftBehind(rest: seq<Instr>, m: Machine, prev: Option<Label>)
    requires m.returned || m.next.Some?
    ensures RunBlock(rest, m, prev, _ => Poison) == if rest == [] then Some(m) else None
  {
  }

  lemma {:induction false} FromExactly(program: Program, visited: set<Label>, at: Label, prev: Option<Label>, i: nat,
      entry: Env, m: Machine)
    requires at in program && at !in visited && i <= |program[at]| && Covered(m) && Going(m)
    requires Since(program[at], i, entry, m.env)
    ensures RunsLawfully(program, visited, At(at, prev, i, entry, m.env, m.stores))
      <==> Passes(program, visited, at, prev, i, m)
    decreases |program.Keys - visited|, |program[at]| - i
  {
    var body, c := program[at], At(at, prev, i, entry, m.env, m.stores);
    PassesHere(program, visited, at, prev, i, m);
    LawfulHere(program, visited, c);
    hide RunsLawfully, Passes, Covered, Since, Step, Reviewed, ReadsOwn, Next, Enters;
    if i < |body| {
      LineExactly(program, c, m);
      LeavesOnly(body[i], m, prev);
      if Reviewed(body, c) {
        var n := Step(body[i], m, prev, _ => Poison).value;
        StepOver(program, c, m);
        if n.next.Some? {
          LeaveExactly(program, visited, at, n);
        } else if !n.returned && i + 1 < |body| {
          FromExactly(program, visited, at, prev, i + 1, entry, n);
        } else if !n.returned {
          PassesHere(program, visited, at, prev, i + 1, n);
          LawfulHere(program, visited + {at}, Beside(at, prev, i + 1, entry, n));
        }
      }
    }
  }

  lemma LawfulHere(program: Program, visited: set<Label>, c: Config)
    requires c.At?
    ensures c.at !in program || c.at in visited ==> !RunsLawfully(program, visited, c)
    ensures c.at in program && c.at !in visited && c.line >= |program[c.at]| ==> !RunsLawfully(program, visited, c)
    ensures c.at in program && c.at !in visited && c.line < |program[c.at]| && Next(program, c, _ => Poison).Some? ==>
      var d := Next(program, c, _ => Poison).value;
      RunsLawfully(program, visited, c) == (Reviewed(program[c.at], c) && (d.At? ==>
        if c.line + 1 < |program[c.at]|
        then d.at == c.at && d.line == c.line + 1 && RunsLawfully(program, visited, d)
        else RunsLawfully(program, visited + {c.at}, d)))
    ensures c.at in program && c.at !in visited && c.line < |program[c.at]| ==>
      (RunsLawfully(program, visited, c) ==> Reviewed(program[c.at], c) && Next(program, c, _ => Poison).Some?)
  {
    hide Next, Reviewed;
    if c.at in program && c.at !in visited { Shrinks(program.Keys, visited, c.at); }
  }

  /** The machine does the line, too. */
  lemma StepOver(program: Program, c: Config, m: Machine)
    requires c.At? && c.at in program && c.line < |program[c.at]| && Covered(m) && Going(m)
    requires c.env == m.env && c.stores == m.stores && Since(program[c.at], c.line, c.entry, c.env)
    requires Step(program[c.at][c.line], m, c.prev, _ => Poison).Some? && !ReadsOwn(program[c.at], c.line, c.prev)
    ensures var n := Step(program[c.at][c.line], m, c.prev, _ => Poison).value;
      && Next(program, c, _ => Poison) == Some(Beside(c.at, c.prev, c.line + 1, c.entry, n))
      && Covered(n) && Since(program[c.at], c.line + 1, c.entry, n.env) && !(n.returned && n.next.Some?)
  {
    var line := program[c.at][c.line];
    LineRuns(program, c.at, c.prev, c.line, c.entry, m, _ => Poison);
    LineKeeps(program[c.at], c.line, c.prev, c.entry, m, _ => Poison);
    StepCovers(line, m, c.prev, _ => Poison);
    LeavesOnly(line, m, c.prev);
    hide Step, Next, Since, Covered;
  }

  lemma LeavesOnly(line: Instr, m: Machine, prev: Option<Label>)
    requires Going(m)
    ensures var s := Step(line, m, prev, _ => Poison);
      && (s.Some? && s.value.returned ==> line.Return? && s.value.next.None?)
      && (s.Some? && s.value.next.Some? ==> line.Branch? || line.Jump?)
  {
    hide Compute, Stored;
  }

  /** Into the next block. */
  lemma LeaveExactly(program: Program, visited: set<Label>, at: Label, n: Machine)
    requires at in program && at !in visited && Covered(n) && n.next.Some? && !n.returned
    ensures |program.Keys - (visited + {at})| < |program.Keys - visited|
    ensures RunsLawfully(program, visited + {at}, At(n.next.value, Some(at), 0, n.env, n.env, n.stores))
      <==> Enters(program, visited + {at}, n.next.value, at, n)
    decreases |program.Keys - visited|, -1
  {
    Shrinks(program.Keys, visited, at);
    var to, seen, m := n.next.value, visited + {at}, n.(next := None);
    EntersExactly(program, seen, to, Some(at), m);
    if to in program && to !in seen {
      assert Since(program[to], 0, n.env, n.env);
      hide Since, Passes, RunsLawfully;
      assert Covered(m) by { SameCovered(n, m); }
      FromExactly(program, seen, to, Some(at), 0, n.env, m);
    }
  }

  lemma SameCovered(m: Machine, n: Machine)
    requires Covered(m) && n == m.(next := None)
    ensures Covered(n)
  {
    hide Descriptor, Bytes;
  }

  /** The interpreter accepts, with every phi reading what was there at block entry, exactly if the
      machine runs lawfully from the beginning. */
  lemma AcceptsExactly(program: Program, length: int, valid: int)
    ensures Run(program, length, valid, _ => Poison).Done?
        && PhisReadEntry(program, "start", None, {}, OutputMachine.Start(length, valid))
      <==> RunsLawfully(program, {}, Begin(length, valid))
  {
    var m := OutputMachine.Start(length, valid);
    EntersExactly(program, {}, "start", None, m);
    if "start" in program {
      assert Since(program["start"], 0, m.env, m.env);
      hide Since, Passes, RunFrom, PhisReadEntry, RunsLawfully, Arguments;
      FromExactly(program, {}, "start", None, 0, m.env, m);
    }
  }
}
