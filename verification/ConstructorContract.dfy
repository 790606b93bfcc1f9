/** The contract of the output constructor, for every length and valid-bit count: a body of the
    reviewed shape is interpreted to exactly the descriptor, or the error, that its mathematics say. */
module ConstructorContract {
  import opened Options
  import opened Arithmetic
  import opened Ranges
  import opened ControlGraph
  import opened OutputConstructor

  const WORD: nat := 0x1_0000_0000_0000_0000
  const HALF: nat := 0x8000_0000_0000_0000

  /** The bits of a nonempty output: all bytes but the last are whole. */
  function BitLength(length: nat, valid: nat): nat {
    if length == 0 then 0 else (length - 1) * 8 + valid
  }

  predicate ShapeHolds(length: nat, valid: nat) {
    if length == 0 then valid == 0 else 1 <= valid <= 8
  }

  /** What the constructor has to leave in the 32 bytes of its result. */
  function Contract(length: nat, valid: nat): Stores {
    if !ShapeHolds(length, valid) then map[0 := (PointerField, Null), 8 := (ByteField, Int(0))]
    else if BitLength(length, valid) >= WORD then map[0 := (PointerField, Null), 8 := (ByteField, Int(2))]
    else map[0 := (PointerField, Pointer(Payload, 0)), 8 := (WordField, Int(length)),
             16 := (WordField, Int(BitLength(length, valid))), 24 := (ByteField, Int(valid))]
  }

  // ---------- the body ----------

  const SHAPE: seq<Instr> := [
    Compare("empty", false, Equal, 64, Reg("%bytes.1"), IntLit(0)),
    Compare("zero", false, Equal, 8, Reg("%valid_bits_in_last_byte"), IntLit(0)),
    Add("lowered", false, false, 8, Reg("%valid_bits_in_last_byte"), IntLit(-1)),
    Compare("in", false, Below, 8, Reg("lowered"), IntLit(8)),
    Select("admits", Reg("empty"), Reg("zero"), Reg("in")),
    Branch(Reg("admits"), "sized", "bad")]
  const SIZED: seq<Instr> := [Branch(Reg("empty"), "good", "whole")]
  const WHOLE: seq<Instr> := [
    Add("whole_bytes", false, true, 64, Reg("%bytes.1"), IntLit(-1)),
    Compare("too_many", true, Above, 64, Reg("whole_bytes"), IntLit(0x1fff_ffff_ffff_ffff)),
    Branch(Reg("too_many"), "over", "count")]
  const COUNT: seq<Instr> := [
    Shl("bits", true, false, 64, Reg("whole_bytes"), IntLit(3)),
    Zext("wide_valid", Reg("%valid_bits_in_last_byte")),
    Add("early", true, false, 64, Reg("bits"), Reg("wide_valid")),
    Overflow("overflow", Reg("bits"), Reg("wide_valid")),
    Extract("sum", "overflow", 0),
    Extract("carried", "overflow", 1),
    Branch(Reg("carried"), "over", "good")]
  const GOOD: seq<Instr> := [
    Phi("bit_length", IntLit(0), "sized", Reg("sum"), "count"),
    Store(PointerField, Reg("%bytes.0"), "%_0"),
    Gep("size", "%_0", 8), Store(WordField, Reg("%bytes.1"), "size"),
    Gep("bits_at", "%_0", 16), Store(WordField, Reg("bit_length"), "bits_at"),
    Gep("valid_at", "%_0", 24), Store(ByteField, Reg("%valid_bits_in_last_byte"), "valid_at"),
    Return]
  const BAD: seq<Instr> := [Gep("code", "%_0", 8), Store(ByteField, IntLit(0), "code"), Jump("null")]
  const OVER: seq<Instr> := [Gep("code", "%_0", 8), Store(ByteField, IntLit(2), "code"), Jump("null")]
  const NULL: seq<Instr> := [Store(PointerField, NullLit, "%_0"), Return]

  /** Eight blocks. The sum is computed in front of its overflow check, too, where it may be poison. */
  function Body(): Program {
    map["start" := SHAPE, "sized" := SIZED, "whole" := WHOLE, "count" := COUNT, "good" := GOOD, "bad" := BAD,
        "over" := OVER, "null" := NULL]
  }

  // ---------- words ----------

  lemma Powers()
    ensures Pow2(3) == 8 && Pow2(7) == 128 && Pow2(8) == 256 && Pow2(63) == HALF && Pow2(64) == WORD
  {
    assert Pow2(8) == 256 && Pow2(16) == 0x1_0000 by { assert Pow2(12) == 4096; }
    DoublePow2(16);
    DoublePow2(32);
    assert Pow2(64) == 2 * Pow2(63);
  }

  lemma {:induction false} AddPow2(a: nat, b: nat)
    ensures Pow2(a + b) == Pow2(a) * Pow2(b)
    decreases b
  {
    if b > 0 { AddPow2(a, b - 1); }
  }

  lemma DoublePow2(a: nat)
    ensures Pow2(2 * a) == Pow2(a) * Pow2(a)
  {
    hide Pow2;
    AddPow2(a, a);
    assert 2 * a == a + a;
  }

  /** A word that is one already is read as it is; a small negative one is read from the top. */
  lemma Reads(o: Operand, width: Bits, env: Env, n: int)
    requires Get(o, env) == Some(Int(n)) && -Pow2(width - 1) <= n < Pow2(width) && n + Pow2(width) >= 0
    ensures Unsigned(o, width, env).Some? && Unsigned(o, width, env).value == if n >= 0 then n else n + Pow2(width)
  {
    assert Pow2(width) == 2 * Pow2(width - 1);
    hide Pow2, Get;
    if n >= 0 { DivMod(n, Pow2(width), 0, n); } else { Wraps(n, Pow2(width)); }
  }

  lemma Wraps(n: int, p: int)
    requires p > 0 && -p <= n < 0
    ensures n % p == n + p || (n == -p && n % p == 0)
  {
    var q, r := n / p, n % p;
    assert n == q * p + r;
    MultipleGrows(q + 1, p);
    MultipleGrows(q + 2, p);
    assert (q + 1) * p == q * p + p && (q + 2) * p == q * p + 2 * p;
  }

  // ---------- lines ----------

  type Poisoner = Register -> Value

  lemma {:induction false} RunsChain(body: seq<Instr>, ms: seq<Machine>, prev: Option<Label>, poison: Poisoner)
    requires |ms| == |body| + 1
    requires forall i :: 0 <= i < |body| ==> Step(body[i], ms[i], prev, poison) == Some(ms[i + 1])
    ensures RunBlock(body, ms[0], prev, poison) == Some(ms[|body|])
    decreases |body|
  {
    hide Step;
    if body != [] {
      assert forall i :: 0 <= i < |body| - 1 ==> body[1..][i] == body[i + 1] && ms[1..][i] == ms[i + 1];
      RunsChain(body[1..], ms[1..], prev, poison);
    }
  }

  predicate Going(m: Machine) {
    m.next.None? && !m.returned
  }

  function With(m: Machine, r: Register, v: Value): Machine {
    m.(env := m.env[r := v])
  }

  /** The line sets its register, a new one, to this value. */
  ghost predicate Sets(line: Instr, m: Machine, prev: Option<Label>, poison: Poisoner, r: Register, v: Value) {
    Step(line, m, prev, poison) == Some(With(m, r, v))
  }

  lemma Computes(line: Instr, m: Machine, prev: Option<Label>, poison: Poisoner, v: Value)
    requires !line.Store? && !line.Branch? && !line.Jump? && !line.Return?
    requires Going(m) && line.dst !in m.env && Compute(line, m.env, prev, poison) == Some(v)
    ensures Sets(line, m, prev, poison, line.dst, v)
  {
    hide Compute;
  }

  /** An operand with a nonnegative word in it. */
  ghost predicate Is(o: Operand, width: Bits, env: Env, n: int) {
    Get(o, env) == Some(Int(n)) && 0 <= n < Pow2(width)
  }

  lemma CompareSets(line: Instr, m: Machine, prev: Option<Label>, poison: Poisoner, x: nat, y: nat)
    requires line.Compare? && Going(m) && line.dst !in m.env
    requires Is(line.left, line.width, m.env, x) && Is(line.right, line.width, m.env, y)
    requires line.samesign ==> x < Pow2(line.width - 1) && y < Pow2(line.width - 1)
    ensures Sets(line, m, prev, poison, line.dst,
      Bool(match line.test case Equal => x == y case Below => x < y case Above => x > y))
  {
    Reads(line.left, line.width, m.env, x);
    Reads(line.right, line.width, m.env, y);
    hide Pow2, Unsigned, Sets;
    Computes(line, m, prev, poison,
      Bool(match line.test case Equal => x == y case Below => x < y case Above => x > y));
  }

  lemma MinusOne(x: nat, p: nat)
    requires x < p && p > 0
    ensures (x + p - 1) % p == if x > 0 then x - 1 else p - 1
  {
    if x > 0 { DivMod(x + p - 1, p, 1, x - 1); } else { DivMod(p - 1, p, 0, p - 1); }
  }

  lemma LessPoisons(line: Instr, x: nat)
    requires line.Add? && !line.nuw && x < Pow2(line.width) && (line.nsw ==> 1 <= x < Pow2(line.width - 1))
    ensures Pow2(line.width) >= 4 && !Poisons(line, x, Pow2(line.width) - 1)
  {
    assert Pow2(line.width) == 2 * Pow2(line.width - 1) == 4 * Pow2(line.width - 2);
  }

  /** One less, written as adding minus one: no signed overflow but from the least number. */
  lemma LessSets(line: Instr, m: Machine, prev: Option<Label>, poison: Poisoner, x: nat)
    requires line.Add? && Going(m) && line.dst !in m.env && !line.nuw && line.right == IntLit(-1)
    requires Is(line.left, line.width, m.env, x) && (line.nsw ==> 1 <= x < Pow2(line.width - 1))
    ensures Sets(line, m, prev, poison, line.dst, Int(if x > 0 then x - 1 else Pow2(line.width) - 1))
  {
    LessPoisons(line, x);
    MinusOne(x, Pow2(line.width));
    LessReads(line, m.env, x);
    hide Pow2, Poisons, Sets, Unsigned, Is;
    Computes(line, m, prev, poison, Int(if x > 0 then x - 1 else Pow2(line.width) - 1));
  }

  lemma LessReads(line: Instr, env: Env, x: nat)
    requires line.Add? && line.right == IntLit(-1) && Is(line.left, line.width, env, x)
    ensures Unsigned(line.left, line.width, env) == Some(x)
    ensures Unsigned(line.right, line.width, env).Some?
    ensures Unsigned(line.right, line.width, env).value == Pow2(line.width) - 1
  {
    assert Pow2(line.width) == 2 * Pow2(line.width - 1);
    hide Pow2, Unsigned;
    Reads(line.left, line.width, env, x);
    Reads(line.right, line.width, env, -1);
  }

  lemma EightfoldFits(x: nat)
    requires x <= 0x1fff_ffff_ffff_ffff
    ensures x * Pow2(3) == 8 * x && 8 * x < Pow2(64) && 8 * x % Pow2(64) == 8 * x && Pow2(63) == HALF
  {
    Powers();
    hide Pow2;
    DivMod(8 * x, WORD, 0, 8 * x);
  }

  lemma EightfoldSets(line: Instr, m: Machine, prev: Option<Label>, poison: Poisoner, x: nat)
    requires line.Shl? && Going(m) && line.dst !in m.env && !line.nsw && line.right == IntLit(3) && line.width == 64
    requires Is(line.left, 64, m.env, x) && x <= 0x1fff_ffff_ffff_ffff
    ensures Sets(line, m, prev, poison, line.dst, Int(8 * x))
  {
    EightfoldFits(x);
    hide Pow2, Sets;
    Reads(line.left, 64, m.env, x);
    Reads(line.right, 64, m.env, 3);
    hide Unsigned;
    Computes(line, m, prev, poison, Int(8 * x));
  }

  lemma WidensSets(line: Instr, m: Machine, prev: Option<Label>, poison: Poisoner, x: nat)
    requires line.Zext? && Going(m) && line.dst !in m.env && Is(line.operand, 8, m.env, x)
    ensures Sets(line, m, prev, poison, line.dst, Int(x))
  {
    Reads(line.operand, 8, m.env, x);
    hide Pow2, Sets, Unsigned;
    Computes(line, m, prev, poison, Int(x));
  }

  lemma SumSets(line: Instr, m: Machine, prev: Option<Label>, poison: Poisoner, x: nat, y: nat)
    returns (sum: nat, carry: bool)
    requires line.Overflow? && Going(m) && line.dst !in m.env
    requires Is(line.left, 64, m.env, x) && Is(line.right, 64, m.env, y)
    ensures Sets(line, m, prev, poison, line.dst, Pair(sum, carry))
    ensures carry == (x + y >= WORD) && (!carry ==> sum == x + y)
  {
    assert Pow2(64) == WORD by { Powers(); }
    hide Pow2, Sets;
    Reads(line.left, 64, m.env, x);
    Reads(line.right, 64, m.env, y);
    hide Unsigned;
    sum, carry := (x + y) % WORD, x + y >= WORD;
    if x + y < WORD { DivMod(x + y, WORD, 0, x + y); }
    Computes(line, m, prev, poison, Pair(sum, carry));
  }

  /** The early sum, which is poison where it does not fit. */
  lemma EarlySets(line: Instr, m: Machine, prev: Option<Label>, poison: Poisoner, x: nat, y: nat) returns (v: Value)
    requires line.Add? && line.width == 64 && !line.nsw && Going(m) && line.dst !in m.env
    requires Is(line.left, 64, m.env, x) && Is(line.right, 64, m.env, y)
    ensures Sets(line, m, prev, poison, line.dst, v)
  {
    hide Pow2, Sets;
    Reads(line.left, 64, m.env, x);
    Reads(line.right, 64, m.env, y);
    hide Unsigned;
    v := Compute(line, m.env, prev, poison).value;
    Computes(line, m, prev, poison, v);
  }

  lemma PhiSets(line: Instr, m: Machine, prev: Option<Label>, poison: Poisoner, x: nat)
    requires line.Phi? && Going(m) && line.dst !in m.env && line.first != line.second
    requires prev == Some(line.first) || prev == Some(line.second)
    requires Is(if prev == Some(line.first) then line.left else line.right, 64, m.env, x)
    ensures Sets(line, m, prev, poison, line.dst, Int(x))
  {
    hide Pow2, Sets;
    Reads(if prev == Some(line.first) then line.left else line.right, 64, m.env, x);
    hide Unsigned;
    Computes(line, m, prev, poison, Int(x));
  }

  lemma AddressSets(line: Instr, m: Machine, prev: Option<Label>, poison: Poisoner)
    requires line.Gep? && Going(m) && line.dst !in m.env && line.offset < 32
    requires Get(Reg(line.base), m.env) == Some(Pointer(Output, 0))
    ensures Sets(line, m, prev, poison, line.dst, Pointer(Output, line.offset))
  {
    hide Sets;
    Computes(line, m, prev, poison, Pointer(Output, line.offset));
  }

  function Stored1(m: Machine, o: nat, field: Field, v: Value): Machine {
    m.(stores := m.stores[o := (field, v)], written := m.written + Bytes(o, Width(field)))
  }

  lemma Stores(line: Instr, m: Machine, prev: Option<Label>, poison: Poisoner, o: nat, v: Value)
    requires line.Store? && Going(m) && Get(Reg(line.address), m.env) == Some(Pointer(Output, o))
    requires o + Width(line.field) <= 32 && Bytes(o, Width(line.field)) !! m.written
    requires if line.field.PointerField? then Get(line.operand, m.env) == Some(v) && v in {Null, Pointer(Payload, 0)}
             else v.Int? && Is(line.operand, 8 * Width(line.field), m.env, v.n)
    ensures Step(line, m, prev, poison) == Some(Stored1(m, o, line.field, v))
  {
    hide Pow2;
    if !line.field.PointerField? { Reads(line.operand, 8 * Width(line.field), m.env, v.n); }
    hide Unsigned, Bytes;
  }

  // ---------- blocks ----------

  /** The registers that the constructor's arguments are in. */
  ghost predicate Given(env: Env, length: nat, valid: nat) {
    && "%_0" in env && env["%_0"] == Pointer(Output, 0) && "%bytes.0" in env && env["%bytes.0"] == Pointer(Payload, 0)
    && "%bytes.1" in env && env["%bytes.1"] == Int(length)
    && "%valid_bits_in_last_byte" in env && env["%valid_bits_in_last_byte"] == Int(valid)
    && length < HALF && valid < 256
  }

  lemma Branches(line: Instr, m: Machine, prev: Option<Label>, poison: Poisoner, b: bool)
    requires line.Branch? && Going(m) && Get(line.condition, m.env) == Some(Bool(b))
    ensures Step(line, m, prev, poison) == Some(m.(next := Some(if b then line.onTrue else line.onFalse)))
  {
  }

  lemma SelectSets(line: Instr, m: Machine, prev: Option<Label>, poison: Poisoner, c: bool, y: bool, n: bool)
    requires line.Select? && Going(m) && line.dst !in m.env && Get(line.condition, m.env) == Some(Bool(c))
    requires Get(line.yes, m.env) == Some(Bool(y)) && Get(line.no, m.env) == Some(Bool(n))
    ensures Sets(line, m, prev, poison, line.dst, Bool(if c then y else n))
  {
    hide Sets;
    Computes(line, m, prev, poison, Bool(if c then y else n));
  }

  const LOWERED: set<Register> := {"lowered", "in"} + {"admits"}
  const CHECKED: set<Register> := {"empty", "zero"} + LOWERED
  const WHOLES: set<Register> := {"whole_bytes", "too_many"}
  const ENDS: set<Register> := {"sum", "carried"}
  const ADDS: set<Register> := {"early", "overflow"} + ENDS
  const COUNTS: set<Register> := {"bits", "wide_valid"} + ADDS

  lemma Names()
    ensures "empty" !in LOWERED && "zero" !in LOWERED && "early" !in ENDS && "overflow" !in ENDS && "bits" !in ADDS
    ensures "wide_valid" !in ADDS && "empty" != "zero" && "early" != "overflow" && "bits" != "wide_valid"
  {
  }

  lemma FreshTwo(env: Env, r: Register, v: Value, q: Register, w: Value, names: set<Register>)
    requires Fresh(env, {r, q} + names) && r !in names && q !in names && r != q
    ensures r !in env && q !in env[r := v] && Fresh(env[r := v][q := w], names) && Fresh(env, {r, q})
  {
  }

  /** More registers, and the ones that were set already as they were. */
  ghost predicate Extends(a: Env, b: Env, added: set<Register>) {
    forall r: Register :: r !in added ==> (r in b <==> r in a) && (r in a ==> b[r] == a[r])
  }

  ghost predicate Fresh(env: Env, names: set<Register>) {
    forall r :: r in names ==> r !in env
  }

  lemma GivenExtends(a: Env, b: Env, added: set<Register>, length: nat, valid: nat)
    requires Given(a, length, valid) && Extends(a, b, added) && Fresh(a, added)
    ensures Given(b, length, valid)
  {
  }

  lemma ExtendsTwice(a: Env, b: Env, c: Env, x: set<Register>, y: set<Register>)
    requires Extends(a, b, x) && Extends(b, c, y)
    ensures Extends(a, c, x + y)
  {
  }

  lemma ExtendsTwo(env: Env, r: Register, v: Value, q: Register, w: Value)
    ensures Extends(env, env[r := v][q := w], {r, q})
  {
  }

  lemma ExtendsOne(env: Env, r: Register, v: Value)
    ensures Extends(env, env[r := v], {r})
  {
  }

  lemma GivenHolds(env: Env, length: nat, valid: nat)
    requires Given(env, length, valid)
    ensures Is(Reg("%bytes.1"), 64, env, length) && length < Pow2(63)
    ensures Is(Reg("%valid_bits_in_last_byte"), 8, env, valid)
    ensures Get(Reg("%_0"), env) == Some(Pointer(Output, 0))
    ensures Get(Reg("%bytes.0"), env) == Some(Pointer(Payload, 0))
  {
    Powers();
    hide Pow2;
  }

  lemma Numbers(env: Env)
    ensures Is(IntLit(0), 64, env, 0) && Is(IntLit(0), 8, env, 0) && Is(IntLit(8), 8, env, 8)
    ensures Is(IntLit(2), 8, env, 2) && Is(IntLit(0x1fff_ffff_ffff_ffff), 64, env, 0x1fff_ffff_ffff_ffff)
  {
    Powers();
    hide Pow2;
  }

  lemma Holds(env: Env, r: Register, width: Bits, n: int)
    requires r in env && env[r] == Int(n) && 0 <= n < Pow2(width)
    ensures Is(Reg(r), width, env, n)
  {
  }

  /** One line, then the rest of the block. */
  lemma Goes(body: seq<Instr>, i: nat, m: Machine, n: Machine, prev: Option<Label>, poison: Poisoner)
    requires i < |body| && Step(body[i], m, prev, poison) == Some(n)
    ensures RunBlock(body[i..], m, prev, poison) == RunBlock(body[i + 1..], n, prev, poison)
  {
    assert body[i..][0] == body[i] && body[i..][1..] == body[i + 1..];
    hide Step;
  }

  lemma GoesOn(body: seq<Instr>, i: nat, m: Machine, prev: Option<Label>, poison: Poisoner, r: Register, v: Value)
    requires i < |body| && Sets(body[i], m, prev, poison, r, v)
    ensures RunBlock(body[i..], m, prev, poison) == RunBlock(body[i + 1..], With(m, r, v), prev, poison)
  {
    hide Step, RunBlock;
    Goes(body, i, m, With(m, r, v), prev, poison);
  }

  lemma GoesOut(body: seq<Instr>, m: Machine, n: Machine, prev: Option<Label>, poison: Poisoner)
    requires body != [] && Step(body[|body| - 1], m, prev, poison) == Some(n)
    ensures RunBlock(body[|body| - 1..], m, prev, poison) == Some(n)
  {
    hide Step;
    Goes(body, |body| - 1, m, n, prev, poison);
  }

  lemma ShapeEnds(m: Machine, poison: Poisoner, e: bool, n: bool, l: bool)
    requires Going(m) && "admits" !in m.env
    requires "empty" in m.env && m.env["empty"] == Bool(e) && "zero" in m.env && m.env["zero"] == Bool(n)
    requires "in" in m.env && m.env["in"] == Bool(l)
    ensures var holds := if e then n else l;
      RunBlock(SHAPE[4..], m, None, poison)
        == Some(With(m, "admits", Bool(holds)).(next := Some(if holds then "sized" else "bad")))
  {
    hide Step, Compute, RunBlock, Sets;
    var k := With(m, "admits", Bool(if e then n else l));
    SelectSets(SHAPE[4], m, None, poison, e, n, l);
    GoesOn(SHAPE, 4, m, None, poison, "admits", Bool(if e then n else l));
    Branches(SHAPE[5], k, None, poison, if e then n else l);
    GoesOut(SHAPE, k, k.(next := Some(if if e then n else l then "sized" else "bad")), None, poison);
  }

  lemma ShapeCounts(m: Machine, valid: nat, poison: Poisoner, e: bool) returns (n: Machine)
    requires Going(m) && Fresh(m.env, LOWERED) && valid < 256
    requires "empty" in m.env && m.env["empty"] == Bool(e) && "zero" in m.env && m.env["zero"] == Bool(valid == 0)
    requires Is(Reg("%valid_bits_in_last_byte"), 8, m.env, valid)
    ensures RunBlock(SHAPE[2..], m, None, poison) == Some(n)
    ensures n == m.(env := n.env, next := n.next)
    ensures n.next == Some(if if e then valid == 0 else 1 <= valid <= 8 then "sized" else "bad")
    ensures Extends(m.env, n.env, LOWERED)
  {
    assert Pow2(8) == 256 by { Powers(); }
    var less := if valid > 0 then valid - 1 else 255;
    var c := With(m, "lowered", Int(less));
    var d := With(c, "in", Bool(less < 8));
    Numbers(c.env);
    Holds(c.env, "lowered", 8, less);
    hide Pow2, Step, Compute, RunBlock, Is, Sets, Extends;
    LessSets(SHAPE[2], m, None, poison, valid);
    GoesOn(SHAPE, 2, m, None, poison, "lowered", Int(less));
    CompareSets(SHAPE[3], c, None, poison, less, 8);
    GoesOn(SHAPE, 3, c, None, poison, "in", Bool(less < 8));
    assert "admits" !in d.env && "empty" in d.env && d.env["empty"] == Bool(e) && "zero" in d.env
      && d.env["zero"] == Bool(valid == 0) && "in" in d.env && d.env["in"] == Bool(less < 8);
    hide Fresh, SHAPE, Get;
    ShapeEnds(d, poison, e, valid == 0, less < 8);
    var holds := if e then valid == 0 else less < 8;
    n := With(d, "admits", Bool(holds)).(next := Some(if holds then "sized" else "bad"));
    ExtendsTwo(m.env, "lowered", Int(less), "in", Bool(less < 8));
    ExtendsOne(d.env, "admits", Bool(holds));
    ExtendsTwice(m.env, d.env, n.env, {"lowered", "in"}, {"admits"});
  }

  lemma ShapePasses(m: Machine, length: nat, valid: nat, poison: Poisoner) returns (n: Machine)
    requires Going(m) && Given(m.env, length, valid) && Fresh(m.env, CHECKED)
    ensures RunBlock(SHAPE, m, None, poison) == Some(n)
    ensures n.next == Some(if ShapeHolds(length, valid) then "sized" else "bad")
    ensures n == m.(env := n.env, next := n.next) && Given(n.env, length, valid)
    ensures Extends(m.env, n.env, CHECKED) && "empty" in n.env && n.env["empty"] == Bool(length == 0)
  {
    var a := With(m, "empty", Bool(length == 0));
    var b := With(a, "zero", Bool(valid == 0));
    assert SHAPE[0..] == SHAPE;
    hide Pow2, Step, Compute, RunBlock, Is, Sets, Given, Extends, SHAPE, Fresh, LOWERED;
    ExtendsTwo(m.env, "empty", Bool(length == 0), "zero", Bool(valid == 0));
    ShapeBegins(m, length, valid, poison);
    Names();
    FreshTwo(m.env, "empty", Bool(length == 0), "zero", Bool(valid == 0), LOWERED);
    assert "empty" in b.env && b.env["empty"] == Bool(length == 0) && "zero" in b.env
      && b.env["zero"] == Bool(valid == 0);
    GivenExtends(m.env, b.env, {"empty", "zero"}, length, valid);
    GivenHolds(b.env, length, valid);
    assert valid < 256 by { GivenSmall(m.env, length, valid); }
    n := ShapeCounts(b, valid, poison, length == 0);
    ExtendsTwice(m.env, b.env, n.env, {"empty", "zero"}, LOWERED);
    GivenExtends(m.env, n.env, CHECKED, length, valid);
    ExtendsKeeps(b.env, n.env, LOWERED, "empty");
  }

  lemma GivenSmall(env: Env, length: nat, valid: nat)
    requires Given(env, length, valid)
    ensures length < HALF && valid < 256
  {
  }

  lemma ExtendsKeeps(a: Env, b: Env, added: set<Register>, r: Register)
    requires Extends(a, b, added) && r in a && r !in added
    ensures r in b && b[r] == a[r]
  {
  }

  lemma ShapeBegins(m: Machine, length: nat, valid: nat, poison: Poisoner)
    requires Going(m) && Given(m.env, length, valid) && Fresh(m.env, CHECKED)
    ensures RunBlock(SHAPE[0..], m, None, poison)
      == RunBlock(SHAPE[2..], With(With(m, "empty", Bool(length == 0)), "zero", Bool(valid == 0)), None, poison)
  {
    var a := With(m, "empty", Bool(length == 0));
    Numbers(m.env);
    Numbers(a.env);
    GivenHolds(m.env, length, valid);
    ExtendsOne(m.env, "empty", Bool(length == 0));
    GivenExtends(m.env, a.env, {"empty"}, length, valid);
    GivenHolds(a.env, length, valid);
    hide Pow2, Step, Compute, RunBlock, Is, Sets, Given;
    CompareSets(SHAPE[0], m, None, poison, length, 0);
    GoesOn(SHAPE, 0, m, None, poison, "empty", Bool(length == 0));
    CompareSets(SHAPE[1], a, None, poison, valid, 0);
    GoesOn(SHAPE, 1, a, None, poison, "zero", Bool(valid == 0));
  }

  lemma SizedPasses(m: Machine, empty: bool, poison: Poisoner)
    requires Going(m) && "empty" in m.env && m.env["empty"] == Bool(empty)
    ensures RunBlock(SIZED, m, Some("start"), poison) == Some(m.(next := Some(if empty then "good" else "whole")))
  {
    assert SIZED[0..] == SIZED;
    hide Step, RunBlock;
    Branches(SIZED[0], m, Some("start"), poison, empty);
    GoesOut(SIZED, m, m.(next := Some(if empty then "good" else "whole")), Some("start"), poison);
  }

  lemma WholePasses(m: Machine, length: nat, poison: Poisoner) returns (n: Machine)
    requires Going(m) && Is(Reg("%bytes.1"), 64, m.env, length) && 1 <= length < HALF && Fresh(m.env, WHOLES)
    ensures RunBlock(WHOLE[0..], m, Some("sized"), poison) == Some(n)
    ensures n == m.(env := n.env, next := Some(if length - 1 > 0x1fff_ffff_ffff_ffff then "over" else "count"))
    ensures Extends(m.env, n.env, WHOLES) && "whole_bytes" in n.env && n.env["whole_bytes"] == Int(length - 1)
  {
    var a := With(m, "whole_bytes", Int(length - 1));
    var large := length - 1 > 0x1fff_ffff_ffff_ffff;
    assert "whole_bytes" !in m.env && "too_many" !in a.env;
    ExtendsTwo(m.env, "whole_bytes", Int(length - 1), "too_many", Bool(large));
    assert "whole_bytes" in a.env["too_many" := Bool(large)];
    hide Fresh, Extends, RunBlock, Step, Is;
    WholeBegins(m, length, poison);
    WholeEnds(a, length - 1, poison);
    n := With(a, "too_many", Bool(large)).(next := Some(if large then "over" else "count"));
  }

  lemma WholeBegins(m: Machine, length: nat, poison: Poisoner)
    requires Going(m) && Is(Reg("%bytes.1"), 64, m.env, length) && 1 <= length < HALF && "whole_bytes" !in m.env
    ensures RunBlock(WHOLE[0..], m, Some("sized"), poison)
      == RunBlock(WHOLE[1..], With(m, "whole_bytes", Int(length - 1)), Some("sized"), poison)
  {
    assert Pow2(63) == HALF by { Powers(); }
    hide Pow2, Step, Compute, RunBlock, Is, Sets;
    LessSets(WHOLE[0], m, Some("sized"), poison, length);
    GoesOn(WHOLE, 0, m, Some("sized"), poison, "whole_bytes", Int(length - 1));
  }

  lemma WholeEnds(m: Machine, bytes: nat, poison: Poisoner)
    requires Going(m) && "whole_bytes" in m.env && m.env["whole_bytes"] == Int(bytes) && bytes < HALF
    requires "too_many" !in m.env
    ensures var large := bytes > 0x1fff_ffff_ffff_ffff;
      RunBlock(WHOLE[1..], m, Some("sized"), poison)
        == Some(With(m, "too_many", Bool(large)).(next := Some(if large then "over" else "count")))
  {
    var large := bytes > 0x1fff_ffff_ffff_ffff;
    var b := With(m, "too_many", Bool(large));
    assert Pow2(63) == HALF && Pow2(64) == WORD by { Powers(); }
    Numbers(m.env);
    Holds(m.env, "whole_bytes", 64, bytes);
    hide Pow2, Step, Compute, RunBlock, Is, Sets;
    CompareSets(WHOLE[1], m, Some("sized"), poison, bytes, 0x1fff_ffff_ffff_ffff);
    GoesOn(WHOLE, 1, m, Some("sized"), poison, "too_many", Bool(large));
    Branches(WHOLE[2], b, Some("sized"), poison, large);
    GoesOut(WHOLE, b, b.(next := Some(if large then "over" else "count")), Some("sized"), poison);
  }
  lemma ExtractSets(line: Instr, m: Machine, prev: Option<Label>, poison: Poisoner, sum: int, carry: bool)
    requires line.Extract? && Going(m) && line.dst !in m.env && Get(Reg(line.src), m.env) == Some(Pair(sum, carry))
    ensures Sets(line, m, prev, poison, line.dst, if line.index == 0 then Int(sum) else Bool(carry))
  {
    hide Sets;
    Computes(line, m, prev, poison, if line.index == 0 then Int(sum) else Bool(carry));
  }

  lemma CountEnds(m: Machine, sum: int, carry: bool, poison: Poisoner) returns (n: Machine)
    requires Going(m) && Fresh(m.env, ENDS) && "overflow" in m.env && m.env["overflow"] == Pair(sum, carry)
    ensures RunBlock(COUNT[4..], m, Some("whole"), poison) == Some(n)
    ensures n == m.(env := n.env, next := Some(if carry then "over" else "good"))
    ensures Extends(m.env, n.env, ENDS) && "sum" in n.env && n.env["sum"] == Int(sum)
  {
    var a := With(m, "sum", Int(sum));
    var b := With(a, "carried", Bool(carry));
    n := b.(next := Some(if carry then "over" else "good"));
    hide Step, Compute, RunBlock, Sets;
    ExtractSets(COUNT[4], m, Some("whole"), poison, sum, carry);
    GoesOn(COUNT, 4, m, Some("whole"), poison, "sum", Int(sum));
    ExtractSets(COUNT[5], a, Some("whole"), poison, sum, carry);
    GoesOn(COUNT, 5, a, Some("whole"), poison, "carried", Bool(carry));
    Branches(COUNT[6], b, Some("whole"), poison, carry);
    GoesOut(COUNT, b, n, Some("whole"), poison);
  }

  lemma CountAdds(m: Machine, x: nat, y: nat, poison: Poisoner) returns (n: Machine)
    requires Going(m) && Fresh(m.env, ADDS)
    requires Is(Reg("bits"), 64, m.env, x) && Is(Reg("wide_valid"), 64, m.env, y)
    ensures RunBlock(COUNT[2..], m, Some("whole"), poison) == Some(n)
    ensures n == m.(env := n.env, next := Some(if x + y >= WORD then "over" else "good"))
    ensures Extends(m.env, n.env, ADDS)
    ensures x + y < WORD ==> "sum" in n.env && n.env["sum"] == Int(x + y)
  {
    hide Pow2, Step, Compute, RunBlock, Sets, Extends;
    Names();
    hide ENDS, Fresh;
    FreshTwo(m.env, "early", Null, "overflow", Null, ENDS);
    var v := EarlySets(COUNT[2], m, Some("whole"), poison, x, y);
    GoesOn(COUNT, 2, m, Some("whole"), poison, "early", v);
    var a := With(m, "early", v);
    var sum, carry := SumSets(COUNT[3], a, Some("whole"), poison, x, y);
    GoesOn(COUNT, 3, a, Some("whole"), poison, "overflow", Pair(sum, carry));
    var b := With(a, "overflow", Pair(sum, carry));
    FreshTwo(m.env, "early", v, "overflow", Pair(sum, carry), ENDS);
    hide Is, COUNT, Get;
    n := CountEnds(b, sum, carry, poison);
    ExtendsTwo(m.env, "early", v, "overflow", Pair(sum, carry));
    ExtendsTwice(m.env, b.env, n.env, {"early", "overflow"}, ENDS);
  }

  lemma CountPasses(m: Machine, complete: nat, bits: nat, valid: nat, poison: Poisoner) returns (n: Machine)
    requires Going(m) && Fresh(m.env, COUNTS)
    requires Is(Reg("whole_bytes"), 64, m.env, complete) && complete <= 0x1fff_ffff_ffff_ffff && bits == 8 * complete
    requires Is(Reg("%valid_bits_in_last_byte"), 8, m.env, valid)
    ensures RunBlock(COUNT[0..], m, Some("whole"), poison) == Some(n)
    ensures n == m.(env := n.env, next := Some(if bits + valid >= WORD then "over" else "good"))
    ensures Extends(m.env, n.env, COUNTS)
    ensures bits + valid < WORD ==> "sum" in n.env && n.env["sum"] == Int(bits + valid)
  {
    CountBegins(m, complete, bits, valid, poison);
    var b := With(With(m, "bits", Int(bits)), "wide_valid", Int(valid));
    assert Is(Reg("bits"), 64, b.env, bits) && Is(Reg("wide_valid"), 64, b.env, valid) by {
      assert Pow2(64) == WORD && Pow2(8) == 256 by { Powers(); }
    }
    hide Pow2, RunBlock, Extends, ADDS, Fresh, Is;
    Names();
    FreshTwo(m.env, "bits", Int(bits), "wide_valid", Int(valid), ADDS);
    n := CountAdds(b, bits, valid, poison);
    ExtendsTwo(m.env, "bits", Int(bits), "wide_valid", Int(valid));
    ExtendsTwice(m.env, b.env, n.env, {"bits", "wide_valid"}, ADDS);
  }

  lemma CountBegins(m: Machine, complete: nat, bits: nat, valid: nat, poison: Poisoner)
    requires Going(m) && "bits" !in m.env && "wide_valid" !in m.env
    requires Is(Reg("whole_bytes"), 64, m.env, complete) && complete <= 0x1fff_ffff_ffff_ffff && bits == 8 * complete
    requires Is(Reg("%valid_bits_in_last_byte"), 8, m.env, valid)
    ensures RunBlock(COUNT[0..], m, Some("whole"), poison)
      == RunBlock(COUNT[2..], With(With(m, "bits", Int(bits)), "wide_valid", Int(valid)), Some("whole"), poison)
  {
    var a := With(m, "bits", Int(bits));
    hide Pow2, Step, Compute, RunBlock, Sets;
    EightfoldSets(COUNT[0], m, Some("whole"), poison, complete);
    GoesOn(COUNT, 0, m, Some("whole"), poison, "bits", Int(bits));
    WidensSets(COUNT[1], a, Some("whole"), poison, valid);
    GoesOn(COUNT, 1, a, Some("whole"), poison, "wide_valid", Int(valid));
  }

  // ---------- the results ----------

  ghost predicate Under(cells: set<int>, n: int) {
    forall b :: b in cells ==> b < n
  }

  lemma BytesBelow(cells: set<int>, o: nat, width: nat)
    requires Under(cells, o)
    ensures Bytes(o, width) !! cells && Under(cells + Bytes(o, width), o + width)
  {
  }

  /** A store behind all earlier ones. */
  lemma StoresOn(body: seq<Instr>, i: nat, m: Machine, prev: Option<Label>, poison: Poisoner, o: nat, v: Value)
    requires i < |body| && body[i].Store? && Going(m) && Get(Reg(body[i].address), m.env) == Some(Pointer(Output, o))
    requires o + Width(body[i].field) <= 32 && Under(m.written, o)
    requires if body[i].field.PointerField?
             then Get(body[i].operand, m.env) == Some(v) && v in {Null, Pointer(Payload, 0)}
             else v.Int? && Is(body[i].operand, 8 * Width(body[i].field), m.env, v.n)
    ensures var n := Stored1(m, o, body[i].field, v);
      && RunBlock(body[i..], m, prev, poison) == RunBlock(body[i + 1..], n, prev, poison)
      && Under(n.written, o + Width(body[i].field))
  {
    BytesBelow(m.written, o, Width(body[i].field));
    hide Step, RunBlock, Under, Bytes, Is;
    Stores(body[i], m, prev, poison, o, v);
    Goes(body, i, m, Stored1(m, o, body[i].field, v), prev, poison);
  }

  lemma FieldStored(m: Machine, i: nat, name: Register, o: nat, prev: Option<Label>, poison: Poisoner, v: Value)
    returns (n: Machine)
    requires i + 1 < |GOOD| && GOOD[i] == Gep(name, "%_0", o) && GOOD[i + 1].Store? && GOOD[i + 1].address == name
    requires Going(m) && name !in m.env && Get(Reg("%_0"), m.env) == Some(Pointer(Output, 0))
    requires !GOOD[i + 1].field.PointerField? && o + Width(GOOD[i + 1].field) <= 32 && Under(m.written, o)
    requires v.Int? && Is(GOOD[i + 1].operand, 8 * Width(GOOD[i + 1].field), m.env, v.n)
    ensures RunBlock(GOOD[i..], m, prev, poison) == RunBlock(GOOD[i + 2..], n, prev, poison)
    ensures n.env == m.env[name := Pointer(Output, o)] && n.stores == m.stores[o := (GOOD[i + 1].field, v)] && Going(n)
    ensures Under(n.written, o + Width(GOOD[i + 1].field))
  {
    hide Step, RunBlock, GOOD, Sets, Compute, Under, Pow2;
    AddressSets(GOOD[i], m, prev, poison);
    GoesOn(GOOD, i, m, prev, poison, name, Pointer(Output, o));
    var a := With(m, name, Pointer(Output, o));
    StoresOn(GOOD, i + 1, a, prev, poison, o, v);
    n := Stored1(a, o, GOOD[i + 1].field, v);
  }

  const FIELDS: set<Register> := {"size", "bits_at", "valid_at"}
  const ADDRESSES: set<Register> := {"bit_length"} + FIELDS

  lemma FreshOne(env: Env, v: Value)
    requires Fresh(env, ADDRESSES)
    ensures "bit_length" !in env && Fresh(env["bit_length" := v], FIELDS)
  {
  }

  /** Both lengths and the valid bits are stored behind the address of the output. */
  lemma GoodPasses(m: Machine, length: nat, valid: nat, bits: nat, prev: Label, poison: Poisoner) returns (n: Machine)
    requires Going(m) && Given(m.env, length, valid) && Fresh(m.env, ADDRESSES) && m.stores == map[] && m.written == {}
    requires bits < WORD && (prev == "sized" || prev == "count")
    requires if prev == "sized" then bits == 0 else "sum" in m.env && m.env["sum"] == Int(bits)
    ensures RunBlock(GOOD[0..], m, Some(prev), poison) == Some(n)
    ensures n.returned && n.stores == map[0 := (PointerField, Pointer(Payload, 0)), 8 := (WordField, Int(length)),
      16 := (WordField, Int(bits)), 24 := (ByteField, Int(valid))]
  {
    var a := With(m, "bit_length", Int(bits));
    FreshOne(m.env, Int(bits));
    hide ADDRESSES, FIELDS, Fresh;
    GoodBegins(m, length, valid, bits, prev, poison);
    var b := Stored1(a, 0, PointerField, Pointer(Payload, 0));
    ExtendsOne(m.env, "bit_length", Int(bits));
    GivenExtends(m.env, a.env, {"bit_length"}, length, valid);
    assert Is(Reg("bit_length"), 64, b.env, bits) by { assert Pow2(64) == WORD by { Powers(); } }
    hide RunBlock, Step, Under, Bytes, Given, Is, Extends, Pow2, Compute, GOOD, Get;
    n := GoodStores(b, length, valid, bits, Some(prev), poison);
  }

  lemma GoodBegins(m: Machine, length: nat, valid: nat, bits: nat, prev: Label, poison: Poisoner)
    requires Going(m) && Given(m.env, length, valid) && "bit_length" !in m.env && m.written == {}
    requires bits < WORD && (prev == "sized" || prev == "count")
    requires if prev == "sized" then bits == 0 else "sum" in m.env && m.env["sum"] == Int(bits)
    ensures var b := Stored1(With(m, "bit_length", Int(bits)), 0, PointerField, Pointer(Payload, 0));
      RunBlock(GOOD[0..], m, Some(prev), poison) == RunBlock(GOOD[2..], b, Some(prev), poison) && Under(b.written, 8)
  {
    var a := With(m, "bit_length", Int(bits));
    ExtendsOne(m.env, "bit_length", Int(bits));
    GivenExtends(m.env, a.env, {"bit_length"}, length, valid);
    GivenHolds(a.env, length, valid);
    hide RunBlock, Step, Given, Is, Extends, Pow2, Compute, Sets, Bytes, Get;
    PhiBegins(m, bits, prev, poison);
    AddressStored(a, Some(prev), poison);
  }

  lemma PhiBegins(m: Machine, bits: nat, prev: Label, poison: Poisoner)
    requires Going(m) && "bit_length" !in m.env && bits < WORD && (prev == "sized" || prev == "count")
    requires if prev == "sized" then bits == 0 else "sum" in m.env && m.env["sum"] == Int(bits)
    ensures RunBlock(GOOD[0..], m, Some(prev), poison)
      == RunBlock(GOOD[1..], With(m, "bit_length", Int(bits)), Some(prev), poison)
  {
    assert Is(if prev == "sized" then IntLit(0) else Reg("sum"), 64, m.env, bits) by {
      assert Pow2(64) == WORD by { Powers(); }
    }
    hide RunBlock, Step, Is, Pow2, Compute, Sets;
    PhiSets(GOOD[0], m, Some(prev), poison, bits);
    GoesOn(GOOD, 0, m, Some(prev), poison, "bit_length", Int(bits));
  }

  lemma AddressStored(m: Machine, prev: Option<Label>, poison: Poisoner)
    requires Going(m) && m.written == {} && Get(Reg("%_0"), m.env) == Some(Pointer(Output, 0))
    requires Get(Reg("%bytes.0"), m.env) == Some(Pointer(Payload, 0))
    ensures var b := Stored1(m, 0, PointerField, Pointer(Payload, 0));
      RunBlock(GOOD[1..], m, prev, poison) == RunBlock(GOOD[2..], b, prev, poison) && Under(b.written, 8)
  {
    hide RunBlock, Step, Is, Pow2, Compute, Bytes, Get;
    StoresOn(GOOD, 1, m, prev, poison, 0, Pointer(Payload, 0));
  }
  lemma GoodStores(m: Machine, length: nat, valid: nat, bits: nat, prev: Option<Label>, poison: Poisoner)
    returns (n: Machine)
    requires Going(m) && Given(m.env, length, valid) && Fresh(m.env, FIELDS)
    requires Under(m.written, 8) && Is(Reg("bit_length"), 64, m.env, bits)
    ensures RunBlock(GOOD[2..], m, prev, poison) == Some(n) && n.returned
    ensures n.stores
      == m.stores[8 := (WordField, Int(length))][16 := (WordField, Int(bits))][24 := (ByteField, Int(valid))]
  {
    FieldsFresh(m.env, Pointer(Output, 8));
    hide Fresh, FIELDS;
    GivenHolds(m.env, length, valid);
    hide RunBlock, Step, Compute, Pow2, Given, Is, Under;
    var a := FieldStored(m, 2, "size", 8, prev, poison, Int(length));
    IsKept(Reg("bit_length"), 64, m.env, bits, "size", Pointer(Output, 8));
    ExtendsOne(m.env, "size", Pointer(Output, 8));
    GivenExtends(m.env, a.env, {"size"}, length, valid);
    hide GOOD;
    n := BitsStored(a, length, valid, bits, prev, poison);
  }

  lemma FieldsFresh(env: Env, v: Value)
    requires Fresh(env, FIELDS)
    ensures "size" !in env && "bits_at" !in env["size" := v] && "valid_at" !in env["size" := v]
  {
  }

  lemma BitsStored(m: Machine, length: nat, valid: nat, bits: nat, prev: Option<Label>, poison: Poisoner)
    returns (n: Machine)
    requires Going(m) && Given(m.env, length, valid) && "bits_at" !in m.env && "valid_at" !in m.env
    requires Under(m.written, 16) && Is(Reg("bit_length"), 64, m.env, bits)
    ensures RunBlock(GOOD[4..], m, prev, poison) == Some(n) && n.returned
    ensures n.stores == m.stores[16 := (WordField, Int(bits))][24 := (ByteField, Int(valid))]
  {
    assert "valid_at" !in m.env["bits_at" := Pointer(Output, 16)];
    GivenHolds(m.env, length, valid);
    hide RunBlock, Step, Compute, Pow2, Given, Is, Under;
    var a := FieldStored(m, 4, "bits_at", 16, prev, poison, Int(bits));
    ExtendsOne(m.env, "bits_at", Pointer(Output, 16));
    GivenExtends(m.env, a.env, {"bits_at"}, length, valid);
    hide GOOD;
    n := ValidStored(a, length, valid, prev, poison);
  }

  lemma ValidStored(m: Machine, length: nat, valid: nat, prev: Option<Label>, poison: Poisoner) returns (n: Machine)
    requires Going(m) && Given(m.env, length, valid) && "valid_at" !in m.env && Under(m.written, 24)
    ensures RunBlock(GOOD[6..], m, prev, poison) == Some(n) && n.returned
    ensures n.stores == m.stores[24 := (ByteField, Int(valid))]
  {
    GivenHolds(m.env, length, valid);
    hide RunBlock, Step, Compute, Pow2, Given, Is, Under;
    var c := FieldStored(m, 6, "valid_at", 24, prev, poison, Int(valid));
    n := c.(returned := true);
    Returns(GOOD[8], c, prev, poison);
    GoesOut(GOOD, c, n, prev, poison);
  }

  lemma IsKept(o: Operand, width: Bits, env: Env, n: int, r: Register, v: Value)
    requires Is(o, width, env, n) && r !in env
    ensures Is(o, width, env[r := v], n)
  {
  }

  lemma Jumps(line: Instr, m: Machine, prev: Option<Label>, poison: Poisoner)
    requires line.Jump? && Going(m)
    ensures Step(line, m, prev, poison) == Some(m.(next := Some(line.target)))
  {
  }

  lemma Returns(line: Instr, m: Machine, prev: Option<Label>, poison: Poisoner)
    requires line.Return? && Going(m)
    ensures Step(line, m, prev, poison) == Some(m.(returned := true))
  {
  }

  /** An error code behind, and then null in front. */
  lemma ErrorPasses(body: seq<Instr>, m: Machine, length: nat, valid: nat, code: nat, prev: Option<Label>,
      poison: Poisoner) returns (n: Machine)
    requires body == [Gep("code", "%_0", 8), Store(ByteField, IntLit(code), "code"), Jump("null")]
    requires Going(m) && Given(m.env, length, valid) && "code" !in m.env && m.written == {} && code < 256
    ensures RunBlock(body[0..], m, prev, poison) == Some(n)
    ensures n == m.(env := n.env, stores := m.stores[8 := (ByteField, Int(code))], written := {} + Bytes(8, 1),
                    next := Some("null"))
    ensures Get(Reg("%_0"), n.env) == Some(Pointer(Output, 0))
  {
    var a := With(m, "code", Pointer(Output, 8));
    GivenHolds(m.env, length, valid);
    assert Get(Reg("code"), a.env) == Some(Pointer(Output, 8));
    assert Get(Reg("%_0"), a.env) == Some(Pointer(Output, 0));
    AddressSets(body[0], m, prev, poison);
    hide RunBlock, Given, Sets, Bytes, Get, Step;
    GoesOn(body, 0, m, prev, poison, "code", Pointer(Output, 8));
    n := CodeStored(body, a, code, prev, poison);
  }

  lemma CodeStored(body: seq<Instr>, m: Machine, code: nat, prev: Option<Label>, poison: Poisoner) returns (n: Machine)
    requires |body| == 3 && body[1] == Store(ByteField, IntLit(code), "code") && body[2] == Jump("null")
    requires Going(m) && Get(Reg("code"), m.env) == Some(Pointer(Output, 8)) && m.written == {} && code < 256
    ensures RunBlock(body[1..], m, prev, poison) == Some(n)
    ensures n == m.(stores := m.stores[8 := (ByteField, Int(code))], written := {} + Bytes(8, 1), next := Some("null"))
  {
    assert Is(IntLit(code), 8, m.env, code) by { assert Pow2(8) == 256 by { Powers(); } }
    var b := Stored1(m, 8, ByteField, Int(code));
    n := b.(next := Some("null"));
    assert Under({}, 8);
    hide RunBlock, Compute, Pow2, Is, Bytes, Step, Under, Get;
    StoresOn(body, 1, m, prev, poison, 8, Int(code));
    Jumps(body[2], b, prev, poison);
    GoesOut(body, b, n, prev, poison);
  }

  lemma NullPasses(m: Machine, prev: Option<Label>, poison: Poisoner) returns (n: Machine)
    requires Going(m) && m.written == {} + Bytes(8, 1) && Get(Reg("%_0"), m.env) == Some(Pointer(Output, 0))
    ensures RunBlock(NULL[0..], m, prev, poison) == Some(n) && n.returned
    ensures n.stores == m.stores[0 := (PointerField, Null)]
  {
    var a := Stored1(m, 0, PointerField, Null);
    n := a.(returned := true);
    assert Bytes(0, 8) !! m.written;
    hide RunBlock, Compute, Pow2, Bytes;
    Stores(NULL[0], m, prev, poison, 0, Null);
    Goes(NULL, 0, m, a, prev, poison);
    GoesOut(NULL, a, n, prev, poison);
  }

  // ---------- the whole body ----------

  lemma RunsOn(program: Program, at: Label, prev: Option<Label>, visited: set<Label>, m: Machine, n: Machine,
      poison: Poisoner)
    requires at in program && at !in visited && RunBlock(program[at][0..], m, prev, poison) == Some(n) && !n.returned
    requires n.next.Some?
    ensures RunFrom(program, at, prev, visited, m, poison)
      == RunFrom(program, n.next.value, Some(at), visited + {at}, n.(next := None), poison)
  {
    assert program[at][0..] == program[at];
    Shrinks(program.Keys, visited, at);
    hide RunBlock;
  }

  lemma RunsOut(program: Program, at: Label, prev: Option<Label>, visited: set<Label>, m: Machine, n: Machine,
      poison: Poisoner)
    requires at in program && at !in visited && RunBlock(program[at][0..], m, prev, poison) == Some(n) && n.returned
    ensures RunFrom(program, at, prev, visited, m, poison) == Done(n.stores, visited + {at})
  {
    assert program[at][0..] == program[at];
    hide RunBlock;
  }

  lemma Blocks()
    ensures var p := Body();
      && "start" in p && p["start"] == SHAPE && "sized" in p && p["sized"] == SIZED && "whole" in p
      && p["whole"] == WHOLE && "count" in p && p["count"] == COUNT && "good" in p && p["good"] == GOOD
      && "bad" in p && p["bad"] == BAD && "over" in p && p["over"] == OVER && "null" in p && p["null"] == NULL
  {
  }

  /** What a machine with nothing stored is done with. */
  ghost predicate Ends(at: Label, prev: Option<Label>, visited: set<Label>, m: Machine, poison: Poisoner, r: Stores) {
    var o := RunFrom(Body(), at, prev, visited, m, poison);
    o.Done? && o.stores == r
  }

  lemma EndsOn(at: Label, prev: Option<Label>, visited: set<Label>, m: Machine, n: Machine, poison: Poisoner, r: Stores)
    requires at in Body() && at !in visited && RunBlock(Body()[at][0..], m, prev, poison) == Some(n) && !n.returned
    requires n.next.Some? && Ends(n.next.value, Some(at), visited + {at}, n.(next := None), poison, r)
    ensures Ends(at, prev, visited, m, poison, r)
  {
    hide RunBlock, RunFrom, Body;
    RunsOn(Body(), at, prev, visited, m, n, poison);
  }

  lemma ErrorEnds(at: Label, m: Machine, length: nat, valid: nat, prev: Option<Label>, visited: set<Label>,
      poison: Poisoner)
    requires at in {"bad", "over"} && at !in visited && "null" !in visited
    requires Going(m) && Given(m.env, length, valid) && "code" !in m.env && m.written == {} && m.stores == map[]
    ensures Ends(at, prev, visited, m, poison,
      map[0 := (PointerField, Null), 8 := (ByteField, Int(if at == "bad" then 0 else 2))])
  {
    Blocks();
    hide RunBlock, RunFrom, Given, Body;
    var code := if at == "bad" then 0 else 2;
    var n := ErrorPasses(if at == "bad" then BAD else OVER, m, length, valid, code, prev, poison);
    RunsOn(Body(), at, prev, visited, m, n, poison);
    var q := NullPasses(n.(next := None), Some(at), poison);
    RunsOut(Body(), "null", Some(at), visited + {at}, n.(next := None), q, poison);
  }

  lemma FreshExtends(a: Env, b: Env, added: set<Register>, names: set<Register>)
    requires Extends(a, b, added) && Fresh(a, names) && names !! added
    ensures Fresh(b, names)
  {
  }

  /** The argument registers are set, the others of the body are not, and nothing is stored. */
  ghost predicate Ready(m: Machine, length: nat, valid: nat, names: set<Register>) {
    Going(m) && Given(m.env, length, valid) && Fresh(m.env, names) && m.stores == map[] && m.written == {}
  }

  const LAST: set<Register> := {"code"} + ADDRESSES

  lemma LastNames()
    ensures "code" in LAST && ADDRESSES <= LAST && LAST !! COUNTS && LAST !! WHOLES && LAST !! CHECKED
    ensures COUNTS !! WHOLES && COUNTS !! CHECKED && WHOLES !! CHECKED
  {
  }

  lemma ReadyOn(m: Machine, n: Machine, length: nat, valid: nat, added: set<Register>, names: set<Register>)
    requires Ready(m, length, valid, added + names) && Extends(m.env, n.env, added) && added !! names
    requires n == m.(env := n.env, next := n.next)
    ensures Ready(n.(next := None), length, valid, names)
  {
    assert Fresh(m.env, added) && Fresh(m.env, names);
    hide Fresh, Extends;
    GivenExtends(m.env, n.env, added, length, valid);
    FreshExtends(m.env, n.env, added, names);
  }

  lemma GoodEnds(m: Machine, length: nat, valid: nat, prev: Label, visited: set<Label>, poison: Poisoner)
    requires Ready(m, length, valid, LAST) && ShapeHolds(length, valid) && BitLength(length, valid) < WORD
    requires "good" !in visited && prev == if length == 0 then "sized" else "count"
    requires length > 0 ==> "sum" in m.env && m.env["sum"] == Int(BitLength(length, valid))
    ensures Ends("good", Some(prev), visited, m, poison, Contract(length, valid))
  {
    Blocks();
    LastNames();
    assert Fresh(m.env, ADDRESSES);
    hide RunBlock, RunFrom, Given, Body, Fresh, LAST, ADDRESSES;
    var n := GoodPasses(m, length, valid, BitLength(length, valid), prev, poison);
    RunsOut(Body(), "good", Some(prev), visited, m, n, poison);
  }

  lemma OverEnds(m: Machine, length: nat, valid: nat, prev: Label, visited: set<Label>, poison: Poisoner)
    requires Ready(m, length, valid, LAST) && ShapeHolds(length, valid) && BitLength(length, valid) >= WORD
    requires "over" !in visited && "null" !in visited
    ensures Ends("over", Some(prev), visited, m, poison, Contract(length, valid))
  {
    LastNames();
    assert "code" !in m.env;
    ErrorEnds("over", m, length, valid, Some(prev), visited, poison);
  }

  lemma WholeHolds(env: Env, complete: nat)
    requires "whole_bytes" in env && env["whole_bytes"] == Int(complete) && complete < HALF
    ensures Is(Reg("whole_bytes"), 64, env, complete)
  {
    assert Pow2(64) == WORD by { Powers(); }
  }
  lemma ReadyHolds(m: Machine, length: nat, valid: nat, a: set<Register>, b: set<Register>)
    requires Ready(m, length, valid, a + b)
    ensures Going(m) && Fresh(m.env, a) && Is(Reg("%valid_bits_in_last_byte"), 8, m.env, valid)
    ensures Is(Reg("%bytes.1"), 64, m.env, length) && length < HALF
  {
    GivenHolds(m.env, length, valid);
    FreshFewer(m.env, a, b);
  }

  lemma CountForks(m: Machine, length: nat, valid: nat, seen: set<Label>, poison: Poisoner)
    requires Ready(m, length, valid, LAST) && length > 0 && ShapeHolds(length, valid)
    requires BitLength(length, valid) < WORD ==> "sum" in m.env && m.env["sum"] == Int(BitLength(length, valid))
    requires "good" !in seen && "over" !in seen && "null" !in seen
    ensures Ends(if BitLength(length, valid) >= WORD then "over" else "good", Some("count"), seen, m, poison,
                 Contract(length, valid))
  {
    hide Ends, Contract, ShapeHolds, BitLength, Ready, LAST;
    if BitLength(length, valid) >= WORD {
      OverEnds(m, length, valid, "count", seen, poison);
    } else {
      GoodEnds(m, length, valid, "count", seen, poison);
    }
  }

  lemma CountLeads(m: Machine, length: nat, complete: nat, bits: nat, valid: nat, visited: set<Label>,
      poison: Poisoner)
    requires Ready(m, length, valid, COUNTS + LAST) && length > 0 && ShapeHolds(length, valid)
    requires "whole_bytes" in m.env && m.env["whole_bytes"] == Int(complete) && complete <= 0x1fff_ffff_ffff_ffff
    requires bits == 8 * complete && bits + valid == BitLength(length, valid)
    requires "count" !in visited && "good" !in visited && "over" !in visited && "null" !in visited
    ensures Ends("count", Some("whole"), visited, m, poison, Contract(length, valid))
  {
    WholeHolds(m.env, complete);
    hide RunBlock, RunFrom, LAST, COUNTS, Is, Extends, Contract, ShapeHolds, BitLength, Ends, Get, Pow2, Ready, Body;
    ReadyHolds(m, length, valid, COUNTS, LAST);
    var n := CountPasses(m, complete, bits, valid, poison);
    LastNames();
    ReadyOn(m, n, length, valid, COUNTS, LAST);
    CountForks(n.(next := None), length, valid, visited + {"count"}, poison);
    Blocks();
    EndsOn("count", Some("whole"), visited, m, n, poison, Contract(length, valid));
  }
  lemma WholeLeads(m: Machine, length: nat, valid: nat, visited: set<Label>, poison: Poisoner)
    requires Ready(m, length, valid, WHOLES + (COUNTS + LAST)) && length > 0 && ShapeHolds(length, valid)
    requires "whole" !in visited && "count" !in visited && "good" !in visited && "over" !in visited
    requires "null" !in visited
    ensures Ends("whole", Some("sized"), visited, m, poison, Contract(length, valid))
  {
    Blocks();
    LastNames();
    GivenHolds(m.env, length, valid);
    GivenSmall(m.env, length, valid);
    assert Fresh(m.env, WHOLES);
    assert 8 * (length - 1) + valid == BitLength(length, valid);
    var seen := visited + {"whole"};
    assert "count" !in seen && "good" !in seen && "over" !in seen && "null" !in seen;
    assert length - 1 > 0x1fff_ffff_ffff_ffff ==> BitLength(length, valid) >= WORD;
    hide RunBlock, RunFrom, Given, Body, Fresh, LAST, COUNTS, WHOLES, Is, Extends, Contract, ShapeHolds, BitLength;
    var n := WholePasses(m, length, poison);
    RunsOn(Body(), "whole", Some("sized"), visited, m, n, poison);
    ReadyOn(m, n, length, valid, WHOLES, COUNTS + LAST);
    if length - 1 > 0x1fff_ffff_ffff_ffff {
      assert Ready(n.(next := None), length, valid, LAST) by { FreshFewer(n.env, COUNTS, LAST); }
      hide Ready;
      OverEnds(n.(next := None), length, valid, "whole", seen, poison);
    } else {
      hide Ready;
      CountLeads(n.(next := None), length, length - 1, 8 * (length - 1), valid, seen, poison);
    }
  }

  lemma FreshFewer(env: Env, a: set<Register>, b: set<Register>)
    requires Fresh(env, a + b)
    ensures Fresh(env, a) && Fresh(env, b)
  {
  }

  lemma ArgumentsFresh(length: nat, valid: nat, names: set<Register>)
    requires names == CHECKED || names == WHOLES || names == COUNTS || names == LAST
    ensures Fresh(Arguments(length, valid), names)
  {
    if names == CHECKED { hide WHOLES, COUNTS, LAST; }
    else if names == WHOLES { hide CHECKED, COUNTS, LAST; }
    else if names == COUNTS { hide CHECKED, WHOLES, LAST; }
    else { hide CHECKED, WHOLES, COUNTS; }
  }

  lemma ArgumentsReady(length: nat, valid: nat)
    requires length < HALF && valid < 256
    ensures Ready(Machine(Arguments(length, valid), map[], {}, None, false), length, valid,
                  CHECKED + (WHOLES + (COUNTS + LAST)))
  {
    var env := Arguments(length, valid);
    assert Given(env, length, valid);
    ArgumentsFresh(length, valid, CHECKED);
    ArgumentsFresh(length, valid, WHOLES);
    ArgumentsFresh(length, valid, COUNTS);
    ArgumentsFresh(length, valid, LAST);
    hide CHECKED, WHOLES, COUNTS, LAST, Arguments, Given, Fresh;
    FreshMore(env, COUNTS, LAST);
    FreshMore(env, WHOLES, COUNTS + LAST);
    FreshMore(env, CHECKED, WHOLES + (COUNTS + LAST));
  }

  lemma FreshMore(env: Env, a: set<Register>, b: set<Register>)
    requires Fresh(env, a) && Fresh(env, b)
    ensures Fresh(env, a + b)
  {
  }
 lemma SizedLeads(m: Machine, length: nat, valid: nat, poison: Poisoner)
    requires Ready(m, length, valid, WHOLES + (COUNTS + LAST)) && ShapeHolds(length, valid)
    requires "empty" in m.env && m.env["empty"] == Bool(length == 0)
    ensures Ends("sized", Some("start"), {"start"}, m, poison, Contract(length, valid))
  {
    Blocks();
    SizedPasses(m, length == 0, poison);
    assert SIZED[0..] == SIZED;
    var n := m.(next := Some(if length == 0 then "good" else "whole"));
    var seen := {"start"} + {"sized"};
    assert "good" !in seen && "whole" !in seen && "count" !in seen && "over" !in seen && "null" !in seen;
    assert length == 0 ==> BitLength(length, valid) < WORD;
    hide RunBlock, RunFrom, Given, Body, Fresh, LAST, COUNTS, WHOLES, Is, Extends, Contract, ShapeHolds, BitLength;
    RunsOn(Body(), "sized", Some("start"), {"start"}, m, n, poison);
    assert n.(next := None) == m;
    if length == 0 {
      FreshFewer(m.env, WHOLES, COUNTS + LAST);
      FreshFewer(m.env, COUNTS, LAST);
      GoodEnds(m, length, valid, "sized", seen, poison);
    } else {
      WholeLeads(m, length, valid, seen, poison);
    }
  }

  /** For every length that a slice can have and every valid-bit count, whatever stands for poison,
      the interpreter leaves exactly the result of the contract. */
  lemma ConstructorMeetsContract(length: nat, valid: nat, poison: Register -> Value)
    requires length < HALF && valid < 256
    ensures var r := Run(Body(), length, valid, poison); r.Done? && r.stores == Contract(length, valid)
  {
    var m := Machine(Arguments(length, valid), map[], {}, None, false);
    ArgumentsReady(length, valid);
    Blocks();
    LastNames();
    assert SHAPE[0..] == SHAPE;
    hide RunBlock, RunFrom, Given, Body, LAST, COUNTS, WHOLES, CHECKED, Extends, ShapeHolds, BitLength, Arguments;
    FreshFewer(m.env, CHECKED, WHOLES + (COUNTS + LAST));
    hide Fresh;
    var n := ShapePasses(m, length, valid, poison);
    RunsOn(Body(), "start", None, {}, m, n, poison);
    ReadyOn(m, n, length, valid, CHECKED, WHOLES + (COUNTS + LAST));
    var q := n.(next := None);
    assert {} + {"start"} == {"start"};
    if ShapeHolds(length, valid) {
      SizedLeads(q, length, valid, poison);
    } else {
      FreshFewer(q.env, WHOLES, COUNTS + LAST);
      FreshFewer(q.env, COUNTS, LAST);
      assert "code" !in q.env by { CodeFresh(q.env); }
      ErrorEnds("bad", q, length, valid, Some("start"), {"start"}, poison);
    }
  }

  lemma CodeFresh(env: Env)
    requires Fresh(env, LAST)
    ensures "code" !in env
  {
  }
}
