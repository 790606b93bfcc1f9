/** Which walks the walker accepts, in terms of runs alone: those whose runs keep to the reviewed
    lines and places, come back to no block, and end with everything requested and the right exit. */
module StagingExact {
  import opened Options
  import opened ControlGraph
  import opened StagingWalk
  import opened StagingRuns
  import opened StagingSafety

  // ---------- what the source demands of a run ----------

  /** A run that begins with the registers that the walk is given and no others, and with nothing
      in memory but the initialization. */
  ghost predicate BareRun(v: Review, b: Begin, run: seq<Config>) {
    RunsFrom(v, b, run) && run[0].regs.Keys == b.env.Keys && run[0].heap.Keys == {(Initialization, 0)}
  }

  predicate NeverReturns(v: Review, l: Label) {
    l in v.blocks && v.blocks[l] != [] && v.blocks[l][|v.blocks[l]| - 1] == Unreachable
  }

  /** The request of a call is for one of the original regions; a guard's is for an incomplete
      operation, and its own definition has been validated. */
  ghost predicate Original(v: Review, callee: Callee, regs: Env) {
    && Asks(callee, regs).Some? && Asks(callee, regs).value != {}
    && Asks(callee, regs).value <= {Clear(864, 168), Clear(1056, 2), Wipe(624, 234), Drop}
    && (callee.DropGuard? ==> callee.incomplete && v.guard)
  }

  /** A phi of distinct predecessors has an operand for the one that the run came from. */
  ghost predicate Selects(arms: seq<(Operand, Label)>, prev: Option<Label>, entry: Env) {
    && (forall j, k :: 0 <= j < k < |arms| ==> arms[j].1 != arms[k].1)
    && exists j :: 0 <= j < |arms| && prev == Some(arms[j].1) && Look(arms[j].0, entry).Some?
  }

  /** Line i is one of the reviewed ones: its operands are there and of the right kind, it addresses
      the reviewed places, only the last line leaves the block, and only a call that unwinds goes
      into a block that panics inside a cleanup. */
  ghost predicate Reviewed(v: Review, body: seq<Instr>, i: nat, entry: Env, c: Config)
    requires i < |body|
  {
    match body[i]
    case Phi(_, arms) => Selects(arms, c.prev, entry)
    case Gep(_, base, offset) =>
      var b, o := Look(Reg(base), c.regs), Look(offset, c.regs);
      b.Some? && b.value.Address? && o.Some? && o.value.Num?
    case LoadPresence(_, ptr) => Look(Reg(ptr), c.regs) == Some(Address((Initialization, 0)))
    case Store(bits, value, ptr) =>
      var a := Look(Reg(ptr), c.regs);
      && (bits == 8 || bits == 64) && Look(value, c.regs).Some?
      && a in {Some(Address((Result, 0))), Some(Address((Result, 8))), Some(Address((Storage, 859))),
               Some(Address((Storage, 616)))}
    case Compare(_, _, left, _) => Look(Reg(left), c.regs).Some? && !Look(Reg(left), c.regs).value.Payload?
    case Truncate(_, src) => Look(Reg(src), c.regs).Some? && Look(Reg(src), c.regs).value.Num?
    case LandingPad(_) => true
    case Marker => true
    case Call(callee, edges) =>
      && Original(v, callee, c.regs)
      && (edges.Some? ==>
            i + 1 == |body| && !Aborts(v, edges.value.0)
            && (Aborts(v, edges.value.1) ==> NeverReturns(v, edges.value.1)))
    case Jump(target) => i + 1 == |body| && !Aborts(v, target)
    case Branch(condition, yes, no) =>
      var x := Look(Reg(condition), c.regs);
      i + 1 == |body| && x.Some? && x.value.Num? && !Aborts(v, if x.value.n != 0 then yes else no)
    case Return => i + 1 == |body|
    case Resume => i + 1 == |body|
    case _ => false
  }

  /** An exit: everything required has been requested, an error is still one, an unwind resumes. */
  ghost predicate ExitsRight(v: Review, c: Config, returned: bool) {
    && v.required <= c.asked
    && (v.exit == ErrorExit && returned ==> (Result, 0) in c.heap && c.heap[(Result, 0)] == (64, Num(2)))
    && (v.exit == UnwindExit ==> !returned)
  }

  ghost predicate LinesLawful(v: Review, body: seq<Instr>, i: nat, entry: Env, c: Config, payload: int)
    requires i <= |body|
    decreases |body| - i
  {
    && i < |body| && Reviewed(v, body, i, entry, c)
    && (body[i] == Return || body[i] == Resume ==> ExitsRight(v, c, body[i] == Return))
    && (Execute(body, i, entry, c, payload).Steps? ==>
          LinesLawful(v, body, i + 1, entry, Execute(body, i, entry, c, payload).c, payload))
  }

  /** A run that has come to a block for the first time, and what it does there. */
  ghost predicate BlockLawful(v: Review, run: seq<Config>, payload: int)
    requires |run| > 0
  {
    var c := run[|run| - 1];
    && c.at in v.blocks && (forall i :: 0 <= i < |run| - 1 ==> run[i].at != c.at)
    && LinesLawful(v, v.blocks[c.at], 0, c.regs, c, payload)
  }

  ghost predicate Lawful(v: Review, b: Begin) {
    && !Aborts(v, b.start)
    && forall run: seq<Config>, payload :: BareRun(v, b, run) && !Aborts(v, run[|run| - 1].at) ==>
         BlockLawful(v, run, payload)
  }

  // ---------- one line ----------

  /** The walk and the run know the same registers, and the walk knows of every result that the run
      has stored. */
  ghost predicate Bare(p: Path, c: Config) {
    p.env.Keys == c.regs.Keys && ((Result, 0) in c.heap ==> (Result, 0) in p.memory)
  }

  lemma {:induction false} PickFinds(arms: seq<(Operand, Label)>, prev: Label, j: nat)
    requires j < |arms| && arms[j].1 == prev && forall i, k :: 0 <= i < k < |arms| ==> arms[i].1 != arms[k].1
    ensures Pick(arms, prev) == Some(arms[j].0)
  {
    if j > 0 {
      assert arms[0].1 != prev;
      PickFinds(arms[1..], prev, j - 1);
    }
  }

  lemma SelectsExactly(arms: seq<(Operand, Label)>, prev: Option<Label>, entry: Env)
    ensures Selects(arms, prev, entry) <==> Select(arms, prev).Some? && Look(Select(arms, prev).value, entry).Some?
  {
    hide Look;
    if Selects(arms, prev, entry) {
      var j :| 0 <= j < |arms| && prev == Some(arms[j].1) && Look(arms[j].0, entry).Some?;
      PickFinds(arms, prev.value, j);
    }
  }

  lemma LookBare(o: Operand, p: Path, s: Staging, c: Config)
    requires Mirrors(p, s, c)
    ensures Look(o, p.env).Some? ==> Look(o, c.regs).Some?
    ensures Bare(p, c) && Look(o, c.regs).Some? ==> Look(o, p.env).Some?
    ensures Look(o, p.env).Some? ==> Agrees(Look(o, p.env).value, Look(o, c.regs).value)
  {
    if Look(o, p.env).Some? { LookMirrors(p, s, c, o); }
  }

  lemma OriginalExactly(v: Review, callee: Callee, p: Path, s: Staging, c: Config)
    requires Mirrors(p, s, c)
    ensures Bare(p, c) && Original(v, callee, c.regs) ==> Requests(v, callee, p.env).Some?
    ensures Requests(v, callee, p.env).Some? ==> Original(v, callee, c.regs)
  {
    if Requests(v, callee, p.env).Some? {
      MirrorsKnown(p, s, c);
      AsksRequests(v, callee, p.env, c.regs);
    }
    hide Mirrors, Bare, Look;
    match callee {
      case ClearRegion(ptr, width) =>
        LookBare(ptr, p, s, c);
        LookBare(width, p, s, c);
      case WipeMemory(ptr) => LookBare(ptr, p, s, c);
      case DropInitialization(ptr) => LookBare(ptr, p, s, c);
      case DropGuard(ptr, _) => LookBare(ptr, p, s, c);
      case OtherCallee =>
    }
  }

  lemma PhiExactly(v: Review, body: seq<Instr>, i: nat, e: Env, entry: Env, p: Path, c: Config)
    requires i < |body| && body[i].Phi? && p.prev == c.prev && Known(e, entry)
    requires PhiLinesHold(v, body, i, |body|, e, p)
    ensures !Line(v, body, i, p).Fails? ==> Reviewed(v, body, i, entry, c)
    ensures e.Keys == entry.Keys && Reviewed(v, body, i, entry, c) ==> !Line(v, body, i, p).Fails?
  {
    SelectsExactly(body[i].arms, c.prev, entry);
    hide Select, Selects;
    if Select(body[i].arms, p.prev).Some? {
      var o := Select(body[i].arms, p.prev).value;
      if Look(o, e).Some? { LookKnown(o, e, entry); }
    }
  }

  lemma CallExactly(v: Review, body: seq<Instr>, i: nat, entry: Env, p: Path, s: Staging, c: Config)
    requires i < |body| && body[i].Call? && Mirrors(p, s, c)
    ensures var o := Line(v, body, i, p);
      && (Bare(p, c) && Reviewed(v, body, i, entry, c) ==> !o.Fails?)
      && (o.Forks? && Reviewed(v, body, i, entry, c) ==> forall q :: q in o.paths ==> !Aborts(v, q.at))
      && (!o.Fails? && (o.Forks? ==> forall q :: q in o.paths ==> !Aborts(v, q.at)) ==> Reviewed(v, body, i, entry, c))
  {
    OriginalExactly(v, body[i].callee, p, s, c);
    hide Mirrors, Bare, Original, Requests;
    var o, edges := Line(v, body, i, p), body[i].edges;
    if edges.Some? && Aborts(v, edges.value.1) { assert v.blocks[edges.value.1] != []; }
    if o.Forks? {
      assert o.paths[0] in o.paths && o.paths[|o.paths| - 1] in o.paths;
      hide Aborts;
    }
  }

  lemma ExitExactly(v: Review, p: Path, s: Staging, c: Config, returned: bool)
    requires Mirrors(p, s, c)
    ensures EndsWell(v, p, returned) ==> ExitsRight(v, c, returned)
    ensures Bare(p, c) && ExitsRight(v, c, returned) ==> EndsWell(v, p, returned)
  {
    hide Known;
  }

  /** One line: what the source demands of a run there is what the walk checks. */
  lemma LineExactly(v: Review, body: seq<Instr>, i: nat, e: Env, entry: Env, p: Path, s: Staging, c: Config)
    requires i < |body| && Mirrors(p, s, c) && Known(e, entry)
    requires PhiLinesHold(v, body, i, |body|, e, p) && NumericLines(v, body, i, p)
    ensures var o := Line(v, body, i, p);
      var ok := Reviewed(v, body, i, entry, c)
        && (body[i] == Return || body[i] == Resume ==> ExitsRight(v, c, body[i] == Return));
      && (ok && Bare(p, c) && e.Keys == entry.Keys ==> !o.Fails?)
      && (ok && o.Forks? ==> forall q :: q in o.paths ==> !Aborts(v, q.at))
      && (!o.Fails? && (o.Forks? ==> forall q :: q in o.paths ==> !Aborts(v, q.at)) ==> ok)
  {
    MirrorsKnown(p, s, c);
    hide Mirrors, Bare, Known, Original, Selects, Requests, Asks, Select, EndsWell, ExitsRight;
    match body[i] {
      case Phi(_, _) => PhiExactly(v, body, i, e, entry, p, c);
      case Call(_, _) => CallExactly(v, body, i, entry, p, s, c);
      case Return => ExitExactly(v, p, s, c, true);
      case Resume => ExitExactly(v, p, s, c, false);
      case Jump(_) => JumpExactly(v, body, i, entry, p, s, c);
      case Branch(_, _, _) => JumpExactly(v, body, i, entry, p, s, c);
      case _ => PlainExactly(v, body, i, entry, p, s, c);
    }
  }

  lemma JumpExactly(v: Review, body: seq<Instr>, i: nat, entry: Env, p: Path, s: Staging, c: Config)
    requires i < |body| && (body[i].Jump? || body[i].Branch?) && Mirrors(p, s, c) && NumericLines(v, body, i, p)
    ensures var o := Line(v, body, i, p);
      && (Bare(p, c) && Reviewed(v, body, i, entry, c) ==> !o.Fails?)
      && (o.Forks? && Reviewed(v, body, i, entry, c) ==> forall q :: q in o.paths ==> !Aborts(v, q.at))
      && (o.Forks? && (forall q :: q in o.paths ==> !Aborts(v, q.at)) ==> Reviewed(v, body, i, entry, c))
      && !o.Continues? && !o.Ends?
  {
    hide Mirrors, Bare, Aborts, Look;
    if body[i].Branch? { LookBare(Reg(body[i].condition), p, s, c); }
    OneFork(v, body, i, p);
  }

  lemma OneFork(v: Review, body: seq<Instr>, i: nat, p: Path)
    requires i < |body| && (body[i].Jump? || body[i].Branch?)
    ensures Line(v, body, i, p).Forks? ==> Line(v, body, i, p).paths[0] in Line(v, body, i, p).paths
  {
  }

  lemma PlainExactly(v: Review, body: seq<Instr>, i: nat, entry: Env, p: Path, s: Staging, c: Config)
    requires i < |body| && Mirrors(p, s, c)
    requires !body[i].Phi? && !body[i].Call? && !body[i].Return? && !body[i].Resume?
    requires !body[i].Jump? && !body[i].Branch?
    ensures !Line(v, body, i, p).Fails? ==> Reviewed(v, body, i, entry, c)
    ensures Bare(p, c) && Reviewed(v, body, i, entry, c) ==> !Line(v, body, i, p).Fails?
  {
    hide Mirrors, Bare, Look;
    match body[i] {
      case Gep(_, base, offset) =>
        LookBare(Reg(base), p, s, c);
        LookBare(offset, p, s, c);
      case LoadPresence(_, ptr) => LookBare(Reg(ptr), p, s, c);
      case Store(_, value, ptr) =>
        LookBare(value, p, s, c);
        LookBare(Reg(ptr), p, s, c);
      case Compare(_, _, left, _) => LookBare(Reg(left), p, s, c);
      case Truncate(_, src) => LookBare(Reg(src), p, s, c);
      case _ =>
    }
  }

  // ---------- one block ----------

  lemma LineBareOn(v: Review, body: seq<Instr>, i: nat, entry: Env, p: Path, c: Config, payload: int)
    requires i < |body| && Bare(p, c) && Line(v, body, i, p).Continues? && Execute(body, i, entry, c, payload).Steps?
    requires forall o :: Look(o, p.env).Some? && Look(o, p.env).value.Address? ==> Look(o, c.regs) == Look(o, p.env)
    ensures Bare(Line(v, body, i, p).path, Execute(body, i, entry, c, payload).c)
  {
    LineTargets(v, body, i, p);
    RunTargets(body, i, entry, c, payload);
    LineStores(v, body, i, entry, p, c, payload);
    hide Line, Execute, Look;
    var q, d := Line(v, body, i, p).path, Execute(body, i, entry, c, payload).c;
    forall r ensures r in q.env.Keys <==> r in d.regs.Keys {
      assert r in p.env.Keys <==> r in c.regs.Keys;
    }
  }

  /** Only a store changes memory, and at the same place on both sides. */
  lemma LineStores(v: Review, body: seq<Instr>, i: nat, entry: Env, p: Path, c: Config, payload: int)
    requires i < |body| && Line(v, body, i, p).Continues? && Execute(body, i, entry, c, payload).Steps?
    requires forall o :: Look(o, p.env).Some? && Look(o, p.env).value.Address? ==> Look(o, c.regs) == Look(o, p.env)
    requires (Result, 0) in c.heap ==> (Result, 0) in p.memory
    ensures (Result, 0) in Execute(body, i, entry, c, payload).c.heap ==> (Result, 0) in Line(v, body, i, p).path.memory
  {
    hide Requests, Asks, ClearedBytes, Select, Look;
    if body[i].Store? {
      assert Look(Reg(body[i].ptr), c.regs) == Look(Reg(body[i].ptr), p.env);
    }
  }

  lemma LineBareOut(v: Review, body: seq<Instr>, i: nat, entry: Env, p: Path, c: Config, payload: int)
    requires i < |body| && Bare(p, c) && Line(v, body, i, p).Forks? && Execute(body, i, entry, c, payload).Leaves?
    ensures var o, r := Line(v, body, i, p), Execute(body, i, entry, c, payload);
      forall k :: 0 <= k < |o.paths| && k < |r.next| ==> Bare(o.paths[k], r.next[k])
  {
    hide Requests, Asks, ClearedBytes, Select, Look, Aborts;
  }

  lemma AddressesKnown(p: Path, s: Staging, c: Config)
    requires Mirrors(p, s, c)
    ensures forall o :: Look(o, p.env).Some? && Look(o, p.env).value.Address? ==> Look(o, c.regs) == Look(o, p.env)
  {
    MirrorsKnown(p, s, c);
  }

  /** From line i on, what the source demands of a run is what the walk checks. */
  lemma {:induction false} LinesExactly(v: Review, body: seq<Instr>, i: nat, e: Env, entry: Env, p: Path, s: Staging,
      c: Config, payload: int)
    requires i <= |body| && Mirrors(p, s, c) && Known(e, entry)
    requires PhiLinesHold(v, body, i, |body|, e, p) && NumericLines(v, body, i, p)
    ensures var o := Lines(v, body, i, p);
      && (LinesLawful(v, body, i, entry, c, payload) && Bare(p, c) && e.Keys == entry.Keys ==> !o.Fails?)
      && (LinesLawful(v, body, i, entry, c, payload) && o.Forks? ==> forall q :: q in o.paths ==> !Aborts(v, q.at))
      && (!o.Fails? && (o.Forks? ==> forall q :: q in o.paths ==> !Aborts(v, q.at)) ==>
            LinesLawful(v, body, i, entry, c, payload))
    ensures var o, r := Lines(v, body, i, p), ExecuteFrom(body, i, entry, c, payload);
      o.Forks? && r.Leaves? && Bare(p, c) ==>
        forall k :: 0 <= k < |o.paths| && k < |r.next| ==> Bare(o.paths[k], r.next[k])
    decreases |body| - i
  {
    hide Line, Execute, Mirrors, Known, Track, Bare, Reviewed, ExitsRight, Aborts, Look;
    if i < |body| {
      var o, r := Line(v, body, i, p), Execute(body, i, entry, c, payload);
      LineExactly(v, body, i, e, entry, p, s, c);
      if o.Continues? {
        LineContinues(v, body, i, |body|, e, entry, p, s, c, payload, true);
        AddressesKnown(p, s, c);
        if Bare(p, c) { LineBareOn(v, body, i, entry, p, c, payload); }
        LinesExactly(v, body, i + 1, e, entry, o.path, Track(v, body[i], p, s, true), r.c, payload);
      } else {
        if o.Forks? { NoStep(v, body, i, entry, p, c, payload); }
        if o.Ends? { NoStep(v, body, i, entry, p, c, payload); }
        if o.Forks? && r.Leaves? && Bare(p, c) { LineBareOut(v, body, i, entry, p, c, payload); }
      }
    }
  }

  lemma NoStep(v: Review, body: seq<Instr>, i: nat, entry: Env, p: Path, c: Config, payload: int)
    requires i < |body| && (Line(v, body, i, p).Forks? || Line(v, body, i, p).Ends?)
    ensures !Execute(body, i, entry, c, payload).Steps?
  {
    hide Requests, Asks, ClearedBytes, Select, Look, Aborts;
  }

  lemma BlockExactly(v: Review, p: Path, s: Staging, c: Config, payload: int)
    requires Mirrors(p, s, c) && PhisHold(v, p) && Numeric(v, p) && p.at in v.blocks && p.at !in p.history
    ensures var o, r := Visit(v, p), Block(v, c, payload);
      && (LinesLawful(v, v.blocks[p.at], 0, c.regs, c, payload) && Bare(p, c) ==> !o.Fails?)
      && (LinesLawful(v, v.blocks[p.at], 0, c.regs, c, payload) && o.Forks? ==>
            forall q :: q in o.paths ==> !Aborts(v, q.at))
      && (!o.Fails? && (o.Forks? ==> forall q :: q in o.paths ==> !Aborts(v, q.at)) ==>
            LinesLawful(v, v.blocks[p.at], 0, c.regs, c, payload))
      && (o.Forks? && r.Leaves? && Bare(p, c) ==>
            forall k :: 0 <= k < |o.paths| && k < |r.next| ==> Bare(o.paths[k], r.next[k]))
  {
    MirrorsKnown(p, s, c);
    EnteringMirrors(p, s, c);
    assert Bare(p, c) <==> Bare(Entering(p), c) && p.env.Keys == c.regs.Keys;
    hide Mirrors, Known, PhiLinesHold, NumericLines, Bare;
    LinesExactly(v, v.blocks[p.at], 0, p.env, c.regs, Entering(p), s, c, payload);
  }

  // ---------- all runs ----------

  /** What the walk's phis and branches have to do with runs is said elsewhere; here they are plain. */
  ghost predicate Plain(v: Review, b: Begin) {
    PhisReadAlike(v, b.Origin()) && BranchesOnNumbers(v, b.Origin())
  }

  lemma GoodIsLawful(v: Review, b: Begin, run: seq<Config>, payload: int)
    requires Good(v, b.Origin()) && Plain(v, b) && RunsFrom(v, b, run) && !Aborts(v, run[|run| - 1].at)
    ensures BlockLawful(v, run, payload)
  {
    assert |run| > 0;
    var c := run[|run| - 1];
    hide Good, Everywhere, Visit, Block, PhisHold, TrackBlock, RunsFrom, Aborts, LinesLawful, Numeric, Mirrors;
    var p, s := RunBeside(v, b, run, NumericTest(v));
    TestedHere(v, p, s, NumericTest(v));
    GoodNeverFails(v, p);
    assert p.at == c.at by { MirrorsKnown(p, s, c); }
    BlockExactly(v, p, s, c, payload);
    if Visit(v, p).Forks? {
      forall q | q in Visit(v, p).paths ensures !Aborts(v, q.at) {
        var k :| 0 <= k < |Visit(v, p).paths| && Visit(v, p).paths[k] == q;
        GoodChild(v, p, k);
        GoodNoPanic(v, q);
      }
    }
    forall i | 0 <= i < |run| - 1 ensures run[i].at != c.at {
      assert p.history[i] == run[i].at;
    }
  }

  lemma LongerRun(v: Review, b: Begin, run: seq<Config>, d: Config)
    requires BareRun(v, b, run) && Step(v, run[|run| - 1], d)
    ensures BareRun(v, b, run + [d])
  {
    hide Step, Known;
  }

  lemma LongerTrace(p: Path, q: Path, run: seq<Config>, d: Config)
    requires |run| > 0 && Traced(p, run) && run[|run| - 1].at !in p.history
    requires q.history == p.history + [run[|run| - 1].at]
    ensures Traced(q, run + [d])
  {
    assert (run + [d])[..|run|] == run;
    TracedOn(p, q, run + [d]);
  }

  /** A path of the walk with a run beside it, both from the beginning. */
  ghost predicate Along(v: Review, b: Begin, run: seq<Config>, p: Path, s: Staging) {
    && BareRun(v, b, run) && Mirrors(p, s, run[|run| - 1]) && Bare(p, run[|run| - 1]) && Traced(p, run)
    && Everywhere(v, p, s, PhiTest(v)) && Everywhere(v, p, s, NumericTest(v)) && !Aborts(v, p.at)
  }

  /** Where the run is lawful, the walk passes the block. */
  lemma AlongPasses(v: Review, b: Begin, run: seq<Config>, p: Path, s: Staging)
    requires Lawful(v, b) && Along(v, b, run, p, s)
    ensures !Visit(v, p).Fails? && p.at in v.blocks && p.at !in p.history && p.at == run[|run| - 1].at
    ensures PhisHold(v, p) && Numeric(v, p)
    ensures Visit(v, p).Forks? ==> forall q :: q in Visit(v, p).paths ==> !Aborts(v, q.at)
    ensures var o, r := Visit(v, p), Block(v, run[|run| - 1], 0);
      o.Forks? && r.Leaves? ==> forall k :: 0 <= k < |o.paths| && k < |r.next| ==> Bare(o.paths[k], r.next[k])
  {
    var c := run[|run| - 1];
    assert p.at == c.at by { MirrorsKnown(p, s, c); }
    TestedHere(v, p, s, PhiTest(v));
    TestedHere(v, p, s, NumericTest(v));
    hide BareRun, Mirrors, Bare, Everywhere, Aborts, LinesLawful, Visit, Block, PhisHold, Numeric;
    assert BlockLawful(v, run, 0);
    forall i | 0 <= i < |p.history| ensures p.history[i] != p.at {
      assert p.history[i] == run[i].at;
    }
    BlockExactly(v, p, s, c, 0);
  }

  lemma AlongOn(v: Review, b: Begin, run: seq<Config>, p: Path, s: Staging, k: nat) returns (d: Config)
    requires Lawful(v, b) && Along(v, b, run, p, s) && Visit(v, p).Forks? && k < |Visit(v, p).paths|
    ensures Along(v, b, run + [d], Visit(v, p).paths[k], TrackBlock(v, p, s, k == 0))
  {
    var c, q, u := run[|run| - 1], Visit(v, p).paths[k], TrackBlock(v, p, s, k == 0);
    AlongPasses(v, b, run, p, s);
    hide BareRun, Mirrors, Bare, Everywhere, Aborts, Visit, Block, PhisHold, Numeric, Traced, TrackBlock, Lawful;
    BlockFaithful(v, p, s, c, 0);
    d := Block(v, c, 0).next[k];
    assert q in Visit(v, p).paths;
    assert Step(v, c, d);
    LongerRun(v, b, run, d);
    LongerTrace(p, q, run, d);
    EverywhereHere(v, p, s, PhiTest(v), k);
    EverywhereHere(v, p, s, NumericTest(v), k);
    assert (run + [d])[|run|] == d;
  }

  lemma {:induction false} LawfulIsGood(v: Review, b: Begin, run: seq<Config>, p: Path, s: Staging)
    requires Lawful(v, b) && Along(v, b, run, p, s)
    ensures Good(v, p)
    decreases |Left(v, p)|
  {
    AlongPasses(v, b, run, p, s);
    hide Lawful, Along, Visit, TrackBlock, Aborts, Bare, Block;
    if Visit(v, p).Forks? {
      forall q | q in Visit(v, p).paths ensures (FewerLeft(v, p, q); Good(v, q)) {
        var k :| 0 <= k < |Visit(v, p).paths| && Visit(v, p).paths[k] == q;
        var d := AlongOn(v, b, run, p, s, k);
        FewerLeft(v, p, q);
        LawfulIsGood(v, b, run + [d], q, TrackBlock(v, p, s, k == 0));
      }
    }
  }

  lemma BareStart(v: Review, b: Begin) returns (c: Config)
    requires NoPayloads(b.env) && Plain(v, b) && Lawful(v, b)
    ensures Along(v, b, [c], b.Origin(), Untouched)
  {
    c := Config(b.start, b.prev, Realised(b.env), map[(Initialization, 0) := (64, Num(1))], {}, {}, {});
    hide Everywhere, Aborts, Lawful;
    assert RunsFrom(v, b, [c]);
    TracedFirst(b, [c]);
  }

  /** The walk accepts exactly if every run from where it begins, with only the registers that it is
      given, keeps to the reviewed lines, comes back to no block, and exits right. */
  lemma AcceptsExactly(v: Review, b: Begin)
    requires NoPayloads(b.env) && Plain(v, b)
    ensures Good(v, b.Origin()) <==> Lawful(v, b)
  {
    if Good(v, b.Origin()) {
      GoodNoPanic(v, b.Origin());
      forall run: seq<Config>, payload | BareRun(v, b, run) && !Aborts(v, run[|run| - 1].at)
        ensures BlockLawful(v, run, payload)
      {
        GoodIsLawful(v, b, run, payload);
      }
    }
    if Lawful(v, b) {
      var c := BareStart(v, b);
      LawfulIsGood(v, b, [c], b.Origin(), Untouched);
    }
  }

  // ---------- two accepted walks of the reviewed shape ----------

  /** The blocks behind the producer's calls: an error is stored into the result, the initialization
      is dropped if it is present, and the guard clears the rest; an unwind does the same and
      resumes, and one more unwind on the way panics. */
  function Producer(exit: Exit): Review {
    Review(map["tested" := [Compare("ok", true, "returned", -1), Branch("ok", "next", "failed")],
               "failed" := [Gep("code", "%_0", Lit(8)), Store(8, Reg("returned"), "code"), Store(64, Lit(2), "%_0"),
                            Jump("check")],
               "check" := CHECK,
               "drop" := [Call(DropInitialization(Reg("init")), Some(("guard", "unwound")))],
               "guard" := [Call(DropGuard(Reg("self"), true), None), Return],
               "unwound" := [LandingPad("payload"), Jump("again")],
               "cleanup" := CLEANUP,
               "again" := [Call(DropGuard(Reg("self"), true), Some(("out", "panic")))],
               "out" := [Resume],
               "panic" := [LandingPad("second"), PanicInCleanup, Unreachable]],
           true, GUARD_EVENTS + {Drop}, exit)
  }

  const CHECK: seq<Instr> := [LoadPresence("some", "%_10"), Compare("none", true, "some", 0),
                              Branch("none", "guard", "drop")]
  const CLEANUP: seq<Instr> := [LandingPad("failure"),
                                Call(DropInitialization(Reg("init")), Some(("again", "panic")))]

  const GIVEN: Env := map["self" := Address((Storage, 0)), "%_0" := Address((Result, 0)),
                          "%_10" := Address((Initialization, 0)), "init" := Address((Initialization, 8)),
                          "returned" := Num(2)]

  ghost predicate Holds(p: Path) {
    forall r :: r in GIVEN ==> r in p.env && p.env[r] == GIVEN[r]
  }

  lemma PanicAborts(v: Review)
    requires v == Producer(ErrorExit) || v == Producer(UnwindExit)
    ensures Aborts(v, "panic") && NeverReturns(v, "panic")
  {
    assert v.blocks["panic"][1] == PanicInCleanup && v.blocks["panic"][2] == Unreachable;
  }

  lemma OutEnds(v: Review, p: Path)
    requires v == Producer(ErrorExit) || v == Producer(UnwindExit)
    requires p.at == "out" && "out" !in p.history && GUARD_EVENTS + {Drop} <= p.events
    ensures Good(v, p)
  {
    assert v.blocks["out"] == [Resume];
    assert Line(v, [Resume], 0, Entering(p)) == Ends;
  }

  lemma AgainIsGood(v: Review, p: Path)
    requires v == Producer(ErrorExit) || v == Producer(UnwindExit)
    requires p.at == "again" && "again" !in p.history && "out" !in p.history && Drop in p.events && Holds(p)
    ensures Good(v, p)
  {
    var body := v.blocks["again"];
    var e := Entering(p);
    var q := Enter(e.(events := e.events + GUARD_EVENTS), "out");
    assert "self" in GIVEN;
    PanicAborts(v);
    assert body == [Call(DropGuard(Reg("self"), true), Some(("out", "panic")))];
    hide Aborts;
    assert Line(v, body, 0, e) == Forks([q]);
    hide Line;
    assert Visit(v, p) == Forks([q]);
    hide Visit, Producer;
    OutEnds(v, q);
  }

  lemma CleanupThere()
    ensures "cleanup" in Producer(UnwindExit).blocks
  {
  }

  lemma CleanupLines(v: Review, e: Path) returns (a: Path, q: Path)
    requires "init" in e.env && e.env["init"] == Address((Initialization, 8))
    requires Aborts(v, "panic") && NeverReturns(v, "panic")
    ensures Line(v, CLEANUP, 0, e) == Continues(a) && Line(v, CLEANUP, 1, a) == Forks([q])
    ensures q == Enter(e.(env := e.env["failure" := Unknown], events := e.events + {Drop}), "again")
  {
    hide Aborts;
    a := e.(env := e.env["failure" := Unknown]);
    q := Enter(a.(events := a.events + {Drop}), "again");
  }

  lemma CleanupIsGood(p: Path)
    requires p.at == "cleanup" && p.history == [] && Holds(p)
    ensures Good(Producer(UnwindExit), p)
  {
    var v := Producer(UnwindExit);
    assert "init" in GIVEN;
    assert v.blocks["cleanup"] == CLEANUP && |CLEANUP| == 2;
    PanicAborts(v);
    hide Line, CLEANUP, Producer;
    assert "cleanup" in v.blocks by { CleanupThere(); }
    var a, q := CleanupLines(v, Entering(p));
    assert Visit(v, p) == Forks([q]);
    hide Visit;
    AgainIsGood(v, q);
  }

  lemma UnwoundIsGood(p: Path)
    requires p.at == "unwound" && p.history == ["tested", "failed", "check", "drop"] && Drop in p.events && Holds(p)
    ensures Good(Producer(ErrorExit), p)
  {
    var v := Producer(ErrorExit);
    var body := v.blocks["unwound"];
    var e := Entering(p);
    var f := e.(env := e.env["payload" := Unknown]);
    assert body == [LandingPad("payload"), Jump("again")];
    assert Line(v, body, 0, e) == Continues(f);
    assert Line(v, body, 1, f) == Forks([Enter(f, "again")]);
    hide Line;
    assert Visit(v, p) == Forks([Enter(f, "again")]);
    hide Visit;
    AgainIsGood(v, Enter(f, "again"));
  }

  lemma GuardIsGood(p: Path)
    requires p.at == "guard" && "guard" !in p.history && Drop in p.events && Holds(p)
    requires (Result, 0) in p.memory && p.memory[(Result, 0)] == (64, Num(2))
    ensures Good(Producer(ErrorExit), p)
  {
    var v := Producer(ErrorExit);
    var body := v.blocks["guard"];
    var e := Entering(p);
    var f := e.(events := e.events + GUARD_EVENTS);
    assert "self" in GIVEN;
    assert Line(v, body, 0, e) == Continues(f);
    assert Line(v, body, 1, f) == Ends;
    hide Line;
    assert Visit(v, p) == Ends;
  }

  lemma DropIsGood(p: Path)
    requires p.at == "drop" && p.history == ["tested", "failed", "check"] && Holds(p)
    requires (Result, 0) in p.memory && p.memory[(Result, 0)] == (64, Num(2))
    ensures Good(Producer(ErrorExit), p)
  {
    var v := Producer(ErrorExit);
    var body := v.blocks["drop"];
    var e := Entering(p);
    var f := e.(events := e.events + {Drop});
    assert "init" in GIVEN;
    assert !Aborts(v, "unwound");
    assert Line(v, body, 0, e) == Forks([Enter(f, "guard"), Enter(f, "unwound")]);
    hide Line;
    assert Visit(v, p) == Forks([Enter(f, "guard"), Enter(f, "unwound")]);
    hide Visit;
    GuardIsGood(Enter(f, "guard"));
    UnwoundIsGood(Enter(f, "unwound"));
  }

  lemma TestedForks(p: Path) returns (q: Path)
    requires p.at == "tested" && p.history == [] && Holds(p)
    ensures Visit(Producer(ErrorExit), p) == Forks([q])
    ensures q.at == "failed" && q.history == ["tested"] && Holds(q)
  {
    var v := Producer(ErrorExit);
    var body := v.blocks["tested"];
    var e := Entering(p);
    var f := e.(env := e.env["ok" := Num(0)]);
    q := Enter(f, "failed");
    assert "returned" in GIVEN;
    assert Line(v, body, 0, e) == Continues(f);
    assert Line(v, body, 1, f) == Forks([q]);
    hide Line;
  }

  lemma FailedForks(p: Path) returns (q: Path)
    requires p.at == "failed" && p.history == ["tested"] && Holds(p)
    ensures Visit(Producer(ErrorExit), p) == Forks([q])
    ensures q.at == "check" && q.history == ["tested", "failed"] && Holds(q)
    ensures (Result, 0) in q.memory && q.memory[(Result, 0)] == (64, Num(2))
  {
    var v := Producer(ErrorExit);
    var body := v.blocks["failed"];
    assert "%_0" in GIVEN && "returned" in GIVEN;
    var e := Entering(p);
    var a := e.(env := e.env["code" := Address((Result, 8))]);
    var b := a.(memory := a.memory[(Result, 8) := (8, Num(2))]);
    var c := b.(memory := b.memory[(Result, 0) := (64, Num(2))]);
    q := Enter(c, "check");
    assert Line(v, body, 0, e) == Continues(a);
    assert Line(v, body, 1, a) == Continues(b);
    assert Line(v, body, 2, b) == Continues(c);
    assert Line(v, body, 3, c) == Forks([q]);
    hide Line;
    assert Lines(v, body, 2, b) == Forks([q]);
    assert Lines(v, body, 0, e) == Lines(v, body, 1, a);
  }

  lemma CheckLines(v: Review, e: Path) returns (a: Path, b: Path, q: Path)
    requires "%_10" in e.env && e.env["%_10"] == Address((Initialization, 0))
    ensures Line(v, CHECK, 0, e) == Continues(a) && Line(v, CHECK, 1, a) == Continues(b)
      && Line(v, CHECK, 2, b) == Forks([q])
    ensures q == Enter(e.(env := e.env["some" := Num(1)]["none" := Num(0)]), "drop")
  {
    a := e.(env := e.env["some" := Num(1)]);
    b := a.(env := a.env["none" := Num(0)]);
    q := Enter(b, "drop");
  }

  lemma CheckForks(p: Path) returns (q: Path)
    requires p.at == "check" && p.history == ["tested", "failed"] && Holds(p)
    ensures Visit(Producer(ErrorExit), p) == Forks([q])
    ensures q.at == "drop" && q.history == ["tested", "failed", "check"] && Holds(q) && q.memory == p.memory
  {
    var v := Producer(ErrorExit);
    assert "%_10" in GIVEN;
    assert v.blocks["check"] == CHECK && |CHECK| == 3;
    hide Line, CHECK, Producer;
    assert "check" in v.blocks by { CheckThere(); }
    var a, b, r := CheckLines(v, Entering(p));
    q := r;
    assert Lines(v, CHECK, 1, a) == Forks([q]);
  }

  lemma CheckThere()
    ensures "check" in Producer(ErrorExit).blocks
  {
  }

  /** The walker accepts the error walk behind a failed call, with its drop, guard and stores... */
  lemma ErrorWalkIsGood()
    ensures Good(Producer(ErrorExit), Begin("tested", Some("call"), GIVEN).Origin())
  {
    var p := Begin("tested", Some("call"), GIVEN).Origin();
    var q := TestedForks(p);
    var r := FailedForks(q);
    var t := CheckForks(r);
    hide Visit, Producer;
    DropIsGood(t);
    assert Good(Producer(ErrorExit), r) && Good(Producer(ErrorExit), q);
  }

  /** ... and the unwind walk behind the same call. */
  lemma UnwindWalkIsGood()
    ensures Good(Producer(UnwindExit), Begin("cleanup", Some("call"), GIVEN).Origin())
  {
    CleanupIsGood(Begin("cleanup", Some("call"), GIVEN).Origin());
  }
}
