/** The phis of the staging walk. It reads them one after the other, where a run reads them all at
    block entry: exactly when that makes a difference, why it makes none in SSA form where the walk
    keeps away from the blocks that lead to it, and an accepted walk where it does. */
module StagingPhis {
  import opened Options
  import opened ControlGraph
  import opened StagingWalk
  import opened StagingRuns
  import opened StagingSafety

  // ---------- the exact condition ----------

  /** A path of the walk after the lines from i to n of its block. */
  function WalkLines(v: Review, body: seq<Instr>, i: nat, n: nat, p: Path): Option<Path>
    requires i <= n <= |body|
    decreases n - i
  {
    if i == n then Some(p)
    else
      var o := Line(v, body, i, p);
      if o.Continues? then WalkLines(v, body, i + 1, n, o.path) else None
  }

  /** A run after the same lines. */
  ghost function RunLines(body: seq<Instr>, i: nat, n: nat, entry: Env, c: Config, payload: int): Option<Config>
    requires i <= n <= |body|
    decreases n - i
  {
    if i == n then Some(c)
    else
      var r := Execute(body, i, entry, c, payload);
      if r.Steps? then RunLines(body, i + 1, n, entry, r.c, payload) else None
  }

  /** Some run comes to a block as the walk does, and after n lines of it has other registers than the
      walk reckons with, or has not come through them. */
  ghost predicate Misled(v: Review, b: Begin, run: seq<Config>, payload: int, p: Path, s: Staging, n: nat) {
    && RunsFrom(v, b, run) && OnWalk(v, b.Origin(), Untouched, p, s) && Mirrors(p, s, run[|run| - 1])
    && p.at in v.blocks && n <= |v.blocks[p.at]|
    && var body, c := v.blocks[p.at], run[|run| - 1];
       var q, d := WalkLines(v, body, 0, n, Entering(p)), RunLines(body, 0, n, c.regs, c, payload);
       q.Some? && !(d.Some? && Known(q.value.env, d.value.regs))
  }

  lemma {:induction false} LinesAgree(v: Review, body: seq<Instr>, i: nat, n: nat, e: Env, entry: Env, p: Path,
      s: Staging, c: Config, payload: int)
    requires i <= n <= |body| && Mirrors(p, s, c) && Known(e, entry) && PhiLinesHold(v, body, i, n, e, p)
    requires WalkLines(v, body, i, n, p).Some?
    ensures RunLines(body, i, n, entry, c, payload).Some?
    ensures Known(WalkLines(v, body, i, n, p).value.env, RunLines(body, i, n, entry, c, payload).value.regs)
    ensures WalkLines(v, body, i, n, p).value.prev == RunLines(body, i, n, entry, c, payload).value.prev
    decreases n - i
  {
    MirrorsKnown(p, s, c);
    hide Line, Execute, Mirrors, Known, Track;
    if i < n {
      var o := Line(v, body, i, p);
      LineContinues(v, body, i, n, e, entry, p, s, c, payload, true);
      LinesAgree(v, body, i + 1, n, e, entry, o.path, Track(v, body[i], p, s, true),
        Execute(body, i, entry, c, payload).c, payload);
    }
  }

  lemma {:induction false} HoldsUpTo(v: Review, body: seq<Instr>, i: nat, n: nat, e: Env, p: Path)
    requires i <= n <= |body| && PhiLinesHold(v, body, i, |body|, e, p)
    ensures PhiLinesHold(v, body, i, n, e, p)
    decreases n - i
  {
    hide Line;
    if i < n && Line(v, body, i, p).Continues? { HoldsUpTo(v, body, i + 1, n, e, Line(v, body, i, p).path); }
  }

  /** The first phi that does not hold. */
  lemma {:induction false} FirstMisread(v: Review, body: seq<Instr>, i: nat, e: Env, p: Path) returns (n: nat, q: Path)
    requires i <= |body| && !PhiLinesHold(v, body, i, |body|, e, p) && !Lines(v, body, i, p).Fails?
    ensures i <= n < |body| && PhiLinesHold(v, body, i, n, e, p) && WalkLines(v, body, i, n, p) == Some(q)
    ensures body[n].Phi? && Line(v, body, n, q).Continues?
    ensures WalkLines(v, body, i, n + 1, p) == Some(Line(v, body, n, q).path)
    ensures Select(body[n].arms, q.prev).Some?
      && Look(Select(body[n].arms, q.prev).value, e) != Look(Select(body[n].arms, q.prev).value, q.env)
    decreases |body| - i
  {
    if body[i].Phi? && Select(body[i].arms, p.prev).Some?
      && Look(Select(body[i].arms, p.prev).value, e) != Look(Select(body[i].arms, p.prev).value, p.env) {
      n, q := i, p;
      assert WalkLines(v, body, i + 1, i + 1, Line(v, body, i, p).path) == Some(Line(v, body, i, p).path);
    } else {
      hide Line, Select, Look;
      n, q := FirstMisread(v, body, i + 1, e, Line(v, body, i, p).path);
    }
  }

  lemma {:induction false} RunLinesMore(body: seq<Instr>, i: nat, n: nat, entry: Env, c: Config, payload: int)
    requires i <= n < |body|
    ensures RunLines(body, i, n + 1, entry, c, payload) ==
      var d := RunLines(body, i, n, entry, c, payload);
      if d.Some? && Execute(body, n, entry, d.value, payload).Steps?
      then Some(Execute(body, n, entry, d.value, payload).c) else None
    decreases n - i
  {
    hide Execute;
    var r := Execute(body, i, entry, c, payload);
    if i < n && r.Steps? { RunLinesMore(body, i + 1, n, entry, r.c, payload); }
  }

  /** Something else than the walk knows. */
  function Other(x: Value): Value {
    match x
    case Num(n) => Num(n + 1)
    case Address(place) => Address((place.0, place.1 + 1))
    case _ => Num(0)
  }

  lemma MisreadDisagrees(o: Operand, e: Env, env: Env, entry: Env)
    requires Known(e, entry) && Look(o, env).Some? && Look(o, e) != Look(o, env)
    requires o.Reg? && o.r !in e ==> Held(o.r, Other(env[o.r]), e, entry)
    ensures Look(o, entry).Some? && !Agrees(Look(o, env).value, Look(o, entry).value)
  {
  }

  /** A run at a path whose phis do not hold is misled, if registers that the walk does not know
      hold something else. */
  lemma MisledHere(v: Review, p: Path, s: Staging, c: Config, n: nat, q: Path)
    requires Mirrors(p, s, c) && p.at in v.blocks
    requires n < |v.blocks[p.at]| && v.blocks[p.at][n].Phi?
    requires var body := v.blocks[p.at];
      && PhiLinesHold(v, body, 0, n, p.env, Entering(p)) && WalkLines(v, body, 0, n, Entering(p)) == Some(q)
      && Line(v, body, n, q).Continues? && Select(body[n].arms, q.prev).Some?
    requires var o := Select(v.blocks[p.at][n].arms, q.prev).value;
      && Look(o, p.env) != Look(o, q.env)
      && (o.Reg? && o.r !in p.env ==> o.r in q.env && Held(o.r, Other(q.env[o.r]), p.env, c.regs))
    ensures var body := v.blocks[p.at];
      var d := RunLines(body, 0, n + 1, c.regs, c, 0);
      !(d.Some? && Known(Line(v, body, n, q).path.env, d.value.regs))
  {
    var body := v.blocks[p.at];
    EnteringMirrors(p, s, c);
    MirrorsKnown(p, s, c);
    RunLinesMore(body, 0, n, c.regs, c, 0);
    LinesAgree(v, body, 0, n, p.env, c.regs, Entering(p), s, c, 0);
    var o := Select(body[n].arms, q.prev).value;
    var before := RunLines(body, 0, n, c.regs, c, 0).value;
    hide Mirrors, RunLines, WalkLines, PhiLinesHold, Select;
    MisreadDisagrees(o, p.env, q.env, c.regs);
    var dst := body[n].dst;
    assert Line(v, body, n, q).path.env == q.env[dst := Look(o, q.env).value];
    var r := Execute(body, n, c.regs, before, 0);
    assert r.Steps? ==> r.c.regs == before.regs[dst := Look(o, c.regs).value];
    hide Look, Agrees;
    var env := q.env[dst := Look(o, q.env).value];
    assert r.Steps? ==> dst in env && !(dst in r.c.regs && Agrees(env[dst], r.c.regs[dst]));
  }

  /** Some run is misled exactly if some phi that a path of the walk selects has at block entry
      another value than the walk reads. */
  lemma PhisExactly(v: Review, b: Begin)
    requires Good(v, b.Origin()) && NoPayloads(b.env)
    ensures (exists run, payload, p, s, n :: Misled(v, b, run, payload, p, s, n)) <==> !PhisReadAlike(v, b.Origin())
  {
    forall run, payload, p, s, n | Misled(v, b, run, payload, p, s, n) ensures !PhisReadAlike(v, b.Origin()) {
      if PhisReadAlike(v, b.Origin()) {
        NeverMisled(v, b, run, payload, p, s, n);
      }
    }
    if !PhisReadAlike(v, b.Origin()) {
      SomeoneMisled(v, b);
    }
  }

  lemma NeverMisled(v: Review, b: Begin, run: seq<Config>, payload: int, p: Path, s: Staging, n: nat)
    requires PhisReadAlike(v, b.Origin())
    ensures !Misled(v, b, run, payload, p, s, n)
  {
    if OnWalk(v, b.Origin(), Untouched, p, s) && |run| > 0 && Mirrors(p, s, run[|run| - 1]) && p.at in v.blocks
      && n <= |v.blocks[p.at]| && WalkLines(v, v.blocks[p.at], 0, n, Entering(p)).Some? {
      var c := run[|run| - 1];
      OnWalkTested(v, b.Origin(), Untouched, p, s, PhiTest(v));
      hide Everywhere, OnWalk, RunsFrom;
      EnteringMirrors(p, s, c);
      MirrorsKnown(p, s, c);
      hide Mirrors, Known;
      HoldsUpTo(v, v.blocks[p.at], 0, n, p.env, Entering(p));
      LinesAgree(v, v.blocks[p.at], 0, n, p.env, c.regs, Entering(p), s, c, payload);
    }
  }

  lemma SomeoneMisled(v: Review, b: Begin)
    requires Good(v, b.Origin()) && NoPayloads(b.env) && !PhisReadAlike(v, b.Origin())
    ensures exists run, payload, p, s, n :: Misled(v, b, run, payload, p, s, n)
  {
    var run, p, s := TestIsReached(v, b, PhiTest(v), "", Num(0));
    hide Everywhere, OnWalk, RunsFrom, Mirrors;
    GoodNeverFails(v, p);
    var body := v.blocks[p.at];
    var n, q := FirstMisread(v, body, 0, p.env, Entering(p));
    var o := Select(body[n].arms, q.prev).value;
    hide Good, PhiLinesHold, WalkLines, RunLines, Lines;
    if o.Reg? && o.r !in p.env {
      var x := Other(q.env[o.r]);
      var again, p', s' := TestIsReached(v, b, NotAt(p, s), o.r, x);
      assert (p', s') == (p, s);
      run := again;
    }
    MisledHere(v, p, s, run[|run| - 1], n, q);
    assert Misled(v, b, run, 0, p, s, n + 1);
  }

  // ---------- SSA form ----------

  function Targets(line: Instr): seq<Label> {
    match line
    case Call(_, edges) => if edges.Some? then [edges.value.0, edges.value.1] else []
    case Jump(target) => [target]
    case Branch(_, yes, no) => [yes, no]
    case _ => []
  }

  function BlockGraph(v: Review): Graph {
    map l | l in v.blocks :: if v.blocks[l] == [] then [] else Targets(v.blocks[l][|v.blocks[l]| - 1])
  }

  predicate SetBefore(body: seq<Instr>, i: nat, r: Register)
    requires i <= |body|
  {
    exists j :: 0 <= j < i && Target(body[j]) == Some(r)
  }

  /** A phi arm of the block that reads what an earlier line of the block sets. */
  ghost predicate ReadsBack(body: seq<Instr>, arm: (Operand, Label)) {
    exists i :: 0 <= i < |body| && body[i].Phi? && arm in body[i].arms && arm.0.Reg? && SetBefore(body, i, arm.0.r)
  }

  /** What SSA form says of phis, from the function's entry: one that reads what its own block sets
      does so along an edge from a predecessor that the block dominates. */
  ghost predicate SsaForm(v: Review, entry: Label) {
    forall l, arm: (Operand, Label) :: l in v.blocks && ReadsBack(v.blocks[l], arm) ==>
      !Reaches(BlockGraph(v), None, {l}, entry, arm.1)
  }

  /** A way from the function's entry to where the walk begins. */
  ghost predicate LeadsIn(v: Review, entry: Label, lead: seq<Label>, b: Begin) {
    if lead == [] then b.start == entry && b.prev == None
    else
      && IsPath(BlockGraph(v), None, lead) && lead[0] == entry && Arc(BlockGraph(v), None, lead[|lead| - 1], b.start)
      && b.prev == Some(lead[|lead| - 1])
  }

  ghost function AwayTest(labels: seq<Label>): (Path, Staging) -> bool {
    (p: Path, s: Staging) => p.at !in labels
  }

  lemma JoinedPath(g: Graph, p: seq<Label>, q: seq<Label>)
    requires IsPath(g, None, p) && IsPath(g, None, q) && Arc(g, None, p[|p| - 1], q[0])
    ensures IsPath(g, None, p + q)
  {
    hide Arc;
  }

  /** How the walk came to where a path is. */
  ghost predicate Came(v: Review, start: Label, prev: Option<Label>, p: Path) {
    if p.history == [] then p.at == start && p.prev == prev
    else
      && IsPath(BlockGraph(v), None, p.history) && p.history[0] == start
      && p.prev == Some(p.history[|p.history| - 1]) && Arc(BlockGraph(v), None, p.history[|p.history| - 1], p.at)
  }

  lemma LineFollowsArcs(v: Review, body: seq<Instr>, i: nat, p: Path)
    requires i < |body|
    ensures var o := Line(v, body, i, p);
      && (o.Continues? ==> o.path.at == p.at)
      && (o.Forks? ==> i + 1 == |body| && forall q :: q in o.paths ==> q.at in Targets(body[i]) && q.prev == Some(p.at))
  {
    hide Requests, Aborts, Select, Look;
  }

  lemma {:induction false} ForksFollowArcs(v: Review, body: seq<Instr>, i: nat, p: Path)
    requires i <= |body| && Lines(v, body, i, p).Forks?
    ensures body != []
      && forall q :: q in Lines(v, body, i, p).paths ==> q.at in Targets(body[|body| - 1]) && q.prev == Some(p.at)
    decreases |body| - i
  {
    hide Line, Targets;
    var o := Line(v, body, i, p);
    LineFollowsArcs(v, body, i, p);
    if o.Continues? { ForksFollowArcs(v, body, i + 1, o.path); }
  }

  lemma CameOn(v: Review, start: Label, prev: Option<Label>, p: Path, k: nat)
    requires Came(v, start, prev, p) && Visit(v, p).Forks? && k < |Visit(v, p).paths|
    ensures Came(v, start, prev, Visit(v, p).paths[k])
  {
    var q := Visit(v, p).paths[k];
    ForksFollowArcs(v, v.blocks[p.at], 0, Entering(p));
    hide Lines, Targets;
    assert q.history == p.history + [p.at];
    assert Arc(BlockGraph(v), None, p.at, q.at);
    forall i | 0 <= i < |q.history| - 1 ensures Arc(BlockGraph(v), None, q.history[i], q.history[i + 1]) {}
  }

  /** The path from the entry that ends where a path of the walk came from. */
  lemma WholeLead(v: Review, entry: Label, lead: seq<Label>, b: Begin, p: Path)
    requires LeadsIn(v, entry, lead, b) && Came(v, b.start, b.prev, p) && p.prev.Some?
    requires p.at !in lead && p.at !in p.history
    ensures Reaches(BlockGraph(v), None, {p.at}, entry, p.prev.value)
  {
    hide BlockGraph, Arc;
    var whole := lead + p.history;
    if lead != [] && p.history != [] { JoinedPath(BlockGraph(v), lead, p.history); }
    assert whole != [];
    assert if lead == [] then whole == p.history else if p.history == [] then whole == lead else true;
    assert Leads(BlockGraph(v), None, {p.at}, whole, entry, p.prev.value);
  }

  /** Registers that no line before i sets are as they were. */
  ghost predicate SameOld(body: seq<Instr>, i: nat, e: Env, env: Env)
    requires i <= |body|
  {
    forall r: Register :: !SetBefore(body, i, r) ==> (r in e <==> r in env) && (r in e ==> e[r] == env[r])
  }

  lemma SetByNext(body: seq<Instr>, i: nat, r: Register)
    requires i < |body|
    ensures SetBefore(body, i + 1, r) <==> SetBefore(body, i, r) || Target(body[i]) == Some(r)
  {
  }

  lemma LineSets(v: Review, body: seq<Instr>, i: nat, p: Path, e: Env)
    requires i < |body| && Line(v, body, i, p).Continues? && SameOld(body, i, e, p.env)
    ensures SameOld(body, i + 1, e, Line(v, body, i, p).path.env) && Line(v, body, i, p).path.prev == p.prev
  {
    LineTargets(v, body, i, p);
    forall r: Register ensures SetBefore(body, i + 1, r) <==> SetBefore(body, i, r) || Target(body[i]) == Some(r) {
      SetByNext(body, i, r);
    }
    hide SetBefore, Target, Line;
  }

  /** Phis that select no arm that reads what their block sets hold. */
  lemma {:induction false} EntryLinesHold(v: Review, body: seq<Instr>, i: nat, e: Env, p: Path)
    requires i <= |body| && SameOld(body, i, e, p.env)
    requires forall arm: (Operand, Label) :: p.prev == Some(arm.1) ==> !ReadsBack(body, arm)
    ensures PhiLinesHold(v, body, i, |body|, e, p)
    decreases |body| - i
  {
    if i < |body| {
      if body[i].Phi? && Select(body[i].arms, p.prev).Some? {
        var arm := (Select(body[i].arms, p.prev).value, p.prev.value);
        assert arm in body[i].arms && !ReadsBack(body, arm);
      }
      if Line(v, body, i, p).Continues? {
        LineSets(v, body, i, p, e);
        hide Line, SameOld, Select, ReadsBack;
        EntryLinesHold(v, body, i + 1, e, Line(v, body, i, p).path);
      }
    }
  }

  lemma SsaHolds(v: Review, entry: Label, lead: seq<Label>, b: Begin, p: Path)
    requires SsaForm(v, entry) && LeadsIn(v, entry, lead, b) && Came(v, b.start, b.prev, p)
    requires p.at !in lead && p.at !in p.history
    ensures PhisHold(v, p)
  {
    if p.at in v.blocks {
      if p.prev.Some? { WholeLead(v, entry, lead, b, p); }
      hide Came, LeadsIn, Reaches, BlockGraph, ReadsBack;
      var body := v.blocks[p.at];
      assert SameOld(body, 0, p.env, Entering(p).env);
      hide SameOld;
      EntryLinesHold(v, body, 0, p.env, Entering(p));
    }
  }

  /** SSA form suffices where the walk keeps away from some way in: from the function's entry, or from
      any edge, also inside a loop, as long as no path of the walk enters a block of that way. */
  lemma {:induction false} SsaFormSuffices(v: Review, entry: Label, lead: seq<Label>, b: Begin, p: Path, s: Staging)
    requires SsaForm(v, entry) && LeadsIn(v, entry, lead, b) && Good(v, p) && Came(v, b.start, b.prev, p)
    requires Everywhere(v, p, s, AwayTest(lead))
    ensures Everywhere(v, p, s, PhiTest(v))
    decreases |Left(v, p)|
  {
    GoodNeverFails(v, p);
    TestedHere(v, p, s, AwayTest(lead));
    SsaHolds(v, entry, lead, b, p);
    hide SsaForm, LeadsIn, Came, Passable, PhisHold, Visit, TrackBlock;
    if Visit(v, p).Forks? && Passable(v, p) {
      forall k | 0 <= k < |Visit(v, p).paths|
        ensures Everywhere(v, Visit(v, p).paths[k], TrackBlock(v, p, s, k == 0), PhiTest(v))
      {
        GoodChild(v, p, k);
        CameOn(v, b.start, b.prev, p, k);
        FewerLeft(v, p, Visit(v, p).paths[k]);
        EverywhereHere(v, p, s, AwayTest(lead), k);
        SsaFormSuffices(v, entry, lead, b, Visit(v, p).paths[k], TrackBlock(v, p, s, k == 0));
      }
    }
  }

  // ---------- three walks ----------

  function BackEdge(): Review {
    Review(map["start" := [Jump("loop")],
               "loop" := [Phi("a", [(Lit(0), "start"), (Lit(1), "loop")]),
                          Phi("b", [(Lit(5), "start"), (Reg("a"), "loop")]),
                          Compare("c", true, "a", 0), Branch("c", "done", "loop")],
               "done" := [Return]],
           true, {}, GuardExit)
  }

  lemma LoopIsLeft(q: Path) returns (r: Path)
    requires q.at == "loop" && q.prev == Some("start") && q.env == map[] && "loop" !in q.history
    ensures Visit(BackEdge(), q) == Forks([r]) && r.at == "done" && r.history == q.history + ["loop"]
  {
    var v := BackEdge();
    var loop := v.blocks["loop"];
    var e := Entering(q);
    var a := e.(env := map["a" := Num(0)]);
    var b := e.(env := map["a" := Num(0), "b" := Num(5)]);
    var c := e.(env := map["a" := Num(0), "b" := Num(5), "c" := Num(1)]);
    r := Enter(c, "done");
    assert Line(v, loop, 0, e) == Continues(a);
    assert Line(v, loop, 1, a) == Continues(b);
    assert Line(v, loop, 2, b) == Continues(c);
    assert Line(v, loop, 3, c) == Forks([r]);
    hide Line;
    assert Lines(v, loop, 3, c) == Forks([r]);
    assert Lines(v, loop, 1, a) == Lines(v, loop, 2, b);
  }

  lemma BackEdgeIsGood(p: Path)
    requires p == Path("start", None, map[], map[], {}, [])
    ensures Good(BackEdge(), p)
  {
    var v := BackEdge();
    var q := Enter(Entering(p), "loop");
    assert Line(v, v.blocks["start"], 0, Entering(p)) == Forks([q]);
    assert Visit(v, p) == Forks([q]);
    var r := LoopIsLeft(q);
    LoopIsDone(r);
    hide BackEdge, Visit;
    assert Good(v, r) && Good(v, q);
  }

  lemma LoopIsDone(r: Path)
    requires r.at == "done" && "done" !in r.history
    ensures Visit(BackEdge(), r) == Ends
  {
    assert Line(BackEdge(), [Return], 0, Entering(r)) == Ends;
  }

  /** A loop whose second phi reads the first one across the back edge is covered. */
  lemma BackEdgePhisAreCovered()
    ensures SsaForm(BackEdge(), "start") && StagingSafety.Accepted(BackEdge(), Begin("start", None, map[]))
  {
    var v, b := BackEdge(), Begin("start", None, map[]);
    BackEdgeIsGood(b.Origin());
    forall l, arm: (Operand, Label) | l in v.blocks && ReadsBack(v.blocks[l], arm)
      ensures !Reaches(BlockGraph(v), None, {l}, "start", arm.1)
    {
      assert l == "loop" && arm == (Reg("a"), "loop");
    }
    hide BackEdge, Good, Passable, Visit, TrackBlock, BlockGraph, ReadsBack, Reaches;
    EverywhereTrue(v, b.Origin(), Untouched);
    EverywhereWeaker(v, b.Origin(), Untouched, NoTest(), AwayTest([]));
    SsaFormSuffices(v, "start", [], b, b.Origin(), Untouched);
  }

  const HEADER: seq<Instr> := [Phi("cur", [(Lit(0), "entry"), (Lit(1), "latch")]),
                               Phi("old", [(Lit(5), "entry"), (Reg("cur"), "latch")])]

  /** A loop whose header keeps a value of the round before. */
  function Loop(rest: seq<Instr>, others: map<Label, seq<Instr>>, required: set<Event>): Review {
    Review(others["entry" := [Jump("header")]]["header" := HEADER + rest]["latch" := [Jump("header")]],
           true, required, GuardExit)
  }

  ghost predicate NoPhis(body: seq<Instr>) {
    forall line :: line in body ==> !line.Phi?
  }

  lemma OnlyArmBack(rest: seq<Instr>, arm: (Operand, Label))
    requires NoPhis(rest) && ReadsBack(HEADER + rest, arm)
    ensures arm == (Reg("cur"), "latch")
  {
    var body := HEADER + rest;
    var i :| 0 <= i < |body| && body[i].Phi? && arm in body[i].arms && arm.0.Reg? && SetBefore(body, i, arm.0.r);
    assert forall k :: 2 <= k < |body| ==> body[k] == rest[k - 2];
  }

  lemma LoopIsSsaForm(rest: seq<Instr>, others: map<Label, seq<Instr>>, required: set<Event>)
    requires NoPhis(rest) && forall l :: l in others ==> NoPhis(others[l])
    ensures SsaForm(Loop(rest, others, required), "entry")
  {
    var v := Loop(rest, others, required);
    var g := BlockGraph(v);
    forall l, arm: (Operand, Label) | l in v.blocks && ReadsBack(v.blocks[l], arm)
      ensures !Reaches(g, None, {l}, "entry", arm.1)
    {
      assert l == "header";
      OnlyArmBack(rest, arm);
      forall p | Leads(g, None, {"header"}, p, "entry", "latch") ensures false {
        assert g["entry"] == ["header"];
        ClosedHoldsPath(g, None, {"header"}, {"entry"}, p, "entry", "latch");
      }
    }
  }

  const CALLING: seq<Instr> := [Call(OtherCallee, Some(("normal", "out")))]

  function AfterCall(): map<Label, seq<Instr>> {
    map["normal" := [Compare("failed", true, "returned", -1), Branch("failed", "latch", "fail")],
        "fail" := [Return], "out" := [Resume]]
  }

  lemma CallInLoopIsGood(p: Path) returns (q: Path)
    requires p == Path("normal", Some("header"), map["returned" := Num(2)], map[], {}, [])
    ensures var v := Loop(CALLING, AfterCall(), {});
      Visit(v, p) == Forks([q]) && q.at == "fail" && Visit(v, q) == Ends && Good(v, p)
  {
    var v := Loop(CALLING, AfterCall(), {});
    var body := AfterCall()["normal"];
    var e := Entering(p);
    var f := e.(env := e.env["failed" := Num(0)]);
    q := Enter(f, "fail");
    assert Line(v, body, 0, e) == Continues(f);
    assert Line(v, body, 1, f) == Forks([q]);
    assert Lines(v, body, 1, f) == Forks([q]);
    assert Visit(v, p) == Forks([q]);
    assert Line(v, [Return], 0, Entering(q)) == Ends;
    assert Visit(v, q) == Ends;
    assert Good(v, q);
  }

  lemma CallInLoopIsSsaForm(v: Review, lead: seq<Label>, b: Begin)
    requires v == Loop(CALLING, AfterCall(), {}) && b == Begin("normal", Some("header"), map["returned" := Num(2)])
    requires lead == ["entry", "header"]
    ensures SsaForm(v, "entry") && LeadsIn(v, "entry", lead, b) && Came(v, b.start, b.prev, b.Origin())
  {
    assert BlockGraph(v)["entry"] == ["header"];
    assert BlockGraph(v)["header"] == ["normal", "out"];
    hide BlockGraph;
    assert forall line :: line in CALLING ==> !line.Phi?;
    LoopIsSsaForm(CALLING, AfterCall(), {});
  }

  /** A walk that begins behind a call inside such a loop and does not come back to the header is
      covered too. */
  lemma CallInLoopIsCovered()
    ensures
      StagingSafety.Accepted(Loop(CALLING, AfterCall(), {}), Begin("normal", Some("header"), map["returned" := Num(2)]))
  {
    var v, b := Loop(CALLING, AfterCall(), {}), Begin("normal", Some("header"), map["returned" := Num(2)]);
    var lead := ["entry", "header"];
    assert AwayTest(lead)(b.Origin(), Untouched);
    var q := CallInLoopIsGood(b.Origin());
    assert AwayTest(lead)(q, TrackBlock(v, b.Origin(), Untouched, true));
    hide Loop, AfterCall, Good, Passable, Visit, TrackBlock, SsaForm, LeadsIn, AwayTest;
    CallInLoopIsSsaForm(v, lead, b);
    EverywhereAtEnd(v, q, TrackBlock(v, b.Origin(), Untouched, true), AwayTest(lead));
    SsaFormSuffices(v, "entry", lead, b, b.Origin(), Untouched);
  }

  const TESTING: seq<Instr> := [Compare("first", true, "old", 1), Branch("first", "done", "next")]

  function Tested(): map<Label, seq<Instr>> {
    map["next" := [Compare("again", true, "old", 5), Branch("again", "body", "bad")],
        "body" := [Call(OtherCallee, Some(("latch", "out")))], "out" := [Resume],
        "done" := [Call(ClearRegion(Reg("stage"), Lit(168)), None), Return], "bad" := [Return]]
  }

  function ClearsBehindLoop(): Review {
    Loop(TESTING, Tested(), {CLEARING})
  }

  const STAGED: Env := map["stage" := Address((Storage, 864))]

  lemma MisreadLeavesLatch(p: Path, q: Path)
    requires p == Path("latch", Some("body"), STAGED, map[], {}, []) && q == Enter(Entering(p), "header")
    ensures Visit(ClearsBehindLoop(), p) == Forks([q]) && Passable(ClearsBehindLoop(), p)
    ensures TrackBlock(ClearsBehindLoop(), p, Untouched, true) == Untouched
  {
    var v := ClearsBehindLoop();
    assert v.blocks["latch"] == [Jump("header")];
    assert Line(v, [Jump("header")], 0, Entering(p)) == Forks([q]);
  }

  /** The walk reads the second phi behind the first. */
  lemma MisreadLines(e: Path) returns (a: Path, b: Path, c: Path, r: Path)
    requires e.at == "header" && e.prev == Some("latch") && e.env == STAGED
    ensures var v, body := ClearsBehindLoop(), HEADER + TESTING;
      && Line(v, body, 0, e) == Continues(a) && Line(v, body, 1, a) == Continues(b)
      && Line(v, body, 2, b) == Continues(c) && Line(v, body, 3, c) == Forks([r])
    ensures a.env == STAGED["cur" := Num(1)] && Select(HEADER[1].arms, a.prev) == Some(Reg("cur"))
    ensures r == Enter(e.(env := a.env["old" := Num(1)]["first" := Num(1)]), "done")
  {
    a := e.(env := STAGED["cur" := Num(1)]);
    b := a.(env := a.env["old" := Num(1)]);
    c := b.(env := b.env["first" := Num(1)]);
    r := Enter(c, "done");
  }

  lemma MisreadLeavesHeader(q: Path) returns (r: Path)
    requires q.at == "header" && q.prev == Some("latch") && q.env == STAGED && q.history == ["latch"] && q.events == {}
    ensures Visit(ClearsBehindLoop(), q) == Forks([r]) && !PhisHold(ClearsBehindLoop(), q)
    ensures r.at == "done" && r.history == ["latch", "header"] && r.events == {}
    ensures "stage" in r.env && r.env["stage"] == STAGED["stage"]
  {
    var v := ClearsBehindLoop();
    var body := v.blocks["header"];
    assert body == HEADER + TESTING && |body| == 4 && body[1] == HEADER[1] && body[1].Phi?;
    var e := Entering(q);
    var a, b, c, r' := MisreadLines(e);
    r := r';
    hide Line, Select, ClearsBehindLoop, HEADER, TESTING;
    assert Lines(v, body, 2, b) == Forks([r]);
    assert Lines(v, body, 0, e) == Lines(v, body, 1, a);
    assert !PhiLinesHold(v, body, 1, 4, STAGED, a);
  }

  lemma MisreadWalk(p: Path)
    requires p == Path("latch", Some("body"), STAGED, map[], {}, [])
    ensures Good(ClearsBehindLoop(), p) && !PhisReadAlike(ClearsBehindLoop(), p)
  {
    var v := ClearsBehindLoop();
    var q := Enter(Entering(p), "header");
    MisreadLeavesLatch(p, q);
    var r := MisreadLeavesHeader(q);
    DoneEnds(r);
    hide ClearsBehindLoop, Visit, Passable, TrackBlock, PhisHold;
    assert Good(v, r) && Good(v, q);
    hide Good;
    assert !PhiTest(v)(q, Untouched);
    hide PhiTest;
    if PhisReadAlike(v, p) {
      EverywhereHere(v, p, Untouched, PhiTest(v), 0);
      TestedHere(v, q, Untouched, PhiTest(v));
    }
  }

  lemma DoneEnds(p: Path)
    requires p.at == "done" && p.events == {} && "done" !in p.history
    requires "stage" in p.env && p.env["stage"] == Address((Storage, 864))
    ensures Visit(ClearsBehindLoop(), p) == Ends
  {
    var v := ClearsBehindLoop();
    var body := Tested()["done"];
    var e := Entering(p);
    var f := e.(events := {CLEARING});
    assert Line(v, body, 0, e) == Continues(f);
    assert Line(v, body, 1, f) == Ends;
    assert Lines(v, body, 1, f) == Ends;
  }

  lemma MisreadRun(c0: Config) returns (run: seq<Config>)
    requires c0.at == "latch" && c0.regs == STAGED["cur" := Num(0)]["old" := Num(5)]
    ensures IsRun(ClearsBehindLoop(), run) && run[0] == c0
    ensures Block(ClearsBehindLoop(), run[|run| - 1], 0) == Exits(run[|run| - 1], true)
    ensures run[|run| - 1].asked == c0.asked
  {
    var v := ClearsBehindLoop();
    var c1 := GoTo(c0, "header");
    var c2 := GoTo(c1.(regs := c1.regs["cur" := Num(1)]["old" := Num(0)]["first" := Num(0)]), "next");
    var c3 := GoTo(c2.(regs := c2.regs["again" := Num(0)]), "bad");
    run := [c0, c1, c2, c3];
    JumpsAndReturns(c0, c3);
    hide Block, ClearsBehindLoop;
    HeaderReadsOld(c1, c2);
    NextGoesBad(c2, c3);
    assert Step(v, c0, c1);
    assert Step(v, c1, c2);
    assert Step(v, c2, c3);
  }

  lemma JumpsAndReturns(c: Config, d: Config)
    requires c.at == "latch" && d.at == "bad"
    ensures Block(ClearsBehindLoop(), c, 0) == Leaves([GoTo(c, "header")])
    ensures Block(ClearsBehindLoop(), d, 0) == Exits(d, true)
  {
    assert Execute([Jump("header")], 0, c.regs, c, 0) == Leaves([GoTo(c, "header")]);
    assert Execute([Return], 0, d.regs, d, 0) == Exits(d, true);
  }

  lemma HeaderReadsOld(c: Config, d: Config)
    requires c.at == "header" && c.prev == Some("latch") && "cur" in c.regs && c.regs["cur"] == Num(0)
    requires d == GoTo(c.(regs := c.regs["cur" := Num(1)]["old" := Num(0)]["first" := Num(0)]), "next")
    ensures Block(ClearsBehindLoop(), c, 0) == Leaves([d])
  {
    var v := ClearsBehindLoop();
    var body := HEADER + TESTING;
    var e := c.(regs := c.regs["cur" := Num(1)]);
    var f := e.(regs := e.regs["old" := Num(0)]);
    var g := f.(regs := f.regs["first" := Num(0)]);
    assert Execute(body, 0, c.regs, c, 0) == Steps(e);
    assert Execute(body, 1, c.regs, e, 0) == Steps(f);
    assert Execute(body, 2, c.regs, f, 0) == Steps(g);
    assert Execute(body, 3, c.regs, g, 0) == Leaves([d]);
    hide Execute;
    assert ExecuteFrom(body, 2, c.regs, f, 0) == Leaves([d]);
    assert ExecuteFrom(body, 0, c.regs, c, 0) == ExecuteFrom(body, 1, c.regs, e, 0);
  }

  lemma NextGoesBad(c: Config, d: Config)
    requires c.at == "next" && "old" in c.regs && c.regs["old"] == Num(0)
    requires d == GoTo(c.(regs := c.regs["again" := Num(0)]), "bad")
    ensures Block(ClearsBehindLoop(), c, 0) == Leaves([d])
  {
    var v := ClearsBehindLoop();
    var body := Tested()["next"];
    var e := c.(regs := c.regs["again" := Num(0)]);
    assert Execute(body, 0, c.regs, c, 0) == Steps(e);
    assert Execute(body, 1, c.regs, e, 0) == Leaves([d]);
  }

  /** An exit without a required request. */
  ghost predicate ExitsShort(v: Review, b: Begin, run: seq<Config>, payload: int) {
    RunsFrom(v, b, run) && Block(v, run[|run| - 1], payload).Exits?
    && !(v.required <= Block(v, run[|run| - 1], payload).c.asked)
  }

  lemma SomeRunIsShort(b: Begin)
    requires b == Begin("latch", Some("body"), STAGED)
    ensures exists run, payload :: ExitsShort(ClearsBehindLoop(), b, run, payload)
  {
    var v := ClearsBehindLoop();
    assert v.required == {CLEARING};
    hide Block, IsRun, ClearsBehindLoop;
    var heap: Memory := map[(Initialization, 0) := (64, Num(1))];
    var run := MisreadRun(Config("latch", Some("body"), STAGED["cur" := Num(0)]["old" := Num(5)], heap, {}, {}, {}));
    assert CLEARING in v.required;
    assert ExitsShort(v, b, run, 0);
  }

  /** Where the walk begins inside a loop and comes back to its header, SSA form is not enough: the
      walk accepts, and some run returns without the required clearing. */
  lemma MisreadPhiIsAccepted() returns (b: Begin)
    ensures SsaForm(ClearsBehindLoop(), "entry") && Good(ClearsBehindLoop(), b.Origin())
    ensures NoPayloads(b.env) && !PhisReadAlike(ClearsBehindLoop(), b.Origin())
    ensures exists run, payload :: ExitsShort(ClearsBehindLoop(), b, run, payload)
  {
    b := Begin("latch", Some("body"), STAGED);
    LoopIsSsaForm(TESTING, Tested(), {CLEARING});
    hide Loop, TESTING, Tested, Good, PhisReadAlike, SsaForm, ExitsShort;
    MisreadWalk(b.Origin());
    SomeRunIsShort(b);
  }
}
