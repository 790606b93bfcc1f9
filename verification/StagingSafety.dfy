/** What an accepted staging walk means for every run of the reviewed blocks: what holds of all
    of them, and exactly when none gets stuck and when none leaves a staging byte dirty. */
module StagingSafety {
  import opened Options
  import opened Ranges
  import opened ControlGraph
  import opened StagingWalk
  import opened StagingRuns

  // ---------- along the walk ----------

  /** A block that a run passes as the walk foresees: it branches on a number, and its phis have at
      block entry the values that the walk reads. */
  predicate Passable(v: Review, p: Path) {
    Numeric(v, p) && PhisHold(v, p)
  }

  /** The test holds of every path of the walk, up to a block that is not passable; it is given the
      path at the entry of a block and the standing of the staging buffer. */
  ghost predicate Everywhere(v: Review, p: Path, s: Staging, ok: (Path, Staging) -> bool)
    decreases |Left(v, p)|
  {
    && ok(p, s)
    && (Visit(v, p).Forks? && Passable(v, p) ==>
          forall k :: 0 <= k < |Visit(v, p).paths| ==>
            (FewerLeft(v, p, Visit(v, p).paths[k]);
              Everywhere(v, Visit(v, p).paths[k], TrackBlock(v, p, s, k == 0), ok)))
  }

  ghost function NumericTest(v: Review): (Path, Staging) -> bool {
    (p, s) => Numeric(v, p)
  }

  ghost function CleanTest(v: Review): (Path, Staging) -> bool {
    (p, s) => Visit(v, p).Ends? ==> TrackBlock(v, p, s, true) != Dirtied
  }

  ghost function PhiTest(v: Review): (Path, Staging) -> bool {
    (p, s) => PhisHold(v, p)
  }

  ghost function NoTest(): (Path, Staging) -> bool {
    (p, s) => true
  }

  /** Every phi that a path of the walk selects has at block entry the value that the walk reads. */
  ghost predicate PhisReadAlike(v: Review, p: Path) {
    Everywhere(v, p, Untouched, PhiTest(v))
  }

  /** No path of the walk branches on a value that is not a number. */
  ghost predicate BranchesOnNumbers(v: Review, p: Path) {
    Everywhere(v, p, Untouched, NumericTest(v))
  }

  /** No path of the walk ends after a wide store that followed the last request for the staging
      buffer that came back. */
  ghost predicate StagingLeftAlone(v: Review, p: Path) {
    Everywhere(v, p, Untouched, CleanTest(v))
  }

  lemma TestedHere(v: Review, p: Path, s: Staging, ok: (Path, Staging) -> bool)
    ensures Everywhere(v, p, s, ok) ==> ok(p, s)
  {
    hide Visit, Passable, TrackBlock;
  }

  lemma EverywhereHere(v: Review, p: Path, s: Staging, ok: (Path, Staging) -> bool, k: nat)
    requires Everywhere(v, p, s, ok)
    ensures Visit(v, p).Forks? && Passable(v, p) && k < |Visit(v, p).paths| ==>
      Everywhere(v, Visit(v, p).paths[k], TrackBlock(v, p, s, k == 0), ok)
  {
    hide Visit, Passable, TrackBlock;
  }

  lemma {:induction false} EverywhereWeaker(v: Review, p: Path, s: Staging, t: (Path, Staging) -> bool,
      u: (Path, Staging) -> bool)
    requires Everywhere(v, p, s, t) && forall q, w :: t(q, w) ==> u(q, w)
    ensures Everywhere(v, p, s, u)
    decreases |Left(v, p)|
  {
    hide Visit, Passable, TrackBlock;
    if Visit(v, p).Forks? && Passable(v, p) {
      forall k | 0 <= k < |Visit(v, p).paths|
        ensures Everywhere(v, Visit(v, p).paths[k], TrackBlock(v, p, s, k == 0), u)
      {
        FewerLeft(v, p, Visit(v, p).paths[k]);
        EverywhereWeaker(v, Visit(v, p).paths[k], TrackBlock(v, p, s, k == 0), t, u);
      }
    }
  }

  lemma {:induction false} EverywhereTrue(v: Review, p: Path, s: Staging)
    ensures Everywhere(v, p, s, NoTest())
    decreases |Left(v, p)|
  {
    hide Visit, Passable, TrackBlock;
    if Visit(v, p).Forks? {
      forall k | 0 <= k < |Visit(v, p).paths|
        ensures Everywhere(v, Visit(v, p).paths[k], TrackBlock(v, p, s, k == 0), NoTest())
      {
        FewerLeft(v, p, Visit(v, p).paths[k]);
        EverywhereTrue(v, Visit(v, p).paths[k], TrackBlock(v, p, s, k == 0));
      }
    }
  }

  /** The walk comes to this path with this standing, through passable blocks. */
  ghost predicate OnWalk(v: Review, p: Path, s: Staging, q: Path, u: Staging) {
    !Everywhere(v, p, s, NotAt(q, u))
  }

  ghost function NotAt(q: Path, u: Staging): (Path, Staging) -> bool {
    (p, s) => (p, s) != (q, u)
  }

  lemma {:induction false} OnWalkTested(v: Review, p: Path, s: Staging, q: Path, u: Staging,
      ok: (Path, Staging) -> bool)
    requires OnWalk(v, p, s, q, u) && Everywhere(v, p, s, ok)
    ensures ok(q, u)
    decreases |Left(v, p)|
  {
    hide Visit, Passable, TrackBlock;
    if (p, s) != (q, u) {
      var k :| 0 <= k < |Visit(v, p).paths|
        && !Everywhere(v, Visit(v, p).paths[k], TrackBlock(v, p, s, k == 0), NotAt(q, u));
      FewerLeft(v, p, Visit(v, p).paths[k]);
      OnWalkTested(v, Visit(v, p).paths[k], TrackBlock(v, p, s, k == 0), q, u, ok);
    }
  }

  // ---------- runs and the walk ----------

  datatype Begin = Begin(start: Label, prev: Option<Label>, env: Env) {
    function Origin(): Path {
      Path(start, prev, env, map[], {}, [])
    }
  }

  /** A run of an accepted walk's blocks from where it begins: nothing requested yet, and an
      initialization present. */
  ghost predicate RunsFrom(v: Review, b: Begin, run: seq<Config>) {
    && IsRun(v, run) && run[0].at == b.start && run[0].prev == b.prev && Known(b.env, run[0].regs)
    && run[0].asked == {} && run[0].done == {}
    && (Initialization, 0) in run[0].heap && run[0].heap[(Initialization, 0)] == (64, Num(1))
  }

  ghost predicate Accepted(v: Review, b: Begin) {
    Good(v, b.Origin()) && PhisReadAlike(v, b.Origin())
  }

  lemma GoodChild(v: Review, p: Path, k: nat)
    requires Good(v, p) && Visit(v, p).Forks? && k < |Visit(v, p).paths|
    ensures Good(v, Visit(v, p).paths[k]) && Visit(v, p).paths[k].history == p.history + [p.at]
  {
    assert Visit(v, p).paths[k] in Visit(v, p).paths;
  }

  lemma GoodNeverFails(v: Review, p: Path)
    requires Good(v, p)
    ensures Visit(v, p).Ends? || Visit(v, p).Forks?
    ensures p.at in v.blocks && p.at !in p.history
  {
  }

  /** A path of the walk beside a run: the same place, the same values, nothing failed so far. */
  ghost predicate Beside(v: Review, p: Path, s: Staging, c: Config) {
    Good(v, p) && Mirrors(p, s, c)
  }

  lemma BesideFaithful(v: Review, p: Path, s: Staging, c: Config, payload: int)
    requires Beside(v, p, s, c) && PhisHold(v, p)
    ensures var r := Block(v, c, payload);
      && p.at in v.blocks && p.at !in p.history && p.at == c.at
      && if Visit(v, p).Ends? then r.Exits? && ExitsWell(v, r.c, r.returned) && Stands(TrackBlock(v, p, s, true), r.c)
         else Visit(v, p).Forks? && if Numeric(v, p)
           then r.Leaves? && Matched(v, Visit(v, p).paths, TrackBlock(v, p, s, true), TrackBlock(v, p, s, false),
             r.next)
           else r.Stuck?
  {
    GoodNeverFails(v, p);
    MirrorsKnown(p, s, c);
    hide Good, Mirrors, PhisHold, Visit, Block, Numeric, TrackBlock, Matched, ExitsWell, Stands;
    BlockFaithful(v, p, s, c, payload);
  }

  lemma BesideNext(v: Review, p: Path, s: Staging, c: Config, payload: int, k: nat)
    requires Beside(v, p, s, c) && Passable(v, p) && Visit(v, p).Forks? && k < |Visit(v, p).paths|
    ensures Block(v, c, payload).Leaves? && k < |Block(v, c, payload).next|
    ensures Beside(v, Visit(v, p).paths[k], TrackBlock(v, p, s, k == 0), Block(v, c, payload).next[k])
    ensures Visit(v, p).paths[k].history == p.history + [c.at]
  {
    BesideFaithful(v, p, s, c, payload);
    hide Good, Mirrors, PhisHold, Visit, Block, Numeric, TrackBlock;
    GoodChild(v, p, k);
  }

  lemma PanicBlockEnds(v: Review, c: Config, payload: int)
    requires Aborts(v, c.at)
    ensures !Block(v, c, payload).Leaves? && !Block(v, c, payload).Exits?
  {
    assert v.blocks[c.at][0..] == v.blocks[c.at];
    PanicEnds(v.blocks[c.at], 0, c.regs, c, payload);
  }

  ghost predicate Distinct(history: seq<Label>) {
    forall i, j :: 0 <= i < j < |history| ==> history[i] != history[j]
  }

  /** The labels of a run, but for the last, are the history of the path beside it. */
  ghost predicate Traced(p: Path, run: seq<Config>) {
    |p.history| == |run| - 1 && (forall i :: 0 <= i < |run| - 1 ==> p.history[i] == run[i].at) && Distinct(p.history)
  }

  lemma OriginBeside(v: Review, b: Begin, run: seq<Config>)
    requires Good(v, b.Origin()) && RunsFrom(v, b, run)
    ensures Beside(v, b.Origin(), Untouched, run[0])
  {
    hide Good;
  }

  lemma AcceptedIs(v: Review, b: Begin)
    requires Accepted(v, b)
    ensures Good(v, b.Origin()) && Everywhere(v, b.Origin(), Untouched, PhiTest(v))
  {
  }

  lemma RunShrinks(v: Review, b: Begin, run: seq<Config>) returns (payload: int, k: nat)
    requires RunsFrom(v, b, run) && |run| > 1
    ensures RunsFrom(v, b, run[..|run| - 1])
    ensures var r := Block(v, run[|run| - 2], payload); r.Leaves? && k < |r.next| && r.next[k] == run[|run| - 1]
  {
    hide Block, Known;
    var c, d := run[|run| - 2], run[|run| - 1];
    assert Step(v, c, d);
    payload :| Block(v, c, payload).Leaves? && d in Block(v, c, payload).next;
    k :| 0 <= k < |Block(v, c, payload).next| && Block(v, c, payload).next[k] == d;
  }

  /** Every run has a path beside it, unless it has gone into a double panic. */
  lemma {:induction false} RunBeside(v: Review, b: Begin, run: seq<Config>, ok: (Path, Staging) -> bool)
    returns (p: Path, s: Staging)
    requires Accepted(v, b) && RunsFrom(v, b, run) && !Aborts(v, run[|run| - 1].at)
    requires Everywhere(v, b.Origin(), Untouched, ok)
    ensures Beside(v, p, s, run[|run| - 1]) && Traced(p, run)
    ensures Everywhere(v, p, s, ok) && Everywhere(v, p, s, PhiTest(v)) && PhisHold(v, p)
    decreases |run|
  {
    assert |run| > 0;
    AcceptedIs(v, b);
    hide Good, Beside, Everywhere, Visit, Block, PhisHold, TrackBlock, RunsFrom, Aborts, Accepted, Traced;
    if |run| == 1 {
      OriginBeside(v, b, run);
      TracedFirst(b, run);
      p, s := b.Origin(), Untouched;
    } else {
      var c := run[|run| - 2];
      var payload, k := RunShrinks(v, b, run);
      if Aborts(v, c.at) { PanicBlockEnds(v, c, payload); }
      var q, u := RunBeside(v, b, run[..|run| - 1], ok);
      p, s := StepBeside(v, q, u, c, payload, k, ok);
      TracedOn(q, p, run);
    }
    TestedHere(v, p, s, PhiTest(v));
  }

  lemma TracedFirst(b: Begin, run: seq<Config>)
    requires |run| == 1
    ensures Traced(b.Origin(), run)
  {
  }

  lemma TracedOn(q: Path, p: Path, run: seq<Config>)
    requires |run| > 1 && Traced(q, run[..|run| - 1]) && run[|run| - 2].at !in q.history
    requires p.history == q.history + [run[|run| - 2].at]
    ensures Traced(p, run)
  {
  }

  lemma StepBeside(v: Review, q: Path, u: Staging, c: Config, payload: int, k: nat, ok: (Path, Staging) -> bool)
    returns (p: Path, s: Staging)
    requires Beside(v, q, u, c) && Everywhere(v, q, u, ok) && Everywhere(v, q, u, PhiTest(v)) && PhisHold(v, q)
    requires Block(v, c, payload).Leaves? && k < |Block(v, c, payload).next|
      && !Aborts(v, Block(v, c, payload).next[k].at)
    ensures Beside(v, p, s, Block(v, c, payload).next[k])
    ensures Everywhere(v, p, s, ok) && Everywhere(v, p, s, PhiTest(v))
    ensures c.at !in q.history && p.history == q.history + [c.at]
  {
    hide Good, Beside, Everywhere, Visit, Block, PhisHold, Numeric, TrackBlock, Aborts;
    BesideFaithful(v, q, u, c, payload);
    assert k < |Visit(v, q).paths|;
    BesideNext(v, q, u, c, payload, k);
    EverywhereHere(v, q, u, ok, k);
    EverywhereHere(v, q, u, PhiTest(v), k);
    p, s := Visit(v, q).paths[k], TrackBlock(v, q, u, k == 0);
  }

  /** Either the walk has set the register, or it holds what it held at the beginning. */
  predicate Held(r: Register, x: Value, env: Env, regs: Env) {
    r !in env ==> r in regs && regs[r] == x
  }

  /** The register that a line sets. */
  function Target(line: Instr): Option<Register> {
    match line
    case Phi(dst, _) => Some(dst)
    case Gep(dst, _, _) => Some(dst)
    case LoadPresence(dst, _) => Some(dst)
    case Compare(dst, _, _, _) => Some(dst)
    case Truncate(dst, _) => Some(dst)
    case LandingPad(dst) => Some(dst)
    case _ => None
  }

  /** Registers other than the line's target are as they were. */
  ghost predicate SetsOnly(line: Instr, before: Env, env: Env) {
    forall r :: Target(line) != Some(r) ==> (r in before <==> r in env) && (r in env ==> before[r] == env[r])
  }

  lemma LineTargets(v: Review, body: seq<Instr>, i: nat, p: Path)
    requires i < |body| && Line(v, body, i, p).Continues?
    ensures var q := Line(v, body, i, p).path;
      && q.prev == p.prev && SetsOnly(body[i], p.env, q.env)
      && (Target(body[i]).Some? ==> Target(body[i]).value in q.env)
  {
    hide Requests, Select, Look;
  }

  lemma RunTargets(body: seq<Instr>, i: nat, entry: Env, c: Config, payload: int)
    requires i < |body| && Execute(body, i, entry, c, payload).Steps?
    ensures SetsOnly(body[i], c.regs, Execute(body, i, entry, c, payload).c.regs)
    ensures Target(body[i]).Some? ==> Target(body[i]).value in Execute(body, i, entry, c, payload).c.regs
  {
    hide Asks, ClearedBytes, Select, Look, Bytes;
  }

  lemma LineGoesOn(v: Review, body: seq<Instr>, i: nat, entry: Env, p: Path, c: Config, payload: int)
    requires i < |body| && Line(v, body, i, p).Continues?
    ensures !Execute(body, i, entry, c, payload).Leaves?
  {
    hide Requests, Asks, ClearedBytes, Select, Look;
  }

  lemma LineHoldsOn(v: Review, body: seq<Instr>, i: nat, entry: Env, p: Path, c: Config, payload: int, r: Register,
      x: Value)
    requires i < |body| && Held(r, x, p.env, c.regs) && Line(v, body, i, p).Continues?
    ensures var o, e := Line(v, body, i, p), Execute(body, i, entry, c, payload);
      !e.Leaves? && (e.Steps? ==> Held(r, x, o.path.env, e.c.regs))
  {
    hide Line, Execute;
    LineGoesOn(v, body, i, entry, p, c, payload);
    LineTargets(v, body, i, p);
    if Execute(body, i, entry, c, payload).Steps? { RunTargets(body, i, entry, c, payload); }
  }

  lemma LineHoldsOut(v: Review, body: seq<Instr>, i: nat, entry: Env, p: Path, c: Config, payload: int, r: Register,
      x: Value)
    requires i < |body| && Held(r, x, p.env, c.regs) && Line(v, body, i, p).Forks?
    ensures var o, e := Line(v, body, i, p), Execute(body, i, entry, c, payload);
      !e.Steps? && (e.Leaves? ==>
        forall k :: 0 <= k < |o.paths| && k < |e.next| ==> Held(r, x, o.paths[k].env, e.next[k].regs))
  {
    hide Requests, Asks, ClearedBytes, Select, Look, Aborts;
  }

  lemma {:induction false} LinesHold(v: Review, body: seq<Instr>, i: nat, entry: Env, p: Path, c: Config, payload: int,
      r: Register, x: Value)
    requires i <= |body| && Held(r, x, p.env, c.regs)
    ensures var o, e := Lines(v, body, i, p), ExecuteFrom(body, i, entry, c, payload);
      o.Forks? && e.Leaves? ==>
        forall k :: 0 <= k < |o.paths| && k < |e.next| ==> Held(r, x, o.paths[k].env, e.next[k].regs)
    decreases |body| - i
  {
    hide Line, Execute, Held;
    if i < |body| {
      var o, e := Line(v, body, i, p), Execute(body, i, entry, c, payload);
      if o.Continues? { LineHoldsOn(v, body, i, entry, p, c, payload, r, x); }
      if o.Forks? { LineHoldsOut(v, body, i, entry, p, c, payload, r, x); }
      if o.Continues? && e.Steps? { LinesHold(v, body, i + 1, entry, o.path, e.c, payload, r, x); }
    }
  }

  lemma BlockHolds(v: Review, p: Path, s: Staging, c: Config, payload: int, k: nat, r: Register, x: Value)
    requires Beside(v, p, s, c) && Passable(v, p) && Visit(v, p).Forks? && k < |Visit(v, p).paths|
    requires Held(r, x, p.env, c.regs)
    ensures Block(v, c, payload).Leaves? && k < |Block(v, c, payload).next|
    ensures Held(r, x, Visit(v, p).paths[k].env, Block(v, c, payload).next[k].regs)
  {
    BesideNext(v, p, s, c, payload, k);
    MirrorsKnown(p, s, c);
    hide Held, Lines, ExecuteFrom, Passable, Beside, TrackBlock;
    LinesHold(v, v.blocks[p.at], 0, c.regs, Entering(p), c, payload, r, x);
  }

  /** Conversely, every path of the walk is a run, up to a block that is not passable: where the test
      fails, some run comes, and a register that the walk does not set keeps what it held. */
  lemma {:induction false} PathIsRun(v: Review, p: Path, s: Staging, c: Config, ok: (Path, Staging) -> bool,
      r: Register, x: Value) returns (run: seq<Config>, q: Path, u: Staging)
    requires Beside(v, p, s, c) && !Everywhere(v, p, s, ok) && Held(r, x, p.env, c.regs)
    ensures IsRun(v, run) && run[0] == c && Beside(v, q, u, run[|run| - 1]) && !ok(q, u) && OnWalk(v, p, s, q, u)
    ensures Held(r, x, q.env, run[|run| - 1].regs)
    decreases |Left(v, p)|
  {
    hide Good, Beside, Visit, Block, Passable, TrackBlock, Held;
    if !ok(p, s) {
      run, q, u := [c], p, s;
    } else {
      var k :| 0 <= k < |Visit(v, p).paths| && !Everywhere(v, Visit(v, p).paths[k], TrackBlock(v, p, s, k == 0), ok);
      BesideNext(v, p, s, c, 0, k);
      BlockHolds(v, p, s, c, 0, k, r, x);
      FewerLeft(v, p, Visit(v, p).paths[k]);
      var d := Block(v, c, 0).next[k];
      var rest;
      rest, q, u := PathIsRun(v, Visit(v, p).paths[k], TrackBlock(v, p, s, k == 0), d, ok, r, x);
      run := [c] + rest;
      RunGrows(v, c, rest);
    }
  }

  lemma RunGrows(v: Review, c: Config, rest: seq<Config>)
    requires IsRun(v, rest) && Step(v, c, rest[0])
    ensures IsRun(v, [c] + rest)
  {
    hide Step;
  }

  // ---------- the main results ----------

  lemma {:induction false} DistinctFit(history: seq<Label>, labels: set<Label>)
    requires Distinct(history) && forall l :: l in history ==> l in labels
    ensures |history| <= |labels|
    decreases |history|
  {
    if |history| > 0 {
      var n := |history| - 1;
      DistinctFit(history[..n], labels - {history[n]});
    }
  }

  function Labels(run: seq<Config>): seq<Label> {
    seq(|run|, i requires 0 <= i < |run| => run[i].at)
  }

  /** Before its last block a run has not panicked. */
  lemma LeavesNoPanic(v: Review, run: seq<Config>, i: nat)
    requires IsRun(v, run) && i < |run| - 1
    ensures !Aborts(v, run[i].at) && run[i].at in v.blocks
  {
    assert Step(v, run[i], run[i + 1]);
    var payload :| Block(v, run[i], payload).Leaves?;
    if Aborts(v, run[i].at) { PanicBlockEnds(v, run[i], payload); }
  }

  lemma TracedIsDistinct(v: Review, p: Path, run: seq<Config>)
    requires |run| > 0 && Traced(p, run) && p.at == run[|run| - 1].at && p.at !in p.history
    ensures Distinct(Labels(run))
  {
    assert Labels(run) == p.history + [p.at];
  }

  lemma RunIsTraced(v: Review, b: Begin, run: seq<Config>)
    requires Accepted(v, b) && RunsFrom(v, b, run) && !Aborts(v, run[|run| - 1].at)
    ensures Distinct(Labels(run)) && run[|run| - 1].at in v.blocks
  {
    assert |run| > 0;
    EverywhereTrue(v, b.Origin(), Untouched);
    AcceptedIs(v, b);
    hide Block, Beside, Everywhere, RunsFrom, Accepted, Aborts, Labels, Distinct, Visit, Numeric, TrackBlock, PhisHold,
      ExitsWell, Matched, Traced, Stands;
    var p, s := RunBeside(v, b, run, NoTest());
    BesideFaithful(v, p, s, run[|run| - 1], 0);
    TracedIsDistinct(v, p, run);
  }

  lemma DistinctMore(v: Review, run: seq<Config>)
    requires |run| > 1 && Distinct(Labels(run[..|run| - 1])) && Aborts(v, run[|run| - 1].at)
    requires forall i :: 0 <= i < |run| - 1 ==> !Aborts(v, run[i].at)
    ensures Distinct(Labels(run))
  {
    hide Aborts;
    assert Labels(run) == Labels(run[..|run| - 1]) + [run[|run| - 1].at];
  }

  lemma RunIsDistinct(v: Review, b: Begin, run: seq<Config>)
    requires Accepted(v, b) && RunsFrom(v, b, run)
    ensures Distinct(Labels(run)) && forall l :: l in Labels(run) ==> l in v.blocks
  {
    assert |run| > 0;
    var n := |run| - 1;
    forall i | 0 <= i < n ensures !Aborts(v, run[i].at) && run[i].at in v.blocks { LeavesNoPanic(v, run, i); }
    if !Aborts(v, run[n].at) {
      RunIsTraced(v, b, run);
    } else {
      OriginNoPanic(v, b);
      var payload, k := RunShrinks(v, b, run);
      RunIsTraced(v, b, run[..n]);
      DistinctMore(v, run);
    }
    hide *;
    hide Aborts, RunsFrom;
  }

  lemma {:induction false} LinesNoPanic(v: Review, body: seq<Instr>, i: nat, p: Path)
    requires i <= |body| && !Lines(v, body, i, p).Fails?
    ensures PanicInCleanup !in body[i..]
    decreases |body| - i
  {
    hide Requests;
    var o := Line(v, body, i, p);
    assert body[i..] == [body[i]] + body[i + 1..];
    if o.Continues? { LinesNoPanic(v, body, i + 1, o.path); } else { assert body[i + 1..] == []; }
  }

  lemma GoodNoPanic(v: Review, p: Path)
    requires Good(v, p)
    ensures !Aborts(v, p.at)
  {
    GoodNeverFails(v, p);
    hide Good, Lines;
    LinesNoPanic(v, v.blocks[p.at], 0, Entering(p));
    assert v.blocks[p.at][0..] == v.blocks[p.at];
  }

  lemma OriginNoPanic(v: Review, b: Begin)
    requires Accepted(v, b)
    ensures !Aborts(v, b.start)
  {
    GoodNoPanic(v, b.Origin());
  }

  /** Every run from where an accepted walk begins, whatever its payloads and however its invokes
      end, takes no more steps than there are blocks and never comes back to one. In a block that
      panics inside a cleanup it ends. Elsewhere it exits only with every required request made,
      everything that came back still clean but for three staging bytes, and an error in the
      result where that is due; and it is stuck only where the walk branches on something else
      than a number. */
  lemma AcceptedRunsAreSafe(v: Review, b: Begin, run: seq<Config>, payload: int)
    requires Accepted(v, b) && RunsFrom(v, b, run)
    ensures |run| <= |v.blocks| && Distinct(Labels(run))
    ensures var last, r := run[|run| - 1], Block(v, run[|run| - 1], payload);
      if Aborts(v, last.at) then !r.Exits? && !r.Leaves?
      else
        && (r.Stuck? || r.Exits? || r.Leaves?)
        && (r.Exits? ==> ExitsWell(v, r.c, r.returned))
        && (r.Stuck? ==> !BranchesOnNumbers(v, b.Origin()))
  {
    RunIsDistinct(v, b, run);
    DistinctFit(Labels(run), v.blocks.Keys);
    AcceptedIs(v, b);
    var last := run[|run| - 1];
    hide Block, Beside, Everywhere, RunsFrom, Accepted, Aborts, Labels, Distinct, Visit, Numeric, TrackBlock, PhisHold,
      ExitsWell, Matched;
    if Aborts(v, last.at) {
      PanicBlockEnds(v, last, payload);
    } else {
      EverywhereTrue(v, b.Origin(), Untouched);
      var p, s := RunBeside(v, b, run, NoTest());
      BesideFaithful(v, p, s, last, payload);
      if BranchesOnNumbers(v, b.Origin()) {
        var q, u := RunBeside(v, b, run, NumericTest(v));
        BesideFaithful(v, q, u, last, payload);
        TestedHere(v, q, u, NumericTest(v));
      }
    }
  }

  /** The registers that the walk begins with; what it does not know is some payload. */
  function Realised(env: Env): Env {
    map r | r in env :: if env[r].Unknown? then Payload(0) else env[r]
  }

  predicate NoPayloads(env: Env) {
    forall r :: r in env ==> !env[r].Payload?
  }

  /** There is a run wherever the walk begins, with whatever in a register that the walk does not know. */
  lemma BeginsSomewhere(v: Review, b: Begin, r: Register, x: Value) returns (c: Config)
    requires NoPayloads(b.env)
    ensures RunsFrom(v, b, [c]) && Held(r, x, b.env, c.regs)
  {
    var regs := if r in b.env then Realised(b.env) else Realised(b.env)[r := x];
    c := Config(b.start, b.prev, regs, map[(Initialization, 0) := (64, Num(1))], {}, {}, {});
  }

  /** A run comes wherever the walk fails a test. */
  lemma TestIsReached(v: Review, b: Begin, ok: (Path, Staging) -> bool, r: Register, x: Value)
    returns (run: seq<Config>, p: Path, s: Staging)
    requires Good(v, b.Origin()) && NoPayloads(b.env) && !Everywhere(v, b.Origin(), Untouched, ok)
    ensures RunsFrom(v, b, run) && Beside(v, p, s, run[|run| - 1]) && !ok(p, s)
    ensures OnWalk(v, b.Origin(), Untouched, p, s) && Held(r, x, p.env, run[|run| - 1].regs)
  {
    var c := BeginsSomewhere(v, b, r, x);
    OriginBeside(v, b, [c]);
    hide Good, Beside, Everywhere, IsRun, OnWalk, Held;
    run, p, s := PathIsRun(v, b.Origin(), Untouched, c, ok, r, x);
    RunNotEmpty(v, run);
  }

  lemma RunNotEmpty(v: Review, run: seq<Config>)
    requires IsRun(v, run)
    ensures |run| > 0
  {
  }

  ghost predicate GetsStuck(v: Review, b: Begin, run: seq<Config>, payload: int) {
    RunsFrom(v, b, run) && !Aborts(v, run[|run| - 1].at) && Block(v, run[|run| - 1], payload).Stuck?
  }

  /** Some run of an accepted walk's blocks gets stuck, outside a double panic, exactly if some
      path of the walk branches on a value that is not a number. */
  lemma StuckExactly(v: Review, b: Begin)
    requires Accepted(v, b) && NoPayloads(b.env)
    ensures (exists run, payload :: GetsStuck(v, b, run, payload)) <==> !BranchesOnNumbers(v, b.Origin())
  {
    forall run, payload | GetsStuck(v, b, run, payload) ensures !BranchesOnNumbers(v, b.Origin()) {
      AcceptedRunsAreSafe(v, b, run, payload);
    }
    if !BranchesOnNumbers(v, b.Origin()) {
      AcceptedIs(v, b);
      var run, p, s := TestIsReached(v, b, NumericTest(v), "", Num(0));
      OnWalkTested(v, b.Origin(), Untouched, p, s, PhiTest(v));
      hide Block, RunsFrom, Accepted, Aborts, Visit, Numeric, TrackBlock, PhisHold, Good, Mirrors;
      BesideFaithful(v, p, s, run[|run| - 1], 0);
      GoodNoPanic(v, p);
      if Visit(v, p).Ends? { NumericAtEnds(v, p); }
      assert GetsStuck(v, b, run, 0);
    }
  }

  /** A path that ends in a block has not branched there. */
  lemma NumericAtEnds(v: Review, p: Path)
    requires Visit(v, p).Ends?
    ensures Numeric(v, p)
  {
    LinesNumericAtEnds(v, v.blocks[p.at], 0, Entering(p));
  }

  lemma {:induction false} LinesNumericAtEnds(v: Review, body: seq<Instr>, i: nat, p: Path)
    requires i <= |body| && Lines(v, body, i, p).Ends?
    ensures NumericLines(v, body, i, p)
    decreases |body| - i
  {
    hide Requests;
    var o := Line(v, body, i, p);
    if o.Continues? { LinesNumericAtEnds(v, body, i + 1, o.path); }
  }

  /** An exit with a staging byte dirty although a request for the staging buffer has come back. */
  ghost predicate LeavesDirty(v: Review, b: Begin, run: seq<Config>, payload: int) {
    RunsFrom(v, b, run) && !Aborts(v, run[|run| - 1].at) && Block(v, run[|run| - 1], payload).Exits?
    && var c := Block(v, run[|run| - 1], payload).c; CLEARING in c.done && !(STAGE <= c.clean)
  }

  /** Some run of an accepted walk's blocks leaves a cleared staging byte dirty exactly if some
      path of the walk stores 64 bits at 859 after its last request for the staging buffer that
      came back. */
  lemma DirtyExactly(v: Review, b: Begin)
    requires Accepted(v, b) && NoPayloads(b.env)
    ensures (exists run, payload :: LeavesDirty(v, b, run, payload)) <==> !StagingLeftAlone(v, b.Origin())
  {
    forall run, payload | LeavesDirty(v, b, run, payload) ensures !StagingLeftAlone(v, b.Origin()) {
      if StagingLeftAlone(v, b.Origin()) { AloneIsClean(v, b, run, payload); }
    }
    if !StagingLeftAlone(v, b.Origin()) {
      AcceptedIs(v, b);
      var run, p, s := TestIsReached(v, b, CleanTest(v), "", Num(0));
      OnWalkTested(v, b.Origin(), Untouched, p, s, PhiTest(v));
      hide Block, RunsFrom, Accepted, Aborts, Visit, Numeric, TrackBlock, PhisHold, Good, Mirrors;
      BesideFaithful(v, p, s, run[|run| - 1], 0);
      GoodNoPanic(v, p);
      assert LeavesDirty(v, b, run, 0);
    }
  }

  lemma AloneIsClean(v: Review, b: Begin, run: seq<Config>, payload: int)
    requires Accepted(v, b) && RunsFrom(v, b, run) && StagingLeftAlone(v, b.Origin())
    ensures !LeavesDirty(v, b, run, payload)
  {
    assert |run| > 0;
    AcceptedIs(v, b);
    var last := run[|run| - 1];
    hide Block, Beside, Everywhere, RunsFrom, Accepted, Aborts, Visit, Numeric, TrackBlock, PhisHold, ExitsWell,
      Matched, Traced;
    if !Aborts(v, last.at) {
      var p, s := RunBeside(v, b, run, CleanTest(v));
      BesideFaithful(v, p, s, last, payload);
      TestedHere(v, p, s, CleanTest(v));
    }
  }

  // ---------- runs in which no clearing unwinds ----------

  ghost predicate AllBack(c: Config) {
    c.asked - {Drop} <= c.done
  }

  ghost predicate EndsInDrop(v: Review, l: Label) {
    l in v.blocks && v.blocks[l] != []
    && var line := v.blocks[l][|v.blocks[l]| - 1]; line.Call? && line.callee.DropInitialization?
  }

  /** The step takes the first successor, or leaves a drop of the initialization. */
  ghost predicate StepsBack(v: Review, c: Config, d: Config) {
    exists payload :: Block(v, c, payload).Leaves? && d in Block(v, c, payload).next
                      && (d == Block(v, c, payload).next[0] || EndsInDrop(v, c.at))
  }

  ghost predicate NoClearingUnwinds(v: Review, run: seq<Config>) {
    forall i :: 0 <= i < |run| - 1 ==> StepsBack(v, run[i], run[i + 1])
  }

  lemma {:induction false} LinesComeBack(body: seq<Instr>, i: nat, entry: Env, c: Config, payload: int)
    requires i <= |body| && AllBack(c)
    ensures var r := ExecuteFrom(body, i, entry, c, payload);
      && (r.Exits? ==> AllBack(r.c))
      && (r.Leaves? ==> |r.next| > 0 && AllBack(r.next[0]))
      && (r.Leaves? && body[|body| - 1].Call? && body[|body| - 1].callee.DropInitialization? ==>
            forall d :: d in r.next ==> AllBack(d))
    decreases |body| - i
  {
    if i < |body| {
      LineComesBack(body, i, entry, c, payload);
      hide AllBack, Execute;
      var r := Execute(body, i, entry, c, payload);
      if r.Steps? { LinesComeBack(body, i + 1, entry, r.c, payload); }
    }
  }

  lemma LineComesBack(body: seq<Instr>, i: nat, entry: Env, c: Config, payload: int)
    requires i < |body| && AllBack(c)
    ensures var r := Execute(body, i, entry, c, payload);
      && (r.Exits? ==> AllBack(r.c)) && (r.Steps? ==> AllBack(r.c))
      && (r.Leaves? ==> i + 1 == |body| && |r.next| > 0 && AllBack(r.next[0]))
      && (r.Leaves? && body[i].Call? && body[i].callee.DropInitialization? ==> forall d :: d in r.next ==> AllBack(d))
  {
    hide ClearedBytes;
  }

  lemma StepComesBack(v: Review, c: Config, d: Config)
    requires StepsBack(v, c, d) && AllBack(c)
    ensures AllBack(d)
  {
    var payload :| Block(v, c, payload).Leaves? && d in Block(v, c, payload).next
                   && (d == Block(v, c, payload).next[0] || EndsInDrop(v, c.at));
    hide AllBack, ExecuteFrom;
    LinesComeBack(v.blocks[c.at], 0, c.regs, c, payload);
  }

  lemma {:induction false} RunComesBack(v: Review, run: seq<Config>)
    requires |run| > 0 && NoClearingUnwinds(v, run) && AllBack(run[0])
    ensures AllBack(run[|run| - 1])
    decreases |run|
  {
    hide StepsBack, AllBack;
    if |run| > 1 {
      RunComesBack(v, run[..|run| - 1]);
      StepComesBack(v, run[|run| - 2], run[|run| - 1]);
    }
  }

  /** In a run in which no clearing invoke unwinds, all required bytes are clean at an exit, but for
      the three that a wide store can dirty; and these too if the walk leaves them alone. */
  lemma CleanUnlessUnwound(v: Review, b: Begin, run: seq<Config>, payload: int)
    requires Accepted(v, b) && RunsFrom(v, b, run) && NoClearingUnwinds(v, run)
    requires Block(v, run[|run| - 1], payload).Exits?
    ensures var c := Block(v, run[|run| - 1], payload).c;
      && v.required - {Drop} <= c.done && Kept(c)
      && (StagingLeftAlone(v, b.Origin()) && CLEARING in v.required ==> STAGE <= c.clean)
  {
    assert |run| > 0;
    var last := run[|run| - 1];
    AcceptedRunsAreSafe(v, b, run, payload);
    RunComesBack(v, run);
    LinesComeBack(v.blocks[last.at], 0, last.regs, last, payload);
    if StagingLeftAlone(v, b.Origin()) { AloneIsClean(v, b, run, payload); }
    if Aborts(v, last.at) { PanicBlockEnds(v, last, payload); }
  }

  // ---------- typing ----------

  datatype Type = Integer | Pointer | Exception
  type Types = map<Register, Type>

  predicate HasType(t: Types, o: Operand, x: Type) {
    match o
    case Lit(_) => x != Exception
    case Reg(r) => r in t && t[r] == x
  }

  predicate LineTyped(t: Types, line: Instr) {
    match line
    case Phi(dst, arms) => dst in t && forall arm :: arm in arms ==> HasType(t, arm.0, t[dst])
    case Gep(dst, _, _) => HasType(t, Reg(dst), Pointer)
    case LoadPresence(dst, _) => HasType(t, Reg(dst), Integer)
    case Compare(dst, _, _, _) => HasType(t, Reg(dst), Integer)
    case Truncate(dst, _) => HasType(t, Reg(dst), Integer)
    case LandingPad(dst) => HasType(t, Reg(dst), Exception)
    case Branch(condition, _, _) => HasType(t, Reg(condition), Integer)
    case _ => true
  }

  /** What LLVM's types say of the reviewed blocks. */
  ghost predicate WellTyped(v: Review, t: Types) {
    forall l, line :: l in v.blocks && line in v.blocks[l] ==> LineTyped(t, line)
  }

  ghost predicate EnvTyped(t: Types, env: Env) {
    forall r :: r in env && r in t && t[r] == Integer ==> env[r].Num?
  }

  lemma LineKeepsTypes(v: Review, t: Types, body: seq<Instr>, i: nat, p: Path)
    requires i < |body| && LineTyped(t, body[i]) && EnvTyped(t, p.env)
    ensures Line(v, body, i, p).Continues? ==> EnvTyped(t, Line(v, body, i, p).path.env)
    ensures Line(v, body, i, p).Forks? ==> forall q :: q in Line(v, body, i, p).paths ==> EnvTyped(t, q.env)
  {
    hide Requests;
    if body[i].Phi? && Line(v, body, i, p).Continues? {
      var o := Select(body[i].arms, p.prev).value;
      assert (o, p.prev.value) in body[i].arms;
    }
  }

  lemma {:induction false} LinesKeepTypes(v: Review, t: Types, body: seq<Instr>, i: nat, p: Path)
    requires i <= |body| && (forall line :: line in body ==> LineTyped(t, line)) && EnvTyped(t, p.env)
    ensures Lines(v, body, i, p).Forks? ==> forall q :: q in Lines(v, body, i, p).paths ==> EnvTyped(t, q.env)
    ensures !Lines(v, body, i, p).Fails? ==> NumericLines(v, body, i, p)
    decreases |body| - i
  {
    hide LineTyped, EnvTyped;
    if i < |body| {
      var o := Line(v, body, i, p);
      LineKeepsTypes(v, t, body, i, p);
      if o.Continues? {
        LinesKeepTypes(v, t, body, i + 1, o.path);
        NotABranch(v, body, i, p);
      } else if !o.Fails? {
        BranchTyped(v, t, body, i, p);
      }
    }
  }

  lemma NotABranch(v: Review, body: seq<Instr>, i: nat, p: Path)
    requires i < |body| && Line(v, body, i, p).Continues?
    ensures !body[i].Branch?
  {
  }

  lemma BranchTyped(v: Review, t: Types, body: seq<Instr>, i: nat, p: Path)
    requires i < |body| && LineTyped(t, body[i]) && EnvTyped(t, p.env)
    requires !Line(v, body, i, p).Fails? && !Line(v, body, i, p).Continues?
    ensures NumericLines(v, body, i, p)
  {
    hide Requests;
  }

  /** Typed blocks branch on nothing but numbers. */
  lemma {:induction false} TypedBranchesOnNumbers(v: Review, t: Types, p: Path, s: Staging)
    requires WellTyped(v, t) && EnvTyped(t, p.env) && Good(v, p)
    ensures Everywhere(v, p, s, NumericTest(v))
    decreases |Left(v, p)|
  {
    GoodNeverFails(v, p);
    LinesKeepTypes(v, t, v.blocks[p.at], 0, Entering(p));
    hide EnvTyped, WellTyped, TrackBlock, Lines;
    if Visit(v, p).Forks? {
      forall k | 0 <= k < |Visit(v, p).paths|
        ensures Everywhere(v, Visit(v, p).paths[k], TrackBlock(v, p, s, k == 0), NumericTest(v))
      {
        GoodChild(v, p, k);
        FewerLeft(v, p, Visit(v, p).paths[k]);
        TypedBranchesOnNumbers(v, t, Visit(v, p).paths[k], TrackBlock(v, p, s, k == 0));
      }
    }
  }

  /** A block without phis holds. */
  lemma {:induction false} NoPhisHold(v: Review, body: seq<Instr>, i: nat, entry: Env, p: Path)
    requires i <= |body| && forall line :: line in body ==> !line.Phi?
    ensures PhiLinesHold(v, body, i, |body|, entry, p)
    decreases |body| - i
  {
    hide Line;
    if i < |body| && Line(v, body, i, p).Continues? { NoPhisHold(v, body, i + 1, entry, Line(v, body, i, p).path); }
  }

  lemma EverywhereAtEnd(v: Review, p: Path, s: Staging, ok: (Path, Staging) -> bool)
    requires !Visit(v, p).Forks? && ok(p, s)
    ensures Everywhere(v, p, s, ok)
  {
    hide Visit;
  }

  // ---------- two accepted walks ----------

  const GUARDED: Env := map["storage" := Address((Storage, 0)), "failed" := Address((Storage, 859))]

  function WideAfterGuard(): Review {
    Review(map["start" := [Call(DropGuard(Reg("storage"), true), None), Store(64, Lit(1), "failed"), Return]],
           true, GUARD_EVENTS, GuardExit)
  }

  lemma WideAfterGuardIsDirty(p: Path)
    requires p == Path("start", None, GUARDED, map[], {}, [])
    ensures Good(WideAfterGuard(), p) && Visit(WideAfterGuard(), p).Ends?
    ensures TrackBlock(WideAfterGuard(), p, Untouched, true) == Dirtied
  {
    var v := WideAfterGuard();
    var body := v.blocks["start"];
    var q := p.(history := ["start"], events := GUARD_EVENTS);
    assert Entering(p) == p.(history := ["start"]);
    assert Line(v, body, 0, Entering(p)) == Continues(q);
    var r := q.(memory := map[(Storage, 859) := (64, Num(1))]);
    assert Line(v, body, 1, q) == Continues(r);
    assert Line(v, body, 2, r) == Ends;
    assert Lines(v, body, 2, r) == Ends;
    assert Lines(v, body, 1, q) == Ends;
    assert TrackLines(v, body, 2, r, Dirtied, true) == Dirtied;
    assert TrackLines(v, body, 1, q, Clean, true) == Dirtied;
  }

  /** The walk lets a 64-bit store at 859 follow the clearing of the staging bytes from 864 on: it
      accepts, and some run leaves cleared bytes dirty. */
  lemma WideStoreDirtiesStaging() returns (b: Begin)
    ensures WideAfterGuard().required == GUARD_EVENTS && Accepted(WideAfterGuard(), b)
    ensures exists run, payload :: LeavesDirty(WideAfterGuard(), b, run, payload)
  {
    b := Begin("start", None, GUARDED);
    var v := WideAfterGuard();
    WideAfterGuardIsDirty(b.Origin());
    NoPhisHold(v, v.blocks["start"], 0, GUARDED, Entering(b.Origin()));
    hide WideAfterGuard, Good, PhisHold, Visit, TrackBlock, LeavesDirty;
    EverywhereAtEnd(v, b.Origin(), Untouched, PhiTest(v));
    TestedHere(v, b.Origin(), Untouched, CleanTest(v));
    DirtyExactly(v, b);
  }

  function BranchOnPayload(): Review {
    Review(map["start" := [LandingPad("x"), Branch("x", "left", "right")], "left" := [Return]], true, {}, GuardExit)
  }

  /** What the typing is needed for: the walk takes an unknown value for true and follows a branch
      on a landing pad, which LLVM's types exclude, to one side only. */
  lemma UntypedBranchIsFollowed(p: Path)
    requires p == Path("start", None, map[], map[], {}, [])
    ensures Good(BranchOnPayload(), p) && !BranchesOnNumbers(BranchOnPayload(), p)
  {
    var v := BranchOnPayload();
    var body := v.blocks["start"];
    var q := p.(history := ["start"], env := map["x" := Unknown]);
    var left := Enter(q, "left");
    assert Entering(p) == p.(history := ["start"]);
    assert Line(v, body, 0, Entering(p)) == Continues(q);
    assert Line(v, body, 1, q) == Forks([left]);
    assert Lines(v, body, 1, q) == Forks([left]);
    assert Visit(v, p) == Forks([left]);
    assert Line(v, [Return], 0, Entering(left)) == Ends;
    assert Visit(v, left) == Ends;
    assert Good(v, left);
    assert !NumericLines(v, body, 1, q);
    assert !NumericLines(v, body, 0, Entering(p));
    assert !NumericTest(v)(p, Untouched);
  }
}
