/** The early-cleanup checker: a depth-first search over (block, progress, attempted) states
    of a verifier before it hands its descriptor to the finish routine.

    The first half gives the parsed blocks, what one visit of a block checks, and the search.
    `Approved` says without any search what acceptance means; `Inspect` decides it. */
module EarlyCleanup {
  import opened Options
  import opened ControlGraph

  type Register = string
  datatype Role = Clear | Glue | Comparison

  /** One parsed line. A request names the register that holds the metadata pointer and the
      constant offset and width it clears; `original` says that the state destructor gets
      the state field of %self; other definitions have values nothing is known about. */
  datatype Instr =
    | Plain
    | Define(dst: Register)
    | LoadOwner(dst: Register)
    | Request(role: Role, base: Register, offset: int, width: int, invoked: bool)
    | StateDrop(original: bool, invoked: bool)
    | Panic
    | Unreviewed

  datatype Exit = Targets(labels: seq<Label>) | Return | Resume | Unreachable
  datatype Block = Block(body: seq<Instr>, exit: Exit)
  datatype Function = Function(blocks: map<Label, Block>, finish: Label)

  const START: Label := "start"
  const REGIONS: seq<(int, int)> := [(64, 1), (0, 64), (65, 1)]

  function Defines(line: Instr): Option<Register> {
    match line
    case Define(r) => Some(r)
    case LoadOwner(r) => Some(r)
    case _ => None
  }

  /** What the block inventory has already checked: the start and finish blocks exist, every
      named successor exists, and no block defines a register twice. */
  ghost predicate WellFormed(f: Function) {
    && START in f.blocks && f.finish in f.blocks
    && (forall l, k :: l in f.blocks && f.blocks[l].exit.Targets? && 0 <= k < |f.blocks[l].exit.labels| ==>
          f.blocks[l].exit.labels[k] in f.blocks)
    && (forall l :: l in f.blocks ==> SingleAssignment(f.blocks[l].body))
  }

  ghost predicate SingleAssignment(body: seq<Instr>) {
    forall i, j :: 0 <= i < j < |body| && Defines(body[i]).Some? ==> Defines(body[i]) != Defines(body[j])
  }

  datatype State = State(at: Label, progress: nat, attempted: bool)

  /** How far the scan of one block has come; `forks` is set by a cleanup invoke. */
  datatype Scan = Bad | Scanned(progress: nat, attempted: bool, forks: Option<seq<State>>)

  predicate LoadedBefore(body: seq<Instr>, i: nat, base: Register)
    requires i <= |body|
  {
    exists j :: 0 <= j < i && body[j] == LoadOwner(base)
  }

  /** The progress once a request completes, or nothing when the request is out of order,
      names another region, or does not use the metadata pointer loaded before it. */
  function Completes(body: seq<Instr>, i: nat, progress: nat, attempted: bool): Option<nat>
    requires i < |body| && body[i].Request?
  {
    var line := body[i];
    if line.role.Comparison? || progress >= 3 || !LoadedBefore(body, i, line.base) then None
    else if line.role.Clear? then
      if (line.offset, line.width) == REGIONS[progress] then Some(progress + 1) else None
    else if line.offset == 0 && progress == 0 && !attempted then Some(3)
    else None
  }

  /** The effect of line i on a scan. */
  function ScanLine(b: Block, i: nat, s: Scan): Scan
    requires i < |b.body| && s.Scanned?
  {
    match b.body[i]
    case Plain => s
    case Define(_) => s
    case LoadOwner(_) => s
    case Request(_, _, _, _, invoked) =>
      var completed := Completes(b.body, i, s.progress, s.attempted);
      if completed.None? then Bad
      else if !invoked then s.(progress := completed.value, attempted := true)
      else if i == |b.body| - 1 && b.exit.Targets? && |b.exit.labels| == 2 then
        s.(attempted := true, forks := Some([State(b.exit.labels[0], completed.value, true),
                                             State(b.exit.labels[1], s.progress, true)]))
      else Bad
    case StateDrop(original, invoked) => if original && invoked && !s.attempted then s else Bad
    case Panic => if b.exit.Unreachable? then s else Bad
    case Unreviewed => Bad
  }

  /** The scan of the lines from i on. */
  function ScanFrom(b: Block, i: nat, s: Scan): Scan
    requires i <= |b.body|
    decreases |b.body| - i
  {
    if s.Bad? || i == |b.body| then s else ScanFrom(b, i + 1, ScanLine(b, i, s))
  }

  datatype ExitKind = Handoff | Returned | Resumed

  /** What visiting a state yields: a rejection, or an exit kind and the next states. */
  datatype Outcome = Reject | Go(kind: Option<ExitKind>, next: seq<State>)

  /** The checks at the end of a scanned block, and its successors. */
  function Leave(b: Block, s: Scan): Outcome
  {
    if s.Bad? then Reject else
    match b.exit
    case Targets(labels) =>
      Go(None, if s.forks.Some? then s.forks.value
               else seq(|labels|, k requires 0 <= k < |labels| => State(labels[k], s.progress, s.attempted)))
    case Return => if s.progress == 3 then Go(Some(Returned), []) else Reject
    case Resume => if s.attempted then Go(Some(Resumed), []) else Reject
    case Unreachable => if s.attempted && Panic in b.body then Go(None, []) else Reject
  }

  function Visit(f: Function, s: State): Outcome
    requires s.at in f.blocks
  {
    if s.at == f.finish then
      if s.progress == 0 && !s.attempted then Go(Some(Handoff), []) else Reject
    else
      var b := f.blocks[s.at];
      Leave(b, ScanFrom(b, 0, Scanned(s.progress, s.attempted, None)))
  }

  // ---------- what acceptance means ----------

  ghost predicate Move(f: Function, s: State, t: State) {
    s.at in f.blocks && Visit(f, s).Go? && t in Visit(f, s).next
  }

  /** A run of states from the start state. */
  ghost predicate StatePath(f: Function, p: seq<State>) {
    && |p| > 0 && p[0] == State(START, 0, false)
    && forall i :: 0 <= i < |p| - 1 ==> Move(f, p[i], p[i + 1])
  }

  ghost predicate ReachableBy(f: Function, p: seq<State>, s: State) {
    StatePath(f, p) && p[|p| - 1] == s
  }

  ghost predicate Reachable(f: Function, s: State) {
    exists p :: ReachableBy(f, p, s)
  }

  ghost predicate DistinctLabels(p: seq<State>) {
    forall i, j :: 0 <= i < j < |p| ==> p[i].at != p[j].at
  }

  ghost predicate Attained(f: Function, k: ExitKind) {
    exists s :: Reachable(f, s) && s.at in f.blocks && Visit(f, s).Go? && Visit(f, s).kind == Some(k)
  }

  ghost predicate Entered(f: Function, l: Label) {
    l != f.finish && exists s :: Reachable(f, s) && s.at == l
  }

  /** The lines of the selected kind in the blocks that some run scans. */
  ghost function Sites(f: Function, drops: bool): set<(Label, nat)> {
    set l, i | l in f.blocks && 0 <= i < |f.blocks[l].body| && Entered(f, l) &&
               Site(f.blocks[l].body[i], drops) :: (l, i)
  }

  predicate Site(line: Instr, drops: bool) {
    if drops then line.StateDrop? else line.Request?
  }

  /** Every reachable state passes its checks, no run comes back to a block, every exit kind
      is attained, and four cleanup requests and one state destructor are reachable. */
  ghost predicate Approved(f: Function) {
    && (forall s :: Reachable(f, s) ==> s.at in f.blocks && Visit(f, s).Go?)
    && (forall p :: StatePath(f, p) ==> DistinctLabels(p))
    && (forall k :: Attained(f, k))
    && |Sites(f, false)| == 4 && |Sites(f, true)| == 1
  }

  // ---------- facts about one visit ----------

  ghost function Universe(f: Function): set<State> {
    set l, p, a | l in f.blocks && 0 <= p <= 3 && a in {false, true} :: State(l, p, a)
  }

  ghost predicate InRange(b: Block, s: Scan) {
    s.Scanned? ==>
      && s.progress <= 3
      && (s.forks.Some? ==>
          && b.exit.Targets? && |b.exit.labels| == 2 && |s.forks.value| == 2
          && forall k :: 0 <= k < 2 ==> s.forks.value[k].at == b.exit.labels[k] && s.forks.value[k].progress <= 3)
  }

  lemma {:induction false} ScanInRange(b: Block, i: nat, s: Scan)
    requires i <= |b.body| && InRange(b, s)
    ensures InRange(b, ScanFrom(b, i, s))
    decreases |b.body| - i
  {
    if s.Scanned? && i < |b.body| {
      ScanInRange(b, i + 1, ScanLine(b, i, s));
    }
  }

  /** The successors of a state are its block's targets, in order, whatever the progress. */
  lemma NextStates(f: Function, s: State)
    requires WellFormed(f) && s in Universe(f) && Visit(f, s).Go?
    ensures forall t :: t in Visit(f, s).next ==> t in Universe(f)
    ensures s.at == f.finish ==> Visit(f, s).next == []
    ensures s.at != f.finish && f.blocks[s.at].exit.Targets? ==>
      |Visit(f, s).next| == |f.blocks[s.at].exit.labels| &&
      forall k :: 0 <= k < |Visit(f, s).next| ==> Visit(f, s).next[k].at == f.blocks[s.at].exit.labels[k]
    ensures s.at != f.finish && !f.blocks[s.at].exit.Targets? ==> Visit(f, s).next == []
  {
    if s.at != f.finish {
      var b := f.blocks[s.at];
      ScanInRange(b, 0, Scanned(s.progress, s.attempted, None));
      forall k | 0 <= k < |Visit(f, s).next|
        ensures b.exit.Targets? && |Visit(f, s).next| == |b.exit.labels|
        ensures Visit(f, s).next[k].at == b.exit.labels[k] && Visit(f, s).next[k].progress <= 3
      {
        var scan := ScanFrom(b, 0, Scanned(s.progress, s.attempted, None));
        if scan.forks.Some? && k != 0 { assert k == 1; }
      }
    }
  }

  // ---------- the depth-first search ----------

  datatype Entry = Entry(state: State, ancestors: seq<Label>)

  function Labels(p: seq<State>): seq<Label> {
    seq(|p|, i requires 0 <= i < |p| => p[i].at)
  }

  ghost function Top(paths: seq<seq<State>>): seq<State> {
    if |paths| == 0 then [] else paths[|paths| - 1]
  }

  ghost predicate PendingAt(todo: seq<Entry>, paths: seq<seq<State>>, q: seq<State>, t: State)
    requires |todo| == |paths|
  {
    exists i :: 0 <= i < |todo| && paths[i] == q && todo[i].state == t
  }

  /** Each pending entry comes with the run that leads to it; the runs are nested. */
  ghost predicate Stacked(f: Function, todo: seq<Entry>, paths: seq<seq<State>>) {
    && |todo| == |paths|
    && (forall i :: 0 <= i < |todo| ==> StatePath(f, paths[i] + [todo[i].state]))
    && (forall i :: 0 <= i < |todo| ==> todo[i].ancestors == Labels(paths[i]))
    && (forall i :: 0 <= i < |todo| ==> todo[i].state in Universe(f))
    && (forall i, j :: 0 <= i <= j < |todo| ==> paths[i] <= paths[j])
  }

  /** Finished states are ranked: every successor of one is finished with a smaller rank. */
  ghost predicate Ranked(f: Function, rank: map<State, nat>) {
    && (forall s :: s in rank ==> s in Universe(f) && Visit(f, s).Go? && rank[s] < |rank|)
    && (forall s, t :: s in rank && Move(f, s, t) ==> t in rank && rank[t] < rank[s])
  }

  /** The open run: every successor of an open state is finished, open next, or pending. */
  ghost predicate Open(f: Function, todo: seq<Entry>, paths: seq<seq<State>>, open: seq<State>, rank: map<State, nat>)
    requires |todo| == |paths|
  {
    && (forall k :: 0 <= k < |open| ==> open[k] in Universe(f) && open[k] !in rank && Visit(f, open[k]).Go?)
    && DistinctLabels(open)
    && (forall k, t :: 0 <= k < |open| && Move(f, open[k], t) ==>
          || t in rank
          || (k + 1 < |open| && t == open[k + 1])
          || PendingAt(todo, paths, open[..k + 1], t))
  }

  ghost predicate Seen(visited: set<State>, open: seq<State>, rank: map<State, nat>) {
    forall s :: s in visited <==> s in open || s in rank
  }

  /** The last open state has only finished successors once nothing is pending below it. */
  lemma LastIsFinished(f: Function, todo: seq<Entry>, paths: seq<seq<State>>, rest: seq<State>, s: State,
      rank: map<State, nat>)
    requires Stacked(f, todo, paths) && Top(paths) <= rest
    requires Open(f, todo, paths, rest + [s], rank)
    ensures forall t :: Move(f, s, t) ==> t in rank
  {
    var open := rest + [s];
    assert open[|rest|] == s && open[..|rest| + 1] == open;
    assert forall i :: 0 <= i < |todo| ==> paths[i] <= Top(paths) && |paths[i]| <= |rest|;
  }

  lemma RankLast(f: Function, s: State, rank: map<State, nat>)
    requires Ranked(f, rank) && s in Universe(f) && s !in rank && Visit(f, s).Go?
    requires forall t :: Move(f, s, t) ==> t in rank
    ensures Ranked(f, rank[s := |rank|])
  {
    hide Visit, Universe, Move;
    var next := rank[s := |rank|];
    assert |next| == |rank| + 1 by { assert next.Keys == rank.Keys + {s}; }
  }

  lemma OpenShrinks(f: Function, todo: seq<Entry>, paths: seq<seq<State>>, rest: seq<State>, s: State,
      rank: map<State, nat>, n: nat)
    requires |todo| == |paths| && Open(f, todo, paths, rest + [s], rank)
    ensures Open(f, todo, paths, rest, rank[s := n])
  {
    var open := rest + [s];
    assert open[|rest|] == s;
    assert forall k :: 0 <= k < |rest| ==> rest[k] == open[k] && open[k].at != s.at;
    forall k, t | 0 <= k < |rest| && Move(f, rest[k], t)
      ensures t in rank[s := n] || (k + 1 < |rest| && t == rest[k + 1]) || PendingAt(todo, paths, rest[..k + 1], t)
    {
      assert rest[..k + 1] == open[..k + 1];
    }
  }

  /** Closing the open states that have nothing pending any more. */
  lemma {:induction false} Close(f: Function, todo: seq<Entry>, paths: seq<seq<State>>, open: seq<State>,
      visited: set<State>, rank: map<State, nat>) returns (closed: map<State, nat>)
    requires Stacked(f, todo, paths) && Top(paths) <= open
    requires Open(f, todo, paths, open, rank) && Ranked(f, rank) && Seen(visited, open, rank)
    ensures Open(f, todo, paths, Top(paths), closed) && Ranked(f, closed) && Seen(visited, Top(paths), closed)
    decreases |open|
  {
    closed := rank;
    if |open| == |Top(paths)| {
      assert open == Top(paths);
    } else {
      var s, rest := open[|open| - 1], open[..|open| - 1];
      assert open == rest + [s];
      assert s in Universe(f) && s !in rank && Visit(f, s).Go?;
      LastIsFinished(f, todo, paths, rest, s, rank);
      RankLast(f, s, rank);
      OpenShrinks(f, todo, paths, rest, s, rank, |rank|);
      assert Seen(visited, rest, rank[s := |rank|]);
      hide *;
      assert Top(paths) <= rest;
      closed := Close(f, todo, paths, rest, visited, rank[s := |rank|]);
    }
  }

  const BEGIN: State := State(START, 0, false)

  /** The invariant of the search. */
  ghost predicate Searching(f: Function, todo: seq<Entry>, paths: seq<seq<State>>, visited: set<State>,
      rank: map<State, nat>)
  {
    && Stacked(f, todo, paths)
    && Open(f, todo, paths, Top(paths), rank)
    && Ranked(f, rank)
    && Seen(visited, Top(paths), rank)
    && (forall s :: s in visited ==> s in Universe(f) && Reachable(f, s) && Visit(f, s).Go?)
    && (BEGIN in visited || (todo == [Entry(BEGIN, [])] && paths == [[]]))
  }

  lemma SearchBegins(f: Function)
    requires WellFormed(f)
    ensures Searching(f, [Entry(BEGIN, [])], [[]], {}, map[])
  {
    assert [] + [BEGIN] == [BEGIN];
    assert BEGIN in Universe(f);
  }

  lemma AncestorsAreLabels(path: seq<State>, s: State)
    requires DistinctLabels(path)
    ensures s.at in Labels(path) <==> !DistinctLabels(path + [s])
  {
    assert forall i :: 0 <= i < |path| ==> path[i].at == Labels(path)[i];
    if s.at in Labels(path) {
      var i :| 0 <= i < |path| && path[i].at == s.at;
      assert (path + [s])[i].at == (path + [s])[|path|].at;
    }
  }

  /** Facts about the entry on top of the stack. */
  lemma TopEntry(f: Function, todo: seq<Entry>, paths: seq<seq<State>>, e: Entry, path: seq<State>,
      visited: set<State>, rank: map<State, nat>)
    requires Searching(f, todo + [e], paths + [path], visited, rank) && |todo| == |paths|
    ensures Top(paths + [path]) == path && Top(paths) <= path
    ensures StatePath(f, path + [e.state]) && e.ancestors == Labels(path) && e.state in Universe(f)
    ensures Reachable(f, e.state)
    ensures Stacked(f, todo, paths)
    ensures e.state.at in e.ancestors <==> !DistinctLabels(path + [e.state])
    ensures BEGIN in visited || (path == [] && e.state == BEGIN)
  {
    StackTop(f, todo, paths, e, path);
    assert DistinctLabels(path);
    hide StatePath, Move;
    RunReaches(f, path, e.state);
    AncestorsAreLabels(path, e.state);
  }

  lemma RunReaches(f: Function, path: seq<State>, s: State)
    requires StatePath(f, path + [s])
    ensures Reachable(f, s)
  {
    assert ReachableBy(f, path + [s], s);
  }

  lemma StackTop(f: Function, todo: seq<Entry>, paths: seq<seq<State>>, e: Entry, path: seq<State>)
    requires Stacked(f, todo + [e], paths + [path]) && |todo| == |paths|
    ensures Top(paths + [path]) == path && Top(paths) <= path
    ensures StatePath(f, path + [e.state]) && e.ancestors == Labels(path) && e.state in Universe(f)
    ensures Stacked(f, todo, paths)
  {
    hide StatePath, Labels, Universe;
    var t, q := todo + [e], paths + [path];
    assert t[|todo|] == e && q[|todo|] == path;
    assert forall i :: 0 <= i < |todo| ==> t[i] == todo[i] && q[i] == paths[i];
  }

  lemma StillPending(todo: seq<Entry>, paths: seq<seq<State>>, e: Entry, path: seq<State>, more: seq<Entry>,
      morePaths: seq<seq<State>>, q: seq<State>, t: State)
    requires |todo| == |paths| && |more| == |morePaths| && todo <= more && paths <= morePaths
    requires PendingAt(todo + [e], paths + [path], q, t)
    ensures (q == path && t == e.state) || PendingAt(more, morePaths, q, t)
  {
    var i :| 0 <= i < |todo + [e]| && (paths + [path])[i] == q && (todo + [e])[i].state == t;
    if i < |todo| {
      assert more[i].state == t && morePaths[i] == q;
    }
  }

  /** An entry whose state was visited is dropped; the run that led to it may close. */
  lemma Prune(f: Function, todo: seq<Entry>, paths: seq<seq<State>>, e: Entry, path: seq<State>,
      visited: set<State>, rank: map<State, nat>) returns (closed: map<State, nat>)
    requires |todo| == |paths| && Searching(f, todo + [e], paths + [path], visited, rank)
    requires e.state in visited && e.state.at !in e.ancestors
    ensures Searching(f, todo, paths, visited, closed)
  {
    TopEntry(f, todo, paths, e, path, visited, rank);
    assert e.state in rank by {
      assert forall k :: 0 <= k < |path| ==> path[k].at == Labels(path)[k];
    }
    assert Open(f, todo, paths, path, rank) by {
      forall k, t | 0 <= k < |path| && Move(f, path[k], t)
        ensures t in rank || (k + 1 < |path| && t == path[k + 1]) || PendingAt(todo, paths, path[..k + 1], t)
      {
        if PendingAt(todo + [e], paths + [path], path[..k + 1], t) {
          StillPending(todo, paths, e, path, todo, paths, path[..k + 1], t);
        }
      }
    }
    hide Move, Open, Stacked, Ranked, Visit;
    closed := Close(f, todo, paths, path, visited, rank);
  }

  ghost function Repeat(q: seq<State>, n: nat): seq<seq<State>> {
    seq(n, i => q)
  }

  lemma ChildrenStack(f: Function, todo: seq<Entry>, paths: seq<seq<State>>, s: State, path: seq<State>,
      more: seq<Entry>)
    requires WellFormed(f) && Stacked(f, todo, paths) && Top(paths) <= path
    requires s in Universe(f) && Visit(f, s).Go? && StatePath(f, path + [s])
    requires more == todo + seq(|Visit(f, s).next|, k requires 0 <= k < |Visit(f, s).next| =>
                                  Entry(Visit(f, s).next[k], Labels(path) + [s.at]))
    ensures Stacked(f, more, paths + Repeat(path + [s], |Visit(f, s).next|))
    ensures Top(paths + Repeat(path + [s], |Visit(f, s).next|)) <= path + [s]
    ensures Visit(f, s).next != [] ==> Top(paths + Repeat(path + [s], |Visit(f, s).next|)) == path + [s]
  {
    var open, next := path + [s], Visit(f, s).next;
    var morePaths := paths + Repeat(open, |next|);
    NextStates(f, s);
    assert Labels(open) == Labels(path) + [s.at];
    forall i | |todo| <= i < |more|
      ensures StatePath(f, morePaths[i] + [more[i].state]) && more[i].state in Universe(f)
    {
      var t := next[i - |todo|];
      assert morePaths[i] == open && more[i].state == t && Move(f, s, t);
      var p := open + [t];
      forall k | 0 <= k < |p| - 1 ensures Move(f, p[k], p[k + 1]) {
        if k < |open| - 1 { assert p[k] == open[k] && p[k + 1] == open[k + 1]; }
      }
      assert p[0] == open[0];
    }
    forall i, j | 0 <= i <= j < |more| ensures morePaths[i] <= morePaths[j] {
      if i < |todo| {
        assert paths[i] <= Top(paths) <= path <= open;
        if j < |todo| { assert paths[i] <= paths[j]; }
      }
    }
  }

  lemma ChildrenOpen(f: Function, todo: seq<Entry>, paths: seq<seq<State>>, e: Entry, path: seq<State>,
      more: seq<Entry>, rank: map<State, nat>)
    requires |todo| == |paths| && Open(f, todo + [e], paths + [path], path, rank)
    requires e.state in Universe(f) && Visit(f, e.state).Go? && e.state !in rank && DistinctLabels(path + [e.state])
    requires more == todo + seq(|Visit(f, e.state).next|, k requires 0 <= k < |Visit(f, e.state).next| =>
                                  Entry(Visit(f, e.state).next[k], Labels(path) + [e.state.at]))
    ensures Open(f, more, paths + Repeat(path + [e.state], |Visit(f, e.state).next|), path + [e.state], rank)
  {
    var s := e.state;
    var open, next := path + [s], Visit(f, s).next;
    var morePaths := paths + Repeat(open, |next|);
    forall k, t | 0 <= k < |open| && Move(f, open[k], t)
      ensures t in rank || (k + 1 < |open| && t == open[k + 1]) || PendingAt(more, morePaths, open[..k + 1], t)
    {
      if k == |path| {
        var j :| 0 <= j < |next| && next[j] == t;
        assert more[|todo| + j].state == t && morePaths[|todo| + j] == open == open[..k + 1];
      } else {
        assert open[k] == path[k] && open[..k + 1] == path[..k + 1];
        if PendingAt(todo + [e], paths + [path], path[..k + 1], t) {
          StillPending(todo, paths, e, path, more, morePaths, path[..k + 1], t);
        }
      }
    }
  }

  lemma SeenGrows(visited: set<State>, path: seq<State>, rank: map<State, nat>, s: State)
    requires Seen(visited, path, rank)
    ensures Seen(visited + {s}, path + [s], rank)
  {
  }

  /** A new state is visited and its successors are pushed; without any it closes at once. */
  lemma Expand(f: Function, todo: seq<Entry>, paths: seq<seq<State>>, e: Entry, path: seq<State>, more: seq<Entry>,
      visited: set<State>, rank: map<State, nat>) returns (morePaths: seq<seq<State>>, closed: map<State, nat>)
    requires WellFormed(f) && |todo| == |paths| && Searching(f, todo + [e], paths + [path], visited, rank)
    requires e.state !in visited && e.state.at !in e.ancestors
    requires e.state in Universe(f) && Visit(f, e.state).Go?
    requires more == todo + seq(|Visit(f, e.state).next|, k requires 0 <= k < |Visit(f, e.state).next| =>
                                  Entry(Visit(f, e.state).next[k], e.ancestors + [e.state.at]))
    ensures |more| == |morePaths| && Searching(f, more, morePaths, visited + {e.state}, closed)
  {
    hide Move, Open, Stacked, Ranked, Visit, StatePath, Reachable, Repeat, Labels, DistinctLabels, WellFormed;
    TopEntry(f, todo, paths, e, path, visited, rank);
    morePaths := paths + Repeat(path + [e.state], |Visit(f, e.state).next|);
    ChildrenStack(f, todo, paths, e.state, path, more);
    ChildrenOpen(f, todo, paths, e, path, more, rank);
    SeenGrows(visited, path, rank, e.state);
    hide Move, Open, Stacked, Ranked, Visit;
    closed := Close(f, more, morePaths, path + [e.state], visited + {e.state}, rank);
  }

  // ---------- what an exhausted search has established ----------

  /** A run from a finished state stays in finished states of ever smaller rank. */
  lemma {:induction false} RankFalls(f: Function, rank: map<State, nat>, p: seq<State>, i: nat, j: nat)
    requires Ranked(f, rank) && i <= j < |p| && p[i] in rank
    requires forall k :: 0 <= k < |p| - 1 ==> Move(f, p[k], p[k + 1])
    ensures p[j] in rank && rank[p[j]] + (j - i) <= rank[p[i]]
    decreases j
  {
    hide Visit, Universe, Move;
    if i < j {
      RankFalls(f, rank, p, i, j - 1);
      assert Move(f, p[j - 1], p[j]);
    }
  }

  /** Two states of one block have successors in the same blocks, whatever their progress. */
  lemma SameTargets(f: Function, a: State, b: State, s: State) returns (t: State)
    requires WellFormed(f) && a in Universe(f) && s in Universe(f) && a.at == s.at
    requires Move(f, a, b) && Visit(f, s).Go?
    ensures Move(f, s, t) && t.at == b.at
  {
    NextStates(f, a);
    NextStates(f, s);
    var k :| 0 <= k < |Visit(f, a).next| && Visit(f, a).next[k] == b;
    t := Visit(f, s).next[k];
  }

  /** From a finished state the blocks of any run can be walked again. */
  lemma {:induction false} Retrace(f: Function, rank: map<State, nat>, s: State, p: seq<State>) returns (t: State)
    requires WellFormed(f) && Ranked(f, rank) && s in rank
    requires |p| > 0 && p[0].at == s.at && (forall k :: 0 <= k < |p| ==> p[k] in rank)
    requires forall k :: 0 <= k < |p| - 1 ==> Move(f, p[k], p[k + 1])
    ensures t in rank && t.at == p[|p| - 1].at
    ensures rank[t] <= rank[s] && (|p| > 1 ==> rank[t] < rank[s])
    decreases |p|
  {
    hide Visit, Universe, Move, WellFormed;
    t := s;
    if |p| > 1 {
      assert Move(f, p[0], p[1]);
      var u := SameTargets(f, p[0], p[1], s);
      forall j | 0 <= j < |p[1..]| - 1 ensures Move(f, p[1..][j], p[1..][j + 1]) {
        assert p[1..][j] == p[j + 1] && p[1..][j + 1] == p[j + 2];
      }
      t := Retrace(f, rank, u, p[1..]);
    }
  }

  /** No run through finished states comes back to a block: it could be walked for ever. */
  lemma {:induction false} NeverReturns(f: Function, rank: map<State, nat>, s: State, p: seq<State>)
    requires WellFormed(f) && Ranked(f, rank) && s in rank
    requires |p| > 1 && p[0].at == s.at && (forall k :: 0 <= k < |p| ==> p[k] in rank)
    requires forall k :: 0 <= k < |p| - 1 ==> Move(f, p[k], p[k + 1])
    ensures p[|p| - 1].at != p[0].at
    decreases rank[s]
  {
    hide Visit, Universe, Move, WellFormed, Ranked;
    if p[|p| - 1].at == p[0].at {
      var t := Retrace(f, rank, s, p);
      NeverReturns(f, rank, t, p);
    }
  }

  lemma Exhausted(f: Function, visited: set<State>, rank: map<State, nat>)
    requires WellFormed(f) && Searching(f, [], [], visited, rank)
    ensures forall s :: Reachable(f, s) <==> s in visited
    ensures forall p :: StatePath(f, p) ==> DistinctLabels(p)
  {
    hide Visit, Universe, Move, WellFormed;
    assert BEGIN in rank;
    forall p: seq<State> | StatePath(f, p)
      ensures DistinctLabels(p) && (forall i :: 0 <= i < |p| ==> p[i] in rank)
    {
      forall i | 0 <= i < |p| ensures p[i] in rank {
        RankFalls(f, rank, p, 0, i);
      }
      forall i, j | 0 <= i < j < |p| ensures p[i].at != p[j].at {
        var q := p[i..j + 1];
        forall k | 0 <= k < |q| - 1 ensures Move(f, q[k], q[k + 1]) {
          assert q[k] == p[i + k] && q[k + 1] == p[i + k + 1];
        }
        NeverReturns(f, rank, q[0], q);
      }
    }
    forall s | Reachable(f, s) ensures s in visited {
      var p :| ReachableBy(f, p, s);
    }
  }

  // ---------- the checker ----------

  type Line = (Label, nat)

  ghost function BlockSites(b: Block, l: Label, n: nat, drops: bool): set<Line>
    requires n <= |b.body|
  {
    set i | 0 <= i < n && Site(b.body[i], drops) :: (l, i)
  }

  /** Scans one block line by line and applies the checks at its end. */
  method VisitBlock(f: Function, s: State) returns (o: Outcome, requests: set<Line>, drops: set<Line>)
    requires s.at in f.blocks && s.at != f.finish
    ensures o == Visit(f, s)
    ensures o.Go? ==> requests == BlockSites(f.blocks[s.at], s.at, |f.blocks[s.at].body|, false)
    ensures o.Go? ==> drops == BlockSites(f.blocks[s.at], s.at, |f.blocks[s.at].body|, true)
  {
    var b := f.blocks[s.at];
    var progress, attempted, forks: Option<seq<State>> := s.progress, s.attempted, None;
    requests, drops := {}, {};
    for i := 0 to |b.body|
      invariant ScanFrom(b, 0, Scanned(s.progress, s.attempted, None))
        == ScanFrom(b, i, Scanned(progress, attempted, forks))
      invariant requests == BlockSites(b, s.at, i, false) && drops == BlockSites(b, s.at, i, true)
    {
      match b.body[i] {
        case Plain =>
        case Define(_) =>
        case LoadOwner(_) =>
        case Request(role, _, _, _, invoked) =>
          var completed := Completes(b.body, i, progress, attempted);
          if completed.None? { return Reject, requests, drops; }
          requests := requests + {(s.at, i)};
          attempted := true;
          if invoked {
            if !(i == |b.body| - 1 && b.exit.Targets? && |b.exit.labels| == 2) { return Reject, requests, drops; }
            forks := Some([State(b.exit.labels[0], completed.value, true), State(b.exit.labels[1], progress, true)]);
          } else {
            progress := completed.value;
          }
        case StateDrop(original, invoked) =>
          if !original || !invoked || attempted { return Reject, requests, drops; }
          drops := drops + {(s.at, i)};
        case Panic =>
          if !b.exit.Unreachable? { return Reject, requests, drops; }
        case Unreviewed =>
          return Reject, requests, drops;
      }
    }
    o := Leave(b, Scanned(progress, attempted, forks));
  }

  datatype Verdict = Accepted(blocks: nat, requests: nat) | Refused

  ghost function SitesOf(f: Function, visited: set<State>, drops: bool): set<Line> {
    set l, i | l in f.blocks && 0 <= i < |f.blocks[l].body| && l != f.finish && (exists s :: s in visited && s.at == l)
             && Site(f.blocks[l].body[i], drops) :: (l, i)
  }

  lemma SitesGrow(f: Function, visited: set<State>, s: State, drops: bool)
    requires s.at in f.blocks && s.at != f.finish
    ensures SitesOf(f, visited + {s}, drops)
         == SitesOf(f, visited, drops) + BlockSites(f.blocks[s.at], s.at, |f.blocks[s.at].body|, drops)
  {
    forall x | x in SitesOf(f, visited, drops) ensures x in SitesOf(f, visited + {s}, drops) {
      var t :| t in visited && t.at == x.0;
      assert t in visited + {s};
    }
    forall x | x in BlockSites(f.blocks[s.at], s.at, |f.blocks[s.at].body|, drops)
      ensures x in SitesOf(f, visited + {s}, drops)
    {
      assert s in visited + {s};
    }
  }

  lemma FinishAddsNoSites(f: Function, visited: set<State>, s: State, drops: bool)
    requires s.at == f.finish
    ensures SitesOf(f, visited + {s}, drops) == SitesOf(f, visited, drops)
  {
    forall x | x in SitesOf(f, visited, drops) ensures x in SitesOf(f, visited + {s}, drops) {
      var t :| t in visited && t.at == x.0;
      assert t in visited + {s};
    }
  }

  ghost predicate Collected(f: Function, visited: set<State>, exits: set<ExitKind>, requests: set<Line>,
      drops: set<Line>) {
    && (forall s :: s in visited ==> s.at in f.blocks)
    && (forall k :: k in exits <==> exists s :: s in visited && Visit(f, s).Go? && Visit(f, s).kind == Some(k))
    && requests == SitesOf(f, visited, false)
    && drops == SitesOf(f, visited, true)
  }

  lemma Collect(f: Function, visited: set<State>, exits: set<ExitKind>, requests: set<Line>, drops: set<Line>, s: State,
      newRequests: set<Line>, newDrops: set<Line>)
    requires Collected(f, visited, exits, requests, drops) && s.at in f.blocks && Visit(f, s).Go?
    requires s.at == f.finish ==> newRequests == {} && newDrops == {}
    requires s.at != f.finish ==> newRequests == BlockSites(f.blocks[s.at], s.at, |f.blocks[s.at].body|, false)
    requires s.at != f.finish ==> newDrops == BlockSites(f.blocks[s.at], s.at, |f.blocks[s.at].body|, true)
    ensures Collected(f, visited + {s}, if Visit(f, s).kind.Some? then exits + {Visit(f, s).kind.value} else exits,
              requests + newRequests, drops + newDrops)
  {
    if s.at == f.finish {
      FinishAddsNoSites(f, visited, s, false);
      FinishAddsNoSites(f, visited, s, true);
    } else {
      SitesGrow(f, visited, s, false);
      SitesGrow(f, visited, s, true);
    }
    hide Visit;
    var exits' := if Visit(f, s).kind.Some? then exits + {Visit(f, s).kind.value} else exits;
    forall k
      ensures k in exits' <==> exists t :: t in visited + {s} && Visit(f, t).Go? && Visit(f, t).kind == Some(k)
    {
      if k in exits {
        var t :| t in visited && Visit(f, t).Go? && Visit(f, t).kind == Some(k);
        assert t in visited + {s};
      }
      if k in exits' && k !in exits { assert s in visited + {s}; }
    }
  }

  /** The end of the search: what was collected is what the runs attain. */
  lemma CollectedIsAttained(f: Function, visited: set<State>, exits: set<ExitKind>, requests: set<Line>,
      drops: set<Line>)
    requires Collected(f, visited, exits, requests, drops)
    requires forall s :: Reachable(f, s) <==> s in visited
    ensures exits == {Handoff, Returned, Resumed} <==> forall k :: Attained(f, k)
    ensures requests == Sites(f, false) && drops == Sites(f, true)
  {
    hide Visit, Reachable;
    forall k ensures k in exits <==> Attained(f, k) {
      if k in exits {
        var s :| s in visited && Visit(f, s).Go? && Visit(f, s).kind == Some(k);
        assert Reachable(f, s);
      }
    }
    forall k | k in exits ensures k in {Handoff, Returned, Resumed} {
      match k { case Handoff => case Returned => case Resumed => }
    }
    assert (forall k :: Attained(f, k)) <==> Attained(f, Handoff) && Attained(f, Returned) && Attained(f, Resumed) by {
      forall k | Attained(f, Handoff) && Attained(f, Returned) && Attained(f, Resumed) ensures Attained(f, k) {
        match k { case Handoff => case Returned => case Resumed => }
      }
    }
    forall l | l in f.blocks && l != f.finish
      ensures Entered(f, l) <==> exists s :: s in visited && s.at == l
    {
      if s :| s in visited && s.at == l { assert Reachable(f, s); }
    }
    assert SitesOf(f, visited, false) == Sites(f, false);
    assert SitesOf(f, visited, true) == Sites(f, true);
  }

  lemma ReachableIsNotApproved(f: Function, s: State)
    requires s.at in f.blocks && Reachable(f, s) && Visit(f, s).Reject?
    ensures !Approved(f)
  {
  }

  ghost function ReachedBlocks(f: Function): set<Label> {
    set l | l in f.blocks && exists s :: Reachable(f, s) && s.at == l
  }

  /** The checker. It accepts a function exactly when the function is approved. */
  method Inspect(f: Function) returns (r: Verdict)
    requires WellFormed(f)
    ensures r.Accepted? <==> Approved(f)
    ensures r.Accepted? ==> r.requests == 4
    ensures r.Accepted? ==> r.blocks == |ReachedBlocks(f)|
  {
    hide *;
    var todo, visited: set<State> := [Entry(BEGIN, [])], {};
    var exits: set<ExitKind>, requests: set<Line>, drops: set<Line> := {}, {}, {};
    ghost var paths: seq<seq<State>> := [[]];
    ghost var rank: map<State, nat> := map[];
    SearchBegins(f);
    CollectionBegins(f);
    while todo != []
      invariant |todo| == |paths| && Searching(f, todo, paths, visited, rank)
      invariant Collected(f, visited, exits, requests, drops)
      decreases |Universe(f) - visited|, |todo|
    {
      var e := todo[|todo| - 1];
      ghost var path := paths[|paths| - 1];
      assert todo == todo[..|todo| - 1] + [e] && paths == paths[..|paths| - 1] + [path];
      todo, paths := todo[..|todo| - 1], paths[..|paths| - 1];
      TopEntry(f, todo, paths, e, path, visited, rank);
      var s := e.state;
      if s.at in e.ancestors {
        RepeatIsNotApproved(f, path + [s]);
        return Refused;
      }
      if s in visited {
        rank := Prune(f, todo, paths, e, path, visited, rank);
        continue;
      }
      InUniverse(f, s);
      var o, newRequests, newDrops := Visit(f, s), {}, {};
      if s.at != f.finish {
        o, newRequests, newDrops := VisitBlock(f, s);
      }
      if o.Reject? {
        ReachableIsNotApproved(f, s);
        return Refused;
      }
      var more := todo + seq(|o.next|, k requires 0 <= k < |o.next| => Entry(o.next[k], e.ancestors + [s.at]));
      paths, rank := Expand(f, todo, paths, e, path, more, visited, rank);
      Collect(f, visited, exits, requests, drops, s, newRequests, newDrops);
      Shrinks(Universe(f), visited, s);
      visited, todo := visited + {s}, more;
      requests, drops := requests + newRequests, drops + newDrops;
      if o.kind.Some? { exits := exits + {o.kind.value}; }
    }
    Exhausted(f, visited, rank);
    CollectedIsAttained(f, visited, exits, requests, drops);
    ApprovedExactly(f, visited, rank);
    if exits == {Handoff, Returned, Resumed} && |requests| == 4 && |drops| == 1 {
      var blocks := set s | s in visited :: s.at;
      VisitedLabels(f, visited, exits, requests, drops);
      r := Verdict.Accepted(|blocks|, |requests|);
    } else {
      r := Refused;
    }
  }

  lemma CollectionBegins(f: Function)
    ensures Collected(f, {}, {}, {}, {})
  {
  }

  lemma InUniverse(f: Function, s: State)
    requires s in Universe(f)
    ensures s.at in f.blocks
  {
  }

  lemma RepeatIsNotApproved(f: Function, p: seq<State>)
    requires StatePath(f, p) && !DistinctLabels(p)
    ensures !Approved(f)
  {
  }

  lemma ApprovedExactly(f: Function, visited: set<State>, rank: map<State, nat>)
    requires Searching(f, [], [], visited, rank)
    requires forall s :: Reachable(f, s) <==> s in visited
    requires forall p :: StatePath(f, p) ==> DistinctLabels(p)
    ensures Approved(f) <==> (forall k :: Attained(f, k)) && |Sites(f, false)| == 4 && |Sites(f, true)| == 1
  {
  }

  lemma VisitedLabels(f: Function, visited: set<State>, exits: set<ExitKind>, requests: set<Line>, drops: set<Line>)
    requires Collected(f, visited, exits, requests, drops)
    requires forall s :: Reachable(f, s) <==> s in visited
    ensures (set s | s in visited :: s.at) == ReachedBlocks(f)
  {
  }
}
