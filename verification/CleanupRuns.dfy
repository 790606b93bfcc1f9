/** Runs of a verifier in front of its finish handoff, without any progress counter: registers
    hold pointers, and a log records each clearing request, each region that came back, each state
    destructor, and each line that nobody reviewed.

    The theorems say what the early-cleanup checker's approval means for every such run, and that
    the checker approves whatever keeps to that. */
module CleanupRuns {
  import opened Options
  import opened ControlGraph
  import opened EarlyCleanup

  /** A pointer is the metadata owner that %self holds, or anything else. */
  datatype Pointer = Metadata | Foreign(id: int)
  datatype Region = Region(base: Pointer, offset: int, width: int)
  datatype Event = Attempt(role: Role, region: Region) | Done(region: Region) | Dropped(original: bool, invoked: bool)
                 | Strange
  type Registers = map<Register, Pointer>

  /** A configuration at the entry of a block. */
  datatype Config = Config(at: Label, regs: Registers, log: seq<Event>)

  function Read(regs: Registers, r: Register): Pointer {
    if r in regs then regs[r] else Foreign(0)
  }

  /** A guard clears its three regions in order; a clear request clears its own. */
  function Cleared(line: Instr, base: Pointer): seq<Event>
    requires line.Request?
  {
    match line.role
    case Clear => [Done(Region(base, line.offset, line.width))]
    case Glue => [Done(Region(base, line.offset + 64, 1)), Done(Region(base, line.offset, 64)),
                  Done(Region(base, line.offset + 65, 1))]
    case Comparison => []
  }

  /** The registers after line i: %self is only read, so its metadata field never changes;
      other definitions get whatever `junk` says. */
  function Assign(line: Instr, regs: Registers, junk: Register -> Pointer): Registers {
    match line
    case Define(r) => regs[r := junk(r)]
    case LoadOwner(r) => regs[r := Metadata]
    case _ => regs
  }

  /** The log entries of a line: an invoke that unwinds is attempted but does not come back. */
  function Logged(line: Instr, regs: Registers, normal: bool): seq<Event> {
    match line
    case Request(role, base, offset, width, invoked) =>
      [Attempt(role, Region(Read(regs, base), offset, width))]
      + (if invoked && !normal then [] else Cleared(line, Read(regs, base)))
    case StateDrop(original, invoked) => [Dropped(original, invoked)]
    case Unreviewed => [Strange]
    case _ => []
  }

  /** The registers and the log once the lines from i on have executed. */
  function Execute(body: seq<Instr>, i: nat, regs: Registers, log: seq<Event>, junk: Register -> Pointer, normal: bool)
    : (Registers, seq<Event>)
    requires i <= |body|
    decreases |body| - i
  {
    if i == |body| then (regs, log)
    else Execute(body, i + 1, Assign(body[i], regs, junk), log + Logged(body[i], regs, normal), junk, normal)
  }

  /** One block, taken to its k-th target; only the first target of an invoke is normal. */
  ghost predicate BlockStep(f: Function, c: Config, d: Config, k: nat, junk: Register -> Pointer) {
    && c.at in f.blocks && c.at != f.finish
    && f.blocks[c.at].exit.Targets? && k < |f.blocks[c.at].exit.labels|
    && d.at == f.blocks[c.at].exit.labels[k]
    && (d.regs, d.log) == Execute(f.blocks[c.at].body, 0, c.regs, c.log, junk, k == 0)
  }

  ghost predicate Step(f: Function, c: Config, d: Config) {
    exists k: nat, junk: Register -> Pointer :: BlockStep(f, c, d, k, junk)
  }

  ghost predicate IsRun(f: Function, run: seq<Config>) {
    && |run| > 0 && run[0].at == START && run[0].log == []
    && forall i :: 0 <= i < |run| - 1 ==> Step(f, run[i], run[i + 1])
  }

  /** The regions that came back, in order. */
  function Completed(log: seq<Event>): seq<Region> {
    if log == [] then [] else
      var rest := Completed(log[..|log| - 1]);
      match log[|log| - 1]
      case Done(region) => rest + [region]
      case _ => rest
  }

  ghost predicate Attempted(log: seq<Event>) {
    exists k :: 0 <= k < |log| && log[k].Attempt?
  }

  /** The first n metadata regions in the order in which they have to be cleared. */
  function MetadataRegions(n: nat): seq<Region>
    requires n <= 3
  {
    seq(n, i requires 0 <= i < n => Region(Metadata, REGIONS[i].0, REGIONS[i].1))
  }

  /** What may be logged behind what: a clear request for the next region of the metadata, in order;
      a guard request for the whole metadata, and a destructor of the original state, invoked, both
      in front of every other cleanup; no comparison, and nothing that nobody reviewed. */
  ghost predicate Allowed(before: seq<Event>, e: Event) {
    match e
    case Attempt(role, region) =>
      var n := |Completed(before)|;
      (match role
       case Clear => n < 3 && Completed(before) + [region] == MetadataRegions(n + 1)
       case Glue => n == 0 && !Attempted(before) && region.base == Metadata && region.offset == 0
       case Comparison => false)
    case Done(_) => true
    case Dropped(original, invoked) => original && invoked && !Attempted(before)
    case Strange => false
  }

  ghost predicate Orderly(log: seq<Event>) {
    forall k :: 0 <= k < |log| ==> Allowed(log[..k], log[k])
  }

  lemma OrderlySnoc(log: seq<Event>, e: Event)
    ensures Orderly(log + [e]) <==> Orderly(log) && Allowed(log, e)
  {
    var more := log + [e];
    hide Allowed;
    assert more[..|log|] == log && more[|log|] == e;
    assert forall k :: 0 <= k < |log| ==> more[..k] == log[..k] && more[k] == log[k];
  }

  lemma {:induction false} OrderlyDone(log: seq<Event>, more: seq<Event>)
    requires forall k :: 0 <= k < |more| ==> more[k].Done?
    ensures Orderly(log + more) <==> Orderly(log)
    decreases |more|
  {
    if more == [] {
      assert log + more == log;
    } else {
      var n := |more| - 1;
      OrderlyDone(log, more[..n]);
      OrderlySnoc(log + more[..n], more[n]);
      assert log + more == log + more[..n] + [more[n]];
    }
  }

  lemma OrderlyPrefix(log: seq<Event>, more: seq<Event>)
    requires Orderly(log + more)
    ensures Orderly(log)
  {
    hide Allowed;
    forall k | 0 <= k < |log| ensures Allowed(log[..k], log[k]) {
      assert (log + more)[..k] == log[..k] && (log + more)[k] == log[k];
    }
  }

  // ---------- the simulation ----------

  ghost predicate Matches(log: seq<Event>, progress: nat, attempted: bool) {
    && progress <= 3 && Completed(log) == MetadataRegions(progress)
    && (attempted <==> Attempted(log)) && (progress > 0 ==> attempted)
  }

  ghost predicate OwnersLoaded(body: seq<Instr>, i: nat, regs: Registers)
    requires i <= |body|
  {
    forall j :: 0 <= j < i && body[j].LoadOwner? ==> Read(regs, body[j].dst) == Metadata
  }

  lemma {:induction false} CompletedAppend(log: seq<Event>, more: seq<Event>)
    ensures Completed(log + more) == Completed(log) + Completed(more)
  {
    if more == [] {
      assert log + more == log;
    } else {
      CompletedAppend(log, more[..|more| - 1]);
      assert (log + more)[..|log + more| - 1] == log + more[..|more| - 1];
    }
  }

  lemma AttemptedAppend(log: seq<Event>, more: seq<Event>)
    ensures Attempted(log + more) <==> Attempted(log) || Attempted(more)
  {
    if Attempted(log) {
      var k :| 0 <= k < |log| && log[k].Attempt?;
      assert (log + more)[k].Attempt?;
    }
    if Attempted(more) {
      var k :| 0 <= k < |more| && more[k].Attempt?;
      assert (log + more)[|log| + k].Attempt?;
    }
  }

  lemma CompletedOne(e: Event)
    ensures Completed([e]) == if e.Done? then [e.region] else []
  {
    assert [e][..0] == [];
  }

  lemma CompletedRequest(line: Instr, base: Pointer, attempt: Event)
    requires line.Request? && attempt.Attempt?
    ensures Completed([attempt]) == []
    ensures line.role.Clear? ==>
      Completed([attempt] + Cleared(line, base)) == [Region(base, line.offset, line.width)]
    ensures line.role.Glue? ==>
      Completed([attempt] + Cleared(line, base))
      == [Region(base, line.offset + 64, 1), Region(base, line.offset, 64), Region(base, line.offset + 65, 1)]
  {
    CompletedOne(attempt);
    var d := Cleared(line, base);
    CompletedAppend([attempt], d);
    forall e: Event ensures Completed([e]) == if e.Done? then [e.region] else [] { CompletedOne(e); }
    if line.role.Glue? {
      CompletedAppend(d[..1], d[1..]);
      CompletedAppend(d[1..2], d[2..]);
      assert d == d[..1] + d[1..] && d[1..] == d[1..2] + d[2..];
    }
  }

  /** The next of the metadata regions, and no other, extends the first n. */
  lemma NextRegion(n: nat, region: Region)
    requires n < 3
    ensures MetadataRegions(n) + [region] == MetadataRegions(n + 1)
      <==> region == Region(Metadata, REGIONS[n].0, REGIONS[n].1)
  {
    assert MetadataRegions(n + 1)[..n] == MetadataRegions(n);
    assert MetadataRegions(n + 1) == MetadataRegions(n) + [Region(Metadata, REGIONS[n].0, REGIONS[n].1)];
    assert (MetadataRegions(n) + [region])[n] == region;
  }

  /** The scan lets a request through exactly if the log may go on with it, given that its pointer
      is loaded in front of it. */
  lemma RequestAllowed(body: seq<Instr>, i: nat, regs: Registers, log: seq<Event>, progress: nat, attempted: bool)
    requires i < |body| && body[i].Request? && OwnersLoaded(body, i, regs) && Matches(log, progress, attempted)
    ensures var line := body[i];
      var e := Attempt(line.role, Region(Read(regs, line.base), line.offset, line.width));
      && (Completes(body, i, progress, attempted).Some? ==> Allowed(log, e))
      && (Allowed(log, e) && Loads(body, i, line.base) ==> Completes(body, i, progress, attempted).Some?)
  {
    var line := body[i];
    var region := Region(Read(regs, line.base), line.offset, line.width);
    assert |Completed(log)| == progress;
    if LoadedBefore(body, i, line.base) || Loads(body, i, line.base) {
      var j :| 0 <= j < i && body[j] == LoadOwner(line.base);
      assert LoadedBefore(body, i, line.base) && region.base == Metadata;
    }
    if progress < 3 { NextRegion(progress, region); }
  }

  /** Before i, line i's pointer is loaded from the field of %self that holds the metadata. */
  ghost predicate Loads(body: seq<Instr>, i: nat, base: Register)
    requires i <= |body|
  {
    exists j :: 0 <= j < i && body[j] == LoadOwner(base)
  }
  /** A request that the scan lets through clears exactly the next metadata regions. */
  lemma RequestMatches(body: seq<Instr>, i: nat, regs: Registers, log: seq<Event>, progress: nat, attempted: bool,
      normal: bool)
    requires i < |body| && body[i].Request? && OwnersLoaded(body, i, regs)
    requires Matches(log, progress, attempted) && Completes(body, i, progress, attempted).Some?
    ensures Matches(log + Logged(body[i], regs, normal),
              if body[i].invoked && !normal then progress else Completes(body, i, progress, attempted).value, true)
  {
    var line := body[i];
    var base := Read(regs, line.base);
    var j :| 0 <= j < i && body[j] == LoadOwner(line.base);
    assert base == Metadata;
    var e := Attempt(line.role, Region(base, line.offset, line.width));
    assert Attempted(Logged(line, regs, normal)) by { assert Logged(line, regs, normal)[0].Attempt?; }
    AttemptedAppend(log, Logged(line, regs, normal));
    CompletedRequest(line, base, e);
    CompletedAppend(log, Logged(line, regs, normal));
    hide Attempted;
    if progress < 3 { NextRegion(progress, Region(base, line.offset, line.width)); }
  }

  lemma AssignKeepsOwners(body: seq<Instr>, i: nat, regs: Registers, junk: Register -> Pointer)
    requires i < |body| && SingleAssignment(body) && OwnersLoaded(body, i, regs)
    ensures OwnersLoaded(body, i + 1, Assign(body[i], regs, junk))
  {
    forall j | 0 <= j < i + 1 && body[j].LoadOwner?
      ensures Read(Assign(body[i], regs, junk), body[j].dst) == Metadata
    {
      if j < i { assert Defines(body[j]) != Defines(body[i]); }
    }
  }

  /** What the end of a scan says about the log at the end of the block. */
  ghost predicate Tracked(b: Block, t: Scan, log: seq<Event>, normal: bool) {
    && t.Scanned?
    && (t.forks.None? ==> Matches(log, t.progress, t.attempted))
    && (t.forks.Some? ==>
          && InRange(b, t) && t.forks.value[0].attempted && t.forks.value[1].attempted
          && Matches(log, t.forks.value[if normal then 0 else 1].progress, true))
  }

  lemma LineMatches(b: Block, i: nat, regs: Registers, log: seq<Event>, normal: bool, s: Scan)
    requires i < |b.body| && OwnersLoaded(b.body, i, regs)
    requires s.Scanned? && s.forks.None? && Matches(log, s.progress, s.attempted)
    requires ScanLine(b, i, s).Scanned?
    ensures Tracked(b, ScanLine(b, i, s), log + Logged(b.body[i], regs, normal), normal)
    ensures ScanLine(b, i, s).forks.Some? ==> i == |b.body| - 1
  {
    hide Attempted;
    if b.body[i].Request? {
      RequestMatches(b.body, i, regs, log, s.progress, s.attempted, normal);
    } else {
      QuietLine(b.body[i], regs, log, normal);
    }
  }

  lemma QuietLine(line: Instr, regs: Registers, log: seq<Event>, normal: bool)
    requires !line.Request?
    ensures Completed(log + Logged(line, regs, normal)) == Completed(log)
    ensures Attempted(log + Logged(line, regs, normal)) == Attempted(log)
  {
    var more := Logged(line, regs, normal);
    CompletedAppend(log, more);
    AttemptedAppend(log, more);
    if more != [] { CompletedOne(more[0]); }
  }

  /** A request's pointer is loaded in its own block, and an invoked one ends its block. */
  ghost predicate ShapedLine(b: Block, i: nat)
    requires i < |b.body|
  {
    b.body[i].Request? ==>
      && Loads(b.body, i, b.body[i].base)
      && (b.body[i].invoked ==> i == |b.body| - 1 && b.exit.Targets? && |b.exit.labels| == 2)
  }

  /** One line: the scan goes on exactly if the log is still orderly, and a panic cannot return. */
  lemma LineAllowed(b: Block, i: nat, regs: Registers, log: seq<Event>, normal: bool, s: Scan)
    requires i < |b.body| && OwnersLoaded(b.body, i, regs)
    requires s.Scanned? && Matches(log, s.progress, s.attempted)
    ensures var more := log + Logged(b.body[i], regs, normal);
      var ok := Orderly(more) && (b.body[i].Panic? ==> b.exit.Unreachable?);
      && (ScanLine(b, i, s).Scanned? && Orderly(log) ==> ok)
      && (ok && ShapedLine(b, i) ==> ScanLine(b, i, s).Scanned?)
  {
    var line := b.body[i];
    var more := Logged(line, regs, normal);
    if more == [] {
      assert log + more == log;
    } else {
      assert log + more == log + [more[0]] + more[1..];
      OrderlySnoc(log, more[0]);
      OrderlyDone(log + [more[0]], more[1..]);
      hide Orderly, Attempted, Completed, Completes, Loads;
      if line.Request? { RequestAllowed(b.body, i, regs, log, s.progress, s.attempted); }
    }
  }

  /** The scan of a block tracks its execution, both to the normal and to the unwind target, and
      what the execution logs is orderly. */
  lemma {:induction false} ExecuteMatches(b: Block, i: nat, regs: Registers, log: seq<Event>, junk: Register -> Pointer,
      normal: bool, s: Scan)
    requires i <= |b.body| && SingleAssignment(b.body) && OwnersLoaded(b.body, i, regs)
    requires s.Scanned? && s.forks.None? && Matches(log, s.progress, s.attempted) && Orderly(log)
    requires ScanFrom(b, i, s).Scanned?
    ensures Tracked(b, ScanFrom(b, i, s), Execute(b.body, i, regs, log, junk, normal).1, normal)
    ensures Orderly(Execute(b.body, i, regs, log, junk, normal).1)
    ensures forall k :: i <= k < |b.body| && b.body[k].Panic? ==> b.exit.Unreachable?
    decreases |b.body| - i
  {
    hide ScanLine, Matches, InRange, Logged, OwnersLoaded, SingleAssignment, Assign, Orderly;
    if i < |b.body| {
      var line, t := b.body[i], ScanLine(b, i, s);
      AssignKeepsOwners(b.body, i, regs, junk);
      LineMatches(b, i, regs, log, normal, s);
      LineAllowed(b, i, regs, log, normal, s);
      var regs', log' := Assign(line, regs, junk), log + Logged(line, regs, normal);
      if t.forks.Some? {
        assert ScanFrom(b, i + 1, t) == t;
        assert Execute(b.body, i + 1, regs', log', junk, normal) == (regs', log');
      } else {
        ExecuteMatches(b, i + 1, regs', log', junk, normal, t);
      }
    }
  }

  lemma {:induction false} ExecuteLogs(body: seq<Instr>, i: nat, regs: Registers, log: seq<Event>,
      junk: Register -> Pointer, normal: bool)
    requires i <= |body| && Orderly(Execute(body, i, regs, log, junk, normal).1)
    ensures Orderly(log)
    decreases |body| - i
  {
    hide Orderly, Logged, Assign;
    if i < |body| {
      var more := Logged(body[i], regs, normal);
      ExecuteLogs(body, i + 1, Assign(body[i], regs, junk), log + more, junk, normal);
      OrderlyPrefix(log, more);
    }
  }

  /** Conversely, a block whose execution logs in order, and whose panics cannot return, passes the
      scan. */
  lemma {:induction false} OrderlyScans(b: Block, i: nat, regs: Registers, log: seq<Event>, junk: Register -> Pointer,
      s: Scan)
    requires i <= |b.body| && SingleAssignment(b.body) && OwnersLoaded(b.body, i, regs)
    requires s.Scanned? && s.forks.None? && Matches(log, s.progress, s.attempted)
    requires Orderly(Execute(b.body, i, regs, log, junk, true).1)
    requires forall k :: i <= k < |b.body| ==> ShapedLine(b, k) && (b.body[k].Panic? ==> b.exit.Unreachable?)
    ensures ScanFrom(b, i, s).Scanned?
    decreases |b.body| - i
  {
    hide ScanLine, Matches, InRange, Logged, OwnersLoaded, SingleAssignment, Assign, Orderly, ShapedLine;
    if i < |b.body| {
      var line, t := b.body[i], ScanLine(b, i, s);
      var regs', log' := Assign(line, regs, junk), log + Logged(line, regs, true);
      AssignKeepsOwners(b.body, i, regs, junk);
      ExecuteLogs(b.body, i + 1, regs', log', junk, true);
      LineAllowed(b, i, regs, log, true, s);
      LineMatches(b, i, regs, log, true, s);
      if t.forks.Some? {
        assert ScanFrom(b, i + 1, t) == t;
      } else {
        OrderlyScans(b, i + 1, regs', log', junk, t);
      }
    }
  }

  ghost predicate Tracks(c: Config, s: State) {
    c.at == s.at && Matches(c.log, s.progress, s.attempted) && Orderly(c.log)
  }

  ghost predicate PanicsAbort(b: Block) {
    (exists k :: 0 <= k < |b.body| && b.body[k].Panic?) ==> b.exit.Unreachable?
  }

  lemma BlockIsTracked(f: Function, c: Config, s: State, junk: Register -> Pointer, normal: bool)
    requires WellFormed(f) && s.at in f.blocks && s.at != f.finish && Tracks(c, s) && Visit(f, s).Go?
    ensures Tracked(f.blocks[s.at], ScanFrom(f.blocks[s.at], 0, Scanned(s.progress, s.attempted, None)),
              Execute(f.blocks[s.at].body, 0, c.regs, c.log, junk, normal).1, normal)
    ensures Orderly(Execute(f.blocks[s.at].body, 0, c.regs, c.log, junk, normal).1)
    ensures PanicsAbort(f.blocks[s.at])
  {
    hide Orderly, Matches;
    ExecuteMatches(f.blocks[s.at], 0, c.regs, c.log, junk, normal, Scanned(s.progress, s.attempted, None));
  }

  /** Behind the block, the k-th target is tracked by the k-th next state. */
  lemma TargetIsTracked(f: Function, c: Config, s: State, k: nat, junk: Register -> Pointer)
    requires WellFormed(f) && s in Universe(f) && Tracks(c, s) && Visit(f, s).Go? && k < |Visit(f, s).next|
    ensures s.at != f.finish && f.blocks[s.at].exit.Targets? && k < |f.blocks[s.at].exit.labels|
    ensures var e := Execute(f.blocks[s.at].body, 0, c.regs, c.log, junk, k == 0);
      Tracks(Config(f.blocks[s.at].exit.labels[k], e.0, e.1), Visit(f, s).next[k])
    ensures Visit(f, s).next[k] in Universe(f)
  {
    var b := f.blocks[s.at];
    NextStates(f, s);
    BlockIsTracked(f, c, s, junk, k == 0);
    ScanInRange(b, 0, Scanned(s.progress, s.attempted, None));
    hide Execute, ScanFrom, Orderly, Matches, Universe;
    var scan := ScanFrom(b, 0, Scanned(s.progress, s.attempted, None));
    if scan.forks.None? {
      assert Visit(f, s).next[k] == State(b.exit.labels[k], scan.progress, scan.attempted);
    }
  }

  /** Whatever target a block takes, the search has the state for it. */
  lemma StepIsTracked(f: Function, c: Config, d: Config, s: State) returns (t: State)
    requires WellFormed(f) && s in Universe(f) && Tracks(c, s) && Visit(f, s).Go? && Step(f, c, d)
    ensures Move(f, s, t) && Tracks(d, t)
  {
    var k: nat, junk: Register -> Pointer :| BlockStep(f, c, d, k, junk);
    NextStates(f, s);
    TargetIsTracked(f, c, s, k, junk);
    hide Execute, Visit, Universe;
    t := Visit(f, s).next[k];
  }

  lemma RunShrinks(f: Function, run: seq<Config>)
    requires IsRun(f, run) && |run| > 1
    ensures IsRun(f, run[..|run| - 1]) && Step(f, run[|run| - 2], run[|run| - 1])
  {
    hide Step;
  }

  lemma PathGrows(f: Function, p: seq<State>, t: State)
    requires StatePath(f, p) && Move(f, p[|p| - 1], t)
    ensures StatePath(f, p + [t]) && Reachable(f, t)
  {
    hide Move;
    assert ReachableBy(f, p + [t], t);
  }

  lemma BeginTracks(f: Function, c: Config)
    requires c.at == START && c.log == []
    ensures StatePath(f, [BEGIN]) && Reachable(f, BEGIN) && Tracks(c, BEGIN)
  {
    assert ReachableBy(f, [BEGIN], BEGIN);
    assert Completed([]) == MetadataRegions(0);
  }

  lemma {:induction false} RunIsTracked(f: Function, run: seq<Config>) returns (p: seq<State>)
    requires WellFormed(f) && AllGo(f) && IsRun(f, run)
    ensures StatePath(f, p) && |p| == |run| && forall i :: 0 <= i < |p| ==> p[i].at == run[i].at
    ensures Reachable(f, p[|p| - 1]) && Tracks(run[|run| - 1], p[|p| - 1])
    decreases |run|
  {
    if |run| == 1 {
      BeginTracks(f, run[0]);
      p := [BEGIN];
    } else {
      RunShrinks(f, run);
      var c := run[|run| - 2];
      p := RunIsTracked(f, run[..|run| - 1]);
      var s := p[|p| - 1];
      hide IsRun, StatePath, Reachable, Move, Step, WellFormed, Visit, Universe;
      var t := StepIsTracked(f, c, run[|run| - 1], s);
      PathGrows(f, p, t);
      p := p + [t];
    }
  }

  lemma {:induction false} DistinctLabelsFit(f: Function, p: seq<State>, labels: set<Label>)
    requires DistinctLabels(p) && forall i :: 0 <= i < |p| ==> p[i].at in labels
    ensures |p| <= |labels|
    decreases |p|
  {
    if |p| > 0 {
      var last := p[|p| - 1].at;
      assert forall i :: 0 <= i < |p| - 1 ==> p[i].at in labels - {last};
      DistinctLabelsFit(f, p[..|p| - 1], labels - {last});
    }
  }

  /** What approval means for a run that has come to the configuration c: everything logged so far
      and in this block is orderly; the handoff comes before any cleanup. */
  ghost predicate SafeAt(f: Function, c: Config) {
    && Orderly(c.log)
    && if c.at == f.finish then !Attempted(c.log)
       else c.at in f.blocks && PanicsAbort(f.blocks[c.at]) && forall junk: Register -> Pointer ::
         SafeExit(f.blocks[c.at], Execute(f.blocks[c.at].body, 0, c.regs, c.log, junk, true).1)
  }

  /** A return comes after the three metadata regions, each cleared once and in order; a resumed
      unwind and an abort come after an attempt, and an abort only in a double-panic block. */
  ghost predicate SafeExit(b: Block, log: seq<Event>) {
    && Orderly(log)
    && match b.exit
       case Targets(_) => true
       case Return => Completed(log) == MetadataRegions(3)
       case Resume => Attempted(log)
       case Unreachable => Attempted(log) && exists k :: 0 <= k < |b.body| && b.body[k].Panic?
  }

  lemma {:induction false} RunInBlocks(f: Function, run: seq<Config>)
    requires WellFormed(f) && IsRun(f, run)
    ensures forall i :: 0 <= i < |run| ==> run[i].at in f.blocks
  {
    forall i | 0 <= i < |run| ensures run[i].at in f.blocks {
      if i > 0 {
        assert Step(f, run[i - 1], run[i]);
        var k: nat, junk: Register -> Pointer :| BlockStep(f, run[i - 1], run[i], k, junk);
      }
    }
  }

  lemma LastIsSafe(f: Function, c: Config, s: State)
    requires WellFormed(f) && s in Universe(f) && Tracks(c, s) && Visit(f, s).Go?
    ensures SafeAt(f, c)
  {
    if c.at != f.finish {
      var b := f.blocks[c.at];
      forall junk: Register -> Pointer ensures SafeExit(b, Execute(b.body, 0, c.regs, c.log, junk, true).1) {
        BlockIsTracked(f, c, s, junk, true);
        ScanInRange(b, 0, Scanned(s.progress, s.attempted, None));
        hide Execute, ScanFrom, Orderly, Completed, Attempted;
      }
      BlockIsTracked(f, c, s, r => Foreign(0), true);
    }
  }

  /** Every run of an approved verifier ends within as many steps as it has blocks, never comes
      back to a block, and is safe all along: nothing in its log is out of order, no line that
      nobody reviewed, no state destructor but the original one and in front of all cleanup. */
  lemma ApprovedRunsAreSafe(f: Function, run: seq<Config>)
    requires WellFormed(f) && Approved(f) && IsRun(f, run)
    ensures |run| <= |f.blocks|
    ensures forall i, j :: 0 <= i < j < |run| ==> run[i].at != run[j].at
    ensures SafeAt(f, run[|run| - 1])
  {
    ApprovedAllGo(f);
    var p := RunIsTracked(f, run);
    RunInBlocks(f, run);
    DistinctLabelsFit(f, p, f.blocks.Keys);
    hide SafeAt, Visit, Tracks, Universe, IsRun, WellFormed;
    LastIsSafe(f, run[|run| - 1], p[|p| - 1]);
  }

  // ---------- the converse ----------

  ghost predicate Shaped(f: Function) {
    forall l, i :: l in f.blocks && 0 <= i < |f.blocks[l].body| ==> ShapedLine(f.blocks[l], i)
  }

  ghost predicate RunTo(f: Function, run: seq<Config>, l: Label) {
    IsRun(f, run) && run[|run| - 1].at == l
  }

  /** Some run comes to the block. */
  ghost predicate RunsTo(f: Function, l: Label) {
    exists run :: RunTo(f, run, l)
  }

  /** What the checker demands, in terms of runs: they are safe and come back to no block; one hands
      over, one returns and one resumes; and in the blocks in front of the handoff that runs come to
      stand four cleanup requests and one state destructor. */
  ghost predicate Lawful(f: Function) {
    && (forall run :: IsRun(f, run) ==> SafeAt(f, run[|run| - 1]))
    && (forall run: seq<Config> :: IsRun(f, run) ==> forall i, j :: 0 <= i < j < |run| ==> run[i].at != run[j].at)
    && RunsTo(f, f.finish)
    && (exists l :: l in f.blocks && l != f.finish && f.blocks[l].exit.Return? && RunsTo(f, l))
    && (exists l :: l in f.blocks && l != f.finish && f.blocks[l].exit.Resume? && RunsTo(f, l))
    && |RequestSites(f)| == 4 && |DropSites(f)| == 1
  }

  ghost function RequestSites(f: Function): set<(Label, nat)> {
    set l, i | l in f.blocks && 0 <= i < |f.blocks[l].body| && l != f.finish && RunsTo(f, l)
               && f.blocks[l].body[i].Request? :: (l, i)
  }

  ghost function DropSites(f: Function): set<(Label, nat)> {
    set l, i | l in f.blocks && 0 <= i < |f.blocks[l].body| && l != f.finish && RunsTo(f, l)
               && f.blocks[l].body[i].StateDrop? :: (l, i)
  }

  /** Every path of the search is taken by a run. */
  lemma {:induction false} PathIsRun(f: Function, p: seq<State>) returns (run: seq<Config>)
    requires WellFormed(f) && StatePath(f, p)
    ensures IsRun(f, run) && |run| == |p| && (forall i :: 0 <= i < |p| ==> run[i].at == p[i].at)
    ensures p[|p| - 1] in Universe(f) && Tracks(run[|run| - 1], p[|p| - 1])
    decreases |p|
  {
    var n := |p| - 1;
    if n == 0 {
      run := [Config(START, map[], [])];
      BeginTracks(f, run[0]);
    } else {
      run := PathIsRun(f, p[..n]);
      assert Move(f, p[n - 1], p[n]);
      var d := MoveIsStep(f, run[n - 1], p[n - 1], p[n]);
      hide Step, Move, Tracks, Universe, WellFormed;
      var last := run[n - 1];
      run := run + [d];
      assert run[n - 1] == last;
    }
  }

  lemma MoveIsStep(f: Function, c: Config, s: State, t: State) returns (d: Config)
    requires WellFormed(f) && s in Universe(f) && Tracks(c, s) && Move(f, s, t)
    ensures Step(f, c, d) && d.at == t.at && t in Universe(f) && Tracks(d, t)
  {
    var next := Visit(f, s).next;
    var k :| 0 <= k < |next| && next[k] == t;
    var junk: Register -> Pointer := r => Foreign(0);
    TargetIsTracked(f, c, s, k, junk);
    hide Execute, Visit, Universe, WellFormed;
    var e := Execute(f.blocks[s.at].body, 0, c.regs, c.log, junk, k == 0);
    d := Config(f.blocks[s.at].exit.labels[k], e.0, e.1);
    assert BlockStep(f, c, d, k, junk);
  }

  /** Where a safe run has come, the visit of the state beside it goes on. */
  lemma SafeGoes(f: Function, c: Config, s: State)
    requires WellFormed(f) && Shaped(f) && s in Universe(f) && Tracks(c, s) && SafeAt(f, c)
    ensures Visit(f, s).Go?
  {
    if s.at != f.finish {
      var b := f.blocks[s.at];
      var junk: Register -> Pointer := r => Foreign(0);
      var scan := Scanned(s.progress, s.attempted, None);
      assert SafeExit(b, Execute(b.body, 0, c.regs, c.log, junk, true).1);
      assert SingleAssignment(b.body);
      forall k | 0 <= k < |b.body| ensures ShapedLine(b, k) && (b.body[k].Panic? ==> b.exit.Unreachable?) {}
      OrderlyScans(b, 0, c.regs, c.log, junk, scan);
      ExecuteMatches(b, 0, c.regs, c.log, junk, true, scan);
      ForksLeave(b, 0, scan);
      hide Execute, ScanFrom, Orderly, Attempted, Completed;
    }
  }

  /** Only a block with targets forks. */
  lemma ForksLeave(b: Block, i: nat, s: Scan)
    requires i <= |b.body| && s.Scanned? && s.forks.None? && s.progress <= 3
    ensures ScanFrom(b, i, s).Scanned? && ScanFrom(b, i, s).forks.Some? ==> b.exit.Targets?
  {
    ScanInRange(b, i, s);
  }

  lemma ReachedIsRun(f: Function, s: State) returns (run: seq<Config>)
    requires WellFormed(f) && Reachable(f, s)
    ensures |run| > 0 && IsRun(f, run) && s in Universe(f) && Tracks(run[|run| - 1], s) && RunsTo(f, s.at)
  {
    var p :| ReachableBy(f, p, s);
    hide Tracks, IsRun, Universe;
    run := PathIsRun(f, p);
    assert run[|run| - 1].at == s.at by { BesideAt(run[|run| - 1], s); }
    assert RunTo(f, run, s.at);
  }

  lemma BesideAt(c: Config, s: State)
    requires Tracks(c, s)
    ensures c.at == s.at
  {
  }

  /** The checker approves a function exactly if it is lawful, given that each request's pointer is
      loaded in its own block and that an invoked request ends its block. */
  lemma ApprovedExactly(f: Function)
    requires WellFormed(f) && Shaped(f)
    ensures Approved(f) <==> Lawful(f)
  {
    if Approved(f) { ApprovedIsLawful(f); }
    if Lawful(f) { LawfulIsApproved(f); }
  }

  ghost predicate AllGo(f: Function) {
    forall s :: Reachable(f, s) ==> s in Universe(f) && Visit(f, s).Go?
  }

  lemma ApprovedAllGo(f: Function)
    requires WellFormed(f) && Approved(f)
    ensures AllGo(f)
  {
    forall s | Reachable(f, s) ensures s in Universe(f) && Visit(f, s).Go? {
      var run := ReachedIsRun(f, s);
    }
  }

  lemma RunsToExactly(f: Function, l: Label)
    requires WellFormed(f) && AllGo(f)
    ensures RunsTo(f, l) <==> exists s :: Reachable(f, s) && s.at == l
  {
    hide IsRun, Reachable, WellFormed, AllGo, Tracks;
    if RunsTo(f, l) {
      var run :| RunTo(f, run, l);
      var p := RunIsTracked(f, run);
      assert Reachable(f, p[|p| - 1]) && p[|p| - 1].at == l;
    }
    if s :| Reachable(f, s) && s.at == l {
      var run := ReachedIsRun(f, s);
    }
  }

  /** The kind of an exit is that of its block. */
  lemma KindOf(f: Function, s: State)
    requires s.at in f.blocks && Visit(f, s).Go?
    ensures Visit(f, s).kind == if s.at == f.finish then Some(Handoff)
      else if f.blocks[s.at].exit.Return? then Some(Returned)
      else if f.blocks[s.at].exit.Resume? then Some(Resumed) else None
  {
    hide ScanFrom;
  }

  lemma AttainedAlike(f: Function)
    requires WellFormed(f) && AllGo(f)
    ensures Attained(f, Handoff) <==> RunsTo(f, f.finish)
    ensures Attained(f, Returned)
      <==> exists l :: l in f.blocks && l != f.finish && f.blocks[l].exit.Return? && RunsTo(f, l)
    ensures Attained(f, Resumed)
      <==> exists l :: l in f.blocks && l != f.finish && f.blocks[l].exit.Resume? && RunsTo(f, l)
  {
    forall s | Reachable(f, s)
      ensures s.at in f.blocks && Visit(f, s).Go? && Visit(f, s).kind == if s.at == f.finish then Some(Handoff)
        else if f.blocks[s.at].exit.Return? then Some(Returned)
        else if f.blocks[s.at].exit.Resume? then Some(Resumed) else None
    {
      KindOf(f, s);
    }
    hide Reachable, RunsTo, Visit, AllGo;
    forall l ensures RunsTo(f, l) <==> exists s :: Reachable(f, s) && s.at == l { RunsToExactly(f, l); }
  }

  lemma SitesAlike(f: Function)
    requires WellFormed(f) && AllGo(f)
    ensures RequestSites(f) == Sites(f, false) && DropSites(f) == Sites(f, true)
  {
    hide Reachable, RunsTo, AllGo, WellFormed;
    forall l ensures RunsTo(f, l) <==> exists s :: Reachable(f, s) && s.at == l { RunsToExactly(f, l); }
    forall l, i | l in f.blocks && 0 <= i < |f.blocks[l].body|
      ensures (l, i) in RequestSites(f) <==> (l, i) in Sites(f, false)
      ensures (l, i) in DropSites(f) <==> (l, i) in Sites(f, true)
    {
    }
  }

  lemma AllAttained(f: Function)
    ensures (forall k :: Attained(f, k)) <==> Attained(f, Handoff) && Attained(f, Returned) && Attained(f, Resumed)
  {
    hide Attained;
    forall k | Attained(f, Handoff) && Attained(f, Returned) && Attained(f, Resumed) ensures Attained(f, k) {
      match k { case Handoff => case Returned => case Resumed => }
    }
  }

  lemma LawfulIsApproved(f: Function)
    requires WellFormed(f) && Shaped(f) && Lawful(f)
    ensures Approved(f)
  {
    hide Visit, Universe, Tracks, SafeAt, Shaped, WellFormed, Reachable, StatePath, IsRun, Attained, Sites,
      RequestSites, DropSites;
    forall s | Reachable(f, s) ensures s in Universe(f) && s.at in f.blocks && Visit(f, s).Go? {
      var run := ReachedIsRun(f, s);
      SafeGoes(f, run[|run| - 1], s);
      InUniverse(f, s);
    }
    forall p | StatePath(f, p) ensures DistinctLabels(p) {
      var run := PathIsRun(f, p);
    }
    assert AllGo(f);
    AttainedAlike(f);
    AllAttained(f);
    SitesAlike(f);
  }

  lemma ApprovedIsLawful(f: Function)
    requires WellFormed(f) && Approved(f)
    ensures Lawful(f)
  {
    ApprovedAllGo(f);
    AttainedAlike(f);
    AllAttained(f);
    SitesAlike(f);
    hide Visit, Universe, Tracks, SafeAt, WellFormed, AllGo, Reachable, StatePath, IsRun, Attained, Sites, RequestSites,
      DropSites;
    forall run: seq<Config> | IsRun(f, run)
      ensures SafeAt(f, run[|run| - 1]) && forall i, j :: 0 <= i < j < |run| ==> run[i].at != run[j].at
    {
      ApprovedRunsAreSafe(f, run);
    }
    assert forall k :: Attained(f, k);
  }

  /** Each byte of the 66-byte metadata lies in exactly one of the regions that a return has
      cleared, and the regions hold no other byte. */
  lemma RegionsPartitionMetadata(byte: int)
    ensures 0 <= byte < 66 <==> exists i :: 0 <= i < 3 && REGIONS[i].0 <= byte < REGIONS[i].0 + REGIONS[i].1
    ensures forall i, j :: 0 <= i < j < 3 ==>
      !(REGIONS[i].0 <= byte < REGIONS[i].0 + REGIONS[i].1 && REGIONS[j].0 <= byte < REGIONS[j].0 + REGIONS[j].1)
  {
    if 0 <= byte < 64 {
      assert REGIONS[1].0 <= byte < REGIONS[1].0 + REGIONS[1].1;
    } else if byte == 64 {
      assert REGIONS[0].0 <= byte < REGIONS[0].0 + REGIONS[0].1;
    } else if byte == 65 {
      assert REGIONS[2].0 <= byte < REGIONS[2].0 + REGIONS[2].1;
    }
  }

  /** The plain graph of the block targets, without progress. */
  ghost function BlockGraph(f: Function): Graph {
    map l | l in f.blocks && l != f.finish && f.blocks[l].exit.Targets? :: f.blocks[l].exit.labels
  }

  /** Every walk through the blocks is taken by some run of the search. */
  lemma {:induction false} WalkIsLifted(f: Function, walk: seq<Label>) returns (p: seq<State>)
    requires WellFormed(f) && Approved(f)
    requires IsPath(BlockGraph(f), None, walk) && walk[0] == START
    ensures StatePath(f, p) && |p| == |walk| && forall i :: 0 <= i < |p| ==> p[i].at == walk[i]
    ensures p[|p| - 1] in Universe(f)
    decreases |walk|
  {
    if |walk| == 1 {
      BeginTracks(f, Config(START, map[], []));
      p := [BEGIN];
    } else {
      var n := |walk| - 1;
      assert Arc(BlockGraph(f), None, walk[n - 1], walk[n]);
      p := WalkIsLifted(f, walk[..n]);
      var s := p[|p| - 1];
      var t := ArcIsMove(f, p, walk[n]);
      PathGrows(f, p, t);
      hide StatePath, Move;
      p := p + [t];
    }
  }

  lemma ArcIsMove(f: Function, p: seq<State>, target: Label) returns (t: State)
    requires WellFormed(f) && Approved(f) && StatePath(f, p) && p[|p| - 1] in Universe(f)
    requires Arc(BlockGraph(f), None, p[|p| - 1].at, target)
    ensures Move(f, p[|p| - 1], t) && t.at == target && t in Universe(f)
  {
    var s := p[|p| - 1];
    assert ReachableBy(f, p, s);
    assert Reachable(f, s);
    var labels := f.blocks[s.at].exit.labels;
    var k :| 0 <= k < |labels| && labels[k] == target;
    NextStates(f, s);
    t := Visit(f, s).next[k];
  }

  /** Although the search skips states it has visited and compares only labels on its own
      stack, approval rules out every cycle of blocks in front of the handoff. */
  lemma ApprovedBlocksAreAcyclic(f: Function, walk: seq<Label>)
    requires WellFormed(f) && Approved(f)
    requires IsPath(BlockGraph(f), None, walk) && walk[0] == START
    ensures forall i, j :: 0 <= i < j < |walk| ==> walk[i] != walk[j]
  {
    var p := WalkIsLifted(f, walk);
    assert DistinctLabels(p);
    assert forall i :: 0 <= i < |walk| ==> walk[i] == p[i].at;
  }

  // ---------- a verifier that is approved ----------

  /** The shape of the reviewed verifiers: hand over, or reject: destroy the state, then clear the
      metadata and return; where the destructor unwinds, let the guard clear it and resume. */
  function Rejecting(): Function {
    Function(map["start" := Block([Define("size"), Plain], Targets(["finish", "reject"])),
                 "reject" := Block([StateDrop(true, true)], Targets(["early", "unwound"])),
                 "early" := Block([LoadOwner("meta"), Request(Clear, "meta", 64, 1, false),
                                   Request(Clear, "meta", 0, 64, false), Request(Clear, "meta", 65, 1, false)],
                                  Return),
                 "unwound" := Block([Define("payload"), LoadOwner("guard"), Request(Glue, "guard", 0, 0, true)],
                                    Targets(["out", "abort"])),
                 "out" := Block([], Resume), "abort" := Block([Panic], Unreachable),
                 "finish" := Block([Plain], Return)],
             "finish")
  }

  const ENTERED: seq<State> := [State("start", 0, false), State("finish", 0, false), State("reject", 0, false),
                                State("early", 0, false), State("unwound", 0, false), State("out", 3, true),
                                State("abort", 0, true)]

  lemma EarlyIsScanned()
    ensures ScanFrom(Rejecting().blocks["early"], 0, Scanned(0, false, None)) == Scanned(3, true, None)
  {
    var b := Rejecting().blocks["early"];
    assert b.body[0] == LoadOwner("meta");
    assert forall i :: 1 <= i <= 3 ==> LoadedBefore(b.body, i, "meta");
    assert ScanLine(b, 0, Scanned(0, false, None)) == Scanned(0, false, None);
    assert ScanLine(b, 1, Scanned(0, false, None)) == Scanned(1, true, None);
    assert ScanLine(b, 2, Scanned(1, true, None)) == Scanned(2, true, None);
    assert ScanLine(b, 3, Scanned(2, true, None)) == Scanned(3, true, None);
    hide ScanLine;
    assert ScanFrom(b, 2, Scanned(1, true, None)) == Scanned(3, true, None);
  }

  lemma UnwoundIsScanned()
    ensures ScanFrom(Rejecting().blocks["unwound"], 0, Scanned(0, false, None))
      == Scanned(0, true, Some([State("out", 3, true), State("abort", 0, true)]))
  {
    var b := Rejecting().blocks["unwound"];
    assert b.body[1] == LoadOwner("guard");
    assert LoadedBefore(b.body, 2, "guard");
    var s := Scanned(0, false, None);
    assert ScanLine(b, 0, s) == s && ScanLine(b, 1, s) == s;
    assert ScanFrom(b, 3, ScanLine(b, 2, s)) == ScanLine(b, 2, s);
  }

  lemma StraightVisits()
    ensures var f := Rejecting();
      && Visit(f, State("start", 0, false)) == Go(None, [State("finish", 0, false), State("reject", 0, false)])
      && Visit(f, State("finish", 0, false)) == Go(Some(Handoff), [])
      && Visit(f, State("reject", 0, false)) == Go(None, [State("early", 0, false), State("unwound", 0, false)])
  {
    var f := Rejecting();
    var s := Scanned(0, false, None);
    assert ScanFrom(f.blocks["start"], 0, s) == s by { assert ScanFrom(f.blocks["start"], 1, s) == s; }
    assert ScanFrom(f.blocks["reject"], 0, s) == s;
    hide ScanFrom;
  }

  lemma CleaningVisits()
    ensures var f := Rejecting();
      && Visit(f, State("early", 0, false)) == Go(Some(Returned), [])
      && Visit(f, State("unwound", 0, false)) == Go(None, [State("out", 3, true), State("abort", 0, true)])
  {
    EarlyIsScanned();
    UnwoundIsScanned();
    hide ScanFrom;
  }

  lemma EndingVisits()
    ensures var f := Rejecting();
      && Visit(f, State("out", 3, true)) == Go(Some(Resumed), []) && Visit(f, State("abort", 0, true)) == Go(None, [])
  {
    assert ScanFrom(Rejecting().blocks["abort"], 0, Scanned(0, true, None)) == Scanned(0, true, None);
  }

  /** How far a state of the walk is from the start. */
  function Depth(l: Label): nat {
    if l == "start" then 0 else if l in {"finish", "reject"} then 1 else if l in {"early", "unwound"} then 2 else 3
  }

  lemma RejectingVisits(s: State)
    requires s in ENTERED
    ensures s.at in Rejecting().blocks && Visit(Rejecting(), s).Go?
    ensures forall t :: t in Visit(Rejecting(), s).next ==> t in ENTERED && Depth(t.at) == Depth(s.at) + 1
  {
    StraightVisits();
    CleaningVisits();
    EndingVisits();
    hide Visit;
  }

  lemma {:induction false} RejectingPaths(p: seq<State>)
    requires StatePath(Rejecting(), p)
    ensures |p| > 0 && forall i :: 0 <= i < |p| ==> p[i] in ENTERED && Depth(p[i].at) == i
    decreases |p|
  {
    hide Rejecting, Visit;
    var n := |p| - 1;
    if n > 0 {
      RejectingPaths(p[..n]);
      RejectingVisits(p[n - 1]);
      assert Move(Rejecting(), p[n - 1], p[n]);
      assert p[..n][n - 1] == p[n - 1];
    } else {
      assert ENTERED[0] == p[0];
    }
  }

  lemma Reaches(p: seq<State>, s: State, t: State)
    requires StatePath(Rejecting(), p) && p[|p| - 1] == s && Move(Rejecting(), s, t)
    ensures StatePath(Rejecting(), p + [t]) && Reachable(Rejecting(), t)
  {
    hide Rejecting, Visit;
    PathGrows(Rejecting(), p, t);
  }

  lemma RejectingMoves()
    ensures var f := Rejecting();
      && Move(f, ENTERED[0], ENTERED[1]) && Move(f, ENTERED[0], ENTERED[2]) && Move(f, ENTERED[2], ENTERED[3])
      && Move(f, ENTERED[2], ENTERED[4]) && Move(f, ENTERED[4], ENTERED[5]) && Move(f, ENTERED[4], ENTERED[6])
  {
    StraightVisits();
    CleaningVisits();
    hide Visit;
  }

  lemma RejectingReaches()
    ensures forall s :: s in ENTERED ==> Reachable(Rejecting(), s)
  {
    var f := Rejecting();
    RejectingMoves();
    var p := [ENTERED[0]];
    assert ReachableBy(f, p, ENTERED[0]);
    hide StatePath, Reachable, ReachableBy, Rejecting, Move;
    Reaches(p, ENTERED[0], ENTERED[1]);
    Reaches(p, ENTERED[0], ENTERED[2]);
    var q := p + [ENTERED[2]];
    Reaches(q, ENTERED[2], ENTERED[3]);
    Reaches(q, ENTERED[2], ENTERED[4]);
    var r := q + [ENTERED[4]];
    Reaches(r, ENTERED[4], ENTERED[5]);
    Reaches(r, ENTERED[4], ENTERED[6]);
  }

  lemma RejectingAttains()
    ensures forall k :: Attained(Rejecting(), k)
  {
    RejectingReaches();
    StraightVisits();
    CleaningVisits();
    EndingVisits();
    RejectingVisits(ENTERED[1]);
    RejectingVisits(ENTERED[3]);
    RejectingVisits(ENTERED[5]);
    hide Reachable, Visit, Rejecting;
    assert Attained(Rejecting(), Handoff) && Attained(Rejecting(), Returned) && Attained(Rejecting(), Resumed);
    AllAttained(Rejecting());
  }

  lemma RejectingEntered()
    ensures Entered(Rejecting(), "reject") && Entered(Rejecting(), "early") && Entered(Rejecting(), "unwound")
  {
    RejectingReaches();
    assert ENTERED[2] in ENTERED && ENTERED[3] in ENTERED && ENTERED[4] in ENTERED;
    hide Reachable;
  }

  lemma SiteIs(f: Function, l: Label, i: nat, drops: bool)
    ensures (l, i) in Sites(f, drops)
      <==> l in f.blocks && i < |f.blocks[l].body| && Entered(f, l) && Site(f.blocks[l].body[i], drops)
  {
  }

  lemma RejectingSites()
    ensures |Sites(Rejecting(), false)| == 4 && |Sites(Rejecting(), true)| == 1
  {
    var f := Rejecting();
    RejectingEntered();
    hide Entered, Sites;
    forall x: (Label, nat)
      ensures x in Sites(f, false) <==> x in {("early", 1), ("early", 2), ("early", 3), ("unwound", 2)}
      ensures x in Sites(f, true) <==> x in {("reject", 0)}
    {
      SiteIs(f, x.0, x.1, false);
      SiteIs(f, x.0, x.1, true);
    }
    assert Sites(f, false) == {("early", 1), ("early", 2), ("early", 3), ("unwound", 2)};
    assert Sites(f, true) == {("reject", 0)};
  }

  lemma RejectingIsShaped()
    ensures WellFormed(Rejecting()) && Shaped(Rejecting())
  {
    var f := Rejecting();
    assert f.blocks["early"].body[0] == LoadOwner("meta") && f.blocks["unwound"].body[1] == LoadOwner("guard");
    assert Shaped(f);
    hide Shaped, ShapedLine;
  }

  /** The checker accepts a function of the reviewed shape. */
  lemma RejectingIsApproved()
    ensures WellFormed(Rejecting()) && Shaped(Rejecting()) && Approved(Rejecting())
  {
    var f := Rejecting();
    RejectingIsShaped();
    RejectingSites();
    RejectingAttains();
    hide Rejecting, Visit, Attained, Sites, WellFormed, Shaped, StatePath;
    forall s | Reachable(f, s) ensures s.at in f.blocks && Visit(f, s).Go? {
      var p :| ReachableBy(f, p, s);
      RejectingPaths(p);
      RejectingVisits(p[|p| - 1]);
    }
    forall p | StatePath(f, p) ensures DistinctLabels(p) { RejectingPaths(p); }
  }
}
