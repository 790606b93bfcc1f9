/** The accelerated sponge engine: preflight, the read loop with its lazy permutation and
    cursor, the counter commit, and the guard that wipes the engine unless a read completes.

    Every boundary call asks an oracle, which may let it fail or unwind at any point. */
module SpongeEngine {
  import opened Arithmetic
  import opened KeyStream
  import opened Counter

  datatype Answer = Fine | Failed(code: nat) | Unwinds
  datatype Site = Session | Permute | Subtract | EndAdd | LaneGet | LaneCopy | Writer
                | ClearOutput | Slice | LastByte | Mask | AsMut | Write | OutputCopy | Remaining | Finish | Predicate
  /** What a boundary answers at its n-th call. */
  type Oracle = (Site, nat) -> Answer

  const TERMINAL: nat := 7
  const OVERFLOW: nat := 8
  const LENGTH: nat := 9
  const MEMORY: nat := 10

  ghost predicate FaultFree(oracle: Oracle) {
    forall site, n :: oracle(site, n).Fine?
  }

  /** What the bounds of a copy answer: a helper that fails, a cursor behind the rate, or lanes that
      end before the copy does. */
  function RangeAnswer(oracle: Oracle, clock: nat, rate: nat, position: nat, left: nat): Answer {
    if !oracle(Subtract, clock).Fine? || position >= rate then Failed(7)
    else if !oracle(EndAdd, clock + 1).Fine? then Failed(8)
    else if !oracle(LaneGet, clock + 2).Fine? || position + Min(rate - position, left) > 200 then Failed(7)
    else Fine
  }

  ghost predicate AllZero(a: array<Byte>)
    reads a
  {
    forall i :: 0 <= i < a.Length ==> a[i] == 0
  }

  /** A volatile clear of a whole region. */
  method ClearRegion(a: array<Byte>)
    modifies a
    ensures AllZero(a)
  {
    for i := 0 to a.Length
      invariant forall j :: 0 <= j < i ==> a[j] == 0
    {
      a[i] := 0;
    }
  }

  class Engine {
    const perm: Permutation
    const rate: nat
    const lanes: array<Byte>
    const messageCount: array<Byte>
    const outputCount: array<Byte>
    const suffix: array<Byte>
    var position: nat
    var squeezing: bool
    var failed: bool
    var permutations: nat
    var clock: nat

    ghost predicate Valid()
    {
      && lanes.Length == LANES && messageCount.Length == WIDTH && outputCount.Length == WIDTH && suffix.Length == 2
      && lanes != messageCount && lanes != outputCount && lanes != suffix
      && messageCount != outputCount && messageCount != suffix && outputCount != suffix
    }

    ghost function Memory(): set<object> {
      {this, lanes, messageCount, outputCount, suffix}
    }

    ghost function Lanes(): State
      requires Valid()
      reads lanes
    {
      lanes[..]
    }

    ghost function Count(): nat
      reads outputCount
    {
      Decode(outputCount[..])
    }

    /** Nothing secret is left, and no later operation is admitted. */
    ghost predicate Wiped()
      reads Memory()
    {
      failed && position == 0 && AllZero(lanes) && AllZero(messageCount) && AllZero(outputCount) && AllZero(suffix)
    }

    /** The state that a read of n bytes leaves behind. */
    twostate predicate Advanced(n: nat)
      requires Valid()
      reads Memory()
    {
      && Lanes() == Iterate(perm, old(Lanes()), Turns(rate, old(position), n))
      && position == After(rate, old(position), n)
      && permutations == old(permutations) + Turns(rate, old(position), n)
      && Count() == old(Count()) + n
      && failed == old(failed) && squeezing == old(squeezing)
      && messageCount[..] == old(messageCount[..]) && suffix[..] == old(suffix[..])
    }

    /** What a preflight of n bytes answers when no boundary fails. */
    ghost predicate Admits(n: nat)
      reads this, outputCount
    {
      !failed && squeezing && Count() + n <= MAXIMUM
    }

    constructor (perm: Permutation, rate: nat)
      ensures Valid() && fresh(Memory()) && this.perm == perm && this.rate == rate
      ensures position == 0 && !squeezing && !failed && permutations == 0
      ensures AllZero(lanes) && AllZero(messageCount) && AllZero(outputCount) && AllZero(suffix)
    {
      this.perm, this.rate := perm, rate;
      lanes := new Byte[LANES](_ => 0);
      messageCount := new Byte[WIDTH](_ => 0);
      outputCount := new Byte[WIDTH](_ => 0);
      suffix := new Byte[2](_ => 0);
      position, squeezing, failed, permutations, clock := 0, false, false, 0, 0;
    }

    /** The guard's drop: the engine is terminal and cleared. */
    method Cancel()
      requires Valid()
      modifies this`failed, this`position, lanes, messageCount, outputCount, suffix
      ensures Wiped()
    {
      failed, position := true, 0;
      ClearRegion(lanes);
      ClearRegion(messageCount);
      ClearRegion(outputCount);
      ClearRegion(suffix);
    }

    method Ask(oracle: Oracle, site: Site) returns (a: Answer)
      modifies this`clock
      ensures a == oracle(site, old(clock)) && clock == old(clock) + 1 && (FaultFree(oracle) ==> a.Fine?)
    {
      a := oracle(site, clock);
      clock := clock + 1;
    }

    /** Admission: state, session, then the counter, which is only read. */
    method Preflight(n: nat, oracle: Oracle) returns (a: Answer)
      requires Valid()
      modifies this`clock
      ensures a.Fine? ==> Admits(n)
      ensures a == if failed || !squeezing then Failed(TERMINAL)
                   else if !oracle(Session, old(clock)).Fine? then oracle(Session, old(clock))
                   else if Count() + n > MAXIMUM then Failed(OVERFLOW)
                   else Fine
      ensures !Admits(n) && FaultFree(oracle) ==> a == Failed(if failed || !squeezing then TERMINAL else OVERFLOW)
      ensures Admits(n) && FaultFree(oracle) ==> a.Fine?
    {
      if failed || !squeezing { return Failed(TERMINAL); }
      a := Ask(oracle, Session);
      if !a.Fine? { return a; }
      var count := ReadCount(outputCount);
      if count + n > MAXIMUM { return Failed(OVERFLOW); }
    }

    method Turn(oracle: Oracle) returns (a: Answer)
      requires Valid()
      modifies this`clock, this`position, this`permutations, lanes
      ensures a == oracle(Permute, old(clock)) && (FaultFree(oracle) ==> a.Fine?)
      ensures a.Fine? ==> Lanes() == perm(old(Lanes())) && position == 0 && permutations == old(permutations) + 1
    {
      a := Ask(oracle, Permute);
      if a.Fine? {
        var next := perm(lanes[..]);
        forall i | 0 <= i < LANES { lanes[i] := next[i]; }
        assert lanes[..] == next;
        position, permutations := 0, permutations + 1;
      }
    }

    /** The bounds of the next copy, or the error of the helper that refuses it. */
    method NextRange(left: nat, oracle: Oracle) returns (a: Answer, count: nat)
      requires left > 0
      modifies this`clock
      ensures a.Fine? ==> position < rate && 0 < count <= left && count <= rate - position && position + count <= LANES
      ensures a.Fine? && count < left ==> count == rate - position
      ensures a == RangeAnswer(oracle, old(clock), rate, position, left)
      ensures FaultFree(oracle) && !a.Fine? ==>
        a == Failed(TERMINAL) && (position >= rate || (rate > LANES && position + left > LANES))
    {
      count := 0;
      a := Ask(oracle, Subtract);
      if !a.Fine? || position >= rate { return Failed(TERMINAL), 0; }
      count := if rate - position < left then rate - position else left;
      a := Ask(oracle, EndAdd);
      if !a.Fine? { return Failed(OVERFLOW), 0; }
      a := Ask(oracle, LaneGet);
      if !a.Fine? || position + count > LANES { return Failed(TERMINAL), 0; }
    }

    /** Copies lanes to the destination and moves the cursor. */
    method CopyLanes(dst: array<Byte>, at: nat, count: nat, oracle: Oracle) returns (a: Answer)
      requires Valid() && dst !in Memory() && at + count <= dst.Length && position + count <= LANES
      modifies this`clock, this`position, dst
      ensures FaultFree(oracle) ==> a.Fine?
      ensures var answer := oracle(LaneCopy, old(clock)); a == if answer.Failed? then Failed(10) else answer
      ensures forall k :: 0 <= k < dst.Length && !(at <= k < at + count) ==> dst[k] == old(dst[k])
      ensures a.Fine? ==> position == old(position) + count
      ensures a.Fine? ==> dst[at..at + count] == old(Lanes())[old(position)..old(position) + count]
    {
      a := Ask(oracle, LaneCopy);
      if a.Fine? {
        ghost var from := Lanes();
        var start := position;
        for j := 0 to count
          invariant Lanes() == from && position == start
          invariant forall k :: 0 <= k < dst.Length && !(at <= k < at + j) ==> dst[k] == old(dst[k])
          invariant dst[at..at + j] == from[start..start + j]
        {
          dst[at + j] := lanes[start + j];
        }
        position := start + count;
      } else if a.Failed? {
        a := Failed(MEMORY);
      }
    }

    /** The invariant of the read loop: n bytes wanted, `copied` bytes delivered. */
    ghost predicate InLoop(dst: array<Byte>, lo: nat, n: nat, copied: nat, s: State, start: nat, turns: nat)
      requires Valid() && lo + n <= dst.Length
      reads this, lanes, dst
    {
      && copied <= n && Reading(rate, start, n, copied, position, turns)
      && Lanes() == Iterate(perm, s, turns)
      && ReadSoFar(perm, s, rate, start, copied, dst[lo..lo + copied])
    }

    /** One pass of the read loop. */
    method ReadStep(dst: array<Byte>, lo: nat, n: nat, copied: nat, oracle: Oracle, ghost s: State, ghost start: nat,
        ghost turns: nat)
      returns (a: Answer, count: nat, ghost turned: nat)
      requires Valid() && dst !in Memory() && lo + n <= dst.Length
      requires copied < n && InLoop(dst, lo, n, copied, s, start, turns)
      modifies this`clock, this`position, this`permutations, lanes, dst
      ensures forall k :: 0 <= k < dst.Length && !(lo <= k < lo + n) ==> dst[k] == old(dst[k])
      ensures a.Fine? ==> 0 < count && InLoop(dst, lo, n, copied + count, s, start, turned)
      ensures a.Fine? ==> permutations - old(permutations) == turned - turns
      ensures FaultFree(oracle) && !a.Fine? ==> a == Failed(TERMINAL) && !Fits(rate, start, n)
    {
      hide Reading, Ready, Fits, ReadSoFar, Iterate, FaultFree, RangeAnswer;
      ghost var at := position;
      count, turned := 0, turns;
      BecomesReady(rate, start, n, copied, at, turns);
      NothingMoreFits(rate, start, n, copied, at, if at == rate then 0 else at);
      if position == rate {
        a := Turn(oracle);
        if !a.Fine? { return; }
        IterateNext(perm, s, turns);
        turned := turns + 1;
      }
      a, count := NextRange(n - copied, oracle);
      if !a.Fine? { return; }
      ghost var from, before := position, dst[lo..lo + copied];
      a := CopyLanes(dst, lo + copied, count, oracle);
      if !a.Fine? { return; }
      ghost var copy := dst[lo + copied..lo + copied + count];
      assert dst[lo..lo + (copied + count)] == before + copy;
      ReadsOn(perm, s, rate, start, n, copied, at, from, turned, count, before, copy);
    }

    /** The read loop: permute when the cursor is at the rate, copy up to the rate, move on. */
    method ReadLoop(dst: array<Byte>, lo: nat, n: nat, oracle: Oracle) returns (a: Answer)
      requires Valid() && dst !in Memory() && lo + n <= dst.Length
      modifies this`clock, this`position, this`permutations, lanes, dst
      ensures forall k :: 0 <= k < dst.Length && !(lo <= k < lo + n) ==> dst[k] == old(dst[k])
      ensures a.Fine? ==> Fits(rate, old(position), n)
      ensures a.Fine? ==> Lanes() == Iterate(perm, old(Lanes()), Turns(rate, old(position), n))
      ensures a.Fine? ==> position == After(rate, old(position), n)
      ensures a.Fine? ==> permutations == old(permutations) + Turns(rate, old(position), n)
      ensures a.Fine? ==> dst[lo..lo + n] == Stream(perm, old(Lanes()), rate, old(position), n)
      ensures FaultFree(oracle) && !a.Fine? ==> a == Failed(TERMINAL) && !Fits(rate, old(position), n)
    {
      ghost var s, start := Lanes(), position;
      var copied, count := 0, 0;
      ghost var turns := 0;
      ReadingBegins(perm, s, rate, start, n);
      assert dst[lo..lo] == [];
      hide Reading, Fits, ReadSoFar, Iterate, FaultFree;
      while copied < n
        invariant InLoop(dst, lo, n, copied, s, start, turns)
        invariant permutations == old(permutations) + turns
        invariant forall k :: 0 <= k < dst.Length && !(lo <= k < lo + n) ==> dst[k] == old(dst[k])
        decreases n - copied
      {
        a, count, turns := ReadStep(dst, lo, n, copied, oracle, s, start, turns);
        if !a.Fine? { return; }
        copied := copied + count;
      }
      a := Fine;
      ReadingEnds(perm, s, rate, start, n, position, turns, dst[lo..lo + n]);
    }

    /** Writes the counter, through a writer that may fail and then leaves it alone. */
    method Commit(value: nat, oracle: Oracle) returns (a: Answer)
      requires Valid() && value <= MAXIMUM
      modifies this`clock, outputCount
      ensures a == oracle(Writer, old(clock)) && (FaultFree(oracle) ==> a.Fine?)
      ensures if a.Fine? then Count() == value else outputCount[..] == old(outputCount[..])
    {
      a := Ask(oracle, Writer);
      if a.Fine? { WriteCount(outputCount, value); }
    }

    /** Reads n bytes under the engine's guard. A completed read delivers exactly the next n
        bytes of the stream, advances cursor and counter by n, and touches nothing else; any
        other end leaves the engine terminal and wiped, with the destination changed at most
        where the read would have written, and not at all when the read is not admitted. */
    method Read(dst: array<Byte>, lo: nat, n: nat, oracle: Oracle) returns (a: Answer)
      requires Valid() && dst !in Memory() && lo + n <= dst.Length
      modifies this`clock, this`position, this`permutations, this`failed, lanes, messageCount, outputCount, suffix, dst
      ensures forall k :: 0 <= k < dst.Length && !(lo <= k < lo + n) ==> dst[k] == old(dst[k])
      ensures a.Fine? ==> old(Admits(n)) && Fits(rate, old(position), n) && Advanced(n)
      ensures a.Fine? ==> dst[lo..lo + n] == Stream(perm, old(Lanes()), rate, old(position), n)
      ensures !a.Fine? ==> Wiped()
      ensures !old(Admits(n)) ==> !a.Fine? && dst[..] == old(dst[..])
      ensures FaultFree(oracle) ==> a == old(ReadAnswer(n))
    {
      a := Preflight(n, oracle);
      if a.Fine? {
        var count := ReadCount(outputCount);
        a := ReadLoop(dst, lo, n, oracle);
        if a.Fine? {
          a := Commit(count + n, oracle);
        }
      }
      if !a.Fine? { Cancel(); }
    }

    /** What a read answers when no boundary fails. */
    ghost function ReadAnswer(n: nat): Answer
      reads this, outputCount
    {
      if failed || !squeezing then Failed(TERMINAL)
      else if Count() + n > MAXIMUM then Failed(OVERFLOW)
      else if !Fits(rate, position, n) then Failed(TERMINAL)
      else Fine
    }
  }

  /** The cursor at a loop head: so many bytes read, so many permutations made. */
  predicate Reading(rate: nat, start: nat, n: nat, copied: nat, position: nat, turns: nat) {
    && copied <= n
    && (copied == 0 ==> position == start && turns == 0)
    && (copied > 0 ==> rate > 0 && start <= rate && 1 <= position <= rate && position + turns * rate == start + copied)
    && (0 < copied < n ==> rate <= LANES)
    && (copied > 0 ==> Fits(rate, start, copied))
  }

  /** The cursor once a pending permutation has been made. */
  predicate Ready(rate: nat, start: nat, copied: nat, position: nat, turns: nat) {
    && (position < rate ==> position + turns * rate == start + copied)
    && (copied > 0 ==> position < rate)
    && (copied == 0 ==> position == (if start == rate then 0 else start))
  }

  lemma BecomesReady(rate: nat, start: nat, n: nat, copied: nat, position: nat, turns: nat)
    requires Reading(rate, start, n, copied, position, turns)
    ensures position == rate ==> Ready(rate, start, copied, 0, turns + 1)
    ensures position != rate ==> Ready(rate, start, copied, position, turns)
  {
    assert (turns + 1) * rate == turns * rate + rate;
  }

  /** The bytes delivered so far. */
  predicate ReadSoFar(perm: Permutation, s: State, rate: nat, start: nat, copied: nat, bytes: seq<Byte>) {
    bytes == Stream(perm, s, rate, start, copied)
  }

  lemma ReadingBegins(perm: Permutation, s: State, rate: nat, start: nat, n: nat)
    ensures Reading(rate, start, n, 0, start, 0) && Iterate(perm, s, 0) == s
    ensures ReadSoFar(perm, s, rate, start, 0, [])
  {
  }

  lemma IterateNext(perm: Permutation, s: State, turns: nat)
    ensures perm(Iterate(perm, s, turns)) == Iterate(perm, s, turns + 1)
  {
  }

  /** Without a fault the next range is refused only when the whole read cannot be delivered. */
  lemma NothingMoreFits(rate: nat, start: nat, n: nat, copied: nat, at: nat, position: nat)
    requires exists turns :: Reading(rate, start, n, copied, at, turns)
    requires copied < n && position == if at == rate then 0 else at
    ensures position >= rate || (rate > LANES && position + (n - copied) > LANES) ==> !Fits(rate, start, n)
  {
  }

  lemma ReadsOn(perm: Permutation, s: State, rate: nat, start: nat, n: nat, copied: nat, at: nat, position: nat,
      turns: nat, count: nat, before: seq<Byte>, copy: seq<Byte>)
    requires exists was :: Reading(rate, start, n, copied, at, was)
    requires Ready(rate, start, copied, position, turns) && position < rate && copied + count <= n
    requires 0 < count <= rate - position && position + count <= LANES
    requires count < n - copied ==> count == rate - position
    requires ReadSoFar(perm, s, rate, start, copied, before)
    requires copy == Iterate(perm, s, turns)[position..position + count]
    ensures Reading(rate, start, n, copied + count, position + count, turns)
    ensures ReadSoFar(perm, s, rate, start, copied + count, before + copy)
  {
    ExtendStream(perm, s, rate, start, copied, position, turns, count, before, copy);
  }

  lemma ReadingEnds(perm: Permutation, s: State, rate: nat, start: nat, n: nat, position: nat, turns: nat,
      bytes: seq<Byte>)
    requires Reading(rate, start, n, n, position, turns) && ReadSoFar(perm, s, rate, start, n, bytes)
    ensures Fits(rate, start, n)
    ensures position == After(rate, start, n) && turns == Turns(rate, start, n)
    ensures bytes == Stream(perm, s, rate, start, n)
  {
    if n > 0 { ProgressIsUnique(rate, start, n, position, turns); }
  }

  lemma ExtendStream(perm: Permutation, s: State, rate: nat, start: nat, copied: nat, position: nat, turns: nat,
      count: nat, before: seq<Byte>, copy: seq<Byte>)
    requires position + count <= rate && position + count <= LANES && count > 0
    requires position + turns * rate == start + copied
    requires before == Stream(perm, s, rate, start, copied)
    requires copy == Iterate(perm, s, turns)[position..position + count]
    ensures before + copy == Stream(perm, s, rate, start, copied + count)
  {
    var whole := Stream(perm, s, rate, start, copied + count);
    forall j | 0 <= j < count ensures copy[j] == whole[copied + j] {
      CopyIsStream(perm, s, rate, start, copied, position, turns, j);
    }
    assert whole[..copied] == before && whole[copied..] == copy;
  }

  /** The bytes of one copy are the next bytes of the stream. */
  lemma CopyIsStream(perm: Permutation, s: State, rate: nat, start: nat, copied: nat, position: nat, turns: nat, j: nat)
    requires position + turns * rate == start + copied && position + j < rate && position + j < LANES
    ensures StreamByte(perm, s, rate, start + (copied + j)) == Iterate(perm, s, turns)[position + j]
  {
    DivMod(start + (copied + j), rate, turns, position + j);
  }
}
