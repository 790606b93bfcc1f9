/** The KMAC verifier: it never holds the whole tag, but reads it in blocks of 64 bytes and one
    final partial byte, and folds every difference into one byte. */
module Verifier {
  import opened Options
  import opened KeyStream
  import opened Counter
  import opened IntegerEncoding
  import opened SpongeEngine
  import opened SecretProducer

  const BLOCK: nat := 64

  /** The expected tag: bytes of which the last holds `valid` bits. */
  datatype Candidate = Candidate(bytes: seq<Byte>, valid: nat) {
    predicate Typed() {
      if bytes == [] then valid == 0 else 1 <= valid <= 8
    }

    predicate Aligned() {
      valid == 0 || valid == 8
    }

    /** How many bytes are read as whole blocks. */
    function Complete(): nat
      requires Typed()
    {
      if Aligned() then |bytes| else |bytes| - 1
    }

    function LastBits(): Option<nat> {
      if Aligned() then None else Some(valid)
    }
  }

  /** The lengths of the block reads. */
  function Blocks(n: nat): seq<nat> {
    if n == 0 then [] else if n <= BLOCK then [n] else [BLOCK] + Blocks(n - BLOCK)
  }

  function Sum(lengths: seq<nat>): nat {
    if lengths == [] then 0 else lengths[0] + Sum(lengths[1..])
  }

  /** The blocks are full but for the last, none is empty, and together they are n bytes. */
  lemma {:induction false} BlocksTile(n: nat)
    ensures Sum(Blocks(n)) == n
    ensures forall i :: 0 <= i < |Blocks(n)| ==>
      0 < Blocks(n)[i] <= 64 && (i < |Blocks(n)| - 1 ==> Blocks(n)[i] == 64)
    decreases n
  {
    if n > BLOCK {
      BlocksTile(n - BLOCK);
    }
  }

  lemma BlocksStep(n: nat)
    ensures Blocks(n) == if n == 0 then [] else var size := if n < BLOCK then n else BLOCK; [size] + Blocks(n - size)
  {
  }

  lemma FoldDifference(difference: bv8, left: bv8, right: bv8)
    ensures difference | (left ^ right) == 0 <==> difference == 0 && left == right
  {
  }

  /** A difference once seen stays. */
  function Accumulate(difference: bv8, left: Byte, right: Byte): (d: bv8)
    ensures d == 0 <==> difference == 0 && left == right
  {
    var a, b := ByteOf(left), ByteOf(right);
    FoldDifference(difference, a, b);
    hide ByteOf, Number;
    difference | (a ^ b)
  }

  /** Where `done` bytes of the stream have been read off a live storage. */
  ghost predicate Following(storage: Storage, s: State, start: nat, count: nat, done: nat)
    requires storage.Valid()
    reads storage.Memory()
  {
    var engine := storage.engine;
    && engine.Lanes() == Iterate(engine.perm, s, Turns(engine.rate, start, done))
    && engine.position == After(engine.rate, start, done)
    && engine.Count() == count + done
    && Fits(engine.rate, start, done)
    && (done > 0 ==> !engine.failed && engine.squeezing && count + done <= MAXIMUM)
  }

  /** What the reader would deliver in one read of the whole tag. */
  ghost function Tag(storage: Storage, candidate: Candidate): seq<Byte>
    requires storage.Valid()
    reads storage.Memory()
  {
    var engine := storage.engine;
    Requested(engine.perm, engine.Lanes(), engine.rate, engine.position, |candidate.bytes|, candidate.LastBits())
  }

  /** The next n bytes of the stream. */
  ghost function Raw(storage: Storage, n: nat): seq<Byte>
    requires storage.Valid()
    reads storage.Memory()
  {
    Stream(storage.engine.perm, storage.engine.Lanes(), storage.engine.rate, storage.engine.position, n)
  }

  /** The next byte of the stream with its low bits only. */
  ghost function FinalByte(storage: Storage, valid: nat): seq<Byte>
    requires storage.Valid()
    reads storage.Memory()
  {
    var engine := storage.engine;
    Requested(engine.perm, engine.Lanes(), engine.rate, engine.position, 1, Some(valid))
  }

  /** Compares one block and clears it. */
  method Compare(block: array<Byte>, expected: seq<Byte>, difference: bv8) returns (d: bv8)
    requires block.Length == |expected|
    modifies block
    ensures d == 0 <==> difference == 0 && old(block[..]) == expected
    ensures AllZero(block)
  {
    d := difference;
    for i := 0 to |expected|
      invariant block[..] == old(block[..])
      invariant d == 0 <==> difference == 0 && block[..i] == expected[..i]
    {
      d := Accumulate(d, block[i], expected[i]);
      assert block[..i + 1] == block[..i] + [block[i]] && expected[..i + 1] == expected[..i] + [expected[i]];
    }
    assert block[..|expected|] == block[..];
    ClearRegion(block);
  }

  /** One block more: the stream, the cursor and the admissible lengths all extend. */
  lemma NextBlock(perm: Permutation, s: State, rate: nat, start: nat, done: nat, size: nat, n: nat)
    requires size > 0 && done + size <= n && Fits(rate, start, done)
    ensures var t, p := Iterate(perm, s, Turns(rate, start, done)), After(rate, start, done);
      && Stream(perm, s, rate, start, done + size)
           == Stream(perm, s, rate, start, done) + Stream(perm, t, rate, p, size)
      && Iterate(perm, t, Turns(rate, p, size)) == Iterate(perm, s, Turns(rate, start, done + size))
      && After(rate, p, size) == After(rate, start, done + size)
      && |Stream(perm, s, rate, start, done)| == done
      && (Fits(rate, p, size) ==> Fits(rate, start, done + size))
      && (!Fits(rate, p, size) ==> !Fits(rate, start, n))
  {
    ReadsCompose(perm, s, rate, start, done, size);
    NextChunkFits(rate, start, done, size, n);
  }

  lemma WholeBytes(perm: Permutation, s: State, rate: nat, start: nat, n: nat)
    ensures Requested(perm, s, rate, start, n, None) == Stream(perm, s, rate, start, n)
  {
  }

  lemma AppendsEqual(a: seq<Byte>, b: seq<Byte>, c: seq<Byte>, d: seq<Byte>)
    requires |a| == |c|
    ensures a + b == c + d <==> a == c && b == d
  {
    assert (a + b)[..|a|] == a && (c + d)[..|c|] == c;
    assert (a + b)[|a|..] == b && (c + d)[|c|..] == d;
  }

  lemma NoBytesRead(perm: Permutation, s: State, rate: nat, start: nat)
    ensures Iterate(perm, s, Turns(rate, start, 0)) == s && After(rate, start, 0) == start && Fits(rate, start, 0)
    ensures Stream(perm, s, rate, start, 0) == []
  {
  }

  /** Reads and compares the next block, of `size` bytes. */
  method CompareBlock(storage: Storage, expected: seq<Byte>, done: nat, size: nat, difference: bv8, oracle: Oracle,
      ghost s: State, ghost start: nat, ghost count: nat) returns (a: Answer, d: bv8)
    requires storage.Valid() && size > 0 && done + size <= |expected|
    requires Following(storage, s, start, count, done)
    requires difference == 0 <==> expected[..done] == Stream(storage.engine.perm, s, storage.engine.rate, start, done)
    modifies storage.Memory()
    ensures a.Fine? ==> Following(storage, s, start, count, done + size)
    ensures a.Fine? ==>
      (d == 0 <==> expected[..done + size] == Stream(storage.engine.perm, s, storage.engine.rate, start, done + size))
    ensures a.Fine? ==>
      storage.engine.failed == old(storage.engine.failed) && storage.engine.squeezing == old(storage.engine.squeezing)
    ensures FaultFree(oracle) ==> a == old(storage.engine.ReadAnswer(size))
  {
    hide Iterate, Turns, After, Stream, StreamByte, Fits, FaultFree, Decode, Requested;
    var engine := storage.engine;
    var block := new Byte[size];
    var owned;
    NextBlock(engine.perm, s, engine.rate, start, done, size, |expected|);
    WholeBytes(engine.perm, engine.Lanes(), engine.rate, engine.position, size);
    AppendsEqual(expected[..done], expected[done..done + size], Stream(engine.perm, s, engine.rate, start, done),
                 Stream(engine.perm, engine.Lanes(), engine.rate, engine.position, size));
    assert expected[..done + size] == expected[..done] + expected[done..done + size];
    a, owned := storage.Produce(block, None, oracle);
    d := difference;
    if a.Fine? {
      d := Compare(block, expected[done..done + size], difference);
    }
  }

  lemma FitsShorter(rate: nat, position: nat, m: nat, n: nat)
    requires m <= n && Fits(rate, position, n)
    ensures Fits(rate, position, m)
  {
    if 0 < m < n {
      FitsSplits(rate, position, m, n - m);
    }
  }

  /** Reads and compares the whole blocks. */
  method CompareBlocks(storage: Storage, expected: seq<Byte>, oracle: Oracle)
    returns (a: Answer, difference: bv8, sizes: seq<nat>)
    requires storage.Valid()
    modifies storage.Memory()
    ensures a.Fine? ==>
      Following(storage, old(storage.engine.Lanes()), old(storage.engine.position), old(storage.engine.Count()),
        |expected|)
    ensures a.Fine? ==> sizes == Blocks(|expected|)
    ensures a.Fine? ==>
      (difference == 0 <==> expected == Stream(storage.engine.perm, old(storage.engine.Lanes()), storage.engine.rate,
                                               old(storage.engine.position), |expected|))
    ensures a.Fine? ==>
      storage.engine.failed == old(storage.engine.failed) && storage.engine.squeezing == old(storage.engine.squeezing)
    ensures FaultFree(oracle) ==> (a.Fine? <==> expected == [] || old(storage.engine.ReadAnswer(|expected|)).Fine?)
  {
    hide Iterate, Turns, After, Stream, StreamByte, Fits, FaultFree, Decode, Requested, Blocks;
    a, difference, sizes := Fine, 0, [];
    var engine := storage.engine;
    ghost var s, start, count := engine.Lanes(), engine.position, engine.Count();
    NoBytesRead(engine.perm, s, engine.rate, start);
    var done, n := 0, |expected|;
    while done < n
      invariant a.Fine? && done <= n && Following(storage, s, start, count, done)
      invariant sizes + Blocks(n - done) == Blocks(n)
      invariant difference == 0 <==> expected[..done] == Stream(engine.perm, s, engine.rate, start, done)
      invariant engine.failed == old(engine.failed) && engine.squeezing == old(engine.squeezing)
    {
      var size := if n - done < BLOCK then n - done else BLOCK;
      NextBlock(engine.perm, s, engine.rate, start, done, size, n);
      assert old(engine.ReadAnswer(n)).Fine? ==> engine.ReadAnswer(size).Fine?;
      a, difference := CompareBlock(storage, expected, done, size, difference, oracle, s, start, count);
      if !a.Fine? {
        return;
      }
      BlocksStep(n - done);
      assert sizes + [size] + Blocks(n - done - size) == sizes + ([size] + Blocks(n - done - size));
      sizes := sizes + [size];
      done := done + size;
    }
    BlocksStep(0);
    assert expected[..n] == expected;
    assert n > 0 ==> old(engine.ReadAnswer(n)).Fine?;
  }

  /** The masked last byte is what a final read of one byte delivers. */
  lemma TagSplits(perm: Permutation, s: State, rate: nat, start: nat, whole: nat, valid: nat)
    requires Fits(rate, start, whole)
    ensures var t, p := Iterate(perm, s, Turns(rate, start, whole)), After(rate, start, whole);
      Requested(perm, s, rate, start, whole + 1, Some(valid))
        == Stream(perm, s, rate, start, whole) + Requested(perm, t, rate, p, 1, Some(valid))
  {
    NextBlock(perm, s, rate, start, whole, 1, whole + 1);
  }

  /** Reads and compares the final partial byte; this consumes the reader. */
  method CompareFinal(storage: Storage, expected: Byte, valid: nat, difference: bv8, oracle: Oracle)
    returns (a: Answer, d: bv8)
    requires storage.Valid() && 1 <= valid <= 8
    modifies storage.Memory()
    ensures storage.Wiped()
    ensures a.Fine? ==>
      (d == 0 <==> difference == 0 && [expected] == old(FinalByte(storage, valid)))
    ensures FaultFree(oracle) ==> (a.Fine? <==> old(storage.engine.ReadAnswer(1)).Fine?)
  {
    var block := new Byte[1];
    var owned;
    a, owned := storage.ProduceFinal(block, valid, oracle);
    d := difference;
    if a.Fine? {
      d := Compare(block, [expected], difference);
    }
  }

  /** The verdict is to accept exactly if the candidate is the tag that one read of its whole
      length would have delivered, every bit of it; an error never accepts; and the reader is
      consumed, so nothing secret is left on any exit. */
  method Verify(storage: Storage, candidate: Candidate, oracle: Oracle)
      returns (a: Answer, accepted: bool, sizes: seq<nat>)
    requires storage.Valid() && candidate.Typed()
    modifies storage.Memory()
    ensures storage.Wiped()
    ensures a.Fine? ==> (accepted <==> candidate.bytes == old(Tag(storage, candidate)))
    ensures a.Fine? ==>
      (accepted <==> LeadingBits(old(Raw(storage, |candidate.bytes|)),
                                 if candidate.bytes == [] then 0 else 8 * (|candidate.bytes| - 1) + candidate.valid,
                                 candidate.bytes))
    ensures accepted ==> a.Fine?
    ensures a.Fine? ==>
      sizes == if candidate.valid in {0, 8} then Blocks(|candidate.bytes|) else Blocks(|candidate.bytes| - 1) + [1]
    ensures FaultFree(oracle) ==>
      (a.Fine? <==> candidate.bytes == [] || old(storage.engine.ReadAnswer(|candidate.bytes|)).Fine?)
  {
    hide Iterate, Turns, After, Stream, StreamByte, Fits, FaultFree, Decode, Requested, LeadingBits;
    var engine := storage.engine;
    ghost var s, start, count, n := engine.Lanes(), engine.position, engine.Count(), |candidate.bytes|;
    var whole, difference := candidate.Complete(), 0;
    assert old(engine.ReadAnswer(n)).Fine? ==> engine.ReadAnswer(whole).Fine? by {
      if Fits(engine.rate, start, n) { FitsShorter(engine.rate, start, whole, n); }
    }
    a, difference, sizes := CompareBlocks(storage, candidate.bytes[..whole], oracle);
    if a.Fine? && !candidate.Aligned() {
      NextBlock(engine.perm, s, engine.rate, start, whole, 1, n);
      TagSplits(engine.perm, s, engine.rate, start, whole, candidate.valid);
      ghost var one := Requested(engine.perm, engine.Lanes(), engine.rate, engine.position, 1, Some(candidate.valid));
      ghost var answer := engine.ReadAnswer(1);
      assert answer.Fine? <==> old(engine.ReadAnswer(n)).Fine?;
      a, difference := CompareFinal(storage, candidate.bytes[whole], candidate.valid, difference, oracle);
      sizes := sizes + [1];
      assert candidate.bytes == candidate.bytes[..whole] + [candidate.bytes[whole]];
      AppendsEqual(candidate.bytes[..whole], [candidate.bytes[whole]],
        Stream(engine.perm, s, engine.rate, start, whole), one);
    } else {
      WholeBytes(engine.perm, s, engine.rate, start, n);
      storage.Clear();
    }
    accepted := a.Fine? && difference == 0;
    CandidateBits(engine.perm, s, engine.rate, start, candidate);
  }

  /** The candidate is the tag exactly if its bits are those of the stream and the rest are zero. */
  lemma CandidateBits(perm: Permutation, s: State, rate: nat, start: nat, candidate: Candidate)
    requires candidate.Typed()
    ensures var n := |candidate.bytes|;
      candidate.bytes == Requested(perm, s, rate, start, n, candidate.LastBits()) <==>
        LeadingBits(Stream(perm, s, rate, start, n), if n == 0 then 0 else 8 * (n - 1) + candidate.valid,
                    candidate.bytes)
  {
    RequestedBits(perm, s, rate, start, |candidate.bytes|, candidate.LastBits(), candidate.bytes);
    hide Stream, Requested, LeadingBits;
  }
}
