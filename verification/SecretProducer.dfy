/** The accelerated secret producer: it owns the whole destination, reads the engine in chunks
    of at most 168 bytes through a staging buffer, masks the final byte, writes each chunk to
    the output and clears the staging; its guard clears everything unless the call completes. */
module SecretProducer {
  import opened Options
  import opened Arithmetic
  import opened KeyStream
  import opened Counter
  import opened SpongeEngine

  const STAGE: nat := 168

  /** The bytes a call asks for: the next n of the stream, with only the valid low bits of the
      last byte in final mode. */
  function Requested(perm: Permutation, s: State, rate: nat, start: nat, n: nat, valid: Option<nat>): seq<Byte> {
    var raw := Stream(perm, s, rate, start, n);
    if valid.None? || n == 0 then raw else raw[n - 1 := LowBits(raw[n - 1], valid.value)]
  }

  /** A byte with everything but its low bits masked out. */
  function LowBits(b: Byte, valid: nat): Byte {
    RemainderIsSmall(b, Pow2(valid));
    b % Pow2(valid)
  }

  /** A chunk as it is written: its last byte is masked when it ends a final request. */
  function Shaped(chunk: seq<Byte>, last: bool, valid: Option<nat>): seq<Byte>
    requires |chunk| > 0
  {
    if last && valid.Some? then chunk[|chunk| - 1 := LowBits(chunk[|chunk| - 1], valid.value)] else chunk
  }

  // ---------- bit by bit ----------

  /** Bit k of a byte, the lowest one first. */
  function BitAt(b: nat, k: nat): nat {
    b / Pow2(k) % 2
  }

  /** How many bits a request of n bytes asks for. */
  function BitCount(n: nat, valid: Option<nat>): nat {
    if n == 0 then 0 else 8 * (n - 1) + if valid.Some? then valid.value else 8
  }

  /** The first `count` bits are those of the raw bytes; the rest are zero. */
  ghost predicate LeadingBits(raw: seq<Byte>, count: nat, bytes: seq<Byte>) {
    && |bytes| == |raw|
    && forall i, k :: 0 <= i < |raw| && 0 <= k < 8 ==>
         BitAt(bytes[i], k) == if 8 * i + k < count then BitAt(raw[i], k) else 0
  }

  lemma HalveTwice(b: nat, k: nat)
    ensures b / Pow2(k + 1) == b / 2 / Pow2(k)
  {
    var p := Pow2(k);
    var q, r := b / 2 / p, (b / 2) % p;
    assert b / 2 == q * p + r;
    assert b == q * (2 * p) + (2 * r + b % 2) by {
      assert 2 * (q * p) == q * (2 * p);
    }
    DivMod(b, 2 * p, q, 2 * r + b % 2);
  }

  lemma HalveRest(b: nat, n: nat)
    requires n > 0
    ensures b % Pow2(n) / 2 == b / 2 % Pow2(n - 1) && b % Pow2(n) % 2 == b % 2
  {
    var p := Pow2(n - 1);
    var q, r := b / 2 / p, b / 2 % p;
    assert b / 2 == q * p + r;
    assert b == q * (2 * p) + (2 * r + b % 2) by {
      assert 2 * (q * p) == q * (2 * p);
    }
    DivMod(b, 2 * p, q, 2 * r + b % 2);
  }

  /** A remainder keeps the low bits and clears the others. */
  lemma {:induction false} RestBits(b: nat, n: nat, k: nat)
    ensures BitAt(b % Pow2(n), k) == if k < n then BitAt(b, k) else 0
    decreases k
  {
    var r := b % Pow2(n);
    if n == 0 {
      DivMod(0, Pow2(k), 0, 0);
    } else {
      HalveRest(b, n);
      if k > 0 {
        HalveTwice(r, k - 1);
        HalveTwice(b, k - 1);
        RestBits(b / 2, n - 1, k - 1);
      }
    }
  }

  lemma {:induction false} SameBitsAreEqual(a: nat, b: nat, n: nat)
    requires a < Pow2(n) && b < Pow2(n) && forall k :: 0 <= k < n ==> BitAt(a, k) == BitAt(b, k)
    ensures a == b
    decreases n
  {
    if n > 0 {
      forall k | 0 <= k < n - 1 ensures BitAt(a / 2, k) == BitAt(b / 2, k) {
        HalveTwice(a, k);
        HalveTwice(b, k);
        assert BitAt(a, k + 1) == BitAt(b, k + 1);
      }
      SameBitsAreEqual(a / 2, b / 2, n - 1);
      assert BitAt(a, 0) == BitAt(b, 0);
    }
  }

  /** What is requested, bit by bit: every bit of the stream up to the valid bits of the last byte,
      and zeros above them. */
  lemma RequestedBits(perm: Permutation, s: State, rate: nat, start: nat, n: nat, valid: Option<nat>, bytes: seq<Byte>)
    requires valid.Some? ==> valid.value <= 8
    ensures bytes == Requested(perm, s, rate, start, n, valid)
      <==> LeadingBits(Stream(perm, s, rate, start, n), BitCount(n, valid), bytes)
  {
    var raw, out := Stream(perm, s, rate, start, n), Requested(perm, s, rate, start, n, valid);
    forall i, k | 0 <= i < n && 0 <= k < 8
      ensures BitAt(out[i], k) == if 8 * i + k < BitCount(n, valid) then BitAt(raw[i], k) else 0
    {
      if valid.Some? && i == n - 1 { RestBits(raw[i], valid.value, k); }
    }
    hide Stream, Requested, BitAt;
    if LeadingBits(raw, BitCount(n, valid), bytes) {
      EightBits();
      forall i | 0 <= i < n ensures bytes[i] == out[i] { SameBitsAreEqual(bytes[i], out[i], 8); }
    }
  }

  lemma EightBits()
    ensures Pow2(8) == 256
  {
    assert Pow2(4) == 16;
  }

  /** Whether the valid-bit count of a final call suits the length. */
  predicate ShapeOk(n: nat, valid: Option<nat>) {
    valid.Some? ==> if n == 0 then valid.value == 0 else 1 <= valid.value <= 8
  }

  /** What masking answers, from the first boundary on that does not: a missing last byte, the mask. */
  function MaskAnswer(oracle: Oracle, clock: nat): Answer {
    if !oracle(LastByte, clock).Fine? then Failed(9)
    else if !oracle(Mask, clock + 1).Fine? then Unwinds
    else Fine
  }

  /** What writing a chunk answers: a missing output, a failing write, the copy. */
  function WriteAnswer(oracle: Oracle, clock: nat): Answer {
    if !oracle(AsMut, clock).Fine? || !oracle(Write, clock + 1).Fine? then Failed(10)
    else if !oracle(OutputCopy, clock + 2).Fine? then Unwinds
    else Fine
  }

  class Storage {
    const engine: Engine
    const stage: array<Byte>
    const domain: array<Byte>

    ghost predicate Valid()
    {
      && engine.Valid() && stage.Length == 168 == STAGE && domain.Length == 2
      && stage !in engine.Memory() && domain !in engine.Memory() && stage != domain
    }

    ghost function Memory(): set<object> {
      engine.Memory() + {stage, domain}
    }

    /** No secret survives in the storage, and its engine is terminal. */
    ghost predicate Wiped()
      reads Memory()
    {
      engine.Wiped() && AllZero(stage) && AllZero(domain)
    }

    constructor (perm: Permutation, rate: nat)
      ensures Valid() && fresh(Memory()) && AllZero(stage) && AllZero(domain)
      ensures engine.perm == perm && engine.rate == rate && !engine.squeezing && !engine.failed
    {
      engine := new Engine(perm, rate);
      stage := new Byte[168](_ => 0);
      domain := new Byte[2](_ => 0);
    }

    method Clear()
      requires Valid()
      modifies Memory()
      ensures Wiped()
    {
      engine.Cancel();
      ClearRegion(stage);
      ClearRegion(domain);
    }

    /** The state of the chunk loop: `done` bytes of the target delivered. */
    ghost predicate Filling(output: array<Byte>, target: seq<Byte>, done: nat, s: State, start: nat, count: nat)
      requires Valid()
      reads Memory(), output
    {
      && done <= output.Length == |target|
      && engine.Lanes() == Iterate(engine.perm, s, Turns(engine.rate, start, done))
      && engine.position == After(engine.rate, start, done)
      && engine.Count() == count + done
      && !engine.failed && engine.squeezing && Fits(engine.rate, start, done)
      && output[..done] == target[..done]
    }

    /** Masks the last byte of the last chunk in final mode. */
    method MaskLast(chunk: nat, last: bool, valid: Option<nat>, oracle: Oracle) returns (a: Answer)
      requires Valid() && 0 < chunk <= STAGE
      modifies engine`clock, stage
      ensures FaultFree(oracle) ==> a.Fine?
      ensures a == if last && valid.Some? then MaskAnswer(oracle, old(engine.clock)) else Fine
      ensures a.Fine? ==> stage[..chunk] == Shaped(old(stage[..chunk]), last, valid)
    {
      a := Fine;
      if last && valid.Some? {
        a := engine.Ask(oracle, LastByte);
        if !a.Fine? { return Failed(LENGTH); }
        a := engine.Ask(oracle, Mask);
        if !a.Fine? { return Unwinds; }
        stage[chunk - 1] := LowBits(stage[chunk - 1], valid.value);
      }
    }

    /** Writes the staged chunk behind the initialized prefix. */
    method WriteChunk(output: array<Byte>, at: nat, chunk: nat, oracle: Oracle) returns (a: Answer)
      requires Valid() && output !in Memory() && chunk <= STAGE && at + chunk <= output.Length
      modifies engine`clock, output
      ensures FaultFree(oracle) ==> a.Fine?
      ensures a == WriteAnswer(oracle, old(engine.clock))
      ensures forall k :: 0 <= k < output.Length && !(at <= k < at + chunk) ==> output[k] == old(output[k])
      ensures a.Fine? ==> output[at..at + chunk] == stage[..chunk]
    {
      a := engine.Ask(oracle, AsMut);
      if !a.Fine? { return Failed(MEMORY); }
      a := engine.Ask(oracle, Write);
      if !a.Fine? { return Failed(MEMORY); }
      a := engine.Ask(oracle, OutputCopy);
      if !a.Fine? { return Unwinds; }
      for j := 0 to chunk
        invariant forall k :: 0 <= k < output.Length && !(at <= k < at + j) ==> output[k] == old(output[k])
        invariant output[at..at + j] == stage[..j]
      {
        output[at + j] := stage[j];
      }
    }

    /** One chunk: slice, read, mask, write, clear the staging, count down. The staging never holds
        one chunk's bytes when the next is read. */
    method FillChunk(output: array<Byte>, done: nat, valid: Option<nat>, oracle: Oracle,
        ghost s: State, ghost start: nat, ghost count: nat) returns (a: Answer, chunk: nat)
      requires Valid() && output !in Memory() && done < output.Length
      requires Filling(output, Requested(engine.perm, s, engine.rate, start, output.Length, valid), done, s, start,
        count)
      requires count + output.Length <= MAXIMUM
      modifies engine`clock, engine`position, engine`permutations, engine`failed, engine.lanes, engine.messageCount,
        engine.outputCount, engine.suffix, stage, output
      ensures a.Fine? ==>
        0 < chunk && Filling(output, Requested(engine.perm, s, engine.rate, start, output.Length, valid),
                                               done + chunk, s, start, count)
      ensures a.Fine? ==> AllZero(stage)
      ensures !oracle(Slice, old(engine.clock)).Fine? ==> a == Failed(9) && output[..] == old(output[..])
      ensures FaultFree(oracle) && !a.Fine? ==> a == Failed(TERMINAL) && !Fits(engine.rate, start, output.Length)
    {
      hide Iterate, Turns, After, Stream, StreamByte, Requested, Shaped, Fits, FaultFree, Decode, MaskAnswer,
        WriteAnswer, AllZero;
      chunk := if output.Length - done < STAGE then output.Length - done else STAGE;
      a := engine.Ask(oracle, Slice);
      if !a.Fine? { return Failed(LENGTH), 0; }
      ghost var before := output[..];
      ghost var t, p := engine.Lanes(), engine.position;
      ReadsCompose(engine.perm, s, engine.rate, start, done, chunk);
      NextChunkFits(engine.rate, start, done, chunk, output.Length);
      a := engine.Read(stage, 0, chunk, oracle);
      if !a.Fine? { return; }
      assert stage[..chunk] == Stream(engine.perm, t, engine.rate, p, chunk);
      a := MaskLast(chunk, done + chunk == output.Length, valid, oracle);
      if !a.Fine? { return; }
      NextChunkBytes(engine.perm, s, engine.rate, start, done, chunk, output.Length, valid, t, p, stage[..chunk]);
      a := WriteChunk(output, done, chunk, oracle);
      if !a.Fine? { return; }
      ghost var target := Requested(engine.perm, s, engine.rate, start, output.Length, valid);
      assert output[..done] == before[..done] == target[..done];
      assert output[..done + chunk] == output[..done] + output[done..done + chunk];
      assert target[..done + chunk] == target[..done] + target[done..done + chunk];
      ClearRegion(stage);
      a := engine.Ask(oracle, Remaining);
      if !a.Fine? { return Failed(OVERFLOW), 0; }
    }

    /** What a call answers when no boundary fails. */
    ghost function ProduceAnswer(n: nat, valid: Option<nat>): Answer
      reads engine, engine.outputCount
    {
      if !ShapeOk(n, valid) then Failed(LENGTH) else engine.ReadAnswer(n)
    }

    /** The guarded operation on a cleared output: shape, preflight of the whole length, the chunk
        loop, finish. */
    method Fill(output: array<Byte>, valid: Option<nat>, oracle: Oracle) returns (a: Answer)
      requires Valid() && output !in Memory() && AllZero(output)
      modifies engine`clock, engine`position, engine`permutations, engine`failed, engine.lanes, engine.messageCount,
        engine.outputCount, engine.suffix, stage, output
      ensures a.Fine? ==> ShapeOk(output.Length, valid) && old(engine.Admits(output.Length))
      ensures a.Fine? ==> Filling(output, Requested(engine.perm, old(engine.Lanes()), engine.rate, old(engine.position),
                                                    output.Length, valid),
                                  output.Length, old(engine.Lanes()), old(engine.position), old(engine.Count()))
      ensures FaultFree(oracle) ==> a == old(ProduceAnswer(output.Length, valid))
    {
      if !ShapeOk(output.Length, valid) { return Failed(LENGTH); }
      a := engine.Preflight(output.Length, oracle);
      if !a.Fine? { return; }
      ghost var s, start, count := engine.Lanes(), engine.position, engine.Count();
      FillingBegins(engine.perm, s, engine.rate, start, output.Length, valid);
      hide Iterate, Turns, After, Stream, Requested, Fits, Decode;
      var done, chunk := 0, 0;
      while done < output.Length
        invariant Filling(output, Requested(engine.perm, s, engine.rate, start, output.Length, valid), done, s, start,
          count)
        decreases output.Length - done
      {
        a, chunk := FillChunk(output, done, valid, oracle, s, start, count);
        if !a.Fine? { return; }
        done := done + chunk;
      }
      a := engine.Ask(oracle, Finish);
      if a.Failed? { a := Failed(MEMORY); }
    }

    /** A call on a borrowed reader. When it completes, the output holds exactly the requested
        bytes, the engine stands where one read of the whole length would have left it, and the
        staging is clear. Otherwise nothing secret survives: the storage is wiped and terminal,
        and the output is zero, or untouched when it could not even be taken over. */
    method Produce(output: array<Byte>, valid: Option<nat>, oracle: Oracle) returns (a: Answer, owned: bool)
      requires Valid() && output !in Memory()
      modifies Memory(), output
      ensures a.Fine? ==> owned && ShapeOk(output.Length, valid) && old(engine.Admits(output.Length))
      ensures a.Fine? ==> Fits(engine.rate, old(engine.position), output.Length)
      ensures a.Fine? ==> output[..] == Requested(engine.perm, old(engine.Lanes()), engine.rate, old(engine.position),
                                                  output.Length, valid)
      ensures a.Fine? ==>
        LeadingBits(Stream(engine.perm, old(engine.Lanes()), engine.rate, old(engine.position), output.Length),
                    BitCount(output.Length, valid), output[..])
      ensures a.Fine? ==> engine.Lanes() == Iterate(engine.perm, old(engine.Lanes()),
                                                    Turns(engine.rate, old(engine.position), output.Length))
      ensures a.Fine? ==> engine.position == After(engine.rate, old(engine.position), output.Length)
      ensures a.Fine? ==> engine.Count() == old(engine.Count()) + output.Length && !engine.failed && engine.squeezing
      ensures a.Fine? ==> AllZero(stage) && domain[..] == old(domain[..])
      ensures !a.Fine? ==> Wiped()
      ensures !a.Fine? && owned ==> AllZero(output)
      ensures owned <==> output.Length == 0 || oracle(ClearOutput, old(engine.clock)).Fine?
      ensures !owned ==> a == Failed(10) && output[..] == old(output[..])
      ensures FaultFree(oracle) ==> owned && a == old(ProduceAnswer(output.Length, valid))
      ensures FaultFree(oracle) ==>
        a == if valid.Some? && !(if output.Length == 0 then valid.value == 0 else 1 <= valid.value <= 8) then Failed(9)
             else if old(engine.failed || !engine.squeezing) then Failed(7)
             else if old(engine.Count()) + output.Length > MAXIMUM then Failed(8)
             else if !Fits(engine.rate, old(engine.position), output.Length) then Failed(7)
             else Fine
    {
      hide Iterate, Turns, After, Stream, StreamByte, Requested, Fits, Decode, LeadingBits, FaultFree, BitCount;
      owned := true;
      if output.Length > 0 {
        a := engine.Ask(oracle, ClearOutput);
        if !a.Fine? {
          Clear();
          return Failed(MEMORY), false;
        }
      }
      ClearRegion(output);
      a := Fill(output, valid, oracle);
      var p := engine.Ask(oracle, Predicate);
      if !p.Fine? { a := Unwinds; }
      if a.Fine? {
        ClearRegion(stage);
        assert output[..output.Length] == output[..];
        RequestedLength(engine.perm, old(engine.Lanes()), engine.rate, old(engine.position), output.Length, valid);
        RequestedBits(engine.perm, old(engine.Lanes()), engine.rate, old(engine.position), output.Length, valid,
          output[..]);
      } else {
        ClearRegion(output);
        Clear();
      }
    }

    /** A consuming call: whatever happens, the storage is wiped and its engine terminal. */
    method ProduceFinal(output: array<Byte>, valid: nat, oracle: Oracle) returns (a: Answer, owned: bool)
      requires Valid() && output !in Memory()
      modifies Memory(), output
      ensures Wiped()
      ensures a.Fine? ==> output[..] == Requested(engine.perm, old(engine.Lanes()), engine.rate, old(engine.position),
                                                  output.Length, Some(valid))
      ensures a.Fine? ==>
        LeadingBits(Stream(engine.perm, old(engine.Lanes()), engine.rate, old(engine.position), output.Length),
                    BitCount(output.Length, Some(valid)), output[..])
      ensures !a.Fine? ==> if owned then AllZero(output) else output[..] == old(output[..])
      ensures FaultFree(oracle) ==> owned && a == old(ProduceAnswer(output.Length, Some(valid)))
    {
      a, owned := Produce(output, Some(valid), oracle);
      Clear();
    }
  }

  lemma FillingBegins(perm: Permutation, s: State, rate: nat, start: nat, n: nat, valid: Option<nat>)
    ensures Iterate(perm, s, Turns(rate, start, 0)) == s && After(rate, start, 0) == start && Fits(rate, start, 0)
    ensures |Requested(perm, s, rate, start, n, valid)| == n
  {
  }

  lemma RequestedLength(perm: Permutation, s: State, rate: nat, start: nat, n: nat, valid: Option<nat>)
    ensures |Requested(perm, s, rate, start, n, valid)| == n
  {
  }

  /** A chunk can be delivered when the whole request can, and extends what was delivered. */
  lemma NextChunkFits(rate: nat, start: nat, done: nat, chunk: nat, n: nat)
    requires chunk > 0 && done + chunk <= n && Fits(rate, start, done)
    ensures Fits(rate, After(rate, start, done), chunk) ==> Fits(rate, start, done + chunk)
    ensures !Fits(rate, After(rate, start, done), chunk) ==> !Fits(rate, start, n)
  {
    if done > 0 { FitsSplits(rate, start, done, chunk); }
    if done + chunk < n { FitsSplits(rate, start, done + chunk, n - done - chunk); }
  }

  lemma NextChunkBytes(perm: Permutation, s: State, rate: nat, start: nat, done: nat, chunk: nat, n: nat,
      valid: Option<nat>, t: State, p: nat, staged: seq<Byte>)
    requires chunk > 0 && done + chunk <= n
    requires t == Iterate(perm, s, Turns(rate, start, done)) && p == After(rate, start, done)
    requires staged == Shaped(Stream(perm, t, rate, p, chunk), done + chunk == n, valid)
    ensures staged == Requested(perm, s, rate, start, n, valid)[done..done + chunk]
  {
    ReadsCompose(perm, s, rate, start, done, chunk);
    ReadsCompose(perm, s, rate, start, done + chunk, n - done - chunk);
    var raw, whole := Stream(perm, t, rate, p, chunk), Stream(perm, s, rate, start, n);
    assert whole[..done + chunk] == Stream(perm, s, rate, start, done + chunk);
    assert raw == whole[done..done + chunk];
  }
}
