/** The squeezing phase of a sponge as a byte stream: byte i lies at offset i mod rate of the
    state after i div rate further permutations. A cursor equal to the rate means that the
    next byte needs a permutation first, so reads compose by adding lengths. */
module KeyStream {
  import opened Arithmetic

  type Byte = n: int | 0 <= n < 256
  const LANES: nat := 200
  type State = s: seq<Byte> | |s| == LANES witness seq(LANES, i => 0)
  type Permutation = State -> State

  function Iterate(perm: Permutation, s: State, k: nat): State {
    if k == 0 then s else perm(Iterate(perm, s, k - 1))
  }

  function StreamByte(perm: Permutation, s: State, rate: nat, i: nat): Byte {
    if rate > 0 && i % rate < LANES then Iterate(perm, s, i / rate)[i % rate] else 0
  }

  /** The n bytes from a cursor on. */
  function Stream(perm: Permutation, s: State, rate: nat, position: nat, n: nat): seq<Byte> {
    seq<Byte>(n, k requires 0 <= k < n => StreamByte(perm, s, rate, position + k))
  }

  /** How many permutations a read of n bytes makes, and where it leaves the cursor. */
  function Turns(rate: nat, position: nat, n: nat): nat {
    if n == 0 || rate == 0 then 0 else (position + n - 1) / rate
  }

  function After(rate: nat, position: nat, n: nat): nat {
    if n == 0 || rate == 0 then position else (position + n - 1) % rate + 1
  }

  /** The lengths a read can deliver: nothing, or a cursor inside the rate and no copy beyond
      the lanes. Every rate up to 200 with a cursor up to the rate delivers any length. */
  predicate Fits(rate: nat, position: nat, n: nat) {
    n == 0 || (rate > 0 && position <= rate
      && (rate <= LANES || (if position == rate then 0 else position) + n <= LANES))
  }

  /** The cursor and the permutation count together say how far the stream has been read. */
  lemma Progress(rate: nat, position: nat, n: nat)
    requires rate > 0 && n > 0
    ensures 1 <= After(rate, position, n) <= rate
    ensures After(rate, position, n) + Turns(rate, position, n) * rate == position + n
  {
    var x := position + n - 1;
    assert x == (x / rate) * rate + x % rate;
  }

  /** The converse: a cursor in 1..rate and a count that add up to the bytes read are these. */
  lemma ProgressIsUnique(rate: nat, position: nat, n: nat, p: nat, q: nat)
    requires rate > 0 && n > 0 && 1 <= p <= rate && p + q * rate == position + n
    ensures p == After(rate, position, n) && q == Turns(rate, position, n)
  {
    DivMod(position + n - 1, rate, q, p - 1);
  }

  lemma {:induction false} IterateAdd(perm: Permutation, s: State, a: nat, b: nat)
    ensures Iterate(perm, Iterate(perm, s, a), b) == Iterate(perm, s, a + b)
    decreases b
  {
    if b > 0 {
      IterateAdd(perm, s, a, b - 1);
    }
  }

  /** Behind a read, bytes lie as many blocks further on as it made permutations. */
  lemma BlockAfter(rate: nat, position: nat, n: nat, k: nat)
    requires rate > 0 && n > 0
    ensures var p, q := After(rate, position, n), Turns(rate, position, n);
      (position + n + k) / rate == (p + k) / rate + q && (position + n + k) % rate == (p + k) % rate
  {
    Progress(rate, position, n);
    hide After, Turns;
    SumDivMod(After(rate, position, n) + k, Turns(rate, position, n), rate);
  }

  /** Byte k after a read of n bytes is byte n + k of the whole stream. */
  lemma ByteAfter(perm: Permutation, s: State, rate: nat, position: nat, n: nat, k: nat)
    ensures StreamByte(perm, Iterate(perm, s, Turns(rate, position, n)), rate, After(rate, position, n) + k)
         == StreamByte(perm, s, rate, position + n + k)
  {
    if n > 0 && rate > 0 {
      BlockAfter(rate, position, n, k);
      var p, q := After(rate, position, n), Turns(rate, position, n);
      hide After, Turns, Iterate, StreamByte;
      ByteAt(perm, Iterate(perm, s, q), rate, p + k, (p + k) / rate, (p + k) % rate);
      ByteAt(perm, s, rate, position + n + k, (p + k) / rate + q, (p + k) % rate);
      IterateAdd(perm, s, q, (p + k) / rate);
    }
  }

  lemma ByteAt(perm: Permutation, s: State, rate: nat, i: nat, block: nat, offset: nat)
    requires rate > 0 && i / rate == block && i % rate == offset
    ensures StreamByte(perm, s, rate, i) == if offset < LANES then Iterate(perm, s, block)[offset] else 0
  {
    hide Iterate;
  }

  lemma SumDivMod(x: nat, q: nat, rate: nat)
    requires rate > 0
    ensures x + q * rate >= 0
    ensures (x + q * rate) / rate == x / rate + q && (x + q * rate) % rate == x % rate
  {
    assert x + q * rate == (x / rate + q) * rate + x % rate by {
      assert x == (x / rate) * rate + x % rate;
      assert (x / rate + q) * rate == (x / rate) * rate + q * rate;
    }
    assert q * rate >= 0;
    DivMod(x + q * rate, rate, x / rate + q, x % rate);
  }

  /** Reading m bytes after n bytes is reading n + m bytes: the same bytes, the same state and
      the same cursor, and it can be done exactly when the whole read can. */
  lemma ReadsCompose(perm: Permutation, s: State, rate: nat, position: nat, n: nat, m: nat)
    ensures var t, p := Iterate(perm, s, Turns(rate, position, n)), After(rate, position, n);
      && Stream(perm, s, rate, position, n + m) == Stream(perm, s, rate, position, n) + Stream(perm, t, rate, p, m)
      && Iterate(perm, t, Turns(rate, p, m)) == Iterate(perm, s, Turns(rate, position, n + m))
      && After(rate, p, m) == After(rate, position, n + m)
  {
    CursorsCompose(rate, position, n, m);
    hide Turns, After, Iterate, StreamByte;
    var q, r := Turns(rate, position, n), Turns(rate, After(rate, position, n), m);
    var t, p := Iterate(perm, s, q), After(rate, position, n);
    var whole, rest := Stream(perm, s, rate, position, n + m), Stream(perm, t, rate, p, m);
    forall k | 0 <= k < m ensures rest[k] == whole[n + k] {
      ByteAfter(perm, s, rate, position, n, k);
    }
    assert whole[..n] == Stream(perm, s, rate, position, n) && whole[n..] == rest;
    IterateAdd(perm, s, q, r);
  }

  /** Cursors and permutation counts of consecutive reads add up. */
  lemma CursorsCompose(rate: nat, position: nat, n: nat, m: nat)
    ensures var p := After(rate, position, n);
      && After(rate, p, m) == After(rate, position, n + m)
      && Turns(rate, position, n) + Turns(rate, p, m) == Turns(rate, position, n + m)
  {
    if n > 0 && m > 0 && rate > 0 {
      var p := After(rate, position, n);
      Progress(rate, position, n);
      Progress(rate, p, m);
      var a, b := Turns(rate, position, n), Turns(rate, p, m);
      hide After, Turns;
      assert After(rate, p, m) + (a + b) * rate == position + (n + m) by {
        assert (a + b) * rate == a * rate + b * rate;
      }
      ProgressIsUnique(rate, position, n + m, After(rate, p, m), a + b);
    }
  }

  lemma FitsSplits(rate: nat, position: nat, n: nat, m: nat)
    requires n > 0 && m > 0
    ensures Fits(rate, position, n + m) <==>
      Fits(rate, position, n) && Fits(rate, After(rate, position, n), m)
  {
    if rate > LANES && Fits(rate, position, n) {
      Progress(rate, position, n);
      if position == rate {
        ProgressIsUnique(rate, position, n, n, 1);
      } else {
        ProgressIsUnique(rate, position, n, position + n, 0);
      }
    }
  }

  /** The squeezing phase as section 4 of FIPS 202 writes it: whole blocks of rate bytes, one
      permutation between two blocks, truncated to the requested length. */
  function Squeeze(perm: Permutation, s: State, rate: nat, n: nat): seq<Byte>
    requires 0 < rate <= LANES
    decreases n
  {
    if n <= rate then s[..n] else s[..rate] + Squeeze(perm, perm(s), rate, n - rate)
  }

  /** From a fresh cursor the stream is what the standard's squeezing phase outputs. */
  lemma {:induction false} StreamIsSqueeze(perm: Permutation, s: State, rate: nat, n: nat)
    requires 0 < rate <= LANES
    ensures Stream(perm, s, rate, 0, n) == Squeeze(perm, s, rate, n)
    decreases n
  {
    var first := if n <= rate then n else rate;
    assert Stream(perm, s, rate, 0, first) == s[..first] by {
      forall k | 0 <= k < first ensures StreamByte(perm, s, rate, k) == s[k] {
        DivMod(k, rate, 0, k);
      }
    }
    if n > rate {
      ReadsCompose(perm, s, rate, 0, rate, n - rate);
      ProgressIsUnique(rate, 0, rate, rate, 0);
      StreamIsSqueeze(perm, perm(s), rate, n - rate);
      StreamTurns(perm, s, rate, n - rate);
    }
  }

  /** A cursor at the rate stands for the start of the next block. */
  lemma StreamTurns(perm: Permutation, s: State, rate: nat, n: nat)
    requires 0 < rate
    ensures Stream(perm, s, rate, rate, n) == Stream(perm, perm(s), rate, 0, n)
  {
    var a, b := Stream(perm, s, rate, rate, n), Stream(perm, perm(s), rate, 0, n);
    forall k | 0 <= k < n ensures a[k] == b[k] {
      assert rate + k == (k / rate + 1) * rate + k % rate;
      DivMod(rate + k, rate, k / rate + 1, k % rate);
      IterateAdd(perm, s, 1, k / rate);
      assert Iterate(perm, s, 1) == perm(Iterate(perm, s, 0)) == perm(s);
      assert a[k] == StreamByte(perm, s, rate, rate + k) && b[k] == StreamByte(perm, perm(s), rate, 0 + k);
    }
  }
}
