/** Little-endian 16-byte counters. */
module Counter {
  import opened Arithmetic
  import opened KeyStream

  const WIDTH: nat := 16
  const MAXIMUM: nat := 0xffff_ffff_ffff_ffff_ffff_ffff_ffff_ffff

  function Pow256(n: nat): (p: int)
    ensures p > 0
  {
    if n == 0 then 1 else 256 * Pow256(n - 1)
  }

  /** The number that the bytes stand for, least significant byte first. */
  function Decode(bytes: seq<Byte>): nat {
    if bytes == [] then 0 else Decode(bytes[..|bytes| - 1]) + bytes[|bytes| - 1] * Pow256(|bytes| - 1)
  }

  lemma Carry(low: nat, digit: Byte, place: nat)
    requires low < place
    ensures 0 <= digit * place && low + digit * place < 256 * place
  {
    assert (255 - digit) * place >= 0;
  }

  lemma {:induction false} DecodeIsBounded(bytes: seq<Byte>)
    ensures Decode(bytes) < Pow256(|bytes|)
    decreases |bytes|
  {
    if bytes != [] {
      DecodeIsBounded(bytes[..|bytes| - 1]);
      Carry(Decode(bytes[..|bytes| - 1]), bytes[|bytes| - 1], Pow256(|bytes| - 1));
    }
  }

  lemma MaximumIsFullWidth()
    ensures Pow256(WIDTH) == MAXIMUM + 1
  {
    assert Pow256(4) == 0x1_0000_0000 by { assert Pow256(2) == 65536; }
    PowersAdd(4, 4);
    PowersAdd(8, 8);
  }

  lemma {:induction false} PowersAdd(a: nat, b: nat)
    ensures Pow256(a + b) == Pow256(a) * Pow256(b)
    decreases b
  {
    if b > 0 {
      PowersAdd(a, b - 1);
    }
  }

  /** The bitwise or of two numbers. */
  function Or(a: nat, b: nat): nat {
    if a == 0 && b == 0 then 0
    else (if a % 2 == 1 || b % 2 == 1 then 1 else 0) + 2 * Or(a / 2, b / 2)
  }

  /** Or-ing in a number behind k bits adds it. */
  lemma {:induction false} OrAdds(a: nat, b: nat, k: nat)
    requires a < Pow2(k)
    ensures b * Pow2(k) >= 0 && Or(a, b * Pow2(k)) == a + b * Pow2(k)
    decreases k, b
  {
    assert b * Pow2(k) >= 0;
    if k == 0 {
      OrNothing(b);
    } else {
      var shifted := b * Pow2(k - 1);
      assert b * Pow2(k) == 2 * shifted && shifted >= 0;
      OrAdds(a / 2, b, k - 1);
    }
  }

  lemma {:induction false} OrNothing(b: nat)
    ensures Or(0, b) == b
  {
    if b > 0 { OrNothing(b / 2); }
  }

  lemma {:induction false} BytePlaces(n: nat)
    ensures Pow256(n) == Pow2(8 * n)
  {
    if n > 0 {
      BytePlaces(n - 1);
      EightTimes(8 * (n - 1));
    }
  }

  lemma EightTimes(k: nat)
    ensures Pow2(k + 8) == 256 * Pow2(k)
  {
    assert Pow2(k + 2) == 2 * Pow2(k + 1) == 4 * Pow2(k);
    assert Pow2(k + 4) == 2 * Pow2(k + 3) == 4 * Pow2(k + 2);
    assert Pow2(k + 6) == 2 * Pow2(k + 5) == 4 * Pow2(k + 4);
    assert Pow2(k + 8) == 2 * Pow2(k + 7) == 4 * Pow2(k + 6);
  }

  /** The byte, shifted to its place. */
  function Placed(b: Byte, place: nat): (n: nat)
    ensures n == b * Pow256(place)
  {
    assert b * Pow256(place) >= 0;
    b * Pow256(place)
  }

  /** Ors the bytes in one by one, each shifted to its place. */
  method ReadCount(bytes: array<Byte>) returns (value: nat)
    requires bytes.Length == WIDTH
    ensures value == Decode(bytes[..]) <= MAXIMUM
  {
    value := 0;
    for offset := 0 to WIDTH
      invariant value == Decode(bytes[..offset])
    {
      assert bytes[..offset + 1][..offset] == bytes[..offset];
      DecodeIsBounded(bytes[..offset]);
      BytePlaces(offset);
      OrAdds(value, bytes[offset], 8 * offset);
      value := Or(value, Placed(bytes[offset], offset));
    }
    assert bytes[..WIDTH] == bytes[..];
    DecodeIsBounded(bytes[..]);
    MaximumIsFullWidth();
  }

  lemma NextByte(value: nat, place: nat)
    ensures value % Pow256(place + 1) == value % Pow256(place) + (value / Pow256(place) % 256) * Pow256(place)
  {
    SplitDigit(value, Pow256(place));
  }

  lemma Regroup(a: nat, b: nat, p: nat)
    ensures (a * 256 + b) * p == a * (256 * p) + b * p
  {
    assert (a * 256 + b) * p == (a * 256) * p + b * p;
  }

  lemma SplitDigit(value: nat, p: nat)
    requires p > 0
    ensures value % (256 * p) == value % p + (value / p % 256) * p
  {
    var q, r := value / p, value % p;
    var a, b := q / 256, q % 256;
    Carry(r, b, p);
    Regroup(a, b, p);
    DivMod(value, 256 * p, a, b * p + r);
  }

  /** Writes the counter byte by byte; what was written reads back. */
  method WriteCount(bytes: array<Byte>, value: nat)
    requires bytes.Length == WIDTH && value <= MAXIMUM
    modifies bytes
    ensures Decode(bytes[..]) == value
  {
    for offset := 0 to WIDTH
      invariant Decode(bytes[..offset]) == value % Pow256(offset)
    {
      NextByte(value, offset);
      ghost var before := bytes[..offset];
      bytes[offset] := value / Pow256(offset) % 256;
      assert bytes[..offset + 1][..offset] == before;
    }
    assert bytes[..WIDTH] == bytes[..];
    MaximumIsFullWidth();
    DivMod(value, Pow256(WIDTH), 0, value);
  }

  /** Two counters that decode to the same number are the same bytes. */
  lemma {:induction false} DecodeIsInjective(a: seq<Byte>, b: seq<Byte>)
    requires |a| == |b| && Decode(a) == Decode(b)
    ensures a == b
    decreases |a|
  {
    if a != [] {
      var n := |a| - 1;
      DecodeIsBounded(a[..n]);
      DecodeIsBounded(b[..n]);
      var p := Pow256(n);
      DivMod(Decode(a), p, a[n], Decode(a[..n]));
      DivMod(Decode(b), p, b[n], Decode(b[..n]));
      DecodeIsInjective(a[..n], b[..n]);
      assert a == a[..n] + [a[n]] && b == b[..n] + [b[n]];
    }
  }
}
