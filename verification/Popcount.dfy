/** The population count and the alignment test of the reviewed x86-64 program, register by
    register, against the bits of the number. */
module Popcount {
  import opened Options
  import opened Arithmetic

  type Word = bv64

  // ---------- what the program computes ----------

  /** How many of the n low bits are set. */
  function Count(x: Word, n: nat): (c: nat)
    ensures c <= n
  {
    if n == 0 then 0 else (if x & 1 == 1 then 1 else 0) + Count(x >> 1, n - 1)
  }

  /** The number that the n low bits stand for. */
  function Value(x: Word, n: nat): nat {
    if n == 0 then 0 else (if x & 1 == 1 then 1 else 0) + 2 * Value(x >> 1, n - 1)
  }

  /** The number in the low byte of a register. */
  function LowByte(x: Word): nat {
    ((x & 0xff) as bv8) as nat
  }

  // ---------- the count as a sum in a register ----------

  function LowBit(x: Word): Word {
    x & 1
  }

  function Half(x: Word): Word {
    x >> 1
  }

  function Plus(a: Word, b: Word): Word {
    a + b
  }

  function Sum(x: Word, n: nat): Word {
    if n == 0 then 0 else Plus(LowBit(x), Sum(Half(x), n - 1))
  }

  lemma NextLowByte(x: Word)
    requires x < 255
    ensures LowByte(x + 1) == LowByte(x) + 1
  {
    assert (((x + 1) & 0xff) as bv8) == ((x & 0xff) as bv8) + 1;
  }

  lemma LowByteLiterals()
    ensures LowByte(0) == 0 && LowByte(1) == 1 && LowByte(255) == 255
  {
  }

  /** A register at most 255. */
  predicate Small(x: Word) {
    x <= 255
  }

  lemma PlusBit(bit: Word, x: Word)
    requires bit <= 1 && Small(x) && LowByte(x) < 255
    ensures Small(Plus(bit, x)) && LowByte(Plus(bit, x)) == LowByte(x) + if bit == 1 then 1 else 0
  {
    LowByteLiterals();
    assert x < 255;
    NextLowByte(x);
    PlusCases(bit, x);
    hide LowByte, Plus;
  }

  lemma PlusCases(bit: Word, x: Word)
    requires bit <= 1 && x < 255
    ensures Plus(bit, x) == (if bit == 1 then x + 1 else x) <= 255
  {
  }

  lemma LowBitCases(x: Word)
    ensures LowBit(x) <= 1 && (LowBit(x) == 1 <==> x & 1 == 1) && Half(x) == x >> 1
  {
  }

  /** The register sum never wraps and holds the count. */
  lemma {:induction false} SumIsCount(x: Word, n: nat)
    requires n <= 64
    ensures Small(Sum(x, n)) && LowByte(Sum(x, n)) == Count(x, n)
  {
    LowByteLiterals();
    if n > 0 {
      hide LowByte, Small, Plus, LowBit, Half;
      SumIsCount(Half(x), n - 1);
      LowBitCases(x);
      PlusBit(LowBit(x), Sum(Half(x), n - 1));
    }
  }

  function Down(x: Word, n: nat): Word {
    if n == 0 then x else Down(Half(x), n - 1)
  }

  function OctetSum(x: Word): Word {
    (x & 1) + (((x >> 1) & 1) + (((x >> 2) & 1) + (((x >> 3) & 1) +
      (((x >> 4) & 1) + (((x >> 5) & 1) + (((x >> 6) & 1) + (((x >> 7) & 1) + 0)))))))
  }

  lemma Halves(x: Word)
    ensures Half(x) == x >> 1 && Half(x >> 1) == x >> 2 && Half(x >> 2) == x >> 3 && Half(x >> 3) == x >> 4
    ensures Half(x >> 4) == x >> 5 && Half(x >> 5) == x >> 6 && Half(x >> 6) == x >> 7 && Half(x >> 7) == x >> 8
  {
  }

  lemma OctetTerms(x: Word)
    ensures Plus(LowBit(x), Plus(LowBit(x >> 1), Plus(LowBit(x >> 2), Plus(LowBit(x >> 3), Plus(LowBit(x >> 4),
      Plus(LowBit(x >> 5), Plus(LowBit(x >> 6), Plus(LowBit(x >> 7), 0)))))))) == OctetSum(x)
  {
  }

  lemma Unfold(x: Word, n: nat)
    ensures Sum(x, n + 1) == Plus(LowBit(x), Sum(Half(x), n)) && Down(x, n + 1) == Down(Half(x), n)
    ensures Sum(x, 0) == 0 && Down(Half(x), 0) == Half(x)
  {
  }

  lemma SumOfOctet(x: Word)
    ensures Sum(x, 8) == OctetSum(x) && Down(x, 8) == x >> 8
  {
    Halves(x);
    OctetTerms(x);
    hide Plus, LowBit, Half, OctetSum;
    Unfold(x, 7);
    Unfold(x >> 1, 6);
    Unfold(x >> 2, 5);
    Unfold(x >> 3, 4);
    Unfold(x >> 4, 3);
    Unfold(x >> 5, 2);
    Unfold(x >> 6, 1);
    Unfold(x >> 7, 0);
  }

  lemma {:induction false} CountSplits(x: Word, m: nat, n: nat)
    ensures Count(x, m + n) == Count(x, m) + Count(Down(x, m), n)
    decreases m
  {
    hide Half;
    if m > 0 {
      LowBitCases(x);
      CountSplits(Half(x), m - 1, n);
    }
  }

  /** The bits of a byte, counted in a register. */
  lemma OctetSumCounts(x: Word)
    ensures LowByte(OctetSum(x)) == Count(x, 8)
  {
    hide Plus, LowBit, Half, OctetSum, LowByte;
    SumOfOctet(x);
    SumIsCount(x, 8);
  }

  function NextOctet(x: Word): Word {
    x >> 8
  }

  lemma CountByOctet(x: Word, n: nat)
    ensures Count(x, 8 + n) == LowByte(OctetSum(x)) + Count(NextOctet(x), n)
  {
    SumOfOctet(x);
    hide Plus, LowBit, Half, OctetSum, LowByte;
    OctetSumCounts(x);
    CountSplits(x, 8, n);
  }

  lemma OctetShifts(x: Word)
    ensures NextOctet(x) == x >> 8 && NextOctet(x >> 8) == x >> 16 && NextOctet(x >> 16) == x >> 24
    ensures NextOctet(x >> 24) == x >> 32 && NextOctet(x >> 32) == x >> 40 && NextOctet(x >> 40) == x >> 48
    ensures NextOctet(x >> 48) == x >> 56
  {
  }

  /** The bits of a word, counted byte by byte. */
  lemma CountOfWord(x: Word)
    ensures var b := NextOctet(x); var c := NextOctet(b); var d := NextOctet(c); var e := NextOctet(d);
      var f := NextOctet(e); var g := NextOctet(f); var h := NextOctet(g);
      Count(x, 64) == LowByte(OctetSum(x)) + LowByte(OctetSum(b)) + LowByte(OctetSum(c)) + LowByte(OctetSum(d))
        + LowByte(OctetSum(e)) + LowByte(OctetSum(f)) + LowByte(OctetSum(g)) + LowByte(OctetSum(h))
  {
    hide OctetSum, LowByte, Count, NextOctet;
    var b := NextOctet(x); var c := NextOctet(b); var d := NextOctet(c); var e := NextOctet(d);
    var f := NextOctet(e); var g := NextOctet(f); var h := NextOctet(g);
    CountByOctet(x, 56);
    CountByOctet(b, 48);
    CountByOctet(c, 40);
    CountByOctet(d, 32);
    CountByOctet(e, 24);
    CountByOctet(f, 16);
    CountByOctet(g, 8);
    CountByOctet(h, 0);
    NothingLeft(NextOctet(h));
  }

  lemma NothingLeft(x: Word)
    ensures Count(x, 0) == 0
  {
  }

  // ---------- the program's steps ----------

  /** The first step of the fold, as the program computes it and as it is meant: each pair of bits
      comes to hold how many of them are set. */
  function Pairs(x: Word): Word {
    x - ((x >> 1) & 0x5555_5555_5555_5555)
  }

  function PairSums(x: Word): Word {
    (x & 0x5555_5555_5555_5555) + ((x >> 1) & 0x5555_5555_5555_5555)
  }

  function Quads(x: Word): Word {
    (x & 0x3333_3333_3333_3333) + ((x >> 2) & 0x3333_3333_3333_3333)
  }

  function Octets(x: Word): Word {
    Addq(x, x >> 4) & 0x0f0f_0f0f_0f0f_0f0f
  }

  lemma PairsByByte(x: Word)
    ensures Pairs(x) & 0xff == PairSums(x) & 0xff
    ensures Pairs(x) & 0xff00 == PairSums(x) & 0xff00
    ensures Pairs(x) & 0xff_0000 == PairSums(x) & 0xff_0000
    ensures Pairs(x) & 0xff00_0000 == PairSums(x) & 0xff00_0000
  {
  }

  lemma PairsByHighByte(x: Word)
    ensures Pairs(x) & 0xff_0000_0000 == PairSums(x) & 0xff_0000_0000
    ensures Pairs(x) & 0xff00_0000_0000 == PairSums(x) & 0xff00_0000_0000
    ensures Pairs(x) & 0xff_0000_0000_0000 == PairSums(x) & 0xff_0000_0000_0000
    ensures Pairs(x) & 0xff00_0000_0000_0000 == PairSums(x) & 0xff00_0000_0000_0000
  {
  }

  lemma SameBytes(a: Word, b: Word)
    requires a & 0xff == b & 0xff && a & 0xff00 == b & 0xff00 && a & 0xff_0000 == b & 0xff_0000
    requires a & 0xff00_0000 == b & 0xff00_0000 && a & 0xff_0000_0000 == b & 0xff_0000_0000
    requires a & 0xff00_0000_0000 == b & 0xff00_0000_0000 && a & 0xff_0000_0000_0000 == b & 0xff_0000_0000_0000
    requires a & 0xff00_0000_0000_0000 == b & 0xff00_0000_0000_0000
    ensures a == b
  {
  }

  /** No pair borrows from the next. */
  lemma PairsAdd(x: Word)
    ensures Pairs(x) == PairSums(x)
  {
    PairsByByte(x);
    PairsByHighByte(x);
    hide Pairs, PairSums;
    SameBytes(Pairs(x), PairSums(x));
  }

  function Octet(x: Word, k: nat): Word
    requires k < 8
  {
    if k == 0 then x & 0xff else if k == 1 then (x >> 8) & 0xff else if k == 2 then (x >> 16) & 0xff
    else if k == 3 then (x >> 24) & 0xff else if k == 4 then (x >> 32) & 0xff else if k == 5 then (x >> 40) & 0xff
    else if k == 6 then (x >> 48) & 0xff else x >> 56
  }

  /** Each byte of the folded word holds how many bits of that byte are set. */
  lemma LowOctets(x: Word)
    ensures var c := Octets(Quads(PairSums(x)));
      && Octet(c, 0) == OctetSum(x) && Octet(c, 1) == OctetSum(x >> 8)
      && Octet(c, 2) == OctetSum(x >> 16) && Octet(c, 3) == OctetSum(x >> 24)
  {
  }

  lemma HighOctets(x: Word)
    ensures var c := Octets(Quads(PairSums(x)));
      && Octet(c, 4) == OctetSum(x >> 32) && Octet(c, 5) == OctetSum(x >> 40)
      && Octet(c, 6) == OctetSum(x >> 48) && Octet(c, 7) == OctetSum(x >> 56)
  {
  }

  // ---------- the multiplication ----------

  /** The number in a register. */
  function Wide(x: Word): nat {
    LowByte(x) + 0x100 * LowByte(x >> 8) + 0x1_0000 * LowByte(x >> 16) + 0x100_0000 * LowByte(x >> 24)
    + 0x1_0000_0000 * LowByte(x >> 32) + 0x100_0000_0000 * LowByte(x >> 40) + 0x1_0000_0000_0000 * LowByte(x >> 48)
    + 0x100_0000_0000_0000 * LowByte(x >> 56)
  }

  function Next(x: Word): Word {
    x + 1
  }

  /** The register that holds k. */
  function Numeral(k: nat): Word {
    if k == 0 then 0 else Next(Numeral(k - 1))
  }

  function Digit(n: nat): Word {
    Numeral(n % 256)
  }

  /** The low 64 bits of a number. */
  function Narrow(n: nat): Word {
    Digit(n) | (Digit(n / 0x100) << 8) | (Digit(n / 0x1_0000) << 16) | (Digit(n / 0x100_0000) << 24)
    | (Digit(n / 0x1_0000_0000) << 32) | (Digit(n / 0x100_0000_0000) << 40) | (Digit(n / 0x1_0000_0000_0000) << 48)
    | (Digit(n / 0x100_0000_0000_0000) << 56)
  }

  function Times(m: nat, n: nat): (p: nat)
    ensures p == m * n
  {
    assert m * n >= 0;
    m * n
  }

  /** imulq: the low 64 bits of the product. */
  function Multiply(a: Word, b: Word): Word {
    Narrow(Times(Wide(a), Wide(b)))
  }

  lemma {:induction false} NumeralNumber(k: nat)
    requires k < 256
    ensures LowByte(Numeral(k)) == k && Small(Numeral(k))
  {
    LowByteLiterals();
    if k > 0 {
      hide LowByte, Next, Small;
      NumeralNumber(k - 1);
      NextNumber(Numeral(k - 1));
    }
  }

  lemma NextNumber(x: Word)
    requires Small(x) && LowByte(x) < 255
    ensures LowByte(Next(x)) == LowByte(x) + 1 && Small(Next(x))
  {
    LowByteLiterals();
    NextLowByte(x);
    NextSmall(x);
  }

  lemma NextSmall(x: Word)
    requires x < 255
    ensures Small(Next(x))
  {
  }

  lemma DigitNumber(n: nat)
    ensures LowByte(Digit(n)) == n % 256 && Small(Digit(n))
  {
    hide LowByte, Small;
    NumeralNumber(n % 256);
  }

  lemma TopOfNarrow(a: Word, b: Word, c: Word, d: Word, e: Word, f: Word, g: Word, h: Word)
    requires Small(a) && Small(b) && Small(c) && Small(d) && Small(e) && Small(f) && Small(g) && Small(h)
    ensures (a | (b << 8) | (c << 16) | (d << 24) | (e << 32) | (f << 40) | (g << 48) | (h << 56)) >> 56 == h
  {
  }

  lemma NarrowTop(n: nat)
    ensures Narrow(n) >> 56 == Digit(n / 0x100_0000_0000_0000)
  {
    DigitNumber(n);
    DigitNumber(n / 0x100);
    DigitNumber(n / 0x1_0000);
    DigitNumber(n / 0x100_0000);
    DigitNumber(n / 0x1_0000_0000);
    DigitNumber(n / 0x100_0000_0000);
    DigitNumber(n / 0x1_0000_0000_0000);
    DigitNumber(n / 0x100_0000_0000_0000);
    hide Digit, Small;
    TopOfNarrow(Digit(n), Digit(n / 0x100), Digit(n / 0x1_0000), Digit(n / 0x100_0000), Digit(n / 0x1_0000_0000),
      Digit(n / 0x100_0000_0000), Digit(n / 0x1_0000_0000_0000), Digit(n / 0x100_0000_0000_0000));
  }

  lemma TopDigit(low: nat, top: nat, over: nat)
    requires low < 0x100_0000_0000_0000 && top < 256
    ensures (low + 0x100_0000_0000_0000 * (top + 256 * over)) / 0x100_0000_0000_0000 % 256 == top
  {
  }

  /** Multiplying by a one in each byte adds all bytes into the top one: no partial sum carries. */
  lemma ProductTop(a: nat, b: nat, c: nat, d: nat, e: nat, f: nat, g: nat, h: nat, n: nat)
    requires a <= 8 && b <= 8 && c <= 8 && d <= 8 && e <= 8 && f <= 8 && g <= 8 && h <= 8
    requires n == a + 0x100 * b + 0x1_0000 * c + 0x100_0000 * d + 0x1_0000_0000 * e + 0x100_0000_0000 * f
      + 0x1_0000_0000_0000 * g + 0x100_0000_0000_0000 * h
    ensures n * 0x0101_0101_0101_0101 / 0x100_0000_0000_0000 % 256 == a + b + c + d + e + f + g + h
  {
    var low := a + 0x100 * (a + b) + 0x1_0000 * (a + b + c) + 0x100_0000 * (a + b + c + d)
      + 0x1_0000_0000 * (a + b + c + d + e) + 0x100_0000_0000 * (a + b + c + d + e + f)
      + 0x1_0000_0000_0000 * (a + b + c + d + e + f + g);
    var over := (b + c + d + e + f + g + h) + 0x100 * (c + d + e + f + g + h) + 0x1_0000 * (d + e + f + g + h)
      + 0x100_0000 * (e + f + g + h) + 0x1_0000_0000 * (f + g + h) + 0x100_0000_0000 * (g + h) + 0x1_0000_0000_0000 * h;
    TopDigit(low, a + b + c + d + e + f + g + h, over);
  }

  // ---------- the program ----------

  lemma OctetBytes(c: Word)
    ensures LowByte(Octet(c, 0)) == LowByte(c) && LowByte(Octet(c, 1)) == LowByte(c >> 8)
    ensures LowByte(Octet(c, 2)) == LowByte(c >> 16) && LowByte(Octet(c, 3)) == LowByte(c >> 24)
    ensures LowByte(Octet(c, 4)) == LowByte(c >> 32) && LowByte(Octet(c, 5)) == LowByte(c >> 40)
    ensures LowByte(Octet(c, 6)) == LowByte(c >> 48) && LowByte(Octet(c, 7)) == LowByte(c >> 56)
  {
  }

  lemma WideOnes()
    ensures Wide(0x0101_0101_0101_0101) == 0x0101_0101_0101_0101
  {
    OnesBytes();
    LowByteLiterals();
  }

  lemma OnesBytes()
    ensures var k: Word := 0x0101_0101_0101_0101;
      LowByte(k) == 1 && LowByte(k >> 8) == 1 && LowByte(k >> 16) == 1 && LowByte(k >> 24) == 1
      && LowByte(k >> 32) == 1 && LowByte(k >> 40) == 1 && LowByte(k >> 48) == 1 && LowByte(k >> 56) == 1
  {
  }

  function Folded(x: Word): Word {
    Octets(Quads(Pairs(x)))
  }

  lemma FoldedBytes(x: Word)
    ensures var c := Folded(x);
      && LowByte(c) == LowByte(OctetSum(x)) && LowByte(c >> 8) == LowByte(OctetSum(x >> 8))
      && LowByte(c >> 16) == LowByte(OctetSum(x >> 16)) && LowByte(c >> 24) == LowByte(OctetSum(x >> 24))
      && LowByte(c >> 32) == LowByte(OctetSum(x >> 32)) && LowByte(c >> 40) == LowByte(OctetSum(x >> 40))
      && LowByte(c >> 48) == LowByte(OctetSum(x >> 48)) && LowByte(c >> 56) == LowByte(OctetSum(x >> 56))
  {
    hide LowByte, OctetSum, Octet, Quads, Octets, Pairs, PairSums;
    PairsAdd(x);
    LowOctets(x);
    HighOctets(x);
    OctetBytes(Folded(x));
  }

  /** The number in the folded word, from its bytes' counts. */
  lemma FoldedNumber(x: Word)
    ensures Wide(Folded(x)) * 0x0101_0101_0101_0101 / 0x100_0000_0000_0000 % 256 == Count(x, 64)
  {
    FoldedBytes(x);
    OctetShifts(x);
    CountOfWord(x);
    hide LowByte, OctetSum, Folded, NextOctet, Count;
    var a, b, c, d := LowByte(OctetSum(x)), LowByte(OctetSum(x >> 8)), LowByte(OctetSum(x >> 16)),
      LowByte(OctetSum(x >> 24));
    var e, f, g, h := LowByte(OctetSum(x >> 32)), LowByte(OctetSum(x >> 40)), LowByte(OctetSum(x >> 48)),
      LowByte(OctetSum(x >> 56));
    OctetSumCounts(x);
    OctetSumCounts(x >> 8);
    OctetSumCounts(x >> 16);
    OctetSumCounts(x >> 24);
    OctetSumCounts(x >> 32);
    OctetSumCounts(x >> 40);
    OctetSumCounts(x >> 48);
    OctetSumCounts(x >> 56);
    ProductTop(a, b, c, d, e, f, g, h, Wide(Folded(x)));
  }

  lemma ProgramCounts(x: Word)
    ensures var r := Multiply(Folded(x), 0x0101_0101_0101_0101) >> 56;
      Small(r) && LowByte(r) == Count(x, 64)
  {
    hide Small, LowByte, Folded, Narrow, Digit, Wide, Count;
    WideOnes();
    FoldedNumber(x);
    var n := Times(Wide(Folded(x)), Wide(0x0101_0101_0101_0101));
    NarrowTop(n);
    DigitNumber(n / 0x100_0000_0000_0000);
  }

  // The instructions, one function each.

  function Addq(a: Word, b: Word): Word {
    a + b
  }

  function Subq(a: Word, b: Word): Word {
    a - b
  }

  function Andq(a: Word, b: Word): Word {
    a & b
  }

  function Shrq(a: Word, n: nat): Word
    requires n == 1 || n == 2 || n == 4 || n == 56
  {
    if n == 1 then a >> 1 else if n == 2 then a >> 2 else if n == 4 then a >> 4 else a >> 56
  }

  lemma StepOfPairs(x: Word)
    ensures Subq(x, Andq(Shrq(x, 1), 0x5555_5555_5555_5555)) == Pairs(x)
  {
    assert Andq(Shrq(x, 1), 0x5555_5555_5555_5555) == (x >> 1) & 0x5555_5555_5555_5555;
  }

  lemma StepOfQuads(x: Word)
    ensures Addq(Andq(x, 0x3333_3333_3333_3333), Andq(Shrq(x, 2), 0x3333_3333_3333_3333)) == Quads(x)
  {
    assert Andq(x, 0x3333_3333_3333_3333) == x & 0x3333_3333_3333_3333;
    assert Andq(Shrq(x, 2), 0x3333_3333_3333_3333) == (x >> 2) & 0x3333_3333_3333_3333;
  }

  lemma StepOfOctets(x: Word)
    ensures Andq(Addq(x, Shrq(x, 4)), 0x0f0f_0f0f_0f0f_0f0f) == Octets(x)
  {
    assert Shrq(x, 4) == x >> 4;
    hide Addq;
  }

  lemma StepOfTop(x: Word)
    ensures Shrq(x, 56) == x >> 56
  {
  }

  lemma StepsOfFold(x: Word)
    ensures Subq(x, Andq(Shrq(x, 1), 6148914691236517205)) == Pairs(x)
    ensures Addq(Andq(x, 3689348814741910323), Andq(Shrq(x, 2), 3689348814741910323)) == Quads(x)
    ensures Andq(Addq(x, Shrq(x, 4)), 1085102592571150095) == Octets(x)
    ensures Shrq(x, 56) == x >> 56
  {
    hide Addq, Subq, Andq, Shrq, Pairs, Quads, Octets;
    StepOfPairs(x);
    StepOfQuads(x);
    StepOfOctets(x);
    StepOfTop(x);
  }

  /** The counting block leaves the population count in the register. */
  method CountBits(value: Word) returns (rax: Word)
    ensures Small(rax) && LowByte(rax) == Count(value, 64)
  {
    StepsOfFold(value);
    StepsOfFold(Pairs(value));
    StepsOfFold(Quads(Pairs(value)));
    ProgramCounts(value);
    StepsOfFold(Multiply(Folded(value), 72340172838076673));
    hide Small, LowByte, Count, Multiply, Addq, Subq, Andq, Shrq, Pairs, Quads, Octets;
    var rcx, rdx: Word := value, 0;
    rax := rcx;
    rax := Shrq(rax, 1);
    rdx := 6148914691236517205;
    rax := Andq(rax, rdx);
    rcx := Subq(rcx, rax);
    rdx := 3689348814741910323;
    rax := rcx;
    rax := Andq(rax, rdx);
    rcx := Shrq(rcx, 2);
    rcx := Andq(rcx, rdx);
    rax := Addq(rax, rcx);
    rcx := rax;
    rcx := Shrq(rcx, 4);
    rax := Addq(rax, rcx);
    rcx := 1085102592571150095;
    rax := Andq(rax, rcx);
    rcx := 72340172838076673;
    rax := Multiply(rax, rcx);
    rax := Shrq(rax, 56);
  }

  // ---------- alignment ----------

  lemma {:induction false} DownAdds(x: Word, m: nat, n: nat)
    ensures Down(x, m + n) == Down(Down(x, m), n)
    decreases m
  {
    if m > 0 {
      hide Half;
      DownAdds(Half(x), m - 1, n);
    }
  }

  lemma EightOctets(x: Word)
    ensures (((((((x >> 8) >> 8) >> 8) >> 8) >> 8) >> 8) >> 8) >> 8 == 0
  {
  }

  lemma DownOctet(x: Word, n: nat)
    ensures Down(x, 8 + n) == Down(x >> 8, n)
  {
    SumOfOctet(x);
    hide Half, Sum, OctetSum;
    DownAdds(x, 8, n);
  }

  /** A word has 64 bits. */
  lemma NothingAbove(x: Word)
    ensures Down(x, 64) == 0
  {
    EightOctets(x);
    hide Half;
    var a := x >> 8; var b := a >> 8; var c := b >> 8; var d := c >> 8; var e := d >> 8; var f := e >> 8;
      var g := f >> 8;
    DownOctet(x, 56);
    DownOctet(a, 48);
    DownOctet(b, 40);
    DownOctet(c, 32);
    DownOctet(d, 24);
    DownOctet(e, 16);
    DownOctet(f, 8);
    DownOctet(g, 0);
  }

  lemma NoLowBit(x: Word)
    requires x & 1 != 1 && x >> 1 == 0
    ensures x == 0
  {
  }

  lemma OnlyLowBit(x: Word)
    requires x & 1 == 1 && x >> 1 == 0
    ensures Less(x) == 0
  {
  }

  lemma {:induction false} NoBitsSet(x: Word, n: nat)
    requires Count(x, n) == 0 && Down(x, n) == 0
    ensures x == 0 && Value(x, n) == 0
    decreases n
  {
    if n > 0 {
      LowBitCases(x);
      hide Half;
      NoBitsSet(x >> 1, n - 1);
      NoLowBit(x);
    }
  }

  lemma {:induction false} SomeBitSet(x: Word, n: nat)
    requires Count(x, n) > 0
    ensures x != 0 && Value(x, n) > 0
    decreases n
  {
    if Count(x >> 1, n - 1) > 0 {
      SomeBitSet(x >> 1, n - 1);
    }
  }

  function Less(x: Word): Word {
    x - 1
  }

  function Odd(m: Word): Word {
    (m << 1) | 1
  }

  /** Subtracting one from an even number borrows from its half. */
  lemma LessOfEven(x: Word)
    requires x & 1 != 1
    ensures Less(x) == Odd(Less(x >> 1))
  {
  }

  lemma MaskOfOdd(a: Word, m: Word)
    ensures a & Odd(m) == 0 <==> a & 1 != 1 && (a >> 1) & m == 0
  {
  }

  lemma LessIs(x: Word)
    ensures Less(x) == x - 1
  {
  }

  lemma EvenRemainder(bit: nat, v: nat, d: nat)
    requires bit <= 1 && d > 0
    ensures (bit + 2 * v) % (2 * d) == 0 <==> bit == 0 && v % d == 0
  {
    var q, r := v / d, v % d;
    assert v == q * d + r;
    assert bit + 2 * v == q * (2 * d) + (bit + 2 * r);
    DivMod(bit + 2 * v, 2 * d, q, bit + 2 * r);
  }

  /** Masking with the alignment less one finds out whether the alignment divides the address. */
  lemma {:induction false} MaskDivides(a: Word, x: Word, n: nat)
    requires Count(x, n) == 1 && Down(x, n) == 0
    ensures Value(x, n) > 0 && (a & Less(x) == 0 <==> Value(a, n) % Value(x, n) == 0)
    decreases n
  {
    LowBitCases(x);
    SomeBitSet(x, n);
    hide Half, Less, Odd;
    if x & 1 == 1 {
      NoBitsSet(x >> 1, n - 1);
      OnlyLowBit(x);
      NothingMasked(a);
    } else {
      MaskDivides(a >> 1, x >> 1, n - 1);
      LessOfEven(x);
      MaskOfOdd(a, Less(x >> 1));
      EvenRemainder(if a & 1 == 1 then 1 else 0, Value(a >> 1, n - 1), Value(x >> 1, n - 1));
    }
  }

  lemma NothingMasked(a: Word)
    ensures a & 0 == 0
  {
  }

  /** One set bit is a power of two. */
  lemma {:induction false} OneBitIsPower(x: Word, n: nat) returns (k: nat)
    requires Count(x, n) == 1 && Down(x, n) == 0
    ensures k < n && Value(x, n) == Pow2(k)
  {
    LowBitCases(x);
    hide Half;
    if x & 1 == 1 {
      NoBitsSet(x >> 1, n - 1);
      k := 0;
    } else {
      k := OneBitIsPower(x >> 1, n - 1);
      k := k + 1;
    }
  }

  lemma {:induction false} PowerIsOneBit(x: Word, n: nat, k: nat)
    requires Value(x, n) == Pow2(k)
    ensures Count(x, n) == 1
    decreases n
  {
    if n > 0 {
      if k > 0 {
        PowerIsOneBit(x >> 1, n - 1, k - 1);
      } else {
        NoValue(x >> 1, n - 1);
      }
    }
  }

  lemma {:induction false} NoValue(x: Word, n: nat)
    requires Value(x, n) == 0
    ensures Count(x, n) == 0
    decreases n
  {
    if n > 0 { NoValue(x >> 1, n - 1); }
  }

  ghost predicate PowerOfTwo(v: nat) {
    exists k: nat :: v == Pow2(k)
  }

  lemma OneInLowByte(x: Word)
    requires Small(x)
    ensures LowByte(x) == 1 <==> x & 0xffff_ffff == 1
  {
  }

  lemma PowersAreOneBit(x: Word)
    ensures Count(x, 64) == 1 <==> PowerOfTwo(Value(x, 64))
  {
    NothingAbove(x);
    if Count(x, 64) == 1 {
      var k := OneBitIsPower(x, 64);
    }
    if PowerOfTwo(Value(x, 64)) {
      var k: nat :| Value(x, 64) == Pow2(k);
      PowerIsOneBit(x, 64, k);
    }
  }

  /** The alignment test: no answer, but a panic, unless the alignment is a power of two; then
      whether it divides the address. */
  method IsAligned(address: Word, alignment: Word) returns (r: Option<bool>)
    ensures r.Some? <==> PowerOfTwo(Value(alignment, 64))
    ensures r.Some? ==> Value(alignment, 64) > 0 && (r.value <==> Value(address, 64) % Value(alignment, 64) == 0)
  {
    hide Count, Value, LowByte, Down;
    var rax := CountBits(alignment);
    OneInLowByte(rax);
    NothingAbove(alignment);
    PowersAreOneBit(alignment);
    if rax & 0xffff_ffff != 1 { return None; }
    MaskDivides(address, alignment, 64);
    LessIs(alignment);
    hide Less;
    rax := address;
    var rcx := alignment;
    rcx := rcx - 1;
    rax := rax & rcx;
    r := Some(rax == 0);
  }
}
