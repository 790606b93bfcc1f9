/** left_encode and right_encode (section 2.3.1 of NIST SP 800-185) of 128-bit values: the
    shortest big-endian digits with their number before or behind them. */
module IntegerEncoding {
  import opened Options
  import opened Arithmetic
  import opened Counter
  import opened ByteBits

  /** The byte of a number below 256. */
  function ByteOf(n: nat): (b: bv8)
    requires n < 256
    ensures Number(b) == n
  {
    if n == 0 then ZeroNumber(); 0
    else NextNumber(ByteOf(n - 1)); Next(ByteOf(n - 1))
  }

  function Next(b: bv8): bv8 {
    b + 1
  }

  function Number(b: bv8): nat {
    b as nat
  }

  lemma NextNumber(b: bv8)
    requires Number(b) < 255
    ensures Number(Next(b)) == Number(b) + 1
  {
    MaximalNumber();
    assert b != 255;
    SuccessorNumber(b);
  }

  lemma SuccessorNumber(b: bv8)
    requires b < 255
    ensures (b + 1) as nat == b as nat + 1
  {
  }

  lemma MaximalNumber()
    ensures Number(255) == 255
  {
  }

  lemma ZeroNumber()
    ensures Number(0) == 0
  {
  }

  function BigEndian(v: nat, width: nat): (bytes: seq<bv8>)
    ensures |bytes| == width
  {
    if width == 0 then [] else BigEndian(v / 256, width - 1) + [ByteOf(v % 256)]
  }

  function Value(bytes: seq<bv8>): nat {
    if bytes == [] then 0 else Value(bytes[..|bytes| - 1]) * 256 + Number(bytes[|bytes| - 1])
  }

  /** The number of digits, at least one. */
  function Width(v: nat): (w: nat)
    ensures w >= 1
  {
    if v < 256 then 1 else 1 + Width(v / 256)
  }

  function RightEncoded(v: nat): (bytes: seq<bv8>)
    requires v <= MAXIMUM
    ensures |bytes| == Width(v) + 1
  {
    WidthIsLeast(v);
    BigEndian(v, Width(v)) + [ByteOf(Width(v))]
  }

  function LeftEncoded(v: nat): (bytes: seq<bv8>)
    requires v <= MAXIMUM
    ensures |bytes| == Width(v) + 1
  {
    WidthIsLeast(v);
    [ByteOf(Width(v))] + BigEndian(v, Width(v))
  }

  /** No shorter width has room for the value, and 128 bits need at most sixteen digits. */
  lemma {:induction false} WidthIsLeast(v: nat)
    ensures v < Pow256(Width(v)) && (Width(v) > 1 ==> Pow256(Width(v) - 1) <= v)
    ensures v <= MAXIMUM ==> Width(v) <= 16
  {
    if v >= 256 {
      WidthIsLeast(v / 256);
    }
    if Width(v) > 16 {
      MaximumIsFullWidth();
      PowersGrow(16, Width(v) - 1);
    }
  }

  lemma {:induction false} ValueOfDigits(v: nat, width: nat)
    requires v < Pow256(width)
    ensures Value(BigEndian(v, width)) == v
    decreases width
  {
    if width > 0 {
      ValueOfDigits(v / 256, width - 1);
      assert BigEndian(v, width)[..width - 1] == BigEndian(v / 256, width - 1);
    }
  }

  lemma {:induction false} LeadingZero(v: nat, width: nat)
    requires v < Pow256(width)
    ensures BigEndian(v, width + 1) == [0] + BigEndian(v, width)
    decreases width
  {
    if width > 0 {
      LeadingZero(v / 256, width - 1);
    }
  }

  /** Wider digits are the shortest ones behind zeros, and the first of the shortest is not zero. */
  lemma {:induction false} Shortest(v: nat, width: nat)
    requires v < Pow256(width) && Width(v) <= width
    ensures BigEndian(v, width)[width - Width(v)..] == BigEndian(v, Width(v))
    ensures forall k :: 0 <= k < width - Width(v) ==> BigEndian(v, width)[k] == 0
    decreases width
  {
    if Width(v) < width {
      WidthIsLeast(v);
      PowersGrow(Width(v), width - 1);
      LeadingZero(v, width - 1);
      Shortest(v, width - 1);
    }
  }

  lemma {:induction false} PowersGrow(a: nat, b: nat)
    requires a <= b
    ensures Pow256(a) <= Pow256(b)
  {
    if a < b { PowersGrow(a, b - 1); }
  }

  lemma {:induction false} FirstDigit(v: nat)
    requires Width(v) > 1
    ensures Number(BigEndian(v, Width(v))[0]) != 0
  {
    hide ByteOf, Number;
    if Width(v / 256) > 1 {
      FirstDigit(v / 256);
    } else {
      assert BigEndian(v, 2)[0] == BigEndian(v / 256, 1)[0] == ByteOf(v / 256);
    }
  }

  lemma {:induction false} DigitAt(v: nat, width: nat, k: nat)
    requires k < width
    ensures BigEndian(v, width)[k] == ByteOf(v / Pow256(width - 1 - k) % 256)
    decreases width
  {
    if k < width - 1 {
      DigitAt(v / 256, width - 1, k);
      DivideTwice(v, Pow256(width - 2 - k));
    }
  }

  lemma DivideTwice(v: nat, d: nat)
    requires d > 0
    ensures (v / 256) / d == v / (256 * d)
  {
    var a, b := v / 256, (v / 256) / d;
    var r := (a % d) * 256 + v % 256;
    assert a == b * d + a % d;
    assert v == b * (256 * d) + r by {
      assert (b * d) * 256 == b * (256 * d);
    }
    DivMod(v, 256 * d, b, r);
  }

  // ---------- round trips ----------

  /** Reads an encoded integer off the end: its value and what stands before it. */
  function ParseRight(bytes: seq<bv8>): Option<(nat, seq<bv8>)> {
    var n := |bytes| - 1;
    if n < 0 then None else
      var width := Number(bytes[n]);
      if width == 0 || width > n then None else Some((Value(bytes[n - width..n]), bytes[..n - width]))
  }

  /** Reads an encoded integer off the front: its value and what stands behind it. */
  function ParseLeft(bytes: seq<bv8>): Option<(nat, seq<bv8>)> {
    if |bytes| == 0 then None else
      var width := Number(bytes[0]);
      if width == 0 || width > |bytes| - 1 then None else Some((Value(bytes[1..1 + width]), bytes[1 + width..]))
  }

  /** An encoded integer is read back whatever precedes it, so a suffix determines the message. */
  lemma RightEncodeParses(before: seq<bv8>, v: nat)
    requires v <= MAXIMUM
    ensures ParseRight(before + RightEncoded(v)) == Some((v, before))
  {
    WidthIsLeast(v);
    var w := Width(v);
    hide Width, Pow256, ByteOf, Number, Value, BigEndian;
    var all := before + RightEncoded(v);
    assert all[|before|..|before| + w] == BigEndian(v, w);
    assert all[..|before|] == before;
    ValueOfDigits(v, w);
  }

  lemma LeftEncodeParses(v: nat, behind: seq<bv8>)
    requires v <= MAXIMUM
    ensures ParseLeft(LeftEncoded(v) + behind) == Some((v, behind))
  {
    WidthIsLeast(v);
    var w := Width(v);
    hide Width, Pow256, ByteOf, Number, Value, BigEndian;
    var all := LeftEncoded(v) + behind;
    assert all[1..1 + w] == BigEndian(v, w);
    assert all[1 + w..] == behind;
    ValueOfDigits(v, w);
  }

  /** The zeros before the first digit that is not zero are those before the shortest digits; of
      a zero value the last digit stays. */
  lemma LeadingZeros(v: nat, first: nat)
    requires v <= MAXIMUM && first <= 16
    requires forall k :: 0 <= k < first ==> BigEndian(v, 16)[k] == 0
    requires first < 16 ==> BigEndian(v, 16)[first] != 0
    ensures 1 <= Width(v) <= 16 && (if first == 16 then 15 else first) == 16 - Width(v)
    ensures BigEndian(v, 16)[16 - Width(v)..] == BigEndian(v, Width(v))
  {
    MaximumIsFullWidth();
    WidthIsLeast(v);
    Shortest(v, 16);
    ZeroNumber();
    hide BigEndian, ByteOf, Number, Pow256;
    assert BigEndian(v, 16)[16 - Width(v)] == BigEndian(v, 16)[16 - Width(v)..][0];
    if Width(v) > 1 { FirstDigit(v); }
  }

  // ---------- the two encoders ----------

  /** Drops the leading zeros of the sixteen big-endian bytes and appends how many are left. */
  method RightEncode(value: nat) returns (bytes: seq<bv8>)
    requires value <= MAXIMUM
    ensures bytes == RightEncoded(value)
  {
    hide BigEndian, Width, ByteOf, Number;
    var digits := BigEndian(value, 16);
    var first := 0;
    while first < 16 && digits[first] == 0
      invariant first <= 16 && forall k :: 0 <= k < first ==> digits[k] == 0
    {
      first := first + 1;
    }
    LeadingZeros(value, first);
    if first == 16 { first := 15; }
    bytes := digits[first..] + [ByteOf(16 - first)];
  }

  /** Counts the digits by shifting, then writes them behind their number. */
  method LeftEncode(value: nat) returns (bytes: seq<bv8>)
    requires value <= MAXIMUM
    ensures bytes == LeftEncoded(value)
  {
    WidthIsLeast(value);
    var remaining, width := value, 1;
    while remaining > 255
      invariant 1 <= width && width - 1 + Width(remaining) == Width(value)
    {
      width, remaining := width + 1, remaining / 256;
    }
    bytes := [ByteOf(width)];
    for offset := 0 to width
      invariant bytes == [ByteOf(width)] + BigEndian(value, width)[..offset]
    {
      DigitAt(value, width, offset);
      bytes := bytes + [ByteOf(value / Pow256(width - offset - 1) % 256)];
    }
  }
}
