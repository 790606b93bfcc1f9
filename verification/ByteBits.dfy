/** Bytes as eight bits, least significant first, and the borrowed bit transfer between bytes. */
module ByteBits {
  import opened Options

  function Place(k: nat): bv8
    requires k < 8
  {
    [1, 2, 4, 8, 16, 32, 64, 128][k]
  }

  function Bit(b: bv8, k: nat): bool
    requires k < 8
  {
    b & Place(k) != 0
  }

  function ToBits(b: bv8): (s: seq<bool>)
    ensures |s| == 8 && forall k :: 0 <= k < 8 ==> s[k] == Bit(b, k)
  {
    seq(8, k requires 0 <= k < 8 => Bit(b, k))
  }

  function AllBits(bytes: seq<bv8>): seq<bool> {
    if bytes == [] then [] else AllBits(bytes[..|bytes| - 1]) + ToBits(bytes[|bytes| - 1])
  }

  /** The checked shifts, one position at a time. */
  function Right(b: bv8, n: nat): bv8 {
    if n == 0 then b else Right(b, n - 1) >> 1
  }

  function Left(b: bv8, n: nat): bv8 {
    if n == 0 then b else Left(b, n - 1) << 1
  }

  /** Exclusive-ors `count` bits of the source, from bit `right` on, into the destination from
      bit `left` on; None when a range does not fit its byte. */
  function XorByteBits(destination: bv8, source: bv8, right: nat, count: nat, left: nat): Option<bv8> {
    if count == 0 || count > 8 || right > 8 - count || left > 8 - count then None
    else Some(Xor(destination, Left(Field(source, right, count), left)))
  }

  /** The bits of the source from `right` on, and no more than `count` of them. */
  function Field(source: bv8, right: nat, count: nat): bv8
    requires count <= 8
  {
    And(Right(source, right), Right(0xff, 8 - count))
  }

  function And(a: bv8, b: bv8): bv8 {
    a & b
  }

  function Xor(a: bv8, b: bv8): bv8 {
    a ^ b
  }

  // ---------- single bits ----------

  lemma RightMask(b: bv8, m: bv8)
    ensures (b >> 1) & m == 0 <==> b & (m << 1) == 0
  {
  }

  lemma LeftMask(b: bv8, m: bv8)
    ensures (b << 1) & m == 0 <==> b & (m >> 1) == 0
  {
  }

  predicate Single(m: bv8) {
    m == 1 || m == 2 || m == 4 || m == 8 || m == 16 || m == 32 || m == 64 || m == 128
  }

  lemma PlaceIsSingle(k: nat)
    requires k < 8
    ensures Single(Place(k))
  {
  }

  lemma PlaceMask(a: bv8, b: bv8, m: bv8)
    requires Single(m)
    ensures Xor(a, b) & m != 0 <==> ((a & m != 0) != (b & m != 0))
    ensures And(a, b) & m != 0 <==> a & m != 0 && b & m != 0
  {
  }

  lemma Pointwise(a: bv8, b: bv8, k: nat)
    requires k < 8
    ensures Bit(Xor(a, b), k) <==> (Bit(a, k) != Bit(b, k))
    ensures Bit(And(a, b), k) <==> Bit(a, k) && Bit(b, k)
  {
    PlaceIsSingle(k);
    PlaceMask(a, b, Place(k));
    hide Place, Single, Xor, And;
  }

  lemma Neighbours(k: nat)
    requires k < 8
    ensures Place(k) << 1 == if k < 7 then Place(k + 1) else 0
    ensures Place(k) >> 1 == if k > 0 then Place(k - 1) else 0
  {
  }

  lemma RightOne(b: bv8, k: nat)
    requires k < 8
    ensures Bit(b >> 1, k) <==> k < 7 && Bit(b, k + 1)
  {
    RightMask(b, Place(k));
    Neighbours(k);
  }

  lemma LeftOne(b: bv8, k: nat)
    requires k < 8
    ensures Bit(b << 1, k) <==> k > 0 && Bit(b, k - 1)
  {
    LeftMask(b, Place(k));
    Neighbours(k);
  }

  lemma {:induction false} RightBits(b: bv8, n: nat, k: nat)
    requires k < 8
    ensures Bit(Right(b, n), k) <==> k + n < 8 && Bit(b, k + n)
  {
    hide Bit;
    if n > 0 {
      RightOne(Right(b, n - 1), k);
      if k < 7 { RightBits(b, n - 1, k + 1); }
    }
  }

  lemma {:induction false} LeftBits(b: bv8, n: nat, k: nat)
    requires k < 8
    ensures Bit(Left(b, n), k) <==> k >= n && Bit(b, k - n)
  {
    hide Bit;
    if n > 0 {
      LeftOne(Left(b, n - 1), k);
      if k > 0 { LeftBits(b, n - 1, k - 1); }
    }
  }

  lemma AllOnes(k: nat)
    requires k < 8
    ensures Bit(0xff, k)
  {
  }

  lemma NoBits(k: nat)
    requires k < 8
    ensures !Bit(0, k)
  {
  }

  lemma FieldBits(source: bv8, right: nat, count: nat, k: nat)
    requires k < 8 && count <= 8
    ensures Bit(Field(source, right, count), k) <==> k < count && k + right < 8 && Bit(source, k + right)
  {
    hide Bit, Right, And;
    Pointwise(Right(source, right), Right(0xff, 8 - count), k);
    RightBits(source, right, k);
    RightBits(0xff, 8 - count, k);
    if k < count { AllOnes(k + 8 - count); }
  }

  /** What the transfer does to each bit of the destination, and when it is refused. */
  lemma TransferBits(destination: bv8, source: bv8, right: nat, count: nat, left: nat, k: nat)
    requires k < 8
    ensures var r := XorByteBits(destination, source, right, count, left);
      && (r.Some? <==> 0 < count && right + count <= 8 && left + count <= 8)
      && (r.Some? ==> (Bit(r.value, k) <==>
            if left <= k < left + count then Bit(destination, k) != Bit(source, k - left + right)
              else Bit(destination, k)))
  {
    if 0 < count && right + count <= 8 && left + count <= 8 {
      hide Bit, Left, Right, Field, Xor;
      Pointwise(destination, Left(Field(source, right, count), left), k);
      LeftBits(Field(source, right, count), left, k);
      if left <= k {
        FieldBits(source, right, count, k - left);
      }
    }
  }

  /** Only the low `used` bits may be set. */
  predicate Clear(b: bv8, used: nat) {
    forall k :: used <= k < 8 ==> !Bit(b, k)
  }

  lemma InsertedBits(r: bv8, destination: bv8, source: bv8, right: nat, count: nat, left: nat)
    requires right + count <= 8 && left + count <= 8
    requires forall k :: 0 <= k < 8 ==>
      (Bit(r, k) <==> if k < left then Bit(destination, k) else k < left + count && Bit(source, k - left + right))
    ensures Clear(r, left + count)
    ensures ToBits(r)[..left + count] == ToBits(destination)[..left] + ToBits(source)[right..right + count]
  {
    hide Bit;
    var a, b := ToBits(r)[..left + count], ToBits(destination)[..left] + ToBits(source)[right..right + count];
    forall k | 0 <= k < |a| ensures a[k] == b[k] {}
  }

  /** Where the destination is clear, the exclusive or is an insertion. */
  lemma TransferInserts(destination: bv8, source: bv8, right: nat, count: nat, left: nat)
    requires 0 < count && right + count <= 8 && left + count <= 8 && Clear(destination, left)
    ensures XorByteBits(destination, source, right, count, left).Some?
    ensures var r := XorByteBits(destination, source, right, count, left).value;
      Clear(r, left + count)
        && ToBits(r)[..left + count] == ToBits(destination)[..left] + ToBits(source)[right..right + count]
  {
    hide Bit, XorByteBits, ToBits;
    TransferBits(destination, source, right, count, left, 0);
    var r := XorByteBits(destination, source, right, count, left).value;
    forall k | 0 <= k < 8
      ensures Bit(r, k) <==> if k < left then Bit(destination, k) else k < left + count && Bit(source, k - left + right)
    {
      TransferBits(destination, source, right, count, left, k);
    }
    InsertedBits(r, destination, source, right, count, left);
  }

  lemma {:induction false} AllBitsAppend(a: seq<bv8>, b: seq<bv8>)
    ensures AllBits(a + b) == AllBits(a) + AllBits(b)
    decreases |b|
  {
    hide ToBits;
    if b == [] {
      assert a + b == a;
    } else {
      var n := |b| - 1;
      assert (a + b)[..|a + b| - 1] == a + b[..n];
      AllBitsAppend(a, b[..n]);
      assert AllBits(a) + (AllBits(b[..n]) + ToBits(b[n])) == AllBits(a) + AllBits(b[..n]) + ToBits(b[n]);
    }
  }

  lemma {:induction false} AllBitsLength(a: seq<bv8>)
    ensures |AllBits(a)| == 8 * |a|
  {
    if a != [] {
      AllBitsLength(a[..|a| - 1]);
    }
  }

  lemma SameMasks(a: bv8, b: bv8)
    requires a & 1 != 0 <==> b & 1 != 0
    requires a & 2 != 0 <==> b & 2 != 0
    requires a & 4 != 0 <==> b & 4 != 0
    requires a & 8 != 0 <==> b & 8 != 0
    requires a & 16 != 0 <==> b & 16 != 0
    requires a & 32 != 0 <==> b & 32 != 0
    requires a & 64 != 0 <==> b & 64 != 0
    requires a & 128 != 0 <==> b & 128 != 0
    ensures a == b
  {
  }

  lemma BitsDetermineByte(a: bv8, b: bv8)
    requires ToBits(a) == ToBits(b)
    ensures a == b
  {
    forall k | 0 <= k < 8 ensures Bit(a, k) <==> Bit(b, k) {
      assert ToBits(a)[k] == ToBits(b)[k];
    }
    EightPlaces(a);
    EightPlaces(b);
    hide Bit, ToBits;
    SameMasks(a, b);
  }

  lemma EightPlaces(b: bv8)
    ensures (Bit(b, 0) <==> b & 1 != 0) && (Bit(b, 1) <==> b & 2 != 0) && (Bit(b, 2) <==> b & 4 != 0)
    ensures (Bit(b, 3) <==> b & 8 != 0) && (Bit(b, 4) <==> b & 16 != 0) && (Bit(b, 5) <==> b & 32 != 0)
    ensures (Bit(b, 6) <==> b & 64 != 0) && (Bit(b, 7) <==> b & 128 != 0)
  {
  }

  lemma {:induction false} BitsDetermineBytes(a: seq<bv8>, b: seq<bv8>)
    requires AllBits(a) == AllBits(b)
    ensures a == b
    decreases |a|
  {
    AllBitsLength(a);
    AllBitsLength(b);
    if a != [] {
      var n := |a| - 1;
      hide ToBits;
      AllBitsLength(a[..n]);
      assert AllBits(a)[..8 * n] == AllBits(a[..n]) && AllBits(b)[..8 * n] == AllBits(b[..n]);
      assert AllBits(a)[8 * n..] == ToBits(a[n]) && AllBits(b)[8 * n..] == ToBits(b[n]);
      BitsDetermineByte(a[n], b[n]);
      BitsDetermineBytes(a[..n], b[..n]);
      assert a == a[..n] + [a[n]] && b == b[..n] + [b[n]];
    }
  }
}
