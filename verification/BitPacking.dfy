/** The KMAC framing packer: bit strings and encoded integers go into the absorbing state as one
    unbroken string of bits, across a pending byte that is never more than partly filled. */
module BitPacking {
  import opened Options
  import opened Arithmetic
  import opened Counter
  import opened ByteBits
  import opened IntegerEncoding

  const SIZES: nat := 0x1_0000_0000_0000_0000
  const MAX_RATE: nat := 168

  /** What one absorb call of the state answers. */
  datatype Answer = Sound | Errs(code: nat) | Unwinds
  type Absorber = nat -> Answer

  datatype Outcome = Done | Refused(code: nat) | TooLong | InvalidBits | Unwound

  /** Bytes of which the last holds `valid` bits; zero stands for no bytes at all. */
  datatype BitString = BitString(bytes: seq<bv8>, valid: nat) {
    predicate Aligned() { valid == 0 || valid == 8 }

    predicate Typed() {
      if bytes == [] then valid == 0 else 1 <= valid <= 8
    }

    function Count(): nat
      requires Typed()
    {
      if bytes == [] then 0 else 8 * (|bytes| - 1) + valid
    }

    /** The bytes that are full. */
    function Whole(): seq<bv8>
      requires Typed()
    {
      if Aligned() then bytes else bytes[..|bytes| - 1]
    }

    function Bits(): (b: seq<bool>)
      requires Typed()
      ensures |b| == Count()
    {
      AllBitsLength(bytes);
      AllBits(bytes)[..Count()]
    }
  }

  function Flat(chunks: seq<seq<bv8>>): seq<bv8> {
    if chunks == [] then [] else Flat(chunks[..|chunks| - 1]) + chunks[|chunks| - 1]
  }

  lemma FlatGrows(chunks: seq<seq<bv8>>, chunk: seq<bv8>)
    ensures Flat(chunks + [chunk]) == Flat(chunks) + chunk
    ensures AllBits(Flat(chunks + [chunk])) == AllBits(Flat(chunks)) + AllBits(chunk)
  {
    assert (chunks + [chunk])[..|chunks|] == chunks;
    AllBitsAppend(Flat(chunks), chunk);
  }

  lemma OneByte(b: bv8)
    ensures AllBits([b]) == ToBits(b)
  {
    assert AllBits([b][..0]) == [];
  }

  /** How many bytes a push of bits completes. */
  function Flushes(used: nat, valid: nat): nat {
    if used + valid >= 8 then 1 else 0
  }

  lemma NoBytes()
    ensures AllBits([]) == []
  {
  }

  lemma AllBitsSnoc(input: seq<bv8>, k: nat)
    requires k < |input|
    ensures AllBits(input[..k + 1]) == AllBits(input[..k]) + ToBits(input[k])
  {
    assert input[..k + 1][..k] == input[..k];
  }

  lemma AllBitsPrefix(input: seq<bv8>, k: nat)
    requires k <= |input|
    ensures AllBits(input[..k]) <= AllBits(input)
  {
    hide AllBits;
    assert input[..k] + input[k..] == input;
    AllBitsAppend(input[..k], input[k..]);
  }

  lemma Longer(flow: seq<bool>, input: seq<bv8>, k: nat)
    requires k < |input|
    ensures flow + AllBits(input[..k]) + ToBits(input[k])[..8]
      == flow + AllBits(input[..k + 1]) <= flow + AllBits(input)
  {
    hide AllBits;
    assert ToBits(input[k])[..8] == ToBits(input[k]);
    AllBitsSnoc(input, k);
    AllBitsPrefix(input, k + 1);
  }

  lemma BitsOfString(input: BitString)
    requires input.Typed()
    ensures input.Bits() == AllBits(input.Whole()) +
      if input.Aligned() then [] else ToBits(input.bytes[|input.bytes| - 1])[..input.valid]
    ensures AllBits(input.Whole()) <= input.Bits()
  {
    hide ToBits, Bit;
    AllBitsLength(input.bytes);
    AllBitsLength(input.Whole());
    if input.Aligned() {
      assert AllBits(input.bytes)[..|AllBits(input.bytes)|] == AllBits(input.bytes);
    }
  }

  lemma TailBits(pending: bv8, used: nat)
    requires used < 8
    ensures var tail := if used == 0 then BitString([], 0) else BitString([pending], used);
      tail.Typed() && tail.Bits() == ToBits(pending)[..used]
  {
    OneByte(pending);
  }

  function MessageBits(message: Option<BitString>): seq<bool>
    requires message.Some? ==> message.value.Typed()
  {
    if message.Some? then message.value.Bits() else []
  }

  /** Message bits, then suffix bits. */
  function Framed(message: Option<BitString>, outputBits: nat): seq<bool>
    requires message.Some? ==> message.value.Typed()
    requires outputBits <= MAXIMUM
  {
    MessageBits(message) + AllBits(RightEncoded(outputBits))
  }

  /** The absorb calls and the bytes that framing needs. */
  function SuffixCalls(message: Option<BitString>, outputBits: nat): nat {
    (if message.Some? then 1 else 0) +
    if message.Some? && !message.value.Aligned() then Width(outputBits) + 1 else 1
  }

  function SuffixBytes(message: Option<BitString>, outputBits: nat): nat
    requires message.Some? ==> message.value.Typed()
  {
    (if message.Some? then |message.value.Whole()| else 0) + Width(outputBits) + 1
  }

  /** The absorb calls and bytes that a bit string needs behind `used` bits, and the bits it leaves. */
  function StringCalls(used: nat, input: BitString): nat
    requires input.Typed()
  {
    (if used == 0 then 1 else |input.Whole()|) + if input.Aligned() then 0 else Flushes(used, input.valid)
  }

  function StringBytes(used: nat, input: BitString): nat
    requires input.Typed()
  {
    |input.Whole()| + if input.Aligned() then 0 else Flushes(used, input.valid)
  }

  function StringUsed(used: nat, input: BitString): nat
    requires used < 8 && input.Typed()
  {
    if input.Aligned() then used else used + input.valid - 8 * Flushes(used, input.valid)
  }

  /** The absorb calls and bytes of padding behind so many bytes and bits. */
  function PadCalls(emitted: nat, used: nat, rate: nat): nat
    requires rate > 0
  {
    var flushes := if used > 0 then 1 else 0;
    flushes + if (emitted + flushes) % rate == 0 then 0 else 1
  }

  function PadBytes(emitted: nat, used: nat, rate: nat): nat
    requires rate > 0
  {
    var flushes := if used > 0 then 1 else 0;
    flushes + if (emitted + flushes) % rate == 0 then 0 else rate - (emitted + flushes) % rate
  }

  /** The bytes that stand before the padding of a key. */
  function KeyWhole(key: BitString, rate: nat): nat
    requires key.Typed()
  {
    Width(rate) + 1 + Width(key.Count()) + 1 + |key.Whole()|
  }

  function KeyUsed(key: BitString): nat {
    if key.Aligned() then 0 else key.valid
  }

  function KeyCalls(key: BitString, rate: nat): nat
    requires key.Typed() && rate > 0
  {
    3 + PadCalls(KeyWhole(key, rate), KeyUsed(key), rate)
  }

  function KeyBytes(key: BitString, rate: nat): nat
    requires key.Typed() && rate > 0
  {
    KeyWhole(key, rate) + PadBytes(KeyWhole(key, rate), KeyUsed(key), rate)
  }

  /** left_encode of the rate, then the key with its length before it. */
  function KeyString(key: BitString, rate: nat): seq<bool>
    requires key.Typed() && key.Count() <= MAXIMUM && rate <= MAXIMUM
  {
    AllBits(LeftEncoded(rate)) + AllBits(LeftEncoded(key.Count())) + key.Bits()
  }

  /** Framing loses nothing: the framed bits determine the message bits and the output length,
      although the message may end anywhere inside a byte. */
  lemma FramingIsInjective(m: seq<bool>, v: nat, n: seq<bool>, w: nat)
    requires v <= MAXIMUM && w <= MAXIMUM
    requires m + AllBits(RightEncoded(v)) == n + AllBits(RightEncoded(w))
    ensures m == n && v == w
  {
    var a, b := RightEncoded(v), RightEncoded(w);
    LastOfEncoded(v);
    LastOfEncoded(w);
    hide AllBits, RightEncoded, Width;
    SameEnd(m, a, n, b);
    SameLengths(m, a, n, b);
    BitsDetermineBytes(a, b);
    RightEncodeParses([], v);
    RightEncodeParses([], w);
    assert [] + a == a && [] + b == b;
  }

  lemma LastOfEncoded(v: nat)
    requires v <= MAXIMUM
    ensures Number(RightEncoded(v)[|RightEncoded(v)| - 1]) == Width(v)
  {
    WidthIsLeast(v);
  }

  lemma SameLengths(m: seq<bool>, a: seq<bv8>, n: seq<bool>, b: seq<bv8>)
    requires |a| == |b| && m + AllBits(a) == n + AllBits(b)
    ensures m == n && AllBits(a) == AllBits(b)
  {
    AllBitsLength(a);
    AllBitsLength(b);
    hide AllBits;
    assert m == (m + AllBits(a))[..|m|] && n == (n + AllBits(b))[..|n|];
    assert AllBits(a) == (m + AllBits(a))[|m|..] && AllBits(b) == (n + AllBits(b))[|n|..];
  }

  lemma LastBits(m: seq<bool>, a: seq<bv8>)
    requires a != []
    ensures |m + AllBits(a)| >= 8 && (m + AllBits(a))[|m + AllBits(a)| - 8..] == ToBits(a[|a| - 1])
  {
    hide ToBits;
    var front := AllBits(a[..|a| - 1]);
    assert m + AllBits(a) == (m + front) + ToBits(a[|a| - 1]);
  }

  /** Two strings of bits that are equal end in the same byte. */
  lemma SameEnd(m: seq<bool>, a: seq<bv8>, n: seq<bool>, b: seq<bv8>)
    requires a != [] && b != [] && m + AllBits(a) == n + AllBits(b)
    ensures a[|a| - 1] == b[|b| - 1]
  {
    LastBits(m, a);
    LastBits(n, b);
    hide AllBits, ToBits;
    BitsDetermineByte(a[|a| - 1], b[|b| - 1]);
  }

  // ---------- padding ----------

  function Zeros(n: nat): seq<bv8> {
    seq<bv8>(n, _ => 0)
  }

  ghost predicate ZerosAfter(flow: seq<bool>, all: seq<bool>) {
    flow <= all && forall k :: |flow| <= k < |all| ==> !all[k]
  }

  /** The bytes hold the bits and then zeros up to the next whole block. */
  ghost predicate Padded(flow: seq<bool>, bytes: seq<bv8>, rate: nat) {
    rate > 0 && |bytes| % rate == 0 && |AllBits(bytes)| - |flow| < 8 * rate && ZerosAfter(flow, AllBits(bytes))
  }

  lemma PendingPadded(before: seq<bool>, pending: bv8, used: nat)
    requires used <= 8 && Clear(pending, used)
    ensures ZerosAfter(before + ToBits(pending)[..used], before + ToBits(pending))
  {
  }

  lemma {:induction false} ZeroBits(n: nat)
    ensures |AllBits(Zeros(n))| == 8 * n && forall k :: 0 <= k < 8 * n ==> !AllBits(Zeros(n))[k]
  {
    if n > 0 {
      ZeroBits(n - 1);
      assert Zeros(n)[..n - 1] == Zeros(n - 1);
      forall k | 0 <= k < 8 ensures !ToBits(0)[k] { NoBits(k); }
    }
  }

  lemma ZerosAppend(flow: seq<bool>, all: seq<bool>, zeros: seq<bool>)
    requires ZerosAfter(flow, all) && forall k :: 0 <= k < |zeros| ==> !zeros[k]
    ensures ZerosAfter(flow, all + zeros)
  {
  }

  lemma RoundsUp(n: nat, rate: nat)
    requires rate > 0
    ensures n % rate != 0 ==> (n + rate - n % rate) % rate == 0
  {
    var q := n / rate;
    assert n + rate - n % rate == (q + 1) * rate + 0;
    DivMod((n + rate - n % rate), rate, q + 1, 0);
  }

  // ---------- reading a frame back ----------

  /** The bits of whole bytes determine the bytes that a longer string of bytes begins with. */
  lemma BytesOfPrefix(front: seq<bv8>, bytes: seq<bv8>, flow: seq<bool>)
    requires AllBits(front) + flow <= AllBits(bytes)
    ensures front <= bytes && AllBits(bytes) == AllBits(front) + AllBits(bytes[|front|..])
    ensures flow <= AllBits(bytes[|front|..])
  {
    AllBitsLength(front);
    AllBitsLength(bytes);
    var n := |front|;
    assert bytes == bytes[..n] + bytes[n..];
    AllBitsAppend(bytes[..n], bytes[n..]);
    AllBitsLength(bytes[..n]);
    hide AllBits;
    assert AllBits(front) == AllBits(bytes)[..8 * n] == AllBits(bytes[..n]);
    BitsDetermineBytes(front, bytes[..n]);
    assert flow == (AllBits(front) + flow)[8 * n..] <= AllBits(bytes)[8 * n..];
  }

  /** Bytes that hold a framed key: the encoded rate, the encoded number of key bits, these bits,
      and zeros up to the next whole block. */
  ghost predicate KeyFrame(bytes: seq<bv8>, rate: nat, key: seq<bool>) {
    exists rest, body ::
      && ParseLeft(bytes) == Some((rate, rest)) && ParseLeft(rest) == Some((|key|, body))
      && key <= AllBits(body) && (forall k :: |key| <= k < |AllBits(body)| ==> !AllBits(body)[k])
      && rate > 0 && |bytes| % rate == 0
  }

  /** What the padded key string holds can be read back. */
  lemma KeyParses(key: BitString, rate: nat, bytes: seq<bv8>)
    requires key.Typed() && key.Count() <= MAXIMUM && rate <= MAXIMUM && Padded(KeyString(key, rate), bytes, rate)
    ensures KeyFrame(bytes, rate, key.Bits())
  {
    hide AllBits, LeftEncoded, BitString.Bits;
    var a, b, flow := LeftEncoded(rate), LeftEncoded(key.Count()), key.Bits();
    assert KeyString(key, rate) == AllBits(a) + (AllBits(b) + flow);
    BytesOfPrefix(a, bytes, AllBits(b) + flow);
    var rest := bytes[|a|..];
    BytesOfPrefix(b, rest, flow);
    var body := rest[|b|..];
    assert bytes == a + rest && rest == b + body;
    LeftEncodeParses(rate, rest);
    LeftEncodeParses(key.Count(), body);
    var all := AllBits(bytes);
    assert all == AllBits(a) + (AllBits(b) + AllBits(body));
    forall k | |flow| <= k < |AllBits(body)| ensures !AllBits(body)[k] {
      assert AllBits(body)[k] == all[|AllBits(a)| + |AllBits(b)| + k];
    }
  }

  /** The absorbed bytes determine the rate and every bit of the key. */
  lemma KeyFrameIsInjective(bytes: seq<bv8>, rate: nat, key: seq<bool>, rate': nat, key': seq<bool>)
    requires KeyFrame(bytes, rate, key) && KeyFrame(bytes, rate', key')
    ensures rate == rate' && key == key'
  {
    hide AllBits, ParseLeft;
    var rest, body :| ParseLeft(bytes) == Some((rate, rest)) && ParseLeft(rest) == Some((|key|, body))
                      && key <= AllBits(body);
    var rest', body' :| ParseLeft(bytes) == Some((rate', rest')) && ParseLeft(rest') == Some((|key'|, body'))
                        && key' <= AllBits(body');
    assert body == body';
    assert key == AllBits(body)[..|key|] && key' == AllBits(body)[..|key'|];
  }

  /** Bits that hold a framed message: the message's own, then whole bytes that end in the encoded
      number of output bits and hold nothing else. */
  ghost predicate MessageFrame(bits: seq<bool>, message: seq<bool>, outputBits: nat) {
    exists suffix: seq<bv8> :: bits == message + AllBits(suffix) && ParseRight(suffix) == Some((outputBits, []))
  }

  lemma FramedParses(message: Option<BitString>, outputBits: nat)
    requires outputBits <= MAXIMUM && (message.Some? ==> message.value.Typed())
    ensures MessageFrame(Framed(message, outputBits), if message.Some? then message.value.Bits() else [], outputBits)
  {
    hide AllBits, RightEncoded;
    RightEncodeParses([], outputBits);
    assert [] + RightEncoded(outputBits) == RightEncoded(outputBits);
  }

  class Packer {
    const absorber: Absorber
    var pending: bv8
    var used: nat
    var emitted: nat
    // What the state was given, call by call.
    var chunks: seq<seq<bv8>>

    constructor (absorber: Absorber)
      ensures this.absorber == absorber && chunks == [] && Wiped()
    {
      this.absorber := absorber;
      pending, used, emitted, chunks := 0, 0, 0, [];
    }

    ghost predicate Wiped()
      reads this
    {
      pending == 0 && used == 0 && emitted == 0
    }

    /** The pending byte holds `used` bits and is clear above them. */
    ghost predicate Valid()
      reads this
    {
      used < 8 && Clear(pending, used) && emitted == |Flat(chunks)| < SIZES
    }

    /** The string of bits so far: absorbed bytes, then the used bits of the pending byte. */
    ghost function Flow(): seq<bool>
      reads this
      requires used <= 8
    {
      AllBits(Flat(chunks)) + ToBits(pending)[..used]
    }

    ghost predicate Sound(first: nat, count: nat) {
      forall i :: first <= i < first + count ==> absorber(i).Sound?
    }

    method Wipe()
      modifies this`pending, this`used, this`emitted
      ensures Wiped()
    {
      pending, used, emitted := 0, 0, 0;
    }

    method Absorb(input: seq<bv8>) returns (o: Outcome)
      modifies this`chunks
      ensures chunks == old(chunks) + [input]
      ensures o.Done? <==> absorber(|old(chunks)|).Sound?
    {
      var answer := absorber(|chunks|);
      chunks := chunks + [input];
      o := match answer case Sound => Done case Errs(code) => Refused(code) case Unwinds => Unwound;
    }

    /** Hands a full pending byte to the state and clears it. */
    method Flush() returns (o: Outcome)
      requires used <= 8 && Clear(pending, used) && emitted == |Flat(chunks)| < SIZES
      modifies this
      ensures chunks == old(chunks) + [[old(pending)]]
      ensures AllBits(Flat(chunks)) == old(AllBits(Flat(chunks)) + ToBits(pending))
      ensures o.Done? <==> absorber(|old(chunks)|).Sound? && old(emitted) + 1 < SIZES
      ensures o.Done? ==> Valid() && used == 0 && emitted == old(emitted) + 1
    {
      FlatGrows(chunks, [pending]);
      OneByte(pending);
      o := Absorb([pending]);
      if !o.Done? { return; }
      if emitted + 1 >= SIZES { return TooLong; }
      emitted := emitted + 1;
      pending, used := 0, 0;
      forall k | 0 <= k < 8 ensures !Bit(0, k) { NoBits(k); }
    }

    /** Moves as many bits as the pending byte has room for. */
    method Insert(byte: bv8, position: nat, take: nat) returns (o: Outcome)
      requires Valid() && 0 < take <= 8 - used && position + take <= 8
      modifies this`pending, this`used
      ensures o.Done? && used == old(used) + take <= 8 && Clear(pending, used)
      ensures Flow() == old(Flow()) + ToBits(byte)[position..position + take]
    {
      TransferInserts(pending, byte, position, take, used);
      var moved := XorByteBits(pending, byte, position, take, used);
      if moved.None? { return InvalidBits; }
      pending, used := moved.value, used + take;
      o := Done;
    }

    /** What a push that may complete one byte does to the calls: the state gets at most that byte. */
    twostate predicate Passed(flushed: bool)
      reads this
    {
      && old(chunks) <= chunks && |chunks| == |old(chunks)| + (if flushed then 1 else 0)
      && (flushed ==> |chunks[|old(chunks)|]| == 1)
    }

    ghost predicate Accepts()
      reads this
    {
      absorber(|chunks|).Sound? && emitted + 1 < SIZES
    }

    /** Moves a fragment, and flushes the pending byte if that fills it. */
    method Fragment(byte: bv8, position: nat, take: nat) returns (o: Outcome)
      requires Valid() && 0 < take <= 8 - used && position + take <= 8
      modifies this
      ensures Passed(old(used) + take == 8)
      ensures o.Done? <==> old(used) + take < 8 || old(Accepts())
      ensures o.Done? ==> Valid() && Flow() == old(Flow()) + ToBits(byte)[position..position + take]
      ensures o.Done? ==> used == if old(used) + take == 8 then 0 else old(used) + take
      ensures o.Done? ==> emitted == old(emitted) + Flushes(old(used), take)
      ensures AllBits(Flat(chunks)) <= old(Flow()) + ToBits(byte)[position..position + take]
    {
      hide Flat, AllBits, ToBits, Bit, Clear;
      o := Insert(byte, position, take);
      if used == 8 {
        ghost var flow := Flow();
        assert flow == AllBits(Flat(chunks)) + ToBits(pending);
        o := Flush();
        assert o.Done? ==> Flow() == flow;
      }
    }

    /** Appends the low `valid` bits of a byte. */
    method PushBits(byte: bv8, valid: nat) returns (o: Outcome)
      requires Valid()
      modifies this
      ensures valid > 8 ==> o == InvalidBits && chunks == old(chunks)
      ensures valid <= 8 ==> Passed(old(used) + valid >= 8)
      ensures valid <= 8 ==> (o.Done? <==> old(used) + valid < 8 || old(Accepts()))
      ensures o.Done? ==> Valid() && Flow() == old(Flow()) + ToBits(byte)[..valid]
      ensures o.Done? ==> used + 8 * Flushes(old(used), valid) == old(used) + valid
      ensures o.Done? ==> emitted == old(emitted) + Flushes(old(used), valid)
      ensures valid <= 8 ==> AllBits(Flat(chunks)) <= old(Flow()) + ToBits(byte)[..valid]
    {
      hide Flat, AllBits, ToBits, Bit, Clear;
      if valid > 8 || used >= 8 { return InvalidBits; }
      var position := 0;
      ghost var start, flow, bits := used, Flow(), ToBits(byte);
      while position < valid
        invariant Valid() && position <= valid <= 8
        invariant Flow() == flow + bits[..position]
        invariant Passed(start + position >= 8)
        invariant used + 8 * Flushes(start, position) == start + position
        invariant emitted == old(emitted) + Flushes(start, position)
        invariant start + position >= 8 ==> old(Accepts())
        invariant 0 < position < valid ==> used == 0
      {
        var take := if 8 - used <= valid - position then 8 - used else valid - position;
        ghost var before := Flow();
        assert bits[..position] + bits[position..position + take] == bits[..position + take];
        assert bits[..position + take] <= bits[..valid];
        o := Fragment(byte, position, take);
        assert before + bits[position..position + take] == flow + bits[..position + take];
        position := position + take;
        if !o.Done? { return; }
      }
      o := Done;
    }

    /** Whether n whole bytes can be pushed: the calls they need are answered, and they fit. */
    ghost predicate CanTake(n: nat)
      reads this
    {
      emitted + n < SIZES && Sound(|chunks|, if used == 0 then 1 else n)
    }

    /** Whole bytes go to the state in one call, or byte by byte across a partial pending byte. */
    twostate predicate PassedBytes(input: seq<bv8>)
      reads this
    {
      && old(chunks) <= chunks
      && if old(used) == 0 then chunks == old(chunks) + [input]
         else forall j :: |old(chunks)| <= j < |chunks| ==> |chunks[j]| == 1
    }

    method PushBytes(input: seq<bv8>) returns (o: Outcome)
      requires Valid()
      modifies this
      ensures PassedBytes(input)
      ensures o.Done? <==> old(CanTake(|input|))
      ensures o.Done? ==> Valid() && used == old(used) && emitted == old(emitted) + |input|
      ensures o.Done? ==> |chunks| == |old(chunks)| + if used == 0 then 1 else |input|
      ensures o.Done? ==> Flow() == old(Flow()) + AllBits(input)
      ensures AllBits(Flat(chunks)) <= old(Flow()) + AllBits(input)
    {
      hide Bit, ToBits, AllBits, Flat;
      ghost var start, flow := used, Flow();
      if used == 0 {
        FlatGrows(chunks, input);
        assert flow == AllBits(Flat(chunks));
        o := Absorb(input);
        if !o.Done? { return; }
        if emitted + |input| >= SIZES { return TooLong; }
        emitted := emitted + |input|;
        return;
      }
      assert AllBits(input[..0]) == [] by { NoBytes(); }
      for k := 0 to |input|
        invariant Valid() && used == start && emitted == old(emitted) + k
        invariant old(chunks) <= chunks && |chunks| == |old(chunks)| + k
        invariant forall j :: |old(chunks)| <= j < |chunks| ==> |chunks[j]| == 1
        invariant Sound(|old(chunks)|, k)
        invariant Flow() == flow + AllBits(input[..k])
      {
        ghost var before := chunks;
        o := PushBits(input[k], 8);
        Longer(flow, input, k);
        assert forall j :: |old(chunks)| <= j < |chunks| && j != |before| ==> |chunks[j]| == 1;
        if !o.Done? { return; }
      }
      assert input[..|input|] == input;
      assert AllBits(Flat(chunks)) <= Flow();
      o := Done;
    }

    /** Whether `calls` absorb calls are answered and `bytes` more bytes fit. */
    ghost predicate Manages(calls: nat, bytes: nat)
      reads this
    {
      emitted + bytes < SIZES && Sound(|chunks|, calls)
    }

    /** A bit string: its whole bytes, then the low bits of its last byte. */
    method PushBitString(input: BitString) returns (o: Outcome)
      requires Valid() && input.Typed()
      modifies this
      ensures old(used) == 0 ==> chunks == old(chunks) + [input.Whole()]
      ensures o.Done? <==> old(Manages(StringCalls(used, input), StringBytes(used, input)))
      ensures o.Done? ==> Valid() && used == StringUsed(old(used), input)
      ensures o.Done? ==> emitted == old(emitted) + StringBytes(old(used), input)
      ensures o.Done? ==> |chunks| == |old(chunks)| + StringCalls(old(used), input)
      ensures o.Done? ==> Flow() == old(Flow()) + input.Bits()
      ensures AllBits(Flat(chunks)) <= old(Flow()) + input.Bits()
    {
      hide Bit, ToBits, AllBits, Flat, Sound;
      BitsOfString(input);
      if input.Aligned() {
        o := PushBytes(input.bytes);
        return;
      }
      ghost var flow := Flow();
      var last := |input.bytes| - 1;
      SoundSplit(|chunks|, if used == 0 then 1 else last, Flushes(used, input.valid));
      SoundOne(|chunks| + if used == 0 then 1 else last);
      o := PushBytes(input.bytes[..last]);
      if !o.Done? { return; }
      ghost var middle := Flow();
      o := PushBits(input.bytes[last], input.valid);
      assert middle + ToBits(input.bytes[last])[..input.valid] == flow + input.Bits();
      assert AllBits(Flat(chunks)) <= flow + input.Bits();
    }

    /** The bits left in the pending byte, as the bit string that ends the state's input. */
    function Tail(): BitString
      reads this
    {
      if used == 0 then BitString([], 0) else BitString([pending], used)
    }

    /** Frames the final message: its bits, then right_encode of the output length, across whatever
        byte boundary the message left. The state and the tail together hold exactly these bits in
        this order; no other bits ever reach the state; and the frame is wiped on every exit. */
    method AppendSuffix(message: Option<BitString>, outputBits: nat) returns (o: Outcome, tail: BitString)
      requires chunks == [] && outputBits <= MAXIMUM && (message.Some? ==> message.value.Typed())
      modifies this
      ensures Wiped()
      ensures o.Done? ==>
        tail.Typed() && tail.valid < 8 && AllBits(Flat(chunks)) + tail.Bits() == Framed(message, outputBits)
      ensures o.Done? ==>
        MessageFrame(AllBits(Flat(chunks)) + tail.Bits(), if message.Some? then message.value.Bits() else [],
          outputBits)
      ensures o.Done? ==> tail.bytes == [] || Clear(tail.bytes[0], tail.valid)
      ensures o.Done? <==>
        Sound(0, SuffixCalls(message, outputBits)) && SuffixBytes(message, outputBits) < 0x1_0000_0000_0000_0000
      ensures o.Done? ==> |chunks| == SuffixCalls(message, outputBits)
      ensures AllBits(Flat(chunks)) <= Framed(message, outputBits)
    {
      hide Bit, ToBits, AllBits, Flat, Sound, RightEncoded, BitString.Bits, MessageFrame;
      tail := BitString([], 0);
      Wipe();
      Fresh();
      ghost var suffix := AllBits(RightEncoded(outputBits));
      o := Done;
      if message.Some? {
        o := PushBitString(message.value);
      }
      ghost var calls := SuffixCalls(message, outputBits);
      SoundSplit(0, |chunks|, calls - |chunks|);
      if !o.Done? {
        Wipe();
        return;
      }
      var encoded := RightEncode(outputBits);
      o := PushBytes(encoded);
      if o.Done? {
        tail := Tail();
        TailBits(pending, used);
        FramedParses(message, outputBits);
      }
      Wipe();
    }

    /** Pads with zero bits to a whole number of rate-sized blocks, and with no more than needed. */
    method FinishBytepad(rate: nat) returns (o: Outcome)
      requires Valid()
      modifies this
      ensures o.Done? ==> Valid() && used == 0 && Padded(old(Flow()), Flat(chunks), rate)
      ensures o.Done? <==>
        0 < rate <= 168 && old(Manages(PadCalls(emitted, used, rate), PadBytes(emitted, used, rate)))
      ensures o.Done? ==> 0 < rate <= MAX_RATE && |chunks| == |old(chunks)| + PadCalls(old(emitted), old(used), rate)
    {
      hide Bit, ToBits, AllBits, Flat, Sound;
      if rate == 0 || rate > MAX_RATE { return TooLong; }
      ghost var flushes := if used > 0 then 1 else 0;
      SoundSplit(|chunks|, flushes, PadCalls(emitted, used, rate) - flushes);
      SoundOne(|chunks|);
      ghost var flow := Flow();
      AllBitsLength(Flat(chunks));
      PendingPadded(AllBits(Flat(chunks)), pending, used);
      if used != 0 {
        o := Flush();
        if !o.Done? { return; }
      }
      AllBitsLength(Flat(chunks));
      ghost var whole := AllBits(Flat(chunks));
      assert Flow() == whole && ZerosAfter(flow, whole) && |whole| - |flow| < 8;
      var remainder := emitted % rate;
      RoundsUp(emitted, rate);
      if remainder != 0 {
        var count := rate - remainder;
        ZeroBits(count);
        ZerosAppend(flow, whole, AllBits(Zeros(count)));
        o := PushBytes(Zeros(count));
        if !o.Done? { return; }
        assert Flow() == AllBits(Flat(chunks));
      }
      o := Done;
    }

    lemma SoundSplit(first: nat, a: nat, b: nat)
      ensures Sound(first, a + b) <==> Sound(first, a) && Sound(first + a, b)
    {
    }

    lemma SoundOne(first: nat)
      ensures (Sound(first, 1) <==> absorber(first).Sound?) && Sound(first, 0)
    {
    }

    /** A fresh frame before a fresh state is valid and holds no bits. */
    lemma Fresh()
      requires Wiped() && chunks == []
      ensures Valid() && Flow() == []
    {
    }

    /** left_encode of the rate and the key with its length, into a fresh frame. */
    method PushKeyString(key: BitString, rate: nat) returns (o: Outcome)
      requires Wiped() && chunks == [] && key.Typed() && key.Count() <= MAXIMUM && rate <= MAXIMUM
      modifies this
      ensures o.Done? <==> Sound(0, 3) && KeyWhole(key, rate) < SIZES
      ensures o.Done? ==> Valid() && Flow() == KeyString(key, rate)
      ensures o.Done? ==> used == KeyUsed(key) && emitted == KeyWhole(key, rate) && |chunks| == 3
    {
      hide Bit, ToBits, AllBits, Flat, BitString.Bits, LeftEncoded, Sound;
      Fresh();
      SoundSplit(0, 1, 1);
      SoundSplit(0, 2, 1);
      var encoded := LeftEncode(rate);
      o := PushBytes(encoded);
      if !o.Done? { return; }
      encoded := LeftEncode(key.Count());
      o := PushBytes(encoded);
      if !o.Done? { return; }
      o := PushBitString(key);
    }

    /** Frames the key: bytepad(encode_string(key), rate), section 2.3.3 of NIST SP 800-185. */
    method AbsorbKey(key: BitString, rate: nat) returns (o: Outcome)
      requires chunks == [] && key.Typed() && key.Count() <= MAXIMUM && rate <= MAXIMUM
      modifies this
      ensures Wiped()
      ensures o.Done? ==> 0 < rate <= MAX_RATE && Padded(KeyString(key, rate), Flat(chunks), rate)
      ensures o.Done? ==> KeyFrame(Flat(chunks), rate, key.Bits())
      ensures o.Done? <==>
        0 < rate <= 168 && Sound(0, KeyCalls(key, rate)) && KeyBytes(key, rate) < 0x1_0000_0000_0000_0000
      ensures o.Done? ==> |chunks| == KeyCalls(key, rate)
    {
      hide Bit, ToBits, AllBits, Flat, BitString.Bits, LeftEncoded, Sound, KeyWhole, KeyUsed, KeyString, Padded,
        KeyFrame;
      if 0 < rate <= MAX_RATE { SoundSplit(0, 3, PadCalls(KeyWhole(key, rate), KeyUsed(key), rate)); }
      Wipe();
      o := PushKeyString(key, rate);
      if o.Done? {
        o := FinishBytepad(rate);
        if o.Done? { KeyParses(key, rate, Flat(chunks)); }
      }
      Wipe();
    }
  }
}
