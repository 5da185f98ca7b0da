/**
 CRC32C (the Castagnoli generator of section 12.1 of RFC 3720, bit-reversed): the table-driven loop,
 the bit-serial definition it must agree with, and the burst errors it detects.
 */
module Crc {
  import opened Bits
  import opened Bytes

  const POLY: nat := 0x82F6_3B78
  const ALL_ONES: nat := 0xFFFF_FFFF
  const LIMIT: nat := 0x1_0000_0000
  const BYTE_BITS: nat := 8

  // ---- the bit-serial definition ----

  /** Shift one message bit into the remainder, low bit first. */
  function FeedBit(c: nat, bit: nat): nat
  {
    if c % 2 != bit then Xor(c / 2, POLY) else c / 2
  }

  /** Shift in the low `n` bits of `x`. */
  function FeedBits(c: nat, x: nat, n: nat): nat
    decreases n, c, x
  {
    if n == 0 then c else FeedBits(FeedBit(c, x % 2), x / 2, n - 1)
  }

  function FeedBytes(c: nat, data: seq<Byte>): nat
    decreases |data|
  {
    if data == [] then c else FeedBytes(FeedBits(c, data[0], BYTE_BITS), data[1..])
  }

  /** The checksum of a message. */
  function Checksum(data: seq<Byte>): nat
  {
    Xor(FeedBytes(ALL_ONES, data), ALL_ONES)
  }

  // ---- the register step the table is built from ----

  function BitStep(c: nat): nat
  {
    if c % 2 != 0 then Xor(c / 2, POLY) else c / 2
  }

  function Steps(c: nat, n: nat): nat
    decreases n, c
  {
    if n == 0 then c else Steps(BitStep(c), n - 1)
  }

  lemma PolyTopBit()
    ensures Pow2(8) == 256 && Pow2(24) == 0x100_0000 && Pow2(31) == 0x8000_0000 && Pow2(32) == LIMIT
  {
    assert Pow2(8) == 256;
    assert Pow2(16) == 0x1_0000;
    assert Pow2(24) == 0x100_0000;
    assert Pow2(31) == 0x8000_0000;
  }

  lemma BitStepLinear(x: nat, y: nat)
    ensures BitStep(Xor(x, y)) == Xor(BitStep(x), BitStep(y))
  {
    XorHalf(x, y);
    var a, b := x / 2, y / 2;
    var p, q := if x % 2 == 0 then 0 else POLY, if y % 2 == 0 then 0 else POLY;
    XorZero(a);
    XorZero(b);
    XorZero(Xor(a, b));
    XorCross(a, b, p, q);
    XorSelf(POLY);
    XorZero(POLY);
    XorZero(0);
  }

  lemma {:induction false} StepsLinear(x: nat, y: nat, n: nat)
    ensures Steps(Xor(x, y), n) == Xor(Steps(x, n), Steps(y, n))
    decreases n
  {
    if n > 0 {
      BitStepLinear(x, y);
      StepsLinear(BitStep(x), BitStep(y), n - 1);
    }
  }

  /** The polynomial's top bit tells which branch a step took. */
  lemma BitStepTop(x: nat)
    requires x < LIMIT
    ensures BitStep(x) < LIMIT && (BitStep(x) >= 0x8000_0000 <==> x % 2 == 1)
  {
    PolyTopBit();
    var h, r := x / 2, POLY - 0x8000_0000;
    XorBound(h, r, 31);
    XorShifted(1, Xor(h, r), 31);
    ShlIsProduct(1, 31);
    XorShifted(1, r, 31);
    assert Xor(Shl(1, 31), r) == POLY;
    XorCommutes(h, POLY);
    XorAssociates(Shl(1, 31), r, h);
    XorCommutes(r, h);
  }

  lemma BitStepInjective(x: nat, y: nat)
    requires x < LIMIT && y < LIMIT && BitStep(x) == BitStep(y)
    ensures x == y
  {
    BitStepTop(x);
    BitStepTop(y);
    if x % 2 == 1 {
      XorCommutes(x / 2, POLY);
      XorCommutes(y / 2, POLY);
      XorCancels(POLY, x / 2, y / 2);
    }
  }

  lemma {:induction false} StepsInjective(x: nat, y: nat, n: nat)
    requires x < LIMIT && y < LIMIT && Steps(x, n) == Steps(y, n)
    ensures x == y
    decreases n
  {
    if n > 0 {
      BitStepTop(x);
      BitStepTop(y);
      StepsInjective(BitStep(x), BitStep(y), n - 1);
      BitStepInjective(x, y);
    }
  }

  lemma {:induction false} StepsCompose(x: nat, m: nat, n: nat)
    ensures Steps(Steps(x, m), n) == Steps(x, m + n)
    decreases m
  {
    if m > 0 {
      StepsCompose(BitStep(x), m - 1, n);
    }
  }

  lemma {:induction false} StepsBound(x: nat, n: nat)
    requires x < LIMIT
    ensures Steps(x, n) < LIMIT
    decreases n
  {
    if n > 0 {
      BitStepTop(x);
      StepsBound(BitStep(x), n - 1);
    }
  }

  /** Steps of a register whose low bits are clear only shift it. */
  lemma {:induction false} StepsShift(x: nat, n: nat)
    ensures Steps(Shl(x, n), n) == x
  {
    if n > 0 {
      BitStepEven(Shl(x, n - 1));
      StepsShift(x, n - 1);
    }
  }

  lemma BitStepEven(y: nat)
    ensures BitStep(2 * y) == y
  {
    assert (2 * y) % 2 == 0 && (2 * y) / 2 == y;
  }

  /** One table lookup does eight steps at once. */
  lemma TableStep(x: nat)
    ensures Steps(x, BYTE_BITS) == Xor(x / 256, Steps(x % 256, BYTE_BITS))
  {
    PolyTopBit();
    var q, r := x / 256, x % 256;
    ShlIsProduct(q, BYTE_BITS);
    XorShifted(q, r, BYTE_BITS);
    StepsLinear(Shl(q, BYTE_BITS), r, BYTE_BITS);
    StepsShift(q, BYTE_BITS);
  }

  lemma FeedOneBit(c: nat, x: nat)
    ensures BitStep(Xor(c, x)) == Xor(FeedBit(c, x % 2), x / 2)
  {
    XorHalf(c, x);
    XorAssociates(c / 2, x / 2, POLY);
    XorCommutes(x / 2, POLY);
    XorAssociates(c / 2, POLY, x / 2);
  }

  /** Feeding the bits of `x` one by one is stepping the register combined with `x`. */
  lemma {:induction false} FeedIsSteps(c: nat, x: nat, n: nat)
    requires x < Pow2(n)
    ensures FeedBits(c, x, n) == Steps(Xor(c, x), n)
    decreases n
  {
    if n == 0 {
      XorZero(c);
    } else {
      FeedOneBit(c, x);
      FeedIsSteps(FeedBit(c, x % 2), x / 2, n - 1);
    }
  }

  lemma FeedByteIsSteps(c: nat, x: Byte)
    ensures FeedBits(c, x, BYTE_BITS) == Steps(Xor(c, x), BYTE_BITS)
  {
    PolyTopBit();
    FeedIsSteps(c, x, BYTE_BITS);
  }

  lemma {:induction false} FeedBytesBound(c: nat, data: seq<Byte>)
    requires c < LIMIT
    ensures FeedBytes(c, data) < LIMIT
    decreases |data|
  {
    if data != [] {
      FeedByteBound(c, data[0]);
      FeedBytesBound(FeedBits(c, data[0], BYTE_BITS), data[1..]);
    }
  }

  lemma FeedByteBound(c: nat, x: Byte)
    requires c < LIMIT
    ensures FeedBits(c, x, BYTE_BITS) < LIMIT && Xor(c, x) < LIMIT
  {
    PolyTopBit();
    FeedByteIsSteps(c, x);
    XorBound(c, x, 32);
    StepsBound(Xor(c, x), BYTE_BITS);
  }

  lemma {:induction false} FeedAppend(c: nat, a: seq<Byte>, b: seq<Byte>)
    ensures FeedBytes(c, a + b) == FeedBytes(FeedBytes(c, a), b)
    decreases |a|
  {
    if a == [] {
      assert a + b == b;
    } else {
      assert (a + b)[0] == a[0] && (a + b)[1..] == a[1..] + b;
      FeedAppend(FeedBits(c, a[0], BYTE_BITS), a[1..], b);
    }
  }

  // ---- the loops ----

  ghost predicate IsTable(table: seq<nat>)
  {
    |table| == 256 && forall i: nat :: i < 256 ==> table[i] == Steps(i, BYTE_BITS)
  }

  method BuildTable() returns (table: seq<nat>)
    ensures IsTable(table)
  {
    table := [];
    var i := 0;
    while i < 256
      invariant 0 <= i <= 256 && |table| == i
      invariant forall k: nat :: k < i ==> table[k] == Steps(k, BYTE_BITS)
    {
      var entry := TableEntry(i);
      table := table + [entry];
      i := i + 1;
    }
  }

  method TableEntry(i: nat) returns (crc: nat)
    ensures crc == Steps(i, BYTE_BITS)
  {
    crc := i;
    var j := 0;
    while j < BYTE_BITS
      invariant 0 <= j <= BYTE_BITS
      invariant Steps(crc, BYTE_BITS - j) == Steps(i, BYTE_BITS)
    {
      if crc % 2 != 0 {
        crc := Xor(crc / 2, POLY);
      } else {
        crc := crc / 2;
      }
      j := j + 1;
    }
  }

  /** Run the register over `data` by table lookups. */
  method Update(table: seq<nat>, start: nat, data: seq<Byte>) returns (crc: nat)
    requires IsTable(table)
    ensures crc == FeedBytes(start, data)
  {
    crc := start;
    for i := 0 to |data|
      invariant FeedBytes(crc, data[i..]) == FeedBytes(start, data)
    {
      ghost var before := crc;
      var idx := Xor(crc, data[i]) % 256;
      LookupIsFeed(crc, data[i]);
      crc := Xor(crc / 256, table[idx]);
      assert data[i..][0] == data[i] && data[i..][1..] == data[i + 1..];
    }
  }

  /** Combining with a byte leaves the rest of the register alone. */
  lemma XorLowByte(c: nat, x: Byte)
    ensures Xor(c, x) / 256 == c / 256
  {
    PolyTopBit();
    var q, r := c / 256, c % 256;
    XorBound(r, x, BYTE_BITS);
    ShlIsProduct(q, BYTE_BITS);
    XorShifted(q, r, BYTE_BITS);
    XorAssociates(Shl(q, BYTE_BITS), r, x);
    XorShifted(q, Xor(r, x), BYTE_BITS);
  }

  lemma LookupIsFeed(c: nat, x: Byte)
    ensures Xor(c / 256, Steps(Xor(c, x) % 256, BYTE_BITS)) == FeedBits(c, x, BYTE_BITS)
  {
    FeedByteIsSteps(c, x);
    TableStep(Xor(c, x));
    XorLowByte(c, x);
  }

  method Crc32c(data: seq<Byte>) returns (crc: nat)
    ensures crc == Checksum(data)
  {
    var table := BuildTable();
    crc := Update(table, ALL_ONES, data);
    crc := Xor(crc, ALL_ONES);
  }

  /** The checksum of two buffers as if they were joined. */
  method Crc32cTwo(a: seq<Byte>, b: seq<Byte>) returns (crc: nat)
    ensures crc == Checksum(a + b)
  {
    var table := BuildTable();
    crc := Update(table, ALL_ONES, a);
    crc := Update(table, crc, b);
    FeedAppend(ALL_ONES, a, b);
    crc := Xor(crc, ALL_ONES);
  }

  // ---- error detection ----

  lemma {:induction false} PackBound(w: seq<Byte>)
    ensures FromLe(w) < Pow2(BYTE_BITS * |w|)
  {
    if w != [] {
      PackBound(w[1..]);
      Pow2Byte(BYTE_BITS * |w[1..]|);
    }
  }

  lemma Pow2Byte(n: nat)
    ensures Pow2(n + 8) == 256 * Pow2(n)
  {
    assert Pow2(n + 2) == 4 * Pow2(n);
    assert Pow2(n + 4) == 4 * Pow2(n + 2);
    assert Pow2(n + 6) == 4 * Pow2(n + 4);
    assert Pow2(n + 8) == 4 * Pow2(n + 6);
  }

  /** After eight steps a combined value has lost its low byte and the rest is still to come. */
  lemma CarryOver(c: nat, x: Byte, p: nat)
    ensures Steps(Xor(c, x + 256 * p), BYTE_BITS) == Xor(Steps(Xor(c, x), BYTE_BITS), p)
  {
    PolyTopBit();
    ShlIsProduct(p, BYTE_BITS);
    XorShifted(p, x, BYTE_BITS);
    XorCommutes(Shl(p, BYTE_BITS), x);
    XorAssociates(c, x, Shl(p, BYTE_BITS));
    StepsLinear(Xor(c, x), Shl(p, BYTE_BITS), BYTE_BITS);
    StepsShift(p, BYTE_BITS);
  }

  lemma CarryOn(c: nat, x: Byte, p: nat, m: nat)
    ensures Steps(Xor(Steps(Xor(c, x), BYTE_BITS), p), m) == Steps(Xor(c, x + 256 * p), BYTE_BITS + m)
  {
    CarryOver(c, x, p);
    StepsCompose(Xor(c, x + 256 * p), 8, m);
  }

  lemma FeedFirst(c: nat, w: seq<Byte>)
    requires c < LIMIT && w != []
    ensures Steps(Xor(c, w[0]), BYTE_BITS) < LIMIT
    ensures FeedBytes(c, w) == FeedBytes(Steps(Xor(c, w[0]), BYTE_BITS), w[1..])
  {
    FeedByteBound(c, w[0]);
    FeedByteIsSteps(c, w[0]);
  }

  /** A short word enters the register as one combined value. */
  lemma {:induction false} FeedWord(c: nat, w: seq<Byte>)
    requires c < LIMIT
    ensures FeedBytes(c, w) == Steps(Xor(c, FromLe(w)), BYTE_BITS * |w|)
    decreases |w|
  {
    if w == [] {
      XorZero(c);
    } else {
      var d, p, m := Steps(Xor(c, w[0]), BYTE_BITS), FromLe(w[1..]), BYTE_BITS * |w[1..]|;
      FeedFirst(c, w);
      FeedWord(d, w[1..]);
      CarryOn(c, w[0], p, m);
      assert FeedBytes(c, w) == Steps(Xor(d, p), m);
      assert FromLe(w) == w[0] + 256 * p && BYTE_BITS * |w| == BYTE_BITS + m;
    }
  }

  lemma WordsDiffer(c: nat, w: seq<Byte>, v: seq<Byte>)
    requires c < LIMIT && |w| == |v| <= 4 && w != v
    ensures FeedBytes(c, w) != FeedBytes(c, v)
  {
    if FeedBytes(c, w) == FeedBytes(c, v) {
      FeedWord(c, w);
      FeedWord(c, v);
      WordInRange(c, w);
      WordInRange(c, v);
      StepsInjective(Xor(c, FromLe(w)), Xor(c, FromLe(v)), BYTE_BITS * |w|);
      XorCancels(c, FromLe(w), FromLe(v));
      FromLeInjective(w, v);
    }
  }

  lemma WordInRange(c: nat, w: seq<Byte>)
    requires c < LIMIT && |w| <= 4
    ensures Xor(c, FromLe(w)) < LIMIT
  {
    PackBound(w);
    PolyTopBit();
    PowMono(BYTE_BITS * |w|, 32);
    XorBound(c, FromLe(w), 32);
  }

  /** The register is never merged by common bytes. */
  lemma {:induction false} FeedInjective(c: nat, d: nat, data: seq<Byte>)
    requires c < LIMIT && d < LIMIT && FeedBytes(c, data) == FeedBytes(d, data)
    ensures c == d
    decreases |data|
  {
    if data != [] {
      var x := data[0];
      FeedByteBound(c, x);
      FeedByteBound(d, x);
      FeedInjective(FeedBits(c, x, BYTE_BITS), FeedBits(d, x, BYTE_BITS), data[1..]);
      FeedByteIsSteps(c, x);
      FeedByteIsSteps(d, x);
      StepsInjective(Xor(c, x), Xor(d, x), BYTE_BITS);
      XorCommutes(c, x);
      XorCommutes(d, x);
      XorCancels(x, c, d);
    }
  }

  lemma ChecksumBound(data: seq<Byte>)
    ensures Checksum(data) < LIMIT
  {
    FeedBytesBound(ALL_ONES, data);
    PolyTopBit();
    XorBound(FeedBytes(ALL_ONES, data), ALL_ONES, 32);
  }

  /** Two messages that differ only inside a window of at most four bytes have different checksums. */
  lemma BurstDetected(pre: seq<Byte>, w: seq<Byte>, v: seq<Byte>, post: seq<Byte>)
    requires |w| == |v| <= 4 && w != v
    ensures Checksum(pre + w + post) != Checksum(pre + v + post)
  {
    var c := FeedBytes(ALL_ONES, pre);
    FeedBytesBound(ALL_ONES, pre);
    FeedAppend(ALL_ONES, pre, w);
    FeedAppend(ALL_ONES, pre, v);
    FeedAppend(ALL_ONES, pre + w, post);
    FeedAppend(ALL_ONES, pre + v, post);
    FeedBytesBound(c, w);
    FeedBytesBound(c, v);
    WordsDiffer(c, w, v);
    var a, b := FeedBytes(ALL_ONES, pre + w + post), FeedBytes(ALL_ONES, pre + v + post);
    if Xor(a, ALL_ONES) == Xor(b, ALL_ONES) {
      XorCommutes(a, ALL_ONES);
      XorCommutes(b, ALL_ONES);
      XorCancels(ALL_ONES, a, b);
      FeedInjective(FeedBytes(c, w), FeedBytes(c, v), post);
    }
  }
}
