/**
 Power-of-two blocks at aligned offsets of one arena: sizes, XOR buddies, parents,
 and the nesting law that any two overlapping aligned blocks are nested.
 Alignment is stated on the bits of the offset, which keeps every proof linear;
 `AlignedIsMultiple` gives the reading as divisibility.
 */
module Dyadic {
  import opened Bits
  import opened Prelude

  const MIN_ALLOC: nat := 16
  const MIN_ALLOC_SHIFT: nat := 4
  const MAX_ORDER: nat := 19
  const ARENA_SIZE: nat := 8388608

  /** Bytes in a block of the given order: `MIN_ALLOC << order`. */
  function Size(order: nat): nat
  {
    Pow2(order + MIN_ALLOC_SHIFT)
  }

  lemma SizeValues()
    ensures Size(0) == MIN_ALLOC && Size(MAX_ORDER) == ARENA_SIZE
  {
    assert Pow2(4) == 16;
    assert Pow2(9) == 512;
    assert Pow2(14) == 16384;
    assert Pow2(19) == 524288;
    assert Pow2(23) == 8388608;
  }

  lemma {:induction false} SizeGrows(k: nat, m: nat)
    requires k < m
    ensures Size(k) < Size(m)
  {
    if k + 1 < m {
      SizeGrows(k, m - 1);
    }
  }

  /** The low `n` bits of `o` are clear. */
  predicate LowZeros(o: nat, n: nat)
  {
    n == 0 || (o % 2 == 0 && LowZeros(o / 2, n - 1))
  }

  /** Clear low bits and divisibility by the power of two are the same thing. */
  lemma {:induction false} AlignedIsMultiple(o: nat, n: nat)
    ensures LowZeros(o, n) <==> o % Pow2(n) == 0
  {
    if n > 0 {
      AlignedIsMultiple(o / 2, n - 1);
      DoubleMod(o, Pow2(n - 1));
    }
  }

  lemma DoubleMod(o: nat, p: nat)
    requires p > 0
    ensures o % (2 * p) == 2 * ((o / 2) % p) + o % 2
  {
    var q, r := (o / 2) / p, (o / 2) % p;
    var q', r' := o / (2 * p), o % (2 * p);
    assert o / 2 == p * q + r;
    assert o == (2 * p) * q' + r';
    Scaled(p, q' - q);
    assert p * (q' - q) == p * q' - p * q;
    assert (2 * p) * q' == 2 * (p * q');
  }

  // ---- bit facts about offsets ----

  lemma {:induction false} ZeroIsAligned(n: nat)
    ensures LowZeros(0, n)
  {
    if n > 0 {
      ZeroIsAligned(n - 1);
    }
  }

  lemma XorDouble(a: nat, b: nat)
    ensures Xor(2 * a, 2 * b) == 2 * Xor(a, b)
  {
    XorBits(a, 0, b, 0);
  }

  lemma DoubleFlips(h: nat, p: nat)
    requires Xor(h, p) == h + p && Xor(h + p, p) == h
    ensures Xor(2 * h, 2 * p) == 2 * h + 2 * p && Xor(2 * h + 2 * p, 2 * p) == 2 * h
  {
    XorDouble(h, p);
    XorDouble(h + p, p);
  }

  /** Flipping bit `n` adds it where it was clear and takes it away where it was set. */
  lemma {:induction false} XorFlips(o: nat, n: nat)
    requires LowZeros(o, n + 1)
    ensures Xor(o, Pow2(n)) == o + Pow2(n)
    ensures Xor(o + Pow2(n), Pow2(n)) == o
  {
    var h := o / 2;
    if n == 0 {
      XorZero(h);
      assert o == 2 * h;
      XorBits(h, 0, 0, 1);
      XorBits(h, 1, 0, 1);
    } else {
      XorFlips(h, n - 1);
      DoubleFlips(h, Pow2(n - 1));
      assert o == 2 * h && Pow2(n) == 2 * Pow2(n - 1);
    }
  }

  /** An offset aligned to `n` bits is either aligned to `n + 1`, or one step of `2^n` past such an offset. */
  lemma {:induction false} HalfOf(o: nat, n: nat)
    requires LowZeros(o, n)
    ensures LowZeros(o, n + 1) || (o >= Pow2(n) && LowZeros(o - Pow2(n), n + 1))
  {
    if n == 0 {
      assert LowZeros(o / 2, 0);
      assert o % 2 == 1 ==> LowZeros((o - 1) / 2, 0);
    } else {
      HalfOf(o / 2, n - 1);
      if o / 2 >= Pow2(n - 1) {
        assert (o - Pow2(n)) / 2 == o / 2 - Pow2(n - 1);
      }
    }
  }

  lemma {:induction false} HalvesAligned(o: nat, n: nat)
    requires LowZeros(o, n + 1)
    ensures LowZeros(o, n) && LowZeros(o + Pow2(n), n)
  {
    if n > 0 {
      HalvesAligned(o / 2, n - 1);
      assert (o + Pow2(n)) / 2 == o / 2 + Pow2(n - 1);
    }
  }

  /** Distinct offsets aligned to `n` bits are at least `2^n` apart. */
  lemma {:induction false} Apart(o1: nat, o2: nat, n: nat)
    requires LowZeros(o1, n) && LowZeros(o2, n)
    requires o1 < o2
    ensures o1 + Pow2(n) <= o2
  {
    if n > 0 {
      Apart(o1 / 2, o2 / 2, n - 1);
    }
  }

  lemma {:induction false} PowerIsAligned(n: nat, m: nat)
    requires n <= m
    ensures LowZeros(Pow2(m), n)
  {
    if n > 0 {
      PowerIsAligned(n - 1, m - 1);
      assert Pow2(m) == 2 * Pow2(m - 1);
      assert Pow2(m) / 2 == Pow2(m - 1);
    }
  }

  // ---- blocks ----

  datatype Block = Block(addr: int, order: nat) {
    ghost predicate Has(x: int) {
      addr <= x < addr + Size(order)
    }

    /** The two halves a block is cut into. */
    ghost function Lower(): Block
      requires order > 0
    {
      Block(addr, order - 1)
    }

    ghost function Upper(): Block
      requires order > 0
    {
      Block(addr + Size(order - 1), order - 1)
    }

    ghost predicate Within(outer: Block) {
      outer.addr <= addr && addr + Size(order) <= outer.addr + Size(outer.order)
    }
  }

  /** `b` lies inside the arena at `base`, at an offset that is a multiple of its size. */
  predicate Aligned(base: int, b: Block)
  {
    && b.order <= MAX_ORDER
    && base <= b.addr < base + ARENA_SIZE
    && LowZeros(b.addr - base, b.order + MIN_ALLOC_SHIFT)
  }

  /** The buddy address: flip the size bit of the arena offset. */
  function BuddyOf(addr: int, order: nat, base: int): int
    requires base <= addr
  {
    base + Xor(addr - base, Size(order))
  }

  ghost function Buddy(base: int, b: Block): Block
    requires base <= b.addr
  {
    Block(BuddyOf(b.addr, b.order, base), b.order)
  }

  /** The block a free coalesces into: the lower of the two buddies, one order up. */
  ghost function Parent(base: int, b: Block): Block
    requires base <= b.addr
  {
    var bud := BuddyOf(b.addr, b.order, base);
    Block(if bud < b.addr then bud else b.addr, b.order + 1)
  }

  lemma AlignedFits(base: int, b: Block)
    requires Aligned(base, b)
    ensures b.addr + Size(b.order) <= base + ARENA_SIZE
  {
    SizeValues();
    PowerIsAligned(b.order + MIN_ALLOC_SHIFT, MAX_ORDER + MIN_ALLOC_SHIFT);
    Apart(b.addr - base, ARENA_SIZE, b.order + MIN_ALLOC_SHIFT);
  }

  /** Cutting a block in two yields a pair of buddies whose parent it is. */
  lemma Halves(base: int, p: Block)
    requires Aligned(base, p) && p.order > 0
    ensures Aligned(base, p.Lower()) && Aligned(base, p.Upper())
    ensures Buddy(base, p.Lower()) == p.Upper() && Buddy(base, p.Upper()) == p.Lower()
    ensures Parent(base, p.Lower()) == p && Parent(base, p.Upper()) == p
  {
    HalvesFit(base, p);
    var n := p.order - 1 + MIN_ALLOC_SHIFT;
    XorFlips(p.addr - base, n);
    assert Size(p.order - 1) == Pow2(n);
  }

  lemma HalvesFit(base: int, p: Block)
    requires Aligned(base, p) && p.order > 0
    ensures Aligned(base, p.Lower()) && Aligned(base, p.Upper())
  {
    HalvesAligned(p.addr - base, p.order - 1 + MIN_ALLOC_SHIFT);
    AlignedFits(base, p);
  }

  /** The buddy is the other half of the parent; both are aligned in the same arena. */
  lemma BuddyAndParent(base: int, b: Block)
    requires Aligned(base, b) && b.order < MAX_ORDER
    ensures Aligned(base, Buddy(base, b)) && Aligned(base, Parent(base, b))
    ensures Buddy(base, Buddy(base, b)) == b
    ensures Parent(base, Buddy(base, b)) == Parent(base, b)
    ensures var p, s := Parent(base, b).addr, Size(b.order);
            (b.addr == p && Buddy(base, b).addr == p + s) || (b.addr == p + s && Buddy(base, b).addr == p)
  {
    var n := b.order + MIN_ALLOC_SHIFT;
    var o := b.addr - base;
    HalfOf(o, n);
    Halves(base, Block(if LowZeros(o, n + 1) then b.addr else b.addr - Pow2(n), b.order + 1));
  }

  lemma SameOrderOverlap(base: int, b: Block, c: Block, x: int)
    requires Aligned(base, b) && Aligned(base, c) && b.order == c.order
    requires b.Has(x) && c.Has(x)
    ensures b == c
  {
    if b.addr < c.addr {
      Apart(b.addr - base, c.addr - base, b.order + MIN_ALLOC_SHIFT);
    } else if c.addr < b.addr {
      Apart(c.addr - base, b.addr - base, b.order + MIN_ALLOC_SHIFT);
    }
  }

  /** Overlapping aligned blocks are nested, the one of smaller order inside. */
  lemma {:induction false} Nested(base: int, b: Block, c: Block, x: int)
    requires Aligned(base, b) && Aligned(base, c) && b.order <= c.order
    requires b.Has(x) && c.Has(x)
    ensures b.Within(c)
    ensures b.order < c.order ==> Parent(base, b).Within(c) && Buddy(base, b).Within(c)
    decreases c.order - b.order
  {
    if b.order == c.order {
      SameOrderOverlap(base, b, c, x);
    } else {
      BuddyAndParent(base, b);
      Nested(base, Parent(base, b), c, x);
    }
  }
}
