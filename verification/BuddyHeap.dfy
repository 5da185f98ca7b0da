/** The userspace buddy heap: arenas, per-order free lists and the node memory, updated in place. */
module BuddyHeap {
  import opened Bits
  import opened Dyadic
  import opened FreeLists
  import opened NodeMemory
  import Spec = BuddySpec
  import opened Prelude

  const MAX_ARENAS: nat := 64

  /** Some free block is at least of the given order. */
  ghost predicate Fits(s: Spec.State, order: nat)
  {
    exists b :: b in s.free && b.order >= order
  }

  /** No byte of a live block has been written between the two memories. */
  ghost predicate LiveKept(live: set<Block>, mem: Memory, mem': Memory)
  {
    forall x :: Spec.Covered(live, x) ==> SameByte(mem, mem', x)
  }

  /** All sixteen bytes of a node at `n` are inside the block. */
  predicate NodeWithin(b: Block, n: int)
  {
    b.addr <= n && n + NODE_SIZE <= b.addr + Size(b.order)
  }

  /** Every block has room for a node: the least block is as large as one. */
  lemma SizeAtLeast(k: nat)
    ensures Size(k) >= NODE_SIZE
  {
    SizeValues();
    if k > 0 {
      SizeGrows(0, k);
    }
  }

  /** From one order up there is room for a node between the halves. */
  lemma SizeGap(k: nat, m: nat)
    requires k < m
    ensures Size(k) + NODE_SIZE <= Size(m)
  {
    SizeAtLeast(k);
    assert Size(k + 1) == 2 * Size(k);
    if k + 1 < m {
      SizeGrows(k + 1, m);
    }
  }

  /** The node in a listed block is inside the block. */
  lemma ListedInside(lists: seq<seq<int>>, a: int) returns (b: Block)
    requires Listed(lists, a)
    ensures b in Blocks(lists) && b.addr == a && NodeWithin(b, a)
  {
    var k :| 0 <= k < |lists| && a in lists[k];
    b := Block(a, k);
    BlocksHas(lists, b);
    SizeAtLeast(k);
  }

  /** No byte of a block that is not free belongs to a listed node. */
  lemma NotListed(arenas: set<int>, lists: seq<seq<int>>, h: Block, x: int)
    requires Spec.Packed(arenas, Blocks(lists) + {h}) && h !in Blocks(lists) && h.Has(x)
    ensures !InListed(lists, x)
  {
    forall a | Listed(lists, a) ensures !InNode(a, x) {
      var b := ListedInside(lists, a);
      assert !b.Has(x);
    }
  }

  /** The live blocks share no byte with a node at `node` or with any node on the lists. */
  ghost predicate Clear(live: set<Block>, lists: seq<seq<int>>, node: int)
  {
    forall x :: Spec.Covered(live, x) ==> !InNode(node, x) && !InListed(lists, x)
  }

  lemma LiveClear(s: Spec.State, lists: seq<seq<int>>, live: set<Block>, b: Block, n: int)
    requires Spec.Valid(s) && Blocks(lists) <= s.free && live <= s.live
    requires b in s.free + s.live && b !in live && NodeWithin(b, n)
    ensures Clear(live, lists, n)
  {
    forall x | Spec.Covered(live, x) ensures !InNode(n, x) && !InListed(lists, x) {
      var c :| c in live && c.Has(x);
      Spec.PackedSubset(s.arenas, s.free + s.live, Blocks(lists) + {c});
      NotListed(s.arenas, lists, c, x);
      assert !b.Has(x);
    }
  }

  lemma BlocksApart(b: Block, c: Block)
    requires forall x :: !(b.Has(x) && c.Has(x))
    ensures b.addr + Size(b.order) <= c.addr || c.addr + Size(c.order) <= b.addr
  {
    Spec.BlockNonEmpty(b);
    Spec.BlockNonEmpty(c);
    assert !(b.Has(c.addr) && c.Has(c.addr));
    assert !(b.Has(b.addr) && c.Has(b.addr));
  }

  /** A node inside a block that is not on its list has its bytes to itself. */
  lemma TakenNotListed(s: Spec.State, b: Block, lists: seq<seq<int>>, n: int)
    requires Spec.Valid(s) && b in s.free + s.live && Blocks(lists) <= s.free - {b} && NodeWithin(b, n)
    ensures Roomy(lists, n) && n > 0
  {
    forall a | Listed(lists, a) ensures Far(a, n) {
      var c := ListedInside(lists, a);
      assert b in s.free + s.live && c in s.free + s.live && b != c;
      BlocksApart(b, c);
    }
    assert Spec.Placed(s.arenas, b);
  }

  lemma BlockInArena(s: Spec.State, b: Block, base: int)
    requires Spec.Valid(s) && b in s.free + s.live && base in s.arenas && base <= b.addr < base + ARENA_SIZE
    ensures Aligned(base, b)
  {
    var a := Spec.BaseOf(s.arenas, b);
    AlignedFits(a, b);
  }

  lemma NotInArena(s: Spec.State, b: Block)
    requires Spec.Valid(s) && forall a :: a in s.arenas ==> !(a <= b.addr < a + ARENA_SIZE)
    ensures b !in s.live
  {
    assert b in s.live ==> b in s.free + s.live;
  }

  // ---- layouts ----

  function Max(a: nat, b: nat): nat
  {
    if a < b then b else a
  }

  function NextPowerOfTwo(n: nat): (p: nat)
    ensures p >= 1 && p >= n
  {
    if n <= 1 then 1 else 2 * NextPowerOfTwo((n + 1) / 2)
  }

  /** Index of the highest set bit. */
  function Log2(p: nat): nat
  {
    if p <= 1 then 0 else 1 + Log2(p / 2)
  }

  predicate IsPowerOfTwo(n: nat)
  {
    n == 1 || (n > 1 && n % 2 == 0 && IsPowerOfTwo(n / 2))
  }

  /** The order that serves a layout, saturating at the top order. */
  function LayoutToOrder(size: nat, align: nat): nat
  {
    var needed := Max(Max(size, align), MIN_ALLOC);
    var log2 := Log2(NextPowerOfTwo(needed));
    var order := if log2 < MIN_ALLOC_SHIFT then 0 else log2 - MIN_ALLOC_SHIFT;
    if order < MAX_ORDER then order else MAX_ORDER
  }

  lemma {:induction false} RoundedUp(n: nat)
    requires n >= 1
    ensures var e := Log2(NextPowerOfTwo(n)); n <= Pow2(e) && (e > 0 ==> Pow2(e - 1) < n)
  {
    if n > 1 {
      RoundedUp((n + 1) / 2);
      assert NextPowerOfTwo(n) / 2 == NextPowerOfTwo((n + 1) / 2);
    }
  }

  lemma PowAtMost(k: nat, m: nat)
    requires Pow2(k) < Pow2(m)
    ensures k < m
  {
    if m <= k {
      PowMono(m, k);
    }
  }

  lemma PowOrder(k: nat, m: nat)
    requires Pow2(k) <= Pow2(m)
    ensures k <= m
  {
    if m < k {
      PowMono(m + 1, k);
    }
  }

  /** Without the cap, the order is the least whose blocks hold `needed` bytes. */
  lemma UncappedOrder(needed: nat)
    requires needed >= MIN_ALLOC
    ensures var e: nat := Log2(NextPowerOfTwo(needed));
            e >= MIN_ALLOC_SHIFT && needed <= Pow2(e) && (e > MIN_ALLOC_SHIFT ==> Pow2(e - 1) < needed)
  {
    var e := Log2(NextPowerOfTwo(needed));
    RoundedUp(needed);
    SizeValues();
    PowOrder(MIN_ALLOC_SHIFT, e);
  }

  lemma ExponentInRange(needed: nat, e: nat)
    requires MIN_ALLOC_SHIFT <= e && needed <= ARENA_SIZE && (e > MIN_ALLOC_SHIFT ==> Pow2(e - 1) < needed)
    ensures e - MIN_ALLOC_SHIFT <= MAX_ORDER
  {
    SizeValues();
    if e > MIN_ALLOC_SHIFT {
      PowAtMost(e - 1, MAX_ORDER + MIN_ALLOC_SHIFT);
    }
  }

  /** The exponent of the least power of two that holds the layout. */
  lemma LayoutExponent(size: nat, align: nat) returns (e: nat)
    requires Max(size, align) <= ARENA_SIZE
    ensures MIN_ALLOC_SHIFT <= e <= MAX_ORDER + MIN_ALLOC_SHIFT && LayoutToOrder(size, align) == e - MIN_ALLOC_SHIFT
    ensures var needed := Max(Max(size, align), MIN_ALLOC);
            needed <= Pow2(e) && (e > MIN_ALLOC_SHIFT ==> Pow2(e - 1) < needed)
  {
    var needed := Max(Max(size, align), MIN_ALLOC);
    e := Log2(NextPowerOfTwo(needed));
    UncappedOrder(needed);
    ExponentInRange(needed, e);
  }

  lemma SmallLayout(size: nat, align: nat)
    requires Max(size, align) <= ARENA_SIZE
    ensures var k := LayoutToOrder(size, align);
            k <= MAX_ORDER && size <= Size(k) && align <= Size(k) && (k > 0 ==> Size(k - 1) < Max(size, align))
  {
    var e := LayoutExponent(size, align);
    if e > MIN_ALLOC_SHIFT {
      AboveLeast(e - 1, Max(Max(size, align), MIN_ALLOC), Max(size, align));
    }
  }

  lemma AboveLeast(k: nat, needed: nat, n: nat)
    requires k >= MIN_ALLOC_SHIFT && Pow2(k) < needed == Max(n, MIN_ALLOC)
    ensures Pow2(k) < n
  {
    SizeValues();
    PowMono(MIN_ALLOC_SHIFT, k);
  }

  lemma LargeLayout(size: nat, align: nat)
    requires Max(size, align) > ARENA_SIZE
    ensures LayoutToOrder(size, align) == MAX_ORDER
  {
    var needed := Max(size, align);
    UncappedOrder(needed);
    SizeValues();
    PowAtMost(MAX_ORDER + MIN_ALLOC_SHIFT, Log2(NextPowerOfTwo(needed)));
  }

  /** Up to the arena size the order is the least whose blocks hold both size and alignment; past it, the top order. */
  lemma LayoutOrderIsLeast(size: nat, align: nat)
    ensures LayoutToOrder(size, align) <= MAX_ORDER
    ensures Max(size, align) <= ARENA_SIZE ==>
              var k := LayoutToOrder(size, align);
              size <= Size(k) && align <= Size(k) && (k > 0 ==> Size(k - 1) < Max(size, align))
    ensures Max(size, align) > ARENA_SIZE ==> LayoutToOrder(size, align) == MAX_ORDER
  {
    if Max(size, align) <= ARENA_SIZE {
      SmallLayout(size, align);
    } else {
      LargeLayout(size, align);
    }
  }

  /** Growing in place is sound exactly while the new layout still fits an arena: the saturated order hides larger requests. */
  lemma InPlaceReallocFits(size: nat, newSize: nat, align: nat)
    requires Max(size, align) <= ARENA_SIZE && LayoutToOrder(size, align) == LayoutToOrder(newSize, align)
    ensures newSize <= Size(LayoutToOrder(size, align)) <==> newSize <= ARENA_SIZE
  {
    LayoutOrderIsLeast(size, align);
    LayoutOrderIsLeast(newSize, align);
    SizeValues();
  }

  lemma InPlaceReallocCanOverrun()
    ensures LayoutToOrder(ARENA_SIZE, 1) == LayoutToOrder(ARENA_SIZE + 1, 1) && ARENA_SIZE + 1 > Size(LayoutToOrder(ARENA_SIZE, 1))
  {
    LayoutOrderIsLeast(ARENA_SIZE, 1);
    LayoutOrderIsLeast(ARENA_SIZE + 1, 1);
    SizeValues();
    if LayoutToOrder(ARENA_SIZE, 1) < MAX_ORDER {
      SizeGrows(LayoutToOrder(ARENA_SIZE, 1), MAX_ORDER);
    }
  }

  lemma {:induction false} PowerOfTwoDivides(o: nat, n: nat, align: nat)
    requires LowZeros(o, n) && IsPowerOfTwo(align) && align <= Pow2(n)
    ensures o % align == 0
  {
    if align > 1 {
      PowerOfTwoDivides(o / 2, n - 1, align / 2);
      DoubleMod(o, align / 2);
    }
  }

  /** A block that covers the alignment starts at a multiple of it, counted from the arena base. */
  ghost predicate AlignedInArena(bases: set<int>, ptr: int, align: nat)
  {
    exists base :: base in bases && base <= ptr < base + ARENA_SIZE && align > 0 && (ptr - base) % align == 0
  }

  lemma LayoutAligned(s: Spec.State, b: Block, align: nat)
    requires Spec.Valid(s) && b in s.live && IsPowerOfTwo(align) && align <= Size(b.order)
    ensures AlignedInArena(s.arenas, b.addr, align)
  {
    assert b in s.free + s.live;
    var base := Spec.BaseOf(s.arenas, b);
    PowerOfTwoDivides(b.addr - base, b.order + MIN_ALLOC_SHIFT, align);
  }

  class Heap {
    const freeLists: array<int>
    const arenas: array<int>
    var arenaCount: nat
    var mem: Memory
    ghost var lists: seq<seq<int>>
    ghost var live: set<Block>

    ghost predicate RepOk()
      reads this, freeLists, arenas
    {
      && freeLists != arenas
      && freeLists.Length == MAX_ORDER + 1
      && arenas.Length == MAX_ARENAS
      && arenaCount <= MAX_ARENAS
      && Laid(mem, freeLists[..], lists)
    }

    ghost function Bases(): set<int>
      reads this, arenas
      requires arenaCount <= arenas.Length
    {
      set i | 0 <= i < arenaCount :: arenas[i]
    }

    ghost function State(): Spec.State
      reads this, arenas
      requires arenaCount <= arenas.Length
    {
      Spec.State(Bases(), Blocks(lists), live)
    }

    ghost predicate Valid()
      reads this, freeLists, arenas
    {
      RepOk() && Spec.Valid(State())
    }

    constructor ()
      ensures Valid() && fresh(freeLists) && fresh(arenas)
      ensures State() == Spec.State({}, {}, {})
    {
      freeLists := new int[MAX_ORDER + 1](_ => 0);
      arenas := new int[MAX_ARENAS](_ => 0);
      arenaCount := 0;
      mem := map[];
      lists := seq(MAX_ORDER + 1, _ => []);
      live := {};
      new;
      assert Blocks(lists) == {};
    }

    // ---- list primitives ----

    method ListPush(order: nat, node: int)
      requires RepOk() && order <= MAX_ORDER && node != 0 && Roomy(lists, node)
      modifies this`mem, this`lists, freeLists
      ensures RepOk() && lists == old(lists)[order := [node] + old(lists)[order]]
      ensures mem == PushBytes(old(mem), old(freeLists[order]), node)
      ensures Blocks(lists) == Blocks(old(lists)) + {Block(node, order)} && OnlyNodes(old(lists), node, old(mem), mem)
    {
      var oldHead := freeLists[order];
      PushLaid(mem, freeLists[..], lists, order, node);
      PushBlocks(lists, order, node);
      mem := SetNext(mem, node, oldHead);
      mem := SetPrev(mem, node, 0);
      if oldHead != 0 {
        mem := SetPrev(mem, oldHead, node);
      }
      freeLists[order] := node;
      lists := lists[order := [node] + lists[order]];
      assert freeLists[..] == old(freeLists[..])[order := node];
    }

    method ListPop(order: nat) returns (r: Option<int>)
      requires RepOk() && order <= MAX_ORDER
      modifies this`mem, this`lists, freeLists
      ensures RepOk()
      ensures r.None? <==> old(lists)[order] == []
      ensures r.None? ==> lists == old(lists) && mem == old(mem)
      ensures r.Some? ==> r.value == old(lists)[order][0] && mem == PopBytes(old(mem), r.value)
      ensures r.Some? ==> lists == old(lists)[order := old(lists)[order][1..]]
      ensures r.Some? ==> Blocks(lists) == Blocks(old(lists)) - {Block(r.value, order)} && WithinNodes(old(lists), old(mem), mem)
    {
      var head := freeLists[order];
      HeadIsNull(mem, freeLists[..], lists, order);
      if head == 0 {
        return None;
      }
      PopLaid(mem, freeLists[..], lists, order);
      var next := LoadWord(mem, head);
      freeLists[order] := next;
      if next != 0 {
        mem := SetPrev(mem, next, 0);
      }
      lists := lists[order := lists[order][1..]];
      assert freeLists[..] == old(freeLists[..])[order := next];
      r := Some(head);
    }

    method ListRemove(order: nat, node: int, ghost i: nat)
      requires RepOk() && order <= MAX_ORDER && i < |lists[order]| && lists[order][i] == node
      modifies this`mem, this`lists, freeLists
      ensures RepOk() && mem == UnlinkBytes(old(mem), node)
      ensures lists == old(lists)[order := old(lists)[order][..i] + old(lists)[order][i + 1..]]
      ensures Blocks(lists) == Blocks(old(lists)) - {Block(node, order)} && WithinNodes(old(lists), old(mem), mem)
    {
      UnlinkLaid(mem, freeLists[..], lists, order, i);
      PrevIsNull(mem, freeLists[..], lists, order, i);
      var prev := LoadWord(mem, node + WORD);
      var next := LoadWord(mem, node);
      if prev != 0 {
        mem := SetNext(mem, prev, next);
      } else {
        freeLists[order] := next;
      }
      if next != 0 {
        mem := SetPrev(mem, next, prev);
      }
      mem := SetNext(mem, node, 0);
      mem := SetPrev(mem, node, 0);
      lists := lists[order := lists[order][..i] + lists[order][i + 1..]];
      assert freeLists[..] == old(freeLists[..])[order := if i == 0 then At(old(lists)[order], 1) else old(freeLists[order])];
    }

    /** Walk one list looking for an address; `at` is where it was found. */
    method IsFree(order: nat, addr: int) returns (r: bool, ghost at: nat)
      requires RepOk() && order <= MAX_ORDER && addr != 0
      ensures r <==> addr in lists[order]
      ensures r ==> at < |lists[order]| && lists[order][at] == addr
    {
      HeadIsNull(mem, freeLists[..], lists, order);
      var cur := freeLists[order];
      at := 0;
      while cur != 0
        invariant at <= |lists[order]| && cur == At(lists[order], at)
        invariant addr !in lists[order][..at]
        decreases |lists[order]| - at
      {
        if cur == addr {
          return true, at;
        }
        NodeRead(mem, freeLists[..], lists, order, at);
        cur := LoadWord(mem, cur);
        at := at + 1;
      }
      r := false;
    }

    method ArenaOf(addr: int) returns (r: Option<int>)
      requires arenaCount <= arenas.Length
      ensures r.Some? ==> r.value in Bases() && r.value <= addr < r.value + ARENA_SIZE
      ensures r.None? ==> forall a :: a in Bases() ==> !(a <= addr < a + ARENA_SIZE)
    {
      for i := 0 to arenaCount
        invariant forall j :: 0 <= j < i ==> !(arenas[j] <= addr < arenas[j] + ARENA_SIZE)
      {
        var base := arenas[i];
        if addr >= base && addr < base + ARENA_SIZE {
          return Some(base);
        }
      }
      r := None;
    }

    // ---- arenas, allocation, release ----

    /** Clear a node that is on no list, then push it. */
    method PushFresh(order: nat, node: int)
      requires RepOk() && order <= MAX_ORDER && node != 0 && Roomy(lists, node)
      modifies this`mem, this`lists, freeLists
      ensures forall a :: Listed(lists, a) <==> a == node || Listed(old(lists), a)
      ensures RepOk() && lists == old(lists)[order := [node] + old(lists)[order]]
      ensures Blocks(lists) == Blocks(old(lists)) + {Block(node, order)} && OnlyNodes(old(lists), node, old(mem), mem)
    {
      ListedAfterPush(lists, order, node);
      NodeStored(mem, node, 0, 0);
      RoomyBytes(lists, node);
      LaidKept(mem, StoreNode(mem, node, 0, 0), freeLists[..], lists);
      mem := SetNext(mem, node, 0);
      mem := SetPrev(mem, node, 0);
      ListPush(order, node);
    }

    /** The first non-empty list from `order` up. */
    method FindOrder(order: nat) returns (r: Option<nat>)
      requires RepOk() && order <= MAX_ORDER
      ensures r.None? ==> !Fits(State(), order)
      ensures r.Some? ==> order <= r.value <= MAX_ORDER && lists[r.value] != []
      ensures r.Some? ==> forall b :: b in State().free && b.order >= order ==> r.value <= b.order
    {
      for k := order to MAX_ORDER + 1
        invariant forall j :: order <= j < k ==> lists[j] == []
      {
        HeadIsNull(mem, freeLists[..], lists, k);
        if freeLists[k] != 0 {
          forall b | b in State().free && b.order >= order ensures k <= b.order { BlocksHas(lists, b); }
          return Some(k);
        }
      }
      forall b | b in State().free ensures b.order < order { BlocksHas(lists, b); }
      r := None;
    }

    method AddArena(base: int)
      requires Valid() && base !in Bases() && Spec.Apart(Bases() + {base})
      modifies this`arenaCount, this`mem, this`lists, freeLists, arenas
      ensures Valid() && live == old(live) && LiveKept(live, old(mem), mem)
      ensures old(arenaCount) >= MAX_ARENAS ==> State() == old(State()) && mem == old(mem) && lists == old(lists) && arenaCount == old(arenaCount)
      ensures old(arenaCount) < MAX_ARENAS ==> State() == Spec.MapArena(old(State()), base) && arenaCount == old(arenaCount) + 1
    {
      if arenaCount >= MAX_ARENAS {
        return;
      }
      ghost var s, top := State(), Block(base, MAX_ORDER);
      ghost var t := Spec.MapArena(s, base);
      Spec.GrowValid(s, base);
      Spec.GrowTiles(s.arenas, s.free + s.live, base);
      arenas[arenaCount] := base;
      arenaCount := arenaCount + 1;
      assert Bases() == s.arenas + {base} by {
        assert forall i :: 0 <= i < arenaCount - 1 ==> arenas[i] == old(arenas[i]);
        assert arenas[arenaCount - 1] == base;
      }
      SizeAtLeast(MAX_ORDER);
      TakenNotListed(t, top, lists, base);
      LiveClear(t, lists, live, top, base);
      PushFresh(MAX_ORDER, base);
      assert State() == t;
    }

    /**
     Allocate a block of the given order. `mapped` is what the kernel would answer to a request
     for a new arena; it is looked at only when no list can serve the request. `from` is the block
     that was taken off its list and cut down.
     */
    method BuddyAlloc(order: nat, mapped: Option<int>) returns (r: Option<int>, ghost from: Block)
      requires Valid() && order <= MAX_ORDER
      requires mapped.Some? ==> mapped.value !in Bases() && Spec.Apart(Bases() + {mapped.value})
      modifies this, freeLists, arenas
      ensures Valid() && LiveKept(old(live), old(mem), mem)
      ensures r.None? <==> !Fits(old(State()), order) && (mapped.None? || old(arenaCount) >= MAX_ARENAS)
      ensures r.None? ==> State() == old(State()) && mem == old(mem)
      ensures r.Some? ==>
                var s := if Fits(old(State()), order) then old(State()) else Spec.MapArena(old(State()), mapped.value);
                && from in s.free && from.addr == r.value && order <= from.order
                && (forall b :: b in s.free && b.order >= order ==> from.order <= b.order)
                && State() == Spec.AllocFrom(s, from, order)
    {
      var found := FindOrder(order);
      if found.None? {
        if mapped.None? {
          return None, Block(0, 0);
        }
        AddArena(mapped.value);
        assert Fits(old(State()), order) == false;
        found := FindOrder(order);
        if found.None? {
          return None, Block(0, 0);
        }
      }
      ghost var s := State();
      r, from := CutFrom(found.value, order);
    }

    /** Pop a block of order `found` and push its upper halves until the order is right. */
    method CutFrom(found: nat, order: nat) returns (r: Option<int>, ghost from: Block)
      requires Valid() && order <= found <= MAX_ORDER && lists[found] != []
      modifies this`mem, this`lists, this`live, freeLists
      ensures Valid() && LiveKept(old(live), old(mem), mem)
      ensures from in old(State()).free && from.order == found && r == Some(from.addr)
      ensures State() == Spec.AllocFrom(old(State()), from, order)
    {
      ghost var s := State();
      from := Block(lists[found][0], found);
      BlocksHas(lists, from);
      Spec.AllocValid(s, from, order);
      SizeAtLeast(found);
      LiveClear(s, lists, live, from, from.addr);
      var popped := ListPop(found);
      var block := popped.value;
      forall k: nat | k < found ensures Roomy(lists, block + Size(k)) && block + Size(k) > 0 && Clear(live, lists, block + Size(k)) {
        SizeGap(k, found);
        TakenNotListed(s, from, lists, block + Size(k));
        LiveClear(s, lists, live, from, block + Size(k));
      }
      PushHalves(block, found, order);
      live := live + {Block(block, order)};
      assert State() == Spec.AllocFrom(s, from, order);
      r := Some(block);
    }

    method PushHalves(block: int, found: nat, order: nat)
      requires RepOk() && order <= found <= MAX_ORDER
      requires forall k: nat :: k < found ==> Roomy(lists, block + Size(k)) && block + Size(k) > 0 && Clear(live, lists, block + Size(k))
      modifies this`mem, this`lists, freeLists
      ensures RepOk() && LiveKept(live, old(mem), mem)
      ensures Blocks(lists) == Spec.CutDown(Blocks(old(lists)), Block(block, found), order)
    {
      var curOrder := found;
      while curOrder > order
        invariant order <= curOrder <= found && RepOk()
        invariant forall k: nat :: k < curOrder ==> Roomy(lists, block + Size(k)) && Clear(live, lists, block + Size(k))
        invariant Spec.CutDown(Blocks(lists), Block(block, curOrder), order) == Spec.CutDown(Blocks(old(lists)), Block(block, found), order)
        invariant LiveKept(live, old(mem), mem)
      {
        curOrder := curOrder - 1;
        var buddyAddr := block + Size(curOrder);
        PushFresh(curOrder, buddyAddr);
        forall k: nat | k < curOrder ensures Far(buddyAddr, block + Size(k)) { SizeGap(k, curOrder); }
      }
    }

    /** Release a live block: merge with its buddy while that is free, then list the result. */
    method BuddyFree(ptr: int, order: nat)
      requires Valid()
      requires (exists a :: a in Bases() && a <= ptr < a + ARENA_SIZE) ==> Block(ptr, order) in live
      modifies this`mem, this`lists, this`live, freeLists
      ensures Valid() && LiveKept(live, old(mem), mem)
      ensures Block(ptr, order) in old(live) ==>
                Spec.Placed(old(Bases()), Block(ptr, order)) && State() == Spec.Release(old(State()), Block(ptr, order))
      ensures Block(ptr, order) !in old(live) ==> State() == old(State()) && mem == old(mem)
    {
      ghost var s, b := State(), Block(ptr, order);
      var found := ArenaOf(ptr);
      if found.None? {
        assert s.arenas == Bases();
        NotInArena(s, b);
        return;
      }
      var base := found.value;
      assert b in s.free + s.live;
      BlockInArena(s, b, base);
      Spec.BaseIsUnique(s.arenas, b, base);
      Spec.ReleaseValid(s, b);
      live := live - {b};
      SizeAtLeast(order);
      TakenNotListed(s, b, lists, ptr);
      LiveClear(s, lists, live, b, ptr);
      MergeAndPush(ptr, order, base);
      assert State() == Spec.Release(s, b);
    }

    method MergeAndPush(ptr: int, order: nat, base: int)
      requires RepOk() && order <= MAX_ORDER && base > 0 && Aligned(base, Block(ptr, order))
      requires Roomy(lists, ptr) && Clear(live, lists, ptr)
      modifies this`mem, this`lists, freeLists
      ensures RepOk() && LiveKept(live, old(mem), mem)
      ensures Blocks(lists) == Spec.Coalesce(base, Blocks(old(lists)), Block(ptr, order))
    {
      var addr := ptr;
      var curOrder := order;
      while curOrder < MAX_ORDER
        invariant curOrder <= MAX_ORDER && RepOk() && Aligned(base, Block(addr, curOrder))
        invariant Roomy(lists, addr) && Clear(live, lists, addr)
        invariant Spec.Coalesce(base, Blocks(lists), Block(addr, curOrder)) == Spec.Coalesce(base, Blocks(old(lists)), Block(ptr, order))
        invariant LiveKept(live, old(mem), mem)
      {
        ghost var free, h := Blocks(lists), Block(addr, curOrder);
        var merged, lower := TakeBuddy(addr, curOrder, base);
        if !merged {
          break;
        }
        assert Spec.Coalesce(base, free, h) == Spec.Coalesce(base, Blocks(lists), Parent(base, h));
        addr := lower;
        curOrder := curOrder + 1;
      }
      PushFresh(curOrder, addr);
    }

    /** One turn of the merge loop: if the buddy is on its list, unlink it and step to the parent. */
    method TakeBuddy(addr: int, curOrder: nat, base: int) returns (merged: bool, lower: int)
      requires RepOk() && curOrder < MAX_ORDER && base > 0 && Aligned(base, Block(addr, curOrder))
      requires Roomy(lists, addr) && Clear(live, lists, addr)
      modifies this`mem, this`lists, freeLists
      ensures RepOk() && LiveKept(live, old(mem), mem)
      ensures merged <==> Buddy(base, Block(addr, curOrder)) in Blocks(old(lists))
      ensures !merged ==> lists == old(lists) && mem == old(mem)
      ensures merged ==> Block(lower, curOrder + 1) == Parent(base, Block(addr, curOrder)) && Aligned(base, Block(lower, curOrder + 1))
      ensures merged ==> Blocks(lists) == Blocks(old(lists)) - {Buddy(base, Block(addr, curOrder))}
      ensures merged ==> Roomy(lists, lower) && Clear(live, lists, lower)
    {
      var buddyAddr := BuddyOf(addr, curOrder, base);
      BuddyAndParent(base, Block(addr, curOrder));
      if buddyAddr < base || buddyAddr >= base + ARENA_SIZE {
        return false, addr;
      }
      var free, at := IsFree(curOrder, buddyAddr);
      BlocksHas(lists, Block(buddyAddr, curOrder));
      if !free {
        return false, addr;
      }
      assert Listed(lists, buddyAddr);
      UnlinkedRoomy(mem, freeLists[..], lists, curOrder, at);
      ListRemove(curOrder, buddyAddr, at);
      lower := if buddyAddr < addr then buddyAddr else addr;
      merged := true;
    }

    // ---- the allocator interface ----

    /** `alloc`: 0 is the null pointer, 1 the dangling pointer handed out for zero-sized requests. */
    method Alloc(size: nat, align: nat, mapped: Option<int>) returns (ptr: int)
      requires Valid() && IsPowerOfTwo(align)
      requires mapped.Some? ==> mapped.value !in Bases() && Spec.Apart(Bases() + {mapped.value})
      modifies this, freeLists, arenas
      ensures Valid() && LiveKept(old(live), old(mem), mem)
      ensures size == 0 ==> ptr == 1
      ensures size == 0 || ptr == 0 ==> State() == old(State()) && mem == old(mem)
      ensures size > 0 && (Max(size, align) > ARENA_SIZE || (mapped.None? && !Fits(old(State()), LayoutToOrder(size, align)))) ==> ptr == 0
      ensures size > 0 && Max(size, align) <= ARENA_SIZE && Fits(old(State()), LayoutToOrder(size, align)) ==> ptr != 0
      ensures size > 0 && Max(size, align) <= ARENA_SIZE && !Fits(old(State()), LayoutToOrder(size, align)) && mapped.Some? ==>
                (ptr != 0 <==> old(arenaCount) < MAX_ARENAS)
      ensures size > 0 && ptr != 0 ==>
                && Block(ptr, LayoutToOrder(size, align)) !in old(live)
                && live == old(live) + {Block(ptr, LayoutToOrder(size, align))}
                && Bases() == (if Fits(old(State()), LayoutToOrder(size, align)) then old(Bases()) else old(Bases()) + {mapped.value})
                && AlignedInArena(Bases(), ptr, align)
    {
      if size == 0 {
        return 1;
      }
      if Max(size, align) > ARENA_SIZE {
        return 0;
      }
      var order := LayoutToOrder(size, align);
      LayoutOrderIsLeast(size, align);
      var r;
      ghost var from;
      r, from := BuddyAlloc(order, mapped);
      if r.None? {
        return 0;
      }
      ptr := r.value;
      ghost var s := if Fits(old(State()), order) then old(State()) else Spec.MapArena(old(State()), mapped.value);
      if !Fits(old(State()), order) {
        Spec.GrowValid(old(State()), mapped.value);
      }
      Spec.AllocValid(s, from, order);
      LayoutAligned(State(), Block(ptr, order), align);
    }

    method Dealloc(ptr: int, size: nat, align: nat)
      requires Valid()
      requires ptr != 0 && size > 0 && (exists a :: a in Bases() && a <= ptr < a + ARENA_SIZE) ==> Block(ptr, LayoutToOrder(size, align)) in live
      modifies this`mem, this`lists, this`live, freeLists
      ensures Valid() && LiveKept(live, old(mem), mem)
      ensures Bases() == old(Bases())
      ensures ptr != 0 && size > 0 ==> live == old(live) - {Block(ptr, LayoutToOrder(size, align))}
      ensures ptr == 0 || size == 0 ==> State() == old(State()) && mem == old(mem)
    {
      if ptr == 0 || size == 0 {
        return;
      }
      var order := LayoutToOrder(size, align);
      BuddyFree(ptr, order);
    }

    /** A client writing any byte of a block it owns disturbs no list. */
    method ClientWrite(x: int, value: int)
      requires Valid() && Spec.Covered(live, x)
      modifies this`mem
      ensures Valid() && State() == old(State()) && mem == old(mem)[x := ClientByte(value)]
    {
      ghost var c :| c in live && c.Has(x);
      ghost var s := State();
      Spec.PackedSubset(s.arenas, s.free + s.live, Blocks(lists) + {c});
      NotListed(s.arenas, lists, c, x);
      LaidKept(mem, mem[x := ClientByte(value)], freeLists[..], lists);
      mem := mem[x := ClientByte(value)];
      assert State() == s;
    }

    /** Allocating and releasing again gives back the same free set, apart from an arena mapped meanwhile. */
    method Transient(size: nat, align: nat, mapped: Option<int>)
      requires Valid() && IsPowerOfTwo(align)
      requires mapped.Some? ==> mapped.value !in Bases() && Spec.Apart(Bases() + {mapped.value})
      modifies this, freeLists, arenas
      ensures Valid() && LiveKept(old(live), old(mem), mem)
      ensures State() == old(State()) || (mapped.Some? && State() == Spec.MapArena(old(State()), mapped.value))
    {
      var ptr := Alloc(size, align, mapped);
      if size > 0 && ptr != 0 {
        ghost var order := LayoutToOrder(size, align);
        ghost var s := if Fits(old(State()), order) then old(State()) else Spec.MapArena(old(State()), mapped.value);
        if !Fits(old(State()), order) {
          Spec.GrowValid(old(State()), mapped.value);
        }
        Dealloc(ptr, size, align);
        assert live == old(live);
        Spec.FreeSetDetermined(State(), s);
      } else {
        Dealloc(ptr, size, align);
      }
    }
  }
}
