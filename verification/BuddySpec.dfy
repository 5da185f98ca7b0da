/**
 The buddy heap as sets of blocks. A state is valid when its free and live blocks tile
 every arena and no two free buddies are left uncoalesced. The central result is that
 the free set is then determined by the arenas and the live blocks alone.
 */
module BuddySpec {
  import opened Dyadic

  datatype State = State(arenas: set<int>, free: set<Block>, live: set<Block>)

  /** The arenas are pairwise disjoint address ranges above the null address. */
  ghost predicate Apart(arenas: set<int>)
  {
    && (forall a :: a in arenas ==> a > 0)
    && (forall a, b :: a in arenas && b in arenas && a < b ==> a + ARENA_SIZE <= b)
  }

  ghost predicate Placed(arenas: set<int>, b: Block)
  {
    exists base :: base in arenas && Aligned(base, b)
  }

  ghost predicate Covered(blocks: set<Block>, x: int)
  {
    exists b :: b in blocks && b.Has(x)
  }

  /** Aligned blocks that do not overlap. */
  ghost predicate Packed(arenas: set<int>, blocks: set<Block>)
  {
    && (forall b :: b in blocks ==> Placed(arenas, b))
    && (forall b, c, x :: b in blocks && c in blocks && b.Has(x) && c.Has(x) ==> b == c)
  }

  /** The blocks are packed and leave no byte of an arena uncovered. */
  ghost predicate Tiles(arenas: set<int>, blocks: set<Block>)
  {
    && Packed(arenas, blocks)
    && (forall base, x :: base in arenas && base <= x < base + ARENA_SIZE ==> Covered(blocks, x))
  }

  /** No block below the top order is free together with its buddy. */
  ghost predicate Coalesced(arenas: set<int>, free: set<Block>)
  {
    forall base, b :: base in arenas && b in free && Aligned(base, b) && b.order < MAX_ORDER ==> Buddy(base, b) !in free
  }

  ghost predicate Valid(s: State)
  {
    && Apart(s.arenas)
    && s.free !! s.live
    && Tiles(s.arenas, s.free + s.live)
    && Coalesced(s.arenas, s.free)
  }

  ghost function TopBlocks(arenas: set<int>): set<Block>
  {
    set a | a in arenas :: Block(a, MAX_ORDER)
  }

  // ---- uniqueness of the coalesced free set ----

  lemma BlockNonEmpty(b: Block)
    ensures b.Has(b.addr) && b.Has(b.addr + Size(b.order) - 1)
  {
  }

  /** A byte of an aligned block fixes the arena. */
  lemma SameArena(arenas: set<int>, base: int, b: Block, c: Block, x: int)
    requires Apart(arenas) && base in arenas && Aligned(base, b) && b.Has(x)
    requires Placed(arenas, c) && c.Has(x)
    ensures Aligned(base, c)
  {
    var base' :| base' in arenas && Aligned(base', c);
    AlignedFits(base, b);
    AlignedFits(base', c);
  }

  /** A block strictly inside `c` cannot belong to a coalesced set that covers all of `c`: some byte is missing. */
  lemma {:induction false} Gap(arenas: set<int>, free: set<Block>, base: int, c: Block, d: Block) returns (x: int)
    requires Apart(arenas) && Packed(arenas, free) && Coalesced(arenas, free)
    requires base in arenas && Aligned(base, c) && Aligned(base, d)
    requires d in free && d.Within(c) && d.order < c.order
    ensures c.Has(x) && !Covered(free, x)
    decreases d.order
  {
    BuddyAndParent(base, d);
    var bud := Buddy(base, d);
    x := bud.addr;
    BlockNonEmpty(d);
    BlockNonEmpty(bud);
    Nested(base, d, c, d.addr);
    if Covered(free, x) {
      var e :| e in free && e.Has(x);
      SameArena(arenas, base, bud, e, x);
      if e.order >= d.order {
        Nested(base, bud, e, x);
        if e.order == d.order {
          SameOrderOverlap(base, bud, e, x);
        } else {
          assert e.Has(d.addr);
        }
        assert false;
      }
      Nested(base, e, bud, x);
      x := Gap(arenas, free, base, c, e);
    }
  }

  lemma CoveredAlike(arenas: set<int>, f: set<Block>, g: set<Block>, b: Block)
    requires Apart(arenas) && Packed(arenas, f) && Packed(arenas, g) && Coalesced(arenas, f) && Coalesced(arenas, g)
    requires forall x :: Covered(f, x) <==> Covered(g, x)
    requires b in f
    ensures b in g
  {
    BlockNonEmpty(b);
    assert Covered(f, b.addr);
    var c :| c in g && c.Has(b.addr);
    var base :| base in arenas && Aligned(base, b);
    SameArena(arenas, base, b, c, b.addr);
    if b.order < c.order {
      Nested(base, b, c, b.addr);
      var x := Gap(arenas, f, base, c, b);
      assert Covered(g, x);
    } else if c.order < b.order {
      Nested(base, c, b, b.addr);
      var x := Gap(arenas, g, base, b, c);
      assert Covered(f, x);
    } else {
      SameOrderOverlap(base, b, c, b.addr);
    }
  }

  /** A set of bytes has at most one packing into maximally coalesced blocks. */
  lemma CoalescedFormIsUnique(arenas: set<int>, f: set<Block>, g: set<Block>)
    requires Apart(arenas) && Packed(arenas, f) && Packed(arenas, g) && Coalesced(arenas, f) && Coalesced(arenas, g)
    requires forall x :: Covered(f, x) <==> Covered(g, x)
    ensures f == g
  {
    forall b | b in f ensures b in g { CoveredAlike(arenas, f, g, b); }
    forall b | b in g ensures b in f { CoveredAlike(arenas, g, f, b); }
  }

  /** In a valid state every arena byte is free or live, and not both; nothing else is covered. */
  lemma FreeOrLive(s: State, x: int)
    requires Valid(s)
    ensures Covered(s.free, x) <==> (exists base :: base in s.arenas && base <= x < base + ARENA_SIZE) && !Covered(s.live, x)
  {
    if Covered(s.free, x) {
      var b :| b in s.free && b.Has(x);
      assert Placed(s.arenas, b);
      var base :| base in s.arenas && Aligned(base, b);
      AlignedFits(base, b);
      assert forall c :: c in s.live && c.Has(x) ==> b in s.free + s.live && c in s.free + s.live;
    }
    if (exists base :: base in s.arenas && base <= x < base + ARENA_SIZE) && !Covered(s.live, x) {
      assert Covered(s.free + s.live, x);
    }
  }

  /** The free set is a function of the arenas and of the bytes that are live. */
  lemma FreeSetDetermined(s: State, t: State)
    requires Valid(s) && Valid(t) && s.arenas == t.arenas
    requires forall x :: Covered(s.live, x) <==> Covered(t.live, x)
    ensures s.free == t.free
  {
    forall x ensures Covered(s.free, x) <==> Covered(t.free, x) {
      FreeOrLive(s, x);
      FreeOrLive(t, x);
    }
    PackedSubset(s.arenas, s.free + s.live, s.free);
    PackedSubset(t.arenas, t.free + t.live, t.free);
    CoalescedFormIsUnique(s.arenas, s.free, t.free);
  }

  lemma PackedSubset(arenas: set<int>, big: set<Block>, small: set<Block>)
    requires Packed(arenas, big) && small <= big
    ensures Packed(arenas, small)
  {
  }

  // ---- splitting, merging, growing ----

  lemma CutTiles(arenas: set<int>, rest: set<Block>, base: int, p: Block)
    requires Apart(arenas) && base in arenas && Aligned(base, p) && p.order > 0
    requires p !in rest && Tiles(arenas, rest + {p})
    ensures p.Lower() !in rest && p.Upper() !in rest && Tiles(arenas, rest + {p.Lower(), p.Upper()})
  {
    var lo, hi := p.Lower(), p.Upper();
    Halves(base, p);
    var before, after := rest + {p}, rest + {lo, hi};
    forall x ensures p.Has(x) <==> lo.Has(x) || hi.Has(x) {}
    BlockNonEmpty(lo);
    BlockNonEmpty(hi);
    assert p.Has(lo.addr) && p.Has(hi.addr);
    RefineTiles(arenas, rest, {p}, {lo, hi});
  }

  lemma MergeTiles(arenas: set<int>, rest: set<Block>, base: int, b: Block)
    requires Apart(arenas) && base in arenas && Aligned(base, b) && b.order < MAX_ORDER
    requires b !in rest && Buddy(base, b) !in rest && Tiles(arenas, rest + {b, Buddy(base, b)})
    ensures Parent(base, b) !in rest && Tiles(arenas, rest + {Parent(base, b)})
  {
    var bud, p := Buddy(base, b), Parent(base, b);
    BuddyAndParent(base, b);
    forall x ensures p.Has(x) <==> b.Has(x) || bud.Has(x) {}
    BlockNonEmpty(p);
    RefineTiles(arenas, rest, {b, bud}, {p});
  }

  /** Replacing some blocks of a tiling by packed blocks over the same bytes gives a tiling. */
  lemma RefineTiles(arenas: set<int>, rest: set<Block>, old_: set<Block>, new_: set<Block>)
    requires Tiles(arenas, rest + old_) && rest !! old_ && Packed(arenas, new_)
    requires forall x :: Covered(old_, x) <==> Covered(new_, x)
    ensures Tiles(arenas, rest + new_) && rest !! new_
  {
    forall b, x | b in rest && b.Has(x) ensures !Covered(new_, x) {
      assert forall c :: c in old_ && c.Has(x) ==> b in rest + old_ && c in rest + old_;
    }
    forall b | b in rest ensures b !in new_ {
      BlockNonEmpty(b);
    }
    forall b, c, x | b in rest + new_ && c in rest + new_ && b.Has(x) && c.Has(x) ensures b == c {
      assert b in new_ ==> Covered(new_, x);
      assert c in new_ ==> Covered(new_, x);
    }
    forall base, x | base in arenas && base <= x < base + ARENA_SIZE ensures Covered(rest + new_, x) {
      assert Covered(rest + old_, x);
      if Covered(old_, x) {
        var c :| c in new_ && c.Has(x);
        assert c in rest + new_;
      } else {
        var c :| c in rest + old_ && c.Has(x);
        assert c in rest + new_;
      }
    }
  }

  lemma GrowTiles(arenas: set<int>, blocks: set<Block>, base: int)
    requires Apart(arenas + {base}) && base !in arenas && Tiles(arenas, blocks)
    ensures Block(base, MAX_ORDER) !in blocks
    ensures Tiles(arenas + {base}, blocks + {Block(base, MAX_ORDER)})
  {
    var top, grown := Block(base, MAX_ORDER), arenas + {base};
    SizeValues();
    ZeroIsAligned(MAX_ORDER + MIN_ALLOC_SHIFT);
    assert Aligned(base, top);
    BlockNonEmpty(top);
    forall b | b in blocks ensures Placed(grown, b) && forall x :: b.Has(x) ==> !top.Has(x) {
      assert Placed(arenas, b);
      var a :| a in arenas && Aligned(a, b);
      assert a in grown && base in grown;
      AlignedFits(a, b);
    }
    forall a, x | a in grown && a <= x < a + ARENA_SIZE ensures Covered(blocks + {top}, x) {
      if a == base {
        assert top.Has(x);
      } else {
        assert Covered(blocks, x);
      }
    }
  }

  /** Mapping a further arena keeps a state valid: its one top-order block has no buddy to merge with. */
  lemma GrowValid(s: State, base: int)
    requires Valid(s) && Apart(s.arenas + {base}) && base !in s.arenas
    ensures Valid(State(s.arenas + {base}, s.free + {Block(base, MAX_ORDER)}, s.live))
  {
    var top := Block(base, MAX_ORDER);
    GrowTiles(s.arenas, s.free + s.live, base);
    assert s.free + s.live + {top} == (s.free + {top}) + s.live;
    forall b | b in s.free ensures !Aligned(base, b) {
      assert b in s.free + s.live;
      assert Placed(s.arenas, b);
      var a :| a in s.arenas && Aligned(a, b);
      assert a in s.arenas + {base} && base in s.arenas + {base};
    }
  }

  // ---- what allocation and release do to the free set ----

  /** The free set after block `h` is released into `free`: merge with the buddy for as long as it is free. */
  ghost function Coalesce(base: int, free: set<Block>, h: Block): set<Block>
    requires base <= h.addr
    decreases MAX_ORDER - h.order
  {
    if h.order >= MAX_ORDER || Buddy(base, h) !in free then free + {h}
    else Coalesce(base, free - {Buddy(base, h)}, Parent(base, h))
  }

  /** The free set after block `c` is cut down to `order`, its upper halves being freed on the way. */
  ghost function CutDown(free: set<Block>, c: Block, order: nat): set<Block>
    decreases c.order
  {
    if c.order <= order then free
    else CutDown(free + {c.Upper()}, c.Lower(), order)
  }

  /** An in-between state of the two loops: block `h` is in hand, neither free nor live. */
  ghost predicate InHand(s: State, base: int, h: Block)
  {
    && Apart(s.arenas) && base in s.arenas && Aligned(base, h)
    && h !in s.free + s.live && s.free !! s.live
    && Tiles(s.arenas, s.free + s.live + {h})
    && Coalesced(s.arenas, s.free)
  }

  lemma TakeInHand(s: State, base: int, h: Block)
    requires Valid(s) && base in s.arenas && Aligned(base, h)
    ensures h in s.free ==> InHand(State(s.arenas, s.free - {h}, s.live), base, h)
    ensures h in s.live ==> InHand(State(s.arenas, s.free, s.live - {h}), base, h)
  {
    assert h in s.free ==> s.free - {h} + s.live + {h} == s.free + s.live;
    assert h in s.live ==> s.free + (s.live - {h}) + {h} == s.free + s.live;
  }

  /** A block is one's buddy exactly when one is its buddy. */
  lemma BuddyOnlyOf(s: State, base: int, h: Block)
    requires InHand(s, base, h) && h.order < MAX_ORDER
    ensures forall a, b :: a in s.arenas && Aligned(a, b) && b.order < MAX_ORDER && Buddy(a, b) == h ==> a == base && b == Buddy(base, h)
  {
    forall a, b | a in s.arenas && Aligned(a, b) && b.order < MAX_ORDER && Buddy(a, b) == h
      ensures a == base && b == Buddy(base, h)
    {
      BuddyAndParent(a, b);
      AlignedFits(a, h);
      AlignedFits(base, h);
    }
  }

  lemma MergeStep(s: State, base: int, h: Block)
    requires InHand(s, base, h) && h.order < MAX_ORDER && Buddy(base, h) in s.free
    ensures InHand(State(s.arenas, s.free - {Buddy(base, h)}, s.live), base, Parent(base, h))
  {
    var bud := Buddy(base, h);
    BuddyAndParent(base, h);
    var rest := s.free - {bud} + s.live;
    assert rest + {h, bud} == s.free + s.live + {h};
    MergeTiles(s.arenas, rest, base, h);
    assert rest + {Parent(base, h)} == (s.free - {bud}) + s.live + {Parent(base, h)};
  }

  lemma CutStep(s: State, base: int, h: Block)
    requires InHand(s, base, h) && h.order > 0
    ensures InHand(State(s.arenas, s.free + {h.Upper()}, s.live), base, h.Lower())
  {
    var lo, hi := h.Lower(), h.Upper();
    Halves(base, h);
    CutTiles(s.arenas, s.free + s.live, base, h);
    var t := State(s.arenas, s.free + {hi}, s.live);
    assert s.free + s.live + {lo, hi} == t.free + t.live + {lo};
    forall a, b | a in s.arenas && b in t.free && Aligned(a, b) && b.order < MAX_ORDER ensures Buddy(a, b) !in t.free {
      BuddyAndParent(a, b);
      AlignedFits(a, b);
      AlignedFits(base, hi);
      AlignedFits(a, Buddy(a, b));
    }
  }

  lemma PutFree(s: State, base: int, h: Block)
    requires InHand(s, base, h)
    requires h.order == MAX_ORDER || Buddy(base, h) !in s.free
    ensures Valid(State(s.arenas, s.free + {h}, s.live))
  {
    var t := State(s.arenas, s.free + {h}, s.live);
    assert t.free + t.live == s.free + s.live + {h};
    if h.order < MAX_ORDER {
      BuddyOnlyOf(s, base, h);
      BuddyAndParent(base, h);
    }
  }

  // ---- operations and runs ----

  ghost function BaseOf(arenas: set<int>, b: Block): (base: int)
    requires Placed(arenas, b)
    ensures base in arenas && Aligned(base, b)
  {
    var base :| base in arenas && Aligned(base, b);
    base
  }

  lemma BaseIsUnique(arenas: set<int>, b: Block, base: int)
    requires Apart(arenas) && base in arenas && Aligned(base, b)
    ensures Placed(arenas, b) && BaseOf(arenas, b) == base
  {
    AlignedFits(base, b);
    AlignedFits(BaseOf(arenas, b), b);
  }

  /** `c` is taken from the free set and cut down; the piece at its start becomes live. */
  ghost function AllocFrom(s: State, c: Block, order: nat): State
  {
    State(s.arenas, CutDown(s.free - {c}, c, order), s.live + {Block(c.addr, order)})
  }

  /** `b` leaves the live set and is coalesced into the free set. */
  ghost function Release(s: State, b: Block): State
    requires Placed(s.arenas, b)
  {
    State(s.arenas, Coalesce(BaseOf(s.arenas, b), s.free, b), s.live - {b})
  }

  ghost function MapArena(s: State, base: int): State
  {
    State(s.arenas + {base}, s.free + {Block(base, MAX_ORDER)}, s.live)
  }

  lemma {:induction false} CutDownValid(s: State, base: int, c: Block, order: nat)
    requires InHand(s, base, c) && c.order >= order
    ensures InHand(State(s.arenas, CutDown(s.free, c, order), s.live), base, Block(c.addr, order))
    decreases c.order
  {
    if c.order > order {
      CutStep(s, base, c);
      CutDownValid(State(s.arenas, s.free + {c.Upper()}, s.live), base, c.Lower(), order);
    }
  }

  lemma {:induction false} CoalesceValid(s: State, base: int, h: Block)
    requires InHand(s, base, h)
    ensures Valid(State(s.arenas, Coalesce(base, s.free, h), s.live))
    decreases MAX_ORDER - h.order
  {
    if h.order >= MAX_ORDER || Buddy(base, h) !in s.free {
      PutFree(s, base, h);
    } else {
      MergeStep(s, base, h);
      CoalesceValid(State(s.arenas, s.free - {Buddy(base, h)}, s.live), base, Parent(base, h));
    }
  }

  lemma AllocValid(s: State, c: Block, order: nat)
    requires Valid(s) && c in s.free && order <= c.order
    ensures Valid(AllocFrom(s, c, order)) && Block(c.addr, order) !in s.live
  {
    assert Placed(s.arenas, c);
    var base := BaseOf(s.arenas, c);
    TakeInHand(s, base, c);
    CutDownValid(State(s.arenas, s.free - {c}, s.live), base, c, order);
    var t := AllocFrom(s, c, order);
    assert t.free + t.live == t.free + s.live + {Block(c.addr, order)};
  }

  lemma ReleaseValid(s: State, b: Block)
    requires Valid(s) && b in s.live
    ensures Placed(s.arenas, b) && Valid(Release(s, b))
  {
    assert b in s.free + s.live;
    var base := BaseOf(s.arenas, b);
    TakeInHand(s, base, b);
    CoalesceValid(State(s.arenas, s.free, s.live - {b}), base, b);
  }

  /** Releasing what was just allocated restores the state, whatever was split meanwhile. */
  lemma ReleaseUndoesAlloc(s: State, c: Block, order: nat)
    requires Valid(s) && c in s.free && order <= c.order
    ensures var b := Block(c.addr, order);
            Placed(s.arenas, b) && Release(AllocFrom(s, c, order), b) == s
  {
    var b, t := Block(c.addr, order), AllocFrom(s, c, order);
    AllocValid(s, c, order);
    ReleaseValid(t, b);
    assert t.live - {b} == s.live;
    FreeSetDetermined(Release(t, b), s);
  }

  /** The order in which two live blocks are released does not matter. */
  lemma ReleasesCommute(s: State, b: Block, c: Block)
    requires Valid(s) && b in s.live && c in s.live && b != c
    ensures Placed(s.arenas, b) && Placed(s.arenas, c)
    ensures Release(Release(s, b), c) == Release(Release(s, c), b)
  {
    ReleaseValid(s, b);
    ReleaseValid(s, c);
    ReleaseValid(Release(s, b), c);
    ReleaseValid(Release(s, c), b);
    assert s.live - {b} - {c} == s.live - {c} - {b};
    FreeSetDetermined(Release(Release(s, b), c), Release(Release(s, c), b));
  }

  lemma TopBlocksValid(arenas: set<int>)
    requires Apart(arenas)
    ensures Valid(State(arenas, TopBlocks(arenas), {}))
  {
    SizeValues();
    ZeroIsAligned(MAX_ORDER + MIN_ALLOC_SHIFT);
    forall b | b in TopBlocks(arenas) ensures Placed(arenas, b) {
      assert Aligned(b.addr, b);
    }
    forall base, x | base in arenas && base <= x < base + ARENA_SIZE ensures Covered(TopBlocks(arenas), x) {
      assert Block(base, MAX_ORDER) in TopBlocks(arenas) && Block(base, MAX_ORDER).Has(x);
    }
    assert TopBlocks(arenas) + {} == TopBlocks(arenas);
  }

  /** Once nothing is live, each arena is one free block of the top order again. */
  lemma AllReleased(s: State)
    requires Valid(s) && s.live == {}
    ensures s.free == TopBlocks(s.arenas)
  {
    TopBlocksValid(s.arenas);
    FreeSetDetermined(s, State(s.arenas, TopBlocks(s.arenas), {}));
  }

  datatype Op = Alloc(from: Block, order: nat) | Free(block: Block) | Map(base: int)

  ghost predicate Enabled(s: State, op: Op)
  {
    match op
    case Alloc(c, order) => c in s.free && order <= c.order
    case Free(b) => b in s.live && Placed(s.arenas, b)
    case Map(base) => base !in s.arenas && Apart(s.arenas + {base})
  }

  ghost function Apply(s: State, op: Op): State
    requires Enabled(s, op)
  {
    match op
    case Alloc(c, order) => AllocFrom(s, c, order)
    case Free(b) => Release(s, b)
    case Map(base) => MapArena(s, base)
  }

  /** `ops` can be carried out from `s` and leads to `t`. */
  ghost predicate Runs(s: State, ops: seq<Op>, t: State)
    decreases |ops|
  {
    if ops == [] then s == t
    else Enabled(s, ops[0]) && Runs(Apply(s, ops[0]), ops[1..], t)
  }

  lemma {:induction false} RunKeepsValid(s: State, ops: seq<Op>, t: State)
    requires Valid(s) && Runs(s, ops, t)
    ensures Valid(t)
    decreases |ops|
  {
    if ops != [] {
      match ops[0] {
        case Alloc(c, order) => AllocValid(s, c, order);
        case Free(b) => ReleaseValid(s, b);
        case Map(base) => GrowValid(s, base);
      }
      RunKeepsValid(Apply(s, ops[0]), ops[1..], t);
    }
  }

  /** Two runs that end with the same arenas and the same live blocks end in the same state. */
  lemma HistoryIndependent(s: State, ops: seq<Op>, t: State, s': State, ops': seq<Op>, t': State)
    requires Valid(s) && Runs(s, ops, t) && Valid(s') && Runs(s', ops', t')
    requires t.arenas == t'.arenas && t.live == t'.live
    ensures t == t'
  {
    RunKeepsValid(s, ops, t);
    RunKeepsValid(s', ops', t');
    FreeSetDetermined(t, t');
  }
}
