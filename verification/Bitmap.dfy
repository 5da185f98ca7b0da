/** The block bitmap: one bit per data block, packed eight to a byte, with a free count and a search hint. */
module Bitmap {
  import opened Bits
  import opened Bytes
  import opened Helix
  import opened Prelude

  // ---- one byte ----

  predicate GetBit(b: nat, k: nat)
  {
    if k == 0 then b % 2 == 1 else GetBit(b / 2, k - 1)
  }

  /** `b | (1 << k)`. */
  function SetBit(b: nat, k: nat): nat
  {
    if k == 0 then b + 1 - b % 2 else 2 * SetBit(b / 2, k - 1) + b % 2
  }

  /** `b & !(1 << k)`. */
  function ClearBit(b: nat, k: nat): nat
  {
    if k == 0 then b - b % 2 else 2 * ClearBit(b / 2, k - 1) + b % 2
  }

  lemma {:induction false} SetBitAt(b: nat, k: nat, j: nat)
    ensures GetBit(SetBit(b, k), j) <==> j == k || GetBit(b, j)
    decreases k
  {
    if k == 0 {
      assert SetBit(b, 0) / 2 == b / 2;
    } else {
      assert SetBit(b, k) / 2 == SetBit(b / 2, k - 1) && SetBit(b, k) % 2 == b % 2;
      if j > 0 {
        SetBitAt(b / 2, k - 1, j - 1);
      }
    }
  }

  lemma {:induction false} ClearBitAt(b: nat, k: nat, j: nat)
    ensures GetBit(ClearBit(b, k), j) <==> j != k && GetBit(b, j)
    decreases k
  {
    if k == 0 {
      assert ClearBit(b, 0) / 2 == b / 2;
    } else {
      assert ClearBit(b, k) / 2 == ClearBit(b / 2, k - 1) && ClearBit(b, k) % 2 == b % 2;
      if j > 0 {
        ClearBitAt(b / 2, k - 1, j - 1);
      }
    }
  }

  lemma {:induction false} BitsFit(b: nat, k: nat, n: nat)
    requires k < n && b < Pow2(n)
    ensures SetBit(b, k) < Pow2(n) && ClearBit(b, k) <= b
    decreases k
  {
    if k > 0 {
      BitsFit(b / 2, k - 1, n - 1);
    }
  }

  lemma ByteFits(b: Byte, k: nat)
    requires k < 8
    ensures SetBit(b, k) < 256 && 0 <= ClearBit(b, k) < 256
  {
    assert Pow2(8) == 256;
    BitsFit(b, k, 8);
  }

  // ---- the whole map ----

  predicate IsSet(bits: seq<Byte>, i: nat)
  {
    i / 8 < |bits| && GetBit(bits[i / 8], i % 8)
  }

  /** The set bits below `total`. */
  function UsedIn(bits: seq<Byte>, total: nat): set<nat>
  {
    set i: nat | i < total && IsSet(bits, i)
  }

  /** The map is full exactly when every block is used. */
  lemma FullIsAll(used: set<nat>, total: nat)
    requires used <= Range(0, total)
    ensures |used| <= total && (|used| == total <==> used == Range(0, total))
  {
    RangeSize(0, total);
    SubsetSize(used, Range(0, total));
  }

  lemma SplitIndex(i: nat, j: nat)
    ensures i == j <==> i / 8 == j / 8 && i % 8 == j % 8
  {
  }

  /** `used` is the set of blocks whose bit is set. */
  ghost predicate Mirror(bits: seq<Byte>, total: nat, used: set<nat>)
  {
    && |bits| == (total + 7) / 8
    && forall i: nat {:trigger IsSet(bits, i)} :: i < total ==> (i in used <==> IsSet(bits, i))
  }

  lemma SetUsed(bits: seq<Byte>, total: nat, used: set<nat>, i: nat)
    requires Mirror(bits, total, used) && i < total
    ensures 0 <= SetBit(bits[i / 8], i % 8) < 256
    ensures Mirror(bits[i / 8 := SetBit(bits[i / 8], i % 8)], total, used + {i})
  {
    ByteFits(bits[i / 8], i % 8);
    var bits' := bits[i / 8 := SetBit(bits[i / 8], i % 8)];
    forall j: nat ensures IsSet(bits', j) <==> j == i || IsSet(bits, j) {
      SplitIndex(i, j);
      SetBitAt(bits[i / 8], i % 8, j % 8);
    }
  }

  lemma ClearUsed(bits: seq<Byte>, total: nat, used: set<nat>, i: nat)
    requires Mirror(bits, total, used) && i < total
    ensures 0 <= ClearBit(bits[i / 8], i % 8) < 256
    ensures Mirror(bits[i / 8 := ClearBit(bits[i / 8], i % 8)], total, used - {i})
  {
    ByteFits(bits[i / 8], i % 8);
    var bits' := bits[i / 8 := ClearBit(bits[i / 8], i % 8)];
    forall j: nat ensures IsSet(bits', j) <==> j != i && IsSet(bits, j) {
      SplitIndex(i, j);
      ClearBitAt(bits[i / 8], i % 8, j % 8);
    }
  }

  /** `count` free blocks in a row from `start`. */
  ghost predicate FreeRun(used: set<nat>, total: nat, start: nat, count: nat)
  {
    start + count <= total && forall b :: start <= b < start + count ==> b !in used
  }

  /** The `k`-th block looked at when scanning a full turn from `start`. */
  function Probe(start: nat, k: nat, total: nat): (i: nat)
    requires total > 0
    ensures i < total
  {
    (start + k) % total
  }

  lemma ProbeWraps(start: nat, k: nat, total: nat)
    requires start < total && k < total
    ensures Probe(start, k, total) == if start + k < total then start + k else start + k - total
  {
    if start + k >= total {
      assert start + k == total * 1 + (start + k - total);
      Quotient(start + k, total, 1, start + k - total);
    } else {
      assert start + k == total * 0 + (start + k);
      Quotient(start + k, total, 0, start + k);
    }
  }

  /** A full turn from any start visits every block. */
  lemma AllSeen(used: set<nat>, start: nat, total: nat)
    requires used <= Range(0, total) && start < total
    requires forall k: nat :: k < total ==> Probe(start, k, total) in used
    ensures used == Range(0, total)
  {
    forall i: nat | i < total ensures i in used {
      var k := if i >= start then i - start else i + total - start;
      ProbeWraps(start, k, total);
    }
  }

  lemma {:induction false} ZeroHasNoBit(k: nat)
    ensures !GetBit(0, k)
  {
    if k > 0 {
      ZeroHasNoBit(k - 1);
    }
  }

  /** Set bits among the low `n` bits of a byte: the population count of the byte under a mask of `n` ones. */
  function Ones(b: nat, n: nat): nat
  {
    if n == 0 then 0 else Ones(b, n - 1) + (if GetBit(b, n - 1) then 1 else 0)
  }

  /** Counting a byte's bits extends the count of used blocks by that byte's blocks. */
  lemma {:induction false} OnesCount(bits: seq<Byte>, k: nat, n: nat)
    requires k < |bits| && n <= 8
    ensures |UsedIn(bits, 8 * k + n)| == |UsedIn(bits, 8 * k)| + Ones(bits[k], n)
  {
    if n > 0 {
      OnesCount(bits, k, n - 1);
      var i := 8 * k + n - 1;
      var before := UsedIn(bits, i);
      assert IsSet(bits, i) <==> GetBit(bits[k], n - 1);
      assert UsedIn(bits, i + 1) == if IsSet(bits, i) then before + {i} else before;
    }
  }

  class BlockBitmap {
    const bits: array<Byte>
    const totalBlocks: nat
    var freeCount: nat
    var searchHint: nat

    /** The allocated blocks. */
    ghost var used: set<nat>

    ghost predicate Valid()
      reads this, bits
    {
      && Mirror(bits[..], totalBlocks, used)
      && used <= Range(0, totalBlocks)
      && freeCount + |used| == totalBlocks
      && (if totalBlocks == 0 then searchHint == 0 else searchHint < totalBlocks)
    }

    constructor (totalBlocks: nat)
      ensures Valid() && fresh(bits)
      ensures this.totalBlocks == totalBlocks && used == {} && freeCount == totalBlocks && searchHint == 0
    {
      this.totalBlocks := totalBlocks;
      bits := new Byte[(totalBlocks + 7) / 8](_ => 0);
      freeCount := totalBlocks;
      searchHint := 0;
      used := {};
      new;
      forall i: nat ensures !IsSet(bits[..], i) {
        ZeroHasNoBit(i % 8);
      }
    }

    /** Load a bitmap: bytes past the data are zero, bytes past the map are dropped, and the bits of the last byte past the last block do not count. */
    constructor FromBytes(data: seq<Byte>, totalBlocks: nat)
      ensures Valid() && fresh(bits)
      ensures this.totalBlocks == totalBlocks && used == UsedIn(data, totalBlocks)
    {
      var byteCount := (totalBlocks + 7) / 8;
      var all := new Byte[byteCount](i => if 0 <= i < |data| then data[i] else 0);
      SameBits(data, all[..], totalBlocks);
      ghost var content := all[..];
      var allocCount := 0;
      var fullBytes := totalBlocks / 8;
      for k := 0 to fullBytes
        invariant all[..] == content
        invariant allocCount == |UsedIn(all[..], 8 * k)|
      {
        OnesCount(all[..], k, 8);
        allocCount := allocCount + Ones(all[k], 8);
      }
      var remaining := totalBlocks % 8;
      if remaining > 0 {
        OnesCount(all[..], fullBytes, remaining);
        allocCount := allocCount + Ones(all[fullBytes], remaining);
      }
      FullIsAll(UsedIn(all[..], totalBlocks), totalBlocks);
      this.totalBlocks := totalBlocks;
      bits := all;
      used := UsedIn(all[..], totalBlocks);
      freeCount := totalBlocks - allocCount;
      searchHint := 0;
    }

    lemma InBounds(i: nat)
      requires Mirror(bits[..], totalBlocks, used) && i < totalBlocks
      ensures i / 8 < bits.Length
      ensures i in used <==> GetBit(bits[i / 8], i % 8)
    {
      assert IsSet(bits[..], i) <==> GetBit(bits[i / 8], i % 8);
    }

    method IsAllocated(block: nat) returns (r: bool)
      requires Valid()
      ensures r <==> block in used
    {
      if block >= totalBlocks {
        return false;
      }
      InBounds(block);
      r := GetBit(bits[block / 8], block % 8);
    }

    /** Set one bit; counting is the caller's. */
    method Mark(i: nat)
      requires Mirror(bits[..], totalBlocks, used) && i < totalBlocks
      modifies this`used, bits
      ensures Mirror(bits[..], totalBlocks, used) && used == old(used) + {i}
    {
      InBounds(i);
      SetUsed(bits[..], totalBlocks, used, i);
      var value := SetBit(bits[i / 8], i % 8);
      bits[i / 8] := value;
      used := used + {i};
      assert bits[..] == old(bits[..])[i / 8 := value];
    }

    /** The first free block at or cyclically after the hint, and how many used blocks were passed over. */
    method FindFree() returns (found: bool, idx: nat, skipped: nat)
      requires Valid()
      ensures found <==> used != Range(0, totalBlocks)
      ensures found ==>
                && skipped < totalBlocks && idx == Probe(searchHint, skipped, totalBlocks) && idx !in used
                && forall k: nat :: k < skipped ==> Probe(searchHint, k, totalBlocks) in used
    {
      FullIsAll(used, totalBlocks);
      for offset := 0 to totalBlocks
        invariant forall k: nat :: k < offset ==> Probe(searchHint, k, totalBlocks) in used
      {
        idx := Probe(searchHint, offset, totalBlocks);
        var taken := IsAllocated(idx);
        if !taken {
          return true, idx, offset;
        }
      }
      if totalBlocks > 0 {
        AllSeen(used, searchHint, totalBlocks);
      }
      found, idx, skipped := false, 0, 0;
    }

    /** Allocate the first free block at or cyclically after the hint. Fails exactly when the map is full. */
    method AllocBlock() returns (r: Result<nat>, ghost skipped: nat)
      requires Valid()
      modifies this, bits
      ensures Valid()
      ensures r.Err? <==> old(used) == Range(0, totalBlocks)
      ensures r.Err? ==> r.error == NoSpace && used == old(used) && searchHint == old(searchHint)
      ensures r.Ok? ==>
                && skipped < totalBlocks && r.value == Probe(old(searchHint), skipped, totalBlocks)
                && r.value !in old(used)
                && (forall k: nat :: k < skipped ==> Probe(old(searchHint), k, totalBlocks) in old(used))
                && used == old(used) + {r.value} && searchHint == Probe(r.value, 1, totalBlocks)
    {
      FullIsAll(used, totalBlocks);
      if freeCount == 0 {
        return Err(NoSpace), 0;
      }
      var found, idx, offset := FindFree();
      skipped := offset;
      if !found {
        r := Err(NoSpace);
        return;
      }
      Mark(idx);
      freeCount := freeCount - 1;
      searchHint := Probe(idx, 1, totalBlocks);
      r := Ok(idx);
    }

    /** The lowest run of `count` free blocks, if there is one. */
    method FindRun(count: nat) returns (found: bool, start: nat)
      requires Valid() && count > 0
      ensures found ==> FreeRun(used, totalBlocks, start, count)
      ensures forall s: nat :: FreeRun(used, totalBlocks, s, count) ==> found && start <= s
    {
      var runStart, runLen := 0, 0;
      for idx := 0 to totalBlocks
        invariant runLen < count
        invariant runLen > 0 ==> runStart + runLen == idx
        invariant RunBefore(used, idx, runLen)
        invariant forall s: nat :: s + count <= idx ==> !FreeRun(used, totalBlocks, s, count)
      {
        var taken := IsAllocated(idx);
        if !taken {
          if runLen == 0 {
            runStart := idx;
          }
          runLen := runLen + 1;
          if runLen >= count {
            return true, runStart;
          }
          NoRunYet(used, totalBlocks, idx, runLen, count);
        } else {
          runLen := 0;
        }
      }
      found, start := false, 0;
    }

    /** Allocate the lowest run of `count` free blocks; fails exactly when there is none. */
    method AllocContiguous(count: nat) returns (r: Result<nat>)
      requires Valid()
      modifies this, bits
      ensures Valid()
      ensures r == Err(InvalidBlockSize) <==> count == 0
      ensures r == Err(NoSpace) <==> count > 0 && forall s: nat :: !FreeRun(old(used), totalBlocks, s, count)
      ensures r.Err? ==> r.error == InvalidBlockSize || r.error == NoSpace
      ensures r.Err? ==> used == old(used) && searchHint == old(searchHint)
      ensures r.Ok? ==>
                && FreeRun(old(used), totalBlocks, r.value, count)
                && (forall s: nat :: s < r.value ==> !FreeRun(old(used), totalBlocks, s, count))
                && used == old(used) + Range(r.value, count)
                && searchHint == Probe(r.value, count, totalBlocks)
    {
      if count == 0 {
        return Err(InvalidBlockSize);
      }
      RoomForRun(used, totalBlocks, count);
      if freeCount < count {
        return Err(NoSpace);
      }
      var found, start := FindRun(count);
      if !found {
        return Err(NoSpace);
      }
      TakeRun(start, count);
      r := Ok(start);
    }

    /** Set the bits of a run; counting is the caller's. */
    method MarkAll(start: nat, count: nat)
      requires Mirror(bits[..], totalBlocks, used) && start + count <= totalBlocks
      modifies this`used, bits
      ensures Mirror(bits[..], totalBlocks, used) && used == old(used) + Range(start, count)
    {
      assert Range(start, 0) == {};
      for k := 0 to count
        invariant Mirror(bits[..], totalBlocks, used) && used == old(used) + Range(start, k)
      {
        RangeGrows(start, k);
        Mark(start + k);
      }
    }

    /** Claim a free run found by the scan. */
    method TakeRun(start: nat, count: nat)
      requires Valid() && count > 0 && FreeRun(used, totalBlocks, start, count) && count <= freeCount
      modifies this, bits
      ensures Valid() && used == old(used) + Range(start, count)
      ensures searchHint == Probe(start, count, totalBlocks)
    {
      RunSize(used, totalBlocks, start, count);
      MarkAll(start, count);
      freeCount := freeCount - count;
      searchHint := Probe(start, count, totalBlocks);
    }

    method MarkBlockUsed(block: nat)
      requires Valid()
      modifies this`freeCount, this`used, bits
      ensures Valid()
      ensures used == if block < totalBlocks then old(used) + {block} else old(used)
    {
      if block >= totalBlocks {
        return;
      }
      var taken := IsAllocated(block);
      if !taken {
        FullIsAll(used, totalBlocks);
        assert block in Range(0, totalBlocks);
        Mark(block);
        freeCount := freeCount - 1;
      } else {
        assert used == used + {block};
      }
    }

    method MarkRangeUsed(start: nat, count: nat)
      requires Valid()
      modifies this`freeCount, this`used, bits
      ensures Valid()
      ensures used == old(used) + Range(start, count) * Range(0, totalBlocks)
    {
      for i := 0 to count
        invariant Valid()
        invariant used == old(used) + Range(start, i) * Range(0, totalBlocks)
      {
        MarkNext(start, i, old(used));
      }
    }

    /** Mark block `i` of a range whose earlier blocks have been marked. */
    method MarkNext(start: nat, i: nat, ghost was: set<nat>)
      requires Valid() && used == was + Range(start, i) * Range(0, totalBlocks)
      modifies this`freeCount, this`used, bits
      ensures Valid() && used == was + Range(start, i + 1) * Range(0, totalBlocks)
    {
      RangeGrows(start, i);
      MarkBlockUsed(start + i);
    }

    /** Free one block: an error, with nothing changed, exactly when the block is not in use. */
    method FreeBlock(block: nat) returns (r: Result<()>)
      requires Valid()
      modifies this, bits
      ensures Valid()
      ensures r == if block in old(used) then Ok(()) else Err(BitmapCorrupt)
      ensures used == old(used) - {block}
      ensures searchHint == if block in old(used) && block < old(searchHint) then block else old(searchHint)
    {
      if block >= totalBlocks {
        return Err(BitmapCorrupt);
      }
      InBounds(block);
      if !GetBit(bits[block / 8], block % 8) {
        return Err(BitmapCorrupt);
      }
      ClearUsed(bits[..], totalBlocks, used, block);
      var value := ClearBit(bits[block / 8], block % 8);
      bits[block / 8] := value;
      used := used - {block};
      assert bits[..] == old(bits[..])[block / 8 := value];
      freeCount := freeCount + 1;
      if block < searchHint {
        searchHint := block;
      }
      r := Ok(());
    }

    /** Free a range block by block, stopping at the first block not in use; `done` blocks were freed. */
    method FreeRange(start: nat, count: nat) returns (r: Result<()>, ghost done: nat)
      requires Valid()
      modifies this, bits
      ensures Valid() && done <= count
      ensures Range(start, done) <= old(used) && used == old(used) - Range(start, done)
      ensures r == if done == count then Ok(()) else Err(BitmapCorrupt)
      ensures done < count ==> start + done !in old(used)
    {
      done := 0;
      for i := 0 to count
        invariant Valid() && done == i
        invariant Range(start, i) <= old(used) && used == old(used) - Range(start, i)
      {
        var ok := FreeNext(start, i, old(used));
        if !ok {
          return Err(BitmapCorrupt), i;
        }
        done := i + 1;
      }
      r := Ok(());
    }

    /** Free block `i` of a range whose earlier blocks have been freed. */
    method FreeNext(start: nat, i: nat, ghost was: set<nat>) returns (ok: bool)
      requires Valid() && Range(start, i) <= was && used == was - Range(start, i)
      modifies this, bits
      ensures Valid() && (ok <==> start + i in was)
      ensures if ok then Range(start, i + 1) <= was && used == was - Range(start, i + 1) else used == old(used)
    {
      RangeGrows(start, i);
      var one := FreeBlock(start + i);
      ok := one.Ok?;
    }
  }

  lemma SameBits(data: seq<Byte>, bits: seq<Byte>, total: nat)
    requires |bits| == (total + 7) / 8
    requires forall i :: 0 <= i < |bits| ==> bits[i] == if i < |data| then data[i] else 0
    ensures UsedIn(bits, total) == UsedIn(data, total)
  {
    forall i: nat | i < total ensures IsSet(bits, i) <==> IsSet(data, i) {
      ZeroHasNoBit(i % 8);
    }
  }

  /** The `len` blocks before `idx` are free and the one before them is not. */
  ghost predicate RunBefore(used: set<nat>, idx: nat, len: nat)
  {
    && len <= idx
    && (forall b :: idx - len <= b < idx ==> b !in used)
    && (len < idx ==> idx - len - 1 in used)
  }

  lemma NoRunYet(used: set<nat>, total: nat, idx: nat, len: nat, count: nat)
    requires RunBefore(used, idx + 1, len) && len < count
    requires forall s: nat :: s + count <= idx ==> !FreeRun(used, total, s, count)
    ensures forall s: nat :: s + count <= idx + 1 ==> !FreeRun(used, total, s, count)
  {
  }

  lemma RunSize(used: set<nat>, total: nat, start: nat, count: nat)
    requires FreeRun(used, total, start, count)
    ensures |used + Range(start, count)| == |used| + count
  {
    RangeSize(start, count);
    assert used !! Range(start, count);
  }

  lemma RoomForRun(used: set<nat>, total: nat, count: nat)
    requires used <= Range(0, total)
    ensures forall s: nat :: FreeRun(used, total, s, count) ==> count <= total - |used|
  {
    RangeSize(0, total);
    forall s: nat | FreeRun(used, total, s, count) ensures count <= total - |used| {
      RunSize(used, total, s, count);
      SubsetSize(used + Range(s, count), Range(0, total));
    }
  }
}
