/** Writing a file's data to fresh blocks: one run if there is room for one, else block by block with a node listing the runs. */
module FileWrite {
  import opened Bytes
  import opened Helix
  import opened Extent
  import opened FileRead
  import opened Ownership
  import opened Bitmap
  import opened Device
  import opened Prelude

  const MAX_BLOCKS: nat := 0x1_0000_0000   // run lengths are 32-bit
  const MAX_ADDRESS: nat := BLOCK_NULL

  // ---- allocation ----

  /** Append one block to the run list, extending the last run where it can. */
  function Extended(runs: seq<Run>, n: nat, phys: nat): seq<Run>
  {
    if runs != [] && runs[|runs| - 1].physical + runs[|runs| - 1].count == phys
    then runs[..|runs| - 1] + [runs[|runs| - 1].(count := runs[|runs| - 1].count + 1)]
    else runs + [Run(n, phys, 1)]
  }

  lemma ExtendedCells(runs: seq<Run>, n: nat, phys: nat)
    requires Tiled(runs, n)
    ensures Tiled(Extended(runs, n, phys), n + 1)
    ensures Cells(Extended(runs, n, phys)) == Cells(runs) + [phys]
    ensures RunBlocks(Extended(runs, n, phys)) == RunBlocks(runs) + {phys}
  {
    if runs != [] && runs[|runs| - 1].physical + runs[|runs| - 1].count == phys {
      LongerRun(runs[..|runs| - 1], runs[|runs| - 1]);
      assert runs == runs[..|runs| - 1] + [runs[|runs| - 1]];
    } else {
      NewRun(runs, n, phys);
    }
  }

  lemma NewRun(runs: seq<Run>, n: nat, phys: nat)
    requires Tiled(runs, n)
    ensures Tiled(runs + [Run(n, phys, 1)], n + 1)
    ensures Cells(runs + [Run(n, phys, 1)]) == Cells(runs) + [phys]
    ensures RunBlocks(runs + [Run(n, phys, 1)]) == RunBlocks(runs) + {phys}
  {
    LastRun(runs, Run(n, phys, 1));
    assert Span(phys, 1) == [phys];
    assert Range(phys, 1) == {phys};
  }

  lemma LongerRun(init: seq<Run>, last: Run)
    requires last.count > 0 && Tiled(init, last.logical)
    ensures Tiled(init + [last.(count := last.count + 1)], last.logical + last.count + 1)
    ensures Cells(init + [last.(count := last.count + 1)]) == Cells(init + [last]) + [last.physical + last.count]
    ensures RunBlocks(init + [last.(count := last.count + 1)]) == RunBlocks(init + [last]) + {last.physical + last.count}
  {
    LastRun(init, last);
    LastRun(init, last.(count := last.count + 1));
    assert Span(last.physical, last.count + 1) == Span(last.physical, last.count) + [last.physical + last.count];
    RangeGrows(last.physical, last.count);
  }

  lemma LastRun(init: seq<Run>, last: Run)
    ensures Cells(init + [last]) == Cells(init) + Span(last.physical, last.count)
    ensures RunBlocks(init + [last]) == RunBlocks(init) + Range(last.physical, last.count)
    ensures last.count > 0 && Tiled(init, last.logical) ==> Tiled(init + [last], last.logical + last.count)
  {
    assert (init + [last])[..|init|] == init;
  }

  /** The blocks of a freshly allocated file. */
  ghost predicate Fresh(runs: seq<Run>, n: nat, before: set<nat>, after: set<nat>)
  {
    Tiled(runs, n) && AllDifferent(Cells(runs)) && RunBlocks(runs) !! before && after == before + RunBlocks(runs)
  }

  lemma FreshGrows(runs: seq<Run>, n: nat, phys: nat, before: set<nat>, after: set<nat>)
    requires Fresh(runs, n, before, after) && phys !in after
    ensures Fresh(Extended(runs, n, phys), n + 1, before, after + {phys})
  {
    ExtendedCells(runs, n, phys);
    CellsAreBlocks(runs, phys);
  }

  /**
   Allocate `n` blocks one at a time. When the blocks run out this fails and keeps every block it took:
   the map is then full.
   */
  method AllocFragments(bitmap: BlockBitmap, n: nat) returns (r: Result<seq<Run>>)
    requires bitmap.Valid()
    modifies bitmap, bitmap.bits
    ensures bitmap.Valid()
    ensures r.Err? <==> old(bitmap.freeCount) < n
    ensures r.Ok? ==> Fresh(r.value, n, old(bitmap.used), bitmap.used)
    ensures r.Err? ==> r.error == NoSpace && bitmap.used == Range(0, bitmap.totalBlocks)
  {
    var runs: seq<Run> := [];
    assert Cells(runs) == [] && RunBlocks(runs) == {};
    for i := 0 to n
      invariant bitmap.Valid() && bitmap.freeCount + i == old(bitmap.freeCount)
      invariant Fresh(runs, i, old(bitmap.used), bitmap.used)
    {
      FullIsAll(bitmap.used, bitmap.totalBlocks);
      var phys, _ := bitmap.AllocBlock();
      if phys.Err? {
        return Err(NoSpace);
      }
      FreshGrows(runs, i, phys.value, old(bitmap.used), bitmap.used - {phys.value});
      runs := Extended(runs, i, phys.value);
    }
    r := Ok(runs);
  }

  // ---- writing ----

  /** What is written for block `i` of the data is that block, padded with zeros. */
  lemma ChunkIs(data: seq<Byte>, i: nat, chunk: nat)
    requires i * BLOCK_SIZE <= |data|
    requires chunk == if |data| - i * BLOCK_SIZE < BLOCK_SIZE then |data| - i * BLOCK_SIZE else BLOCK_SIZE
    ensures data[i * BLOCK_SIZE..i * BLOCK_SIZE + chunk] + Zeros(BLOCK_SIZE - chunk) == Chunk(data, i)
  {
  }

  /** Write block `i` of the data to block `b`. */
  method PutBlock(disk: Disk, b: nat, data: seq<Byte>, i: nat) returns (ok: bool)
    requires disk.Valid() && i < BlocksFor(|data|)
    modifies disk
    ensures disk.Valid() && Extends(old(disk.trace), disk.trace, {b}) && |disk.trace| > |old(disk.trace)|
    ensures ok ==> b in disk.blocks && disk.blocks[b] == Chunk(data, i)
  {
    var writeOffset := i * BLOCK_SIZE;
    var chunk := if |data| - writeOffset < BLOCK_SIZE then |data| - writeOffset else BLOCK_SIZE;
    ChunkIs(data, i, chunk);
    ok := disk.Write(b, data[writeOffset..writeOffset + chunk] + Zeros(BLOCK_SIZE - chunk));
  }

  lemma StoredGrows(before: Blocks, after: Blocks, start: nat, j: nat, data: seq<Byte>, first: nat)
    requires Stored(before, Span(start, j), data, first) && SameExcept(before, after, {start + j})
    requires start + j in after && after[start + j] == Chunk(data, first + j)
    ensures Stored(after, Span(start, j + 1), data, first)
  {
    StoredKept(before, after, Span(start, j), data, first, {start + j});
    assert Span(start, j + 1) == Span(start, j) + [start + j];
  }

  /** Write `count` blocks of the data, from block `first` on, to consecutive blocks; stops at the first failure. */
  method PutBlocks(disk: Disk, start: nat, count: nat, data: seq<Byte>, first: nat) returns (ok: bool)
    requires disk.Valid() && first + count <= BlocksFor(|data|)
    modifies disk
    ensures disk.Valid()
    ensures Extends(old(disk.trace), disk.trace, Range(start, count))
    ensures ok ==> Stored(disk.blocks, Span(start, count), data, first)
  {
    for j := 0 to count
      invariant disk.Valid()
      invariant Extends(old(disk.trace), disk.trace, Range(start, count))
      invariant Stored(disk.blocks, Span(start, j), data, first)
    {
      ghost var before, trace := disk.blocks, disk.trace;
      assert start + j in Range(start, count);
      ok := PutBlock(disk, start + j, data, first + j);
      ExtendsWider(trace, disk.trace, {start + j}, Range(start, count));
      ExtendsTrans(old(disk.trace), trace, disk.trace, Range(start, count));
      if !ok {
        return;
      }
      StoredGrows(before, disk.blocks, start, j, data, first);
    }
    ok := true;
  }

  lemma {:induction false} TiledPrefix(runs: seq<Run>, n: nat, k: nat)
    requires Tiled(runs, n) && k < |runs|
    ensures Tiled(runs[..k], runs[k].logical) && runs[k].logical + runs[k].count <= n
    decreases |runs|
  {
    var init := runs[..|runs| - 1];
    if k < |init| {
      TiledPrefix(init, runs[|runs| - 1].logical, k);
      assert init[..k] == runs[..k];
    }
  }

  lemma {:induction false} SeparatePrefix(runs: seq<Run>, k: nat)
    requires Separate(runs) && k < |runs|
    ensures Range(runs[k].physical, runs[k].count) !! RunBlocks(runs[..k])
    decreases |runs|
  {
    var init := runs[..|runs| - 1];
    if k < |init| {
      SeparatePrefix(init, k);
      assert init[..k] == runs[..k];
    }
  }

  lemma StoredKept(before: Blocks, after: Blocks, cells: seq<nat>, data: seq<Byte>, first: nat, touched: set<nat>)
    requires Stored(before, cells, data, first) && SameExcept(before, after, touched)
    requires forall i: nat :: i < |cells| ==> cells[i] !in touched
    ensures Stored(after, cells, data, first)
  {
  }

  lemma StoredJoin(blocks: Blocks, a: seq<nat>, b: seq<nat>, data: seq<Byte>)
    requires Stored(blocks, a, data, 0) && Stored(blocks, b, data, |a|)
    ensures Stored(blocks, a + b, data, 0)
  {
    forall i: nat | i < |a + b| ensures (a + b)[i] in blocks && blocks[(a + b)[i]] == Chunk(data, i) {
      if i >= |a| {
        assert (a + b)[i] == b[i - |a|];
      }
    }
  }

  lemma {:induction false} RunWithin(runs: seq<Run>, k: nat)
    requires k < |runs|
    ensures Range(runs[k].physical, runs[k].count) <= RunBlocks(runs)
    decreases |runs|
  {
    if k < |runs| - 1 {
      RunWithin(runs[..|runs| - 1], k);
    }
  }

  /** Write the next run after `written` blocks of the data. */
  method PutNext(disk: Disk, runs: seq<Run>, k: nat, data: seq<Byte>, written: nat) returns (ok: bool)
    requires disk.Valid() && k < |runs| && Separate(runs) && |Cells(runs[..k])| == written
    requires Stored(disk.blocks, Cells(runs[..k]), data, 0) && written + runs[k].count <= BlocksFor(|data|)
    modifies disk
    ensures disk.Valid()
    ensures Extends(old(disk.trace), disk.trace, RunBlocks(runs))
    ensures ok ==> Stored(disk.blocks, Cells(runs[..k + 1]), data, 0)
  {
    RunWithin(runs, k);
    SeparatePrefix(runs, k);
    ok := PutBlocks(disk, runs[k].physical, runs[k].count, data, written);
    ExtendsWider(old(disk.trace), disk.trace, Range(runs[k].physical, runs[k].count), RunBlocks(runs));
    if ok {
      var cells := Cells(runs[..k]);
      forall i: nat | i < |cells| ensures cells[i] !in Range(runs[k].physical, runs[k].count) {
        CellsAreBlocks(runs[..k], cells[i]);
      }
      StoredKept(old(disk.blocks), disk.blocks, cells, data, 0, Range(runs[k].physical, runs[k].count));
      StoredJoin(disk.blocks, cells, Span(runs[k].physical, runs[k].count), data);
      assert runs[..k + 1][..k] == runs[..k];
    }
  }

  /** Write the data over the runs, in order. */
  method PutRunData(disk: Disk, runs: seq<Run>, data: seq<Byte>) returns (ok: bool)
    requires disk.Valid() && Tiled(runs, BlocksFor(|data|)) && Separate(runs)
    modifies disk
    ensures disk.Valid()
    ensures Extends(old(disk.trace), disk.trace, RunBlocks(runs))
    ensures ok ==> Stored(disk.blocks, Cells(runs), data, 0)
  {
    var written := 0;
    for k := 0 to |runs|
      invariant disk.Valid() && |Cells(runs[..k])| == written
      invariant Extends(old(disk.trace), disk.trace, RunBlocks(runs))
      invariant Stored(disk.blocks, Cells(runs[..k]), data, 0)
    {
      TiledPrefix(runs, BlocksFor(|data|), k);
      TiledCells(runs[..k], runs[k].logical);
      ghost var trace := disk.trace;
      ok := PutNext(disk, runs, k, data, written);
      ExtendsTrans(old(disk.trace), trace, disk.trace, RunBlocks(runs));
      if !ok {
        return;
      }
      written := written + runs[k].count;
      assert runs[..k + 1][..k] == runs[..k];
    }
    assert runs[..|runs|] == runs;
    ok := true;
  }

  // ---- whole files ----

  lemma {:induction false} RunsStorable(runs: seq<Run>, n: nat, total: nat)
    requires Tiled(runs, n) && n < MAX_BLOCKS && RunBlocks(runs) <= Range(0, total) && total <= MAX_ADDRESS
    ensures forall k :: 0 <= k < |runs| ==> Storable(runs[k])
  {
    forall k | 0 <= k < |runs| ensures Storable(runs[k]) {
      TiledPrefix(runs, n, k);
      TiledCount(runs, n, k);
      RunWithin(runs, k);
      assert runs[k].physical in Range(runs[k].physical, runs[k].count);
      LongFits(runs[k].logical);
      LongFits(runs[k].physical);
      WordFits(runs[k].count);
    }
  }

  lemma {:induction false} TiledCount(runs: seq<Run>, n: nat, k: nat)
    requires Tiled(runs, n) && k < |runs|
    ensures runs[k].count > 0
    decreases |runs|
  {
    if k < |runs| - 1 {
      TiledCount(runs[..|runs| - 1], runs[|runs| - 1].logical, k);
    }
  }

  method GiveBack(bitmap: BlockBitmap, start: nat, count: nat, ghost before: set<nat>)
    requires bitmap.Valid() && Range(start, count) !! before && bitmap.used == before + Range(start, count)
    modifies bitmap, bitmap.bits
    ensures bitmap.Valid() && bitmap.used == before
  {
    var _, done := bitmap.FreeRange(start, count);
    assert done < count ==> start + done in Range(start, count);
  }

  /** Finish a contiguous file on the run just allocated; on failure the run is given back. */
  method FinishContiguous(disk: Disk, bitmap: BlockBitmap, log: Log, data: seq<Byte>, start: nat, ghost before: set<nat>)
      returns (r: Result<(File, nat)>)
    requires disk.Valid() && bitmap.Valid() && data != [] && bitmap.totalBlocks <= MAX_ADDRESS
    requires Range(start, BlocksFor(|data|)) !! before && bitmap.used == before + Range(start, BlocksFor(|data|))
    modifies disk, bitmap, bitmap.bits, log
    ensures disk.Valid() && bitmap.Valid()
    ensures Extends(old(disk.trace), disk.trace, Range(start, BlocksFor(|data|)))
    ensures r.Ok? ==> Installed(disk.blocks, r.value.0, data, before, bitmap.used) && r.value.1 == old(log.nextLsn) == log.nextLsn - 1
    ensures r.Err? ==> bitmap.used == before && log.nextLsn == old(log.nextLsn)
  {
    var n := BlocksFor(|data|);
    assert start in Range(start, n) && start in Range(0, bitmap.totalBlocks);
    var written := PutBlocks(disk, start, n, data, 0);
    if !written {
      GiveBack(bitmap, start, n, before);
      return Err(IoWriteFailed);
    }
    ghost var trace := disk.trace;
    var lsn := log.Append(disk);
    ExtendsWider(trace, disk.trace, {}, Range(start, n));
    ExtendsTrans(old(disk.trace), trace, disk.trace, Range(start, n));
    if lsn.Err? {
      GiveBack(bitmap, start, n, before);
      return Err(lsn.error);
    }
    var f := File(start, |data|, false);
    ContiguousHolds(disk.blocks, f, data);
    r := Ok((f, lsn.value));
  }

  /** The file holds the data on blocks that were free before. */
  ghost predicate Installed(blocks: Blocks, f: File, data: seq<Byte>, before: set<nat>, after: set<nat>)
  {
    WholeBlocks(blocks) && Holds(blocks, f, data) && Owned(blocks, f) !! before && after == before + Owned(blocks, f)
  }

  lemma ContiguousHolds(blocks: Blocks, f: File, data: seq<Byte>)
    requires WholeBlocks(blocks) && data != [] && f.root != BLOCK_NULL && f.size == |data| && !f.node
    requires Stored(blocks, Span(f.root, BlocksFor(|data|)), data, 0)
    ensures Holds(blocks, f, data) && Owned(blocks, f) == Range(f.root, BlocksFor(|data|))
  {
    var run := Whole(f.root, f.size);
    OneRun(run);
    LastRun([], run);
    assert [] + [run] == [run];
    assert Cells([run]) == Span(f.root, BlocksFor(|data|));
  }

  lemma NodeHolds(blocks: Blocks, f: File, runs: seq<Run>, data: seq<Byte>)
    requires WholeBlocks(blocks) && f.root != BLOCK_NULL && f.size == |data| && f.node
    requires Tiled(runs, BlocksFor(|data|)) && AllDifferent(Cells(runs)) && Stored(blocks, Cells(runs), data, 0)
    requires f.root !in RunBlocks(runs) && f.root in blocks && ParseNode(blocks[f.root]) == Ok(runs)
    ensures Holds(blocks, f, data) && Owned(blocks, f) == RunBlocks(runs) + {f.root}
  {
    CellsAreBlocks(runs, f.root);
  }

  /** Store the node of a fragmented file on the block just allocated. */
  method PutNode(disk: Disk, node: nat, runs: seq<Run>, data: seq<Byte>, ghost total: nat) returns (r: Result<()>)
    requires disk.Valid() && data != [] && BlocksFor(|data|) < MAX_BLOCKS && total <= MAX_ADDRESS
    requires Tiled(runs, BlocksFor(|data|)) && AllDifferent(Cells(runs)) && Stored(disk.blocks, Cells(runs), data, 0)
    requires node < total && RunBlocks(runs) <= Range(0, total) && node !in RunBlocks(runs)
    modifies disk
    ensures disk.Valid() && Extends(old(disk.trace), disk.trace, {node})
    ensures r.Ok? ==> Holds(disk.blocks, File(node, |data|, true), data)
    ensures r.Ok? ==> Owned(disk.blocks, File(node, |data|, true)) == RunBlocks(runs) + {node}
  {
    RunsStorable(runs, BlocksFor(|data|), total);
    var bytes := SerializeNode(runs);
    if bytes.Err? {
      return Err(bytes.error);
    }
    NodeRoundTrip(runs);
    var ok := disk.Write(node, bytes.value);
    if !ok {
      return Err(IoWriteFailed);
    }
    forall i: nat | i < |Cells(runs)| ensures Cells(runs)[i] !in {node} {
      CellsAreBlocks(runs, Cells(runs)[i]);
    }
    StoredKept(old(disk.blocks), disk.blocks, Cells(runs), data, 0, {node});
    NodeHolds(disk.blocks, File(node, |data|, true), runs, data);
    r := Ok(());
  }

  /** Store the node and log the write. */
  method StoreNode(disk: Disk, log: Log, node: nat, runs: seq<Run>, data: seq<Byte>, ghost total: nat) returns (lsn: Result<nat>)
    requires disk.Valid() && data != [] && BlocksFor(|data|) < MAX_BLOCKS && total <= MAX_ADDRESS
    requires Tiled(runs, BlocksFor(|data|)) && AllDifferent(Cells(runs)) && Stored(disk.blocks, Cells(runs), data, 0)
    requires node < total && RunBlocks(runs) <= Range(0, total) && node !in RunBlocks(runs)
    modifies disk, log
    ensures disk.Valid() && Extends(old(disk.trace), disk.trace, {node})
    ensures lsn.Ok? ==> Holds(disk.blocks, File(node, |data|, true), data)
    ensures lsn.Ok? ==> Owned(disk.blocks, File(node, |data|, true)) == RunBlocks(runs) + {node}
    ensures lsn.Ok? ==> lsn.value == old(log.nextLsn) == log.nextLsn - 1
    ensures lsn.Err? ==> log.nextLsn == old(log.nextLsn)
  {
    var stored := PutNode(disk, node, runs, data, total);
    if stored.Err? {
      return Err(stored.error);
    }
    ghost var trace := disk.trace;
    lsn := log.Append(disk);
    ExtendsWider(trace, disk.trace, {}, {node});
    ExtendsTrans(old(disk.trace), trace, disk.trace, {node});
  }

  /** Give the runs of a fragmented file back. */
  method GiveBackRuns(bitmap: BlockBitmap, runs: seq<Run>, ghost before: set<nat>)
    requires bitmap.Valid() && Separate(runs) && RunBlocks(runs) !! before && bitmap.used == before + RunBlocks(runs)
    modifies bitmap, bitmap.bits
    ensures bitmap.Valid() && bitmap.used == before
  {
    FreedRunsFacts(bitmap.used, runs);
    FreeRuns(bitmap, runs);
  }

  /** Give the node and then the runs back. */
  method GiveBackNode(bitmap: BlockBitmap, node: nat, runs: seq<Run>, ghost before: set<nat>)
    requires bitmap.Valid() && Separate(runs) && RunBlocks(runs) !! before && node !in before + RunBlocks(runs)
    requires bitmap.used == before + RunBlocks(runs) + {node}
    modifies bitmap, bitmap.bits
    ensures bitmap.Valid() && bitmap.used == before
  {
    var _ := bitmap.FreeBlock(node);
    assert bitmap.used == before + RunBlocks(runs);
    GiveBackRuns(bitmap, runs, before);
  }

  /** Finish a fragmented file whose data is written, on the node block just allocated. */
  method FinishNode(disk: Disk, bitmap: BlockBitmap, log: Log, data: seq<Byte>, runs: seq<Run>, node: nat, ghost before: set<nat>)
      returns (r: Result<(File, nat)>)
    requires disk.Valid() && bitmap.Valid() && data != [] && BlocksFor(|data|) < MAX_BLOCKS && bitmap.totalBlocks <= MAX_ADDRESS
    requires Fresh(runs, BlocksFor(|data|), before, before + RunBlocks(runs)) && Separate(runs)
    requires Stored(disk.blocks, Cells(runs), data, 0)
    requires node !in before + RunBlocks(runs) && bitmap.used == before + RunBlocks(runs) + {node}
    modifies disk, bitmap, bitmap.bits, log
    ensures disk.Valid() && bitmap.Valid()
    ensures Extends(old(disk.trace), disk.trace, {node})
    ensures r.Ok? ==> Installed(disk.blocks, r.value.0, data, before, bitmap.used) && r.value.1 == old(log.nextLsn) == log.nextLsn - 1
    ensures r.Err? ==> bitmap.used == before && log.nextLsn == old(log.nextLsn)
  {
    assert node in Range(0, bitmap.totalBlocks);
    var lsn := StoreNode(disk, log, node, runs, data, bitmap.totalBlocks);
    if lsn.Err? {
      GiveBackNode(bitmap, node, runs, before);
      return Err(lsn.error);
    }
    r := Ok((File(node, |data|, true), lsn.value));
  }

  /** Finish a fragmented file on the runs just allocated; on failure everything is given back. */
  method FinishFragmented(disk: Disk, bitmap: BlockBitmap, log: Log, data: seq<Byte>, runs: seq<Run>, ghost before: set<nat>)
      returns (r: Result<(File, nat)>)
    requires disk.Valid() && bitmap.Valid() && data != [] && BlocksFor(|data|) < MAX_BLOCKS && bitmap.totalBlocks <= MAX_ADDRESS
    requires Fresh(runs, BlocksFor(|data|), before, bitmap.used)
    modifies disk, bitmap, bitmap.bits, log
    ensures disk.Valid() && bitmap.Valid()
    ensures Extends(old(disk.trace), disk.trace, Range(0, bitmap.totalBlocks) - before)
    ensures r.Ok? ==> Installed(disk.blocks, r.value.0, data, before, bitmap.used) && r.value.1 == old(log.nextLsn) == log.nextLsn - 1
    ensures r.Err? ==> bitmap.used == before && log.nextLsn == old(log.nextLsn)
  {
    DifferentIsSeparate(runs);
    ghost var room := Range(0, bitmap.totalBlocks) - before;
    assert RunBlocks(runs) <= room;
    var written := PutRunData(disk, runs, data);
    ExtendsWider(old(disk.trace), disk.trace, RunBlocks(runs), room);
    if !written {
      GiveBackRuns(bitmap, runs, before);
      return Err(IoWriteFailed);
    }
    var node, _ := bitmap.AllocBlock();
    if node.Err? {
      GiveBackRuns(bitmap, runs, before);
      return Err(node.error);
    }
    assert node.value in room;
    ghost var trace := disk.trace;
    r := FinishNode(disk, bitmap, log, data, runs, node.value, before);
    ExtendsWider(trace, disk.trace, {node.value}, room);
    ExtendsTrans(old(disk.trace), trace, disk.trace, room);
  }

  /**
   Store data in extents. Success installs it on blocks that were free and nothing else changes. Failure
   changes nothing, except that a write which does not fit in the free space takes all of it.
   */
  method WriteExtents(disk: Disk, bitmap: BlockBitmap, log: Log, data: seq<Byte>) returns (r: Result<(File, nat)>)
    requires disk.Valid() && bitmap.Valid() && data != [] && BlocksFor(|data|) < MAX_BLOCKS && bitmap.totalBlocks <= MAX_ADDRESS
    modifies disk, bitmap, bitmap.bits, log
    ensures disk.Valid() && bitmap.Valid()
    ensures Extends(old(disk.trace), disk.trace, Range(0, bitmap.totalBlocks) - old(bitmap.used))
    ensures r.Ok? ==> Installed(disk.blocks, r.value.0, data, old(bitmap.used), bitmap.used)
    ensures r.Ok? ==> r.value.1 == old(log.nextLsn) == log.nextLsn - 1
    ensures r.Err? ==> log.nextLsn == old(log.nextLsn)
    ensures old(bitmap.freeCount) < BlocksFor(|data|) ==> r == Err(NoSpace)
    ensures r.Err? ==> bitmap.used == if old(bitmap.freeCount) < BlocksFor(|data|) then Range(0, bitmap.totalBlocks) else old(bitmap.used)
  {
    var n := BlocksFor(|data|);
    RoomForRun(bitmap.used, bitmap.totalBlocks, n);
    var start := bitmap.AllocContiguous(n);
    if start.Ok? {
      assert Range(start.value, n) <= Range(0, bitmap.totalBlocks) - old(bitmap.used);
      r := FinishContiguous(disk, bitmap, log, data, start.value, old(bitmap.used));
      ExtendsWider(old(disk.trace), disk.trace, Range(start.value, n), Range(0, bitmap.totalBlocks) - old(bitmap.used));
      return;
    }
    var runs := AllocFragments(bitmap, n);
    if runs.Err? {
      return Err(runs.error);
    }
    r := FinishFragmented(disk, bitmap, log, data, runs.value, old(bitmap.used));
  }
}
