/** The blocks a file owns: freeing them, and marking them when the bitmap is rebuilt from the index. */
module Ownership {
  import opened Bytes
  import opened Helix
  import opened Extent
  import opened FileRead
  import opened Bitmap
  import opened Prelude

  function RunBlocks(runs: seq<Run>): set<nat>
  {
    if runs == [] then {}
    else
      var last := runs[|runs| - 1];
      RunBlocks(runs[..|runs| - 1]) + Range(last.physical, last.count)
  }

  /** The blocks of a file's runs and, for a fragmented file, its node; of a node that cannot be read only the node itself. */
  function Owned(blocks: Blocks, f: File): set<nat>
    requires WholeBlocks(blocks)
  {
    (if f.node then {f.root} else {}) + (match RunsOf(blocks, f) case Ok(runs) => RunBlocks(runs) case Err(_) => {})
  }

  /** No run overlaps an earlier one. */
  predicate Separate(runs: seq<Run>)
  {
    runs == [] ||
    (var last := runs[|runs| - 1];
     Separate(runs[..|runs| - 1]) && Range(last.physical, last.count) !! RunBlocks(runs[..|runs| - 1]))
  }

  /** The file's blocks are listed once each. */
  predicate Clean(blocks: Blocks, f: File)
    requires WholeBlocks(blocks)
  {
    RunsOf(blocks, f).Ok? ==>
      Separate(RunsOf(blocks, f).value) && (f.node ==> f.root !in RunBlocks(RunsOf(blocks, f).value))
  }

  lemma {:induction false} CellsAreBlocks(runs: seq<Run>, b: nat)
    ensures b in Cells(runs) <==> b in RunBlocks(runs)
  {
    if runs != [] {
      CellsAreBlocks(runs[..|runs| - 1], b);
      var last := runs[|runs| - 1];
      if b in Range(last.physical, last.count) {
        assert Span(last.physical, last.count)[b - last.physical] == b;
      }
    }
  }

  lemma {:induction false} DifferentIsSeparate(runs: seq<Run>)
    requires AllDifferent(Cells(runs))
    ensures Separate(runs)
  {
    if runs != [] {
      var init, last := runs[..|runs| - 1], runs[|runs| - 1];
      var before, span := Cells(init), Span(last.physical, last.count);
      assert forall i :: 0 <= i < |before| ==> (before + span)[i] == before[i];
      DifferentIsSeparate(init);
      forall b | b in Range(last.physical, last.count) ensures b !in RunBlocks(init) {
        CellsAreBlocks(init, b);
        assert (before + span)[|before| + (b - last.physical)] == b;
      }
    }
  }

  /** A stored file lists its blocks once each. */
  lemma HoldsIsClean(blocks: Blocks, f: File, data: seq<Byte>)
    requires WholeBlocks(blocks) && Holds(blocks, f, data)
    ensures Clean(blocks, f)
  {
    var runs := RunsOf(blocks, f).value;
    DifferentIsSeparate(runs);
    CellsAreBlocks(runs, f.root);
  }

  // ---- freeing ----

  /** How many blocks of the range are in use before the first that is not. */
  function Leading(used: set<nat>, start: nat, count: nat): nat
    decreases count
  {
    if count == 0 || start !in used then 0 else 1 + Leading(used, start + 1, count - 1)
  }

  lemma {:induction false} LeadingIs(used: set<nat>, start: nat, count: nat, done: nat)
    requires done <= count && Range(start, done) <= used && (done < count ==> start + done !in used)
    ensures Leading(used, start, count) == done
    decreases count
  {
    if done > 0 {
      assert start in Range(start, done);
      assert Range(start + 1, done - 1) <= Range(start, done);
      LeadingIs(used, start + 1, count - 1, done - 1);
    }
  }

  /** What stays in use when a run is freed: freeing stops at the first block not in use. */
  function FreedRun(used: set<nat>, run: Run): set<nat>
  {
    used - Range(run.physical, Leading(used, run.physical, run.count))
  }

  function FreedRuns(used: set<nat>, runs: seq<Run>): set<nat>
  {
    if runs == [] then used else FreedRun(FreedRuns(used, runs[..|runs| - 1]), runs[|runs| - 1])
  }

  /** What stays in use when a file is freed. */
  function FreedFile(blocks: Blocks, used: set<nat>, f: File): set<nat>
    requires WholeBlocks(blocks)
  {
    if f.root == BLOCK_NULL then used
    else match RunsOf(blocks, f)
      case Ok(runs) => FreedRuns(used, runs) - if f.node then {f.root} else {}
      case Err(_) => used - {f.root}
  }

  /** Runs that overlap can leave a block behind: after block 5, the run of blocks 4 to 6 stops at 5. */
  lemma OverlapLeaks()
    ensures var runs := [Run(0, 5, 1), Run(1, 4, 3)];
            RunBlocks(runs) == {4, 5, 6} && FreedRuns({4, 5, 6}, runs) == {6}
  {
    var a, b := Run(0, 5, 1), Run(1, 4, 3);
    var runs := [a, b];
    assert runs[..1] == [a] && [a][..0] == [];
    assert Range(5, 1) == {5} && Range(4, 3) == {4, 5, 6} && Range(4, 1) == {4};
    LeadingIs({4, 5, 6}, 5, 1, 1);
    assert FreedRuns({4, 5, 6}, [a]) == {4, 6};
    LeadingIs({4, 6}, 4, 3, 1);
    assert RunBlocks([a]) == {5};
  }

  lemma {:induction false} LeadingWithin(used: set<nat>, start: nat, count: nat)
    ensures Leading(used, start, count) <= count && Range(start, Leading(used, start, count)) <= used
    decreases count
  {
    if count > 0 && start in used {
      LeadingWithin(used, start + 1, count - 1);
      var n := Leading(used, start + 1, count - 1);
      assert Range(start, n + 1) == {start} + Range(start + 1, n);
    }
  }

  /** Freeing a run frees nothing outside it, and all of it if it is in use. */
  lemma FreedRunFacts(used: set<nat>, run: Run)
    ensures FreedRun(used, run) <= used && used - FreedRun(used, run) <= Range(run.physical, run.count)
    ensures Range(run.physical, run.count) <= used ==> FreedRun(used, run) == used - Range(run.physical, run.count)
  {
    LeadingWithin(used, run.physical, run.count);
    assert Range(run.physical, Leading(used, run.physical, run.count)) <= Range(run.physical, run.count);
    if Range(run.physical, run.count) <= used {
      LeadingIs(used, run.physical, run.count, run.count);
    }
  }

  /** Freeing runs frees nothing outside them, and all of them if they are in use and do not overlap. */
  lemma {:induction false} FreedRunsFacts(used: set<nat>, runs: seq<Run>)
    ensures FreedRuns(used, runs) <= used && used - FreedRuns(used, runs) <= RunBlocks(runs)
    ensures Separate(runs) && RunBlocks(runs) <= used ==> FreedRuns(used, runs) == used - RunBlocks(runs)
  {
    if runs != [] {
      var init, last := runs[..|runs| - 1], runs[|runs| - 1];
      FreedRunsFacts(used, init);
      FreedRunFacts(FreedRuns(used, init), last);
      assert RunBlocks(runs) == RunBlocks(init) + Range(last.physical, last.count);
    }
  }

  lemma FreedOne(used: set<nat>, run: Run)
    ensures FreedRuns(used, [run]) == FreedRun(used, run)
  {
    assert [run][..0] == [];
  }

  lemma FreedFileFacts(blocks: Blocks, used: set<nat>, f: File)
    requires WholeBlocks(blocks)
    ensures FreedFile(blocks, used, f) <= used && used - FreedFile(blocks, used, f) <= Owned(blocks, f)
    ensures f.root != BLOCK_NULL && Clean(blocks, f) && Owned(blocks, f) <= used ==> FreedFile(blocks, used, f) == used - Owned(blocks, f)
  {
    match RunsOf(blocks, f)
    case Ok(runs) => FreedRunsFacts(used, runs);
    case Err(_) =>
  }

  method FreeRuns(bitmap: BlockBitmap, runs: seq<Run>)
    requires bitmap.Valid()
    modifies bitmap, bitmap.bits
    ensures bitmap.Valid() && bitmap.used == FreedRuns(old(bitmap.used), runs)
  {
    for k := 0 to |runs|
      invariant bitmap.Valid() && bitmap.used == FreedRuns(old(bitmap.used), runs[..k])
    {
      assert runs[..k + 1][..k] == runs[..k];
      FreeOneRun(bitmap, runs[k]);
    }
    assert runs[..|runs|] == runs;
  }

  method FreeOneRun(bitmap: BlockBitmap, run: Run)
    requires bitmap.Valid()
    modifies bitmap, bitmap.bits
    ensures bitmap.Valid() && bitmap.used == FreedRun(old(bitmap.used), run)
  {
    var _, done := bitmap.FreeRange(run.physical, run.count);
    LeadingIs(old(bitmap.used), run.physical, run.count, done);
  }

  /**
   Free what a file owns, run by run up to the first block not in use: never anything else, and all of it when
   the blocks are in use and listed once each.
   */
  method FreeFileBlocks(blocks: Blocks, bitmap: BlockBitmap, f: File)
    requires WholeBlocks(blocks) && bitmap.Valid()
    modifies bitmap, bitmap.bits
    ensures bitmap.Valid() && bitmap.used == FreedFile(blocks, old(bitmap.used), f)
    ensures bitmap.used <= old(bitmap.used) && old(bitmap.used) - bitmap.used <= Owned(blocks, f)
    ensures f.root == BLOCK_NULL ==> bitmap.used == old(bitmap.used)
    ensures f.root != BLOCK_NULL && Clean(blocks, f) && Owned(blocks, f) <= old(bitmap.used) ==>
              bitmap.used == old(bitmap.used) - Owned(blocks, f)
  {
    FreedFileFacts(blocks, bitmap.used, f);
    if f.root == BLOCK_NULL {
      return;
    }
    if f.node {
      FreeNodeFile(blocks, bitmap, f);
    } else {
      FreedOne(bitmap.used, Whole(f.root, f.size));
      FreeOneRun(bitmap, Whole(f.root, f.size));
    }
  }

  /** Free the runs a node lists, if it can be read, and then the node itself. */
  method FreeNodeFile(blocks: Blocks, bitmap: BlockBitmap, f: File)
    requires WholeBlocks(blocks) && bitmap.Valid() && f.node && f.root != BLOCK_NULL
    modifies bitmap, bitmap.bits
    ensures bitmap.Valid() && bitmap.used == FreedFile(blocks, old(bitmap.used), f)
  {
    if f.root in blocks {
      var runs := ReadNode(blocks[f.root]);
      if runs.Ok? {
        FreeRuns(bitmap, runs.value);
      }
    }
    var _ := bitmap.FreeBlock(f.root);
  }

  lemma OneRun(run: Run)
    ensures RunBlocks([run]) == Range(run.physical, run.count) && Separate([run])
  {
    assert [run][..0] == [];
    assert RunBlocks([run][..0]) == {};
  }

  // ---- rebuilding ----

  /** The part of an index entry the rebuild looks at. */
  datatype Target = Target(dir: bool, deleted: bool, inline: bool, file: File)

  predicate ExtentBacked(e: Target)
  {
    !e.deleted && !e.dir && !e.inline && e.file.root != BLOCK_NULL
  }

  /** The blocks owned by the live extent-backed entries. */
  function LiveBlocks(blocks: Blocks, entries: seq<Target>): set<nat>
    requires WholeBlocks(blocks)
  {
    if entries == [] then {}
    else
      var e := entries[|entries| - 1];
      LiveBlocks(blocks, entries[..|entries| - 1]) + EntryBlocks(blocks, e)
  }

  function EntryBlocks(blocks: Blocks, e: Target): set<nat>
    requires WholeBlocks(blocks)
  {
    if ExtentBacked(e) then Owned(blocks, e.file) else {}
  }

  method MarkRuns(bitmap: BlockBitmap, runs: seq<Run>)
    requires bitmap.Valid()
    modifies bitmap`freeCount, bitmap`used, bitmap.bits
    ensures bitmap.Valid()
    ensures bitmap.used == old(bitmap.used) + RunBlocks(runs) * Range(0, bitmap.totalBlocks)
  {
    for k := 0 to |runs|
      invariant bitmap.Valid()
      invariant bitmap.used == old(bitmap.used) + RunBlocks(runs[..k]) * Range(0, bitmap.totalBlocks)
    {
      assert runs[..k + 1][..k] == runs[..k];
      bitmap.MarkRangeUsed(runs[k].physical, runs[k].count);
    }
    assert runs[..|runs|] == runs;
  }

  /** Mark a node and the runs it lists, if it can be read. */
  method MarkNodeFile(blocks: Blocks, bitmap: BlockBitmap, f: File)
    requires WholeBlocks(blocks) && bitmap.Valid() && f.node
    modifies bitmap`freeCount, bitmap`used, bitmap.bits
    ensures bitmap.Valid()
    ensures bitmap.used == old(bitmap.used) + Owned(blocks, f) * Range(0, bitmap.totalBlocks)
  {
    ghost var all := Range(0, bitmap.totalBlocks);
    bitmap.MarkBlockUsed(f.root);
    ghost var node := bitmap.used;
    assert node == old(bitmap.used) + {f.root} * all;
    if f.root in blocks {
      var runs := ReadNode(blocks[f.root]);
      if runs.Ok? {
        MarkRuns(bitmap, runs.value);
        assert ({f.root} + RunBlocks(runs.value)) * all == {f.root} * all + RunBlocks(runs.value) * all;
      }
    }
  }

  method MarkFile(blocks: Blocks, bitmap: BlockBitmap, f: File)
    requires WholeBlocks(blocks) && bitmap.Valid()
    modifies bitmap`freeCount, bitmap`used, bitmap.bits
    ensures bitmap.Valid()
    ensures bitmap.used == old(bitmap.used) + Owned(blocks, f) * Range(0, bitmap.totalBlocks)
  {
    if f.node {
      MarkNodeFile(blocks, bitmap, f);
    } else {
      var needed := BlocksFor(f.size);
      OneRun(Whole(f.root, f.size));
      if needed > 0 {
        bitmap.MarkRangeUsed(f.root, needed);
      }
    }
  }

  method MarkEntry(blocks: Blocks, bitmap: BlockBitmap, e: Target)
    requires WholeBlocks(blocks) && bitmap.Valid()
    modifies bitmap`freeCount, bitmap`used, bitmap.bits
    ensures bitmap.Valid()
    ensures bitmap.used == old(bitmap.used) + EntryBlocks(blocks, e) * Range(0, bitmap.totalBlocks)
  {
    if ExtentBacked(e) {
      MarkFile(blocks, bitmap, e.file);
    }
  }

  method MarkLive(blocks: Blocks, bitmap: BlockBitmap, entries: seq<Target>)
    requires WholeBlocks(blocks) && bitmap.Valid()
    modifies bitmap`freeCount, bitmap`used, bitmap.bits
    ensures bitmap.Valid()
    ensures bitmap.used == old(bitmap.used) + LiveBlocks(blocks, entries) * Range(0, bitmap.totalBlocks)
  {
    for k := 0 to |entries|
      invariant bitmap.Valid()
      invariant bitmap.used == old(bitmap.used) + LiveBlocks(blocks, entries[..k]) * Range(0, bitmap.totalBlocks)
    {
      LiveGrows(blocks, entries, k, Range(0, bitmap.totalBlocks));
      MarkEntry(blocks, bitmap, entries[k]);
    }
    assert entries[..|entries|] == entries;
  }

  lemma LiveGrows(blocks: Blocks, entries: seq<Target>, k: nat, room: set<nat>)
    requires WholeBlocks(blocks) && k < |entries|
    ensures LiveBlocks(blocks, entries[..k + 1]) * room
         == LiveBlocks(blocks, entries[..k]) * room + EntryBlocks(blocks, entries[k]) * room
  {
    assert entries[..k + 1][..k] == entries[..k];
  }

  /** Mark exactly what the live extent-backed entries own and the index region; overlaps count once. */
  method RebuildBitmap(blocks: Blocks, bitmap: BlockBitmap, entries: seq<Target>, indexRoot: nat, indexBlocks: nat)
    requires WholeBlocks(blocks) && bitmap.Valid() && bitmap.used == {}
    modifies bitmap`freeCount, bitmap`used, bitmap.bits
    ensures bitmap.Valid()
    ensures bitmap.used == (LiveBlocks(blocks, entries) + IndexRegion(indexRoot, indexBlocks)) * Range(0, bitmap.totalBlocks)
    ensures bitmap.freeCount == bitmap.totalBlocks - |bitmap.used|
  {
    MarkLive(blocks, bitmap, entries);
    if indexRoot != BLOCK_NULL {
      bitmap.MarkRangeUsed(indexRoot, indexBlocks);
    }
  }

  function IndexRegion(root: nat, count: nat): set<nat>
  {
    if root == BLOCK_NULL then {} else Range(root, count)
  }

  /** Freeing an entry that shares no block takes away exactly what the rebuild would not mark without it. */
  lemma FreeUndoesMark(blocks: Blocks, entries: seq<Target>, k: nat)
    requires WholeBlocks(blocks) && k < |entries| && ExtentBacked(entries[k])
    requires Owned(blocks, entries[k].file) !! LiveBlocks(blocks, entries[..k] + entries[k + 1..])
    ensures LiveBlocks(blocks, entries) - Owned(blocks, entries[k].file) == LiveBlocks(blocks, entries[..k] + entries[k + 1..])
  {
    var before, after := entries[..k], entries[k + 1..];
    assert entries == before + [entries[k]] + after;
    LiveSplit(blocks, before + [entries[k]], after);
    LiveSplit(blocks, before, after);
    LiveOneMore(blocks, before, entries[k]);
  }

  lemma LiveOneMore(blocks: Blocks, entries: seq<Target>, e: Target)
    requires WholeBlocks(blocks)
    ensures LiveBlocks(blocks, entries + [e]) == LiveBlocks(blocks, entries) + EntryBlocks(blocks, e)
  {
    assert (entries + [e])[..|entries|] == entries;
  }

  lemma {:induction false} LiveSplit(blocks: Blocks, a: seq<Target>, b: seq<Target>)
    requires WholeBlocks(blocks)
    ensures LiveBlocks(blocks, a + b) == LiveBlocks(blocks, a) + LiveBlocks(blocks, b)
    decreases |b|
  {
    if b == [] {
      assert a + b == a;
    } else {
      LiveSplit(blocks, a, b[..|b| - 1]);
      assert (a + b)[..|a + b| - 1] == a + b[..|b| - 1];
    }
  }

  lemma {:induction false} LiveBlocksAt(blocks: Blocks, entries: seq<Target>, b: nat)
    requires WholeBlocks(blocks)
    ensures b in LiveBlocks(blocks, entries) <==> exists i :: 0 <= i < |entries| && b in EntryBlocks(blocks, entries[i])
  {
    if entries != [] {
      var init := entries[..|entries| - 1];
      LiveBlocksAt(blocks, init, b);
      if i :| 0 <= i < |init| && b in EntryBlocks(blocks, init[i]) {
        assert entries[i] == init[i];
      }
      if i :| 0 <= i < |entries| && b in EntryBlocks(blocks, entries[i]) {
        assert i < |init| ==> init[i] == entries[i];
      }
    }
  }
}
