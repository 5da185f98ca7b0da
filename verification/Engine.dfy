/** The HelixFS engine: writing files, snapshots, checkpoints of the index, and the superblock slots. */
module Engine {
  import opened Bytes
  import opened Helix
  import opened Bitmap
  import opened FileRead
  import opened FileWrite
  import opened Ownership
  import opened Device
  import opened Checkpoint
  import opened EngineSpec
  import opened CrashSpec
  import opened EngineState
  import opened Prelude

  const INLINE_SIZE: nat := 96
  const MAX_TRUNCATE_GROW: nat := 0x10_0000

  datatype Request = WriteTo(path: Path, data: seq<Byte>) | TruncateTo(path: Path, size: nat) | TakeSnapshot | Syncing | Checkpointing

  /** Run lengths are 32-bit. */
  predicate Sized(request: Request)
  {
    match request
    case WriteTo(_, data) => BlocksFor(|data|) < MAX_BLOCKS
    case TruncateTo(_, size) => BlocksFor(size) < MAX_BLOCKS
    case _ => true
  }

  class HelixFs {
    const disk: Disk
    const bitmap: BlockBitmap
    const log: Log
    const encode: Encoder
    var index: Index
    var snapshots: seq<nat>
    var sb: Superblock
    /** Who owns each allocated block, and the file version stored there. */
    ghost var owners: Owners
    ghost var holdings: Holdings
    /** What each snapshot saw. */
    ghost var pins: Pins
    /** The index after each sequence number. */
    ghost var history: History
    /** The syncs that succeeded. */
    ghost var synced: set<Synced>

    ghost function State(): Fs
      reads this, disk, bitmap, log
    {
      Fs(disk.trace, bitmap.used, sb, index, log.nextLsn, owners, holdings, pins, history, synced, encode)
    }

    ghost predicate PartsValid()
      reads this, disk, bitmap, bitmap.bits
    {
      && disk.Valid() && bitmap.Valid() && bitmap.totalBlocks <= MAX_ADDRESS
      && (forall s :: s in snapshots <==> s in pins)
    }

    ghost predicate Valid()
      reads this, disk, bitmap, bitmap.bits, log
    {
      PartsValid() && log.nextLsn > 0 && Sound(State(), None)
    }

    /** An empty file system on a device whose slots agree. */
    constructor (disk: Disk, bitmap: BlockBitmap, log: Log, encode: Encoder, sb: Superblock)
      requires disk.Valid() && bitmap.Valid() && bitmap.used == {} && bitmap.totalBlocks <= MAX_ADDRESS
      requires log.nextLsn == 1 && sb.committedLsn == 0 && sb.indexRoot == BLOCK_NULL && |disk.trace| == 1 && SlotsAgree(disk.Now(), sb)
      ensures Valid() && this.disk == disk && this.bitmap == bitmap && this.log == log && this.encode == encode
      ensures index == map[] && snapshots == [] && this.sb == sb
    {
      this.disk, this.bitmap, this.log, this.encode, this.sb := disk, bitmap, log, encode, sb;
      index, snapshots := map[], [];
      owners, holdings, pins, history, synced := map[], map[], map[], [map[]], {};
      new;
      EmptySound(State());
    }

    ghost function Contents(p: Path): Option<seq<Byte>>
      reads this
    {
      ContentsIn(index, holdings, p)
    }

    // ---- superblock slots ----

    /** Begin writing a slot; everything written before must be durable. */
    method PutSlot(slot: nat) returns (ok: bool)
      requires Valid() && Flushed(sb) && slot < 2 && disk.Now().dirty == {}
      modifies disk`trace
      ensures Valid() && disk.trace == old(disk.trace) + [SlotWritten(old(disk.Now()), slot, sb, ok)]
    {
      ghost var s := State();
      ok := disk.WriteSlot(slot, sb);
      SlotStep(s, slot, ok, disk.Now());
      assert State() == s.(trace := s.trace + [disk.Now()]);
    }

    method FlushDevice() returns (r: Result<()>)
      requires Valid()
      modifies disk`trace
      ensures Valid() && disk.trace == old(disk.trace) + [if r.Ok? then Settled(old(disk.Now())) else old(disk.Now())]
      ensures r.Err? ==> r.error == IoFlushFailed
    {
      ghost var s := State();
      var ok := disk.Flush();
      FlushStep(s, disk.Now(), None);
      assert State() == s.(trace := s.trace + [disk.Now()]);
      r := if ok then Ok(()) else Err(IoFlushFailed);
    }

    /**
     Write one slot and flush. If the write fails the slot may be torn, and no later flush will settle it.
     A crash meanwhile may leave no valid copy exactly when the other slot might be torn.
     */
    method WriteSuperblock(slot: nat) returns (r: Result<()>)
      requires Valid() && Flushed(sb) && slot < 2 && disk.Now().dirty == {}
      modifies disk`trace
      ensures Valid() && disk.Now().dirty == {}
      ensures r.Err? ==> r.error == IoWriteFailed || r.error == IoFlushFailed
      ensures disk.trace == old(disk.trace) + SlotTrace(old(disk.Now()), slot, sb, r != Err(IoWriteFailed), r.Ok?)
      ensures r.Ok? ==> disk.Now().slots[slot] == SlotState({Copy(sb)}, Some(Copy(sb)))
      ensures r == Err(IoWriteFailed) ==> Torn in disk.Now().slots[slot].maybe && disk.Now().slots[slot].latest.None?
      ensures LosesBoth(disk.trace, |old(disk.trace)|) <==> Torn in old(disk.Now().slots[1 - slot].maybe)
    {
      ghost var t, m := disk.trace, disk.Now();
      var ok := PutSlot(slot);
      ghost var m1 := disk.Now();
      SlotMoments(t, slot, sb, ok, [m1]);
      if !ok {
        assert SlotTrace(m, slot, sb, false, false) == [m1];
        return Err(IoWriteFailed);
      }
      r := FlushDevice();
      assert disk.trace == t + [m1, disk.Now()];
      assert SlotTrace(m, slot, sb, true, r.Ok?) == [m1, disk.Now()];
      SlotMoments(t, slot, sb, true, [m1, disk.Now()]);
    }

    /**
     Write both slots, one after the other, and flush. There is a moment at which a crash may leave no valid
     copy exactly when the second slot might already be torn.
     */
    method WriteSlots() returns (r: Result<()>, ghost end: CommitEnd)
      requires Valid() && Flushed(sb) && disk.Now().dirty == {}
      modifies disk`trace
      ensures Valid()
      ensures !end.LogUnwritten? && !end.LogUnflushed? && (r.Ok? <==> end.Committed?)
      ensures disk.trace == old(disk.trace) + SlotsTrace(old(disk.Now()), sb, end)
      ensures r.Ok? ==> SlotsAgree(disk.Now(), sb) && disk.Now().dirty == {}
      ensures LosesBoth(disk.trace, |old(disk.trace)|) <==> Torn in old(disk.Now().slots[1].maybe)
    {
      ghost var t := disk.trace;
      r, end := WriteBoth();
      SlotsMoments(t, sb, end);
      if end.Committed? {
        SlotsCommitted(t, disk.trace, sb);
      }
    }

    /** Write the first slot and, if that went well, the second. */
    method WriteBoth() returns (r: Result<()>, ghost end: CommitEnd)
      requires Valid() && Flushed(sb) && disk.Now().dirty == {}
      modifies disk`trace
      ensures Valid()
      ensures !end.LogUnwritten? && !end.LogUnflushed? && (r.Ok? <==> end.Committed?)
      ensures disk.trace == old(disk.trace) + SlotsTrace(old(disk.Now()), sb, end)
    {
      ghost var t := disk.trace;
      r := WriteSuperblock(0);
      if r.Err? {
        end := if r.error == IoWriteFailed then FirstUnwritten else FirstUnflushed;
      } else {
        ghost var t1 := disk.trace;
        r, end := WriteSecond();
        SlotsJoined(t, t1, disk.trace, sb, end);
      }
    }

    /** Write the second slot and flush once more. */
    method WriteSecond() returns (r: Result<()>, ghost end: CommitEnd)
      requires Valid() && Flushed(sb) && disk.Now().dirty == {}
      modifies disk`trace
      ensures Valid() && InSecond(end) && (r.Ok? <==> end.Committed?)
      ensures disk.trace == old(disk.trace) + SecondTrace(old(disk.Now()), sb, end)
    {
      r := WriteSuperblock(1);
      if r.Err? {
        end := if r.error == IoWriteFailed then SecondUnwritten else SecondUnflushed;
      } else {
        r := FlushDevice();
        end := if r.Ok? then Committed else LastUnflushed;
      }
    }

    /** Flush the log, and with it the device. */
    method FlushLog() returns (r: Result<nat>)
      requires Valid()
      modifies disk`trace
      ensures Valid()
      ensures r.Ok? ==> disk.trace == old(disk.trace) + [Settled(old(disk.Now()))] && r.value == log.nextLsn - 1
      ensures r.Err? ==> disk.trace == old(disk.trace) || disk.trace == old(disk.trace) + [old(disk.Now())]
    {
      ghost var s := State();
      r := log.Flush(disk);
      FreeWrites(s, disk.trace, {}, None);
      assert State() == s.(trace := disk.trace);
    }

    /**
     Flush the log, then write both slots. `end` is where it ended, which decides the moments the device went
     through; a sync that succeeds is remembered.
     */
    method Sync() returns (r: Result<()>, ghost end: CommitEnd)
      requires Valid()
      modifies this`sb, this`synced, disk`trace
      ensures Valid()
      ensures sb == old(sb).(committedLsn := sb.committedLsn)
      ensures disk.trace == old(disk.trace) + CommitTrace(old(disk.Now()), sb, end) && (r.Ok? <==> end.Committed?)
      ensures r.Ok? ==> SlotsAgree(disk.Now(), sb) && sb.committedLsn == log.nextLsn - 1
      ensures synced == if r.Ok? then old(synced) + {Synced(|disk.trace|, sb.committedLsn)} else old(synced)
    {
      var committed := FlushLog();
      if committed.Err? {
        end := if |disk.trace| == |old(disk.trace)| then LogUnwritten else LogUnflushed;
        return Err(committed.error), end;
      }
      ghost var s, t1 := State(), disk.trace;
      CommitStep(s, committed.value);
      sb := sb.(committedLsn := committed.value);
      assert State() == s.(sb := sb);
      r, end := WriteSlots();
      CommitJoined(old(disk.trace), t1, disk.trace, sb, end);
      if r.Ok? {
        Remember();
      }
    }

    /** Remember that the superblock in memory is in both slots. */
    ghost method Remember()
      requires Valid() && SlotsAgree(disk.Now(), sb) && disk.Now().dirty == {}
      modifies this`synced
      ensures Valid() && synced == old(synced) + {Synced(|disk.trace|, sb.committedLsn)}
    {
      var s := State();
      SyncStep(s);
      synced := synced + {Synced(|disk.trace|, sb.committedLsn)};
      assert State() == s.(synced := synced);
    }

    // ---- checkpoints ----

    /** The index entries as records. */
    method ListIndex() returns (entries: seq<Record>)
      ensures Lists(entries, index, encode)
    {
      var rest, order := index.Keys, [];
      entries := [];
      while rest != {}
        invariant rest <= index.Keys
        invariant forall p :: p in order <==> p in index && p !in rest
        invariant |order| == |entries| && forall i, j :: 0 <= i < j < |order| ==> order[i] != order[j]
        invariant forall i :: 0 <= i < |order| ==> order[i] in index && entries[i] == encode(order[i], index[order[i]])
        decreases |rest|
      {
        var p :| p in rest;
        entries := entries + [encode(p, index[p])];
        order := order + [p];
        rest := rest - {p};
      }
      assert ListedBy(entries, index, encode, order);
    }

    /** Allocate and write a region; on failure nothing is kept. */
    method NewRegion(entries: seq<Record>) returns (r: Result<nat>)
      requires Valid()
      modifies this`owners, disk, bitmap, bitmap.bits
      ensures old(disk.trace) <= disk.trace
      ensures Valid()
      ensures r.Err? ==> owners == old(owners) && bitmap.used == old(bitmap.used)
      ensures r.Ok? ==>
                && r.value != BLOCK_NULL && Region(r.value) !in old(owners)
                && owners == old(owners)[Region(r.value) := Range(r.value, RegionBlocks(|entries|))]
                && RegionHolds(disk.blocks, r.value, entries)
    {
      ghost var s := State();
      var n := RegionBlocks(|entries|);
      var start := bitmap.AllocContiguous(n);
      if start.Err? {
        assert State() == s;
        return Err(start.error);
      }
      r := FillRegion(start.value, entries, s);
    }

    /** Write the entries to the blocks just allocated in state `s`. */
    method FillRegion(start: nat, entries: seq<Record>, ghost s: Fs) returns (r: Result<nat>)
      requires PartsValid() && log.nextLsn > 0 && Sound(s, None) && State() == s.(used := s.used + Range(start, RegionBlocks(|entries|)))
      requires Range(start, RegionBlocks(|entries|)) !! s.used
      modifies this`owners, disk, bitmap, bitmap.bits
      ensures old(disk.trace) <= disk.trace
      ensures Valid()
      ensures r.Err? ==> owners == old(owners) && bitmap.used == s.used
      ensures r.Ok? ==>
                && r.value == start != BLOCK_NULL && Region(start) !in old(owners)
                && owners == old(owners)[Region(start) := Range(start, RegionBlocks(|entries|))]
                && RegionHolds(disk.blocks, start, entries)
    {
      var n := RegionBlocks(|entries|);
      assert start in Range(start, n) && start in Range(0, bitmap.totalBlocks);
      var written := WriteRegion(disk, start, entries);
      ghost var s1 := s.(trace := disk.trace);
      FreeWrites(s, disk.trace, Range(start, n), None);
      if written.Err? {
        GiveBack(bitmap, start, n, s.used);
        assert State() == s1;
        return Err(written.error);
      }
      OwnRegion(start, n, s1);
      r := Ok(start);
    }

    /** The blocks just taken in state `s` belong to the region. */
    ghost method OwnRegion(start: nat, n: nat, s: Fs)
      requires PartsValid() && log.nextLsn > 0 && Sound(s, None) && State() == s.(used := s.used + Range(start, n))
      requires n > 0 && Range(start, n) !! s.used
      modifies this`owners
      ensures Valid() && Region(start) !in s.owners && owners == s.owners[Region(start) := Range(start, n)]
    {
      AddRegion(s, start, n);
      owners := owners[Region(start) := Range(start, n)];
      assert State() == WithRegion(s, start, n);
    }

    /** Free the region the slots used to name, now that both name another. */
    method FreeRegion(root: nat, count: nat)
      requires Valid() && SlotsAgree(disk.Now(), sb) && root != sb.indexRoot
      requires Region(root) in owners && owners[Region(root)] == Range(root, count)
      modifies this`owners, bitmap, bitmap.bits
      ensures Valid() && owners == old(owners) - {Region(root)}
    {
      ghost var s := State();
      DropRegion(s, root);
      OwnedUsed(s, None, Region(root));
      GiveBack(bitmap, root, count, s.used - Range(root, count));
      owners := owners - {Region(root)};
      assert State() == WithoutRegion(s, root);
    }

    /** The owners gained the region the superblock names. */
    ghost predicate RegionAdded(before: Owners)
      reads this
    {
      Region(sb.indexRoot) !in before && owners == before[Region(sb.indexRoot) := Range(sb.indexRoot, sb.indexBlocks)]
    }

    /** Point the superblock in memory at a region just written for the current index. */
    method NameRegion(root: nat, entries: seq<Record>)
      requires Valid() && Lists(entries, index, encode) && RegionHolds(disk.blocks, root, entries)
      requires Region(root) in owners && owners[Region(root)] == Range(root, RegionBlocks(|entries|))
      modifies this`sb
      ensures Valid() && sb == Superblock(root, RegionBlocks(|entries|), |entries|, log.nextLsn - 1, old(sb.committedLsn))
    {
      ghost var s := State();
      var named := Superblock(root, RegionBlocks(|entries|), |entries|, log.nextLsn - 1, sb.committedLsn);
      NameStep(s, named, entries);
      sb := named;
      assert State() == s.(sb := named);
    }

    /**
     Write the index to a fresh region, make it durable, point both slots at it and only then free the
     region named before. Whatever fails, every moment can be mounted from and no file is touched.
     */
    method Checkpoint() returns (r: Result<()>)
      requires Valid()
      modifies this`sb, this`owners, this`synced, disk, bitmap, bitmap.bits
      ensures old(disk.trace) <= disk.trace && old(synced) <= synced
      ensures Valid()
      ensures r.Ok? ==> SlotsAgree(disk.Now(), sb) && sb.checkpointLsn == log.nextLsn - 1 && sb.indexRoot != BLOCK_NULL
      ensures r.Ok? ==> RegionAdded(if old(sb).indexRoot == BLOCK_NULL then old(owners) else old(owners) - {Region(old(sb).indexRoot)})
      ensures r.Err? ==> owners == old(owners) || RegionAdded(old(owners))
    {
      SuperblockOwned(State());
      var entries := ListIndex();
      var oldRoot, oldBlocks := sb.indexRoot, sb.indexBlocks;
      r := MoveRegion(entries);
      if r.Err? {
        return;
      }
      if oldRoot != BLOCK_NULL {
        SwapOwner(old(owners), Region(oldRoot), Region(sb.indexRoot), Range(sb.indexRoot, sb.indexBlocks));
        FreeRegion(oldRoot, oldBlocks);
      }
    }

    /** Write the entries to a fresh region and point both slots at it. */
    method MoveRegion(entries: seq<Record>) returns (r: Result<()>)
      requires Valid() && Lists(entries, index, encode)
      modifies this`sb, this`owners, this`synced, disk, bitmap, bitmap.bits
      ensures old(disk.trace) <= disk.trace && old(synced) <= synced
      ensures Valid()
      ensures r.Ok? ==> SlotsAgree(disk.Now(), sb) && sb.checkpointLsn == log.nextLsn - 1 && sb.indexRoot != BLOCK_NULL
      ensures r.Ok? ==> RegionAdded(old(owners))
      ensures r.Err? ==> owners == old(owners) || RegionAdded(old(owners))
    {
      var region := NewRegion(entries);
      if region.Err? {
        return Err(region.error);
      }
      NameRegion(region.value, entries);
      ghost var end;
      r, end := Sync();
    }

    // ---- files ----

    /** The index and what is stored, once `data` is installed at `p` with the sequence number handed out last. */
    ghost predicate Installed(p: Path, data: seq<Byte>, stored: Option<Image>, before: Index, held: Holdings, ended: History)
      reads this, log
    {
      && log.nextLsn > 0 && (stored.Some? ==> stored.value.data == data)
      && index == before[p := Entry(NodeFor(stored, data), log.nextLsn - 1)]
      && holdings == Replaced(before, held, p, stored) && history == ended + [index]
    }

    /** Append to the log; `s` is the state but for the sequence number. */
    method AppendLog() returns (r: Result<nat>, ghost s: Fs)
      requires Valid()
      modifies disk`trace, log
      ensures old(disk.trace) <= disk.trace
      ensures PartsValid() && Sound(s, None) && s == old(State()).(trace := disk.trace) && State() == s.(next := log.nextLsn)
      ensures log.nextLsn == if r.Ok? then s.next + 1 else s.next
      ensures r.Ok? ==> r.value == s.next
    {
      ghost var s0 := State();
      r := log.Append(disk);
      FreeWrites(s0, disk.trace, {}, None);
      s := s0.(trace := disk.trace);
    }

    /** Put an entry into the index, which makes the state `s`. */
    method Enter(p: Path, node: Node, lsn: nat, ghost s: Fs)
      requires s == State().(index := index[p := Entry(node, lsn)], owners := s.owners, holdings := s.holdings, history := s.history)
      modifies this`index, this`owners, this`holdings, this`history
      ensures State() == s
    {
      index := index[p := Entry(node, lsn)];
      owners, holdings, history := s.owners, s.holdings, s.history;
    }

    /** Small files live in the index. */
    method WriteInline(p: Path, data: seq<Byte>) returns (r: Result<nat>)
      requires Valid()
      modifies this`index, this`owners, this`holdings, this`history, disk`trace, log
      ensures old(disk.trace) <= disk.trace
      ensures PartsValid() && log.nextLsn > 0
      ensures r.Err? ==> Sound(State(), None) && SameNamespace() && owners == old(owners)
      ensures r.Ok? ==>
                && Sound(State(), Superseded(old(index), p)) && r.value == old(log.nextLsn) == log.nextLsn - 1
                && Installed(p, data, None, old(index), old(holdings), old(history))
      ensures if r.Ok? then HandedOver(old(index), p, old(owners), owners) else SameFiles(old(owners), owners)
    {
      ghost var s1;
      r, s1 := AppendLog();
      if r.Err? {
        assert State() == s1;
        return;
      }
      EngineState.Install(s1, p, None, {}, data);
      InstallKeeps(s1, p, None, {}, data);
      assert bitmap.used == s1.used + {};
      Enter(p, Inline(data), r.value, Installing(s1, p, None, {}, data));
    }

    /** Larger files go to extents. */
    method WriteExtentFile(p: Path, data: seq<Byte>) returns (r: Result<nat>, ghost stored: Option<Image>)
      requires Valid() && data != [] && BlocksFor(|data|) < MAX_BLOCKS
      modifies this`index, this`owners, this`holdings, this`history, disk, bitmap, bitmap.bits, log
      ensures old(disk.trace) <= disk.trace
      ensures PartsValid() && log.nextLsn > 0
      ensures r.Err? ==> Sound(State(), None) && SameNamespace()
      ensures r.Err? ==> owners == old(owners) || owners == WithLost(old(owners), bitmap.used - old(bitmap.used))
      ensures r.Ok? ==>
                && Sound(State(), Superseded(old(index), p)) && r.value == old(log.nextLsn) == log.nextLsn - 1
                && stored.Some? && Installed(p, data, stored, old(index), old(holdings), old(history))
      ensures if r.Ok? then HandedOver(old(index), p, old(owners), owners) else SameFiles(old(owners), owners)
    {
      stored := None;
      var written, s := StoreData(data);
      if written.Err? {
        if bitmap.used == s.used {
          assert State() == s;
        } else {
          LoseBlocksTaken(s);
        }
        r := Err(written.error);
        return;
      }
      stored := Some(Image(written.value.0, data));
      InstallStored(s, p, written.value.0, data, bitmap.used);
      InstallFile(p, data, written.value.0, Owned(disk.blocks, written.value.0), s);
      r := Ok(written.value.1);
    }

    /** Store the data in extents; `s` is the state but for the blocks taken and the sequence number. */
    method StoreData(data: seq<Byte>) returns (r: Result<(File, nat)>, ghost s: Fs)
      requires Valid() && data != [] && BlocksFor(|data|) < MAX_BLOCKS
      modifies disk, bitmap, bitmap.bits, log
      ensures PartsValid() && Sound(s, None) && s == old(State()).(trace := disk.trace) && old(disk.trace) <= disk.trace
      ensures State() == s.(used := bitmap.used, next := log.nextLsn) && s.used <= bitmap.used
      ensures log.nextLsn == if r.Ok? then s.next + 1 else s.next
      ensures r.Ok? ==> r.value.1 == s.next && FileWrite.Installed(disk.blocks, r.value.0, data, s.used, bitmap.used)
    {
      ghost var s0 := State();
      r := WriteExtents(disk, bitmap, log, data);
      FreeWrites(s0, disk.trace, Range(0, bitmap.totalBlocks) - s0.used, None);
      s := s0.(trace := disk.trace);
    }

    /** After a failed write, the blocks it kept belong to nobody. */
    ghost method LoseBlocksTaken(s: Fs)
      requires PartsValid() && log.nextLsn > 0 && Sound(s, None) && s.used <= bitmap.used && State() == s.(used := bitmap.used)
      modifies this`owners
      ensures Valid() && owners == WithLost(old(owners), bitmap.used - s.used)
    {
      var lost := bitmap.used - s.used;
      LoseStep(s, lost);
      owners := WithLost(owners, lost);
      assert s.used + lost == bitmap.used;
      assert State() == Losing(s, lost);
    }

    /** Enter a file just stored on the blocks `own`, free in state `s`, into the index. */
    method InstallFile(p: Path, data: seq<Byte>, f: File, ghost own: set<nat>, ghost s: Fs)
      requires PartsValid() && log.nextLsn == s.next + 1 && State() == s.(used := s.used + own, next := s.next + 1)
      requires var s' := Installing(s, p, Some(Image(f, data)), own, data);
               Sound(s', Superseded(s.index, p)) && HandedOver(s.index, p, s.owners, s'.owners)
      modifies this`index, this`owners, this`holdings, this`history
      ensures PartsValid() && Sound(State(), Superseded(s.index, p))
      ensures Installed(p, data, Some(Image(f, data)), s.index, s.holdings, s.history)
      ensures HandedOver(s.index, p, s.owners, owners)
    {
      Enter(p, Extents(f), log.nextLsn - 1, Installing(s, p, Some(Image(f, data)), own, data));
    }

    /** Nothing a reader can see has changed. */
    twostate predicate SameNamespace()
      reads this, log
    {
      index == old(index) && holdings == old(holdings) && history == old(history) && log.nextLsn == old(log.nextLsn)
    }

    /** Write a file as a new version, leaving the superseded one in place. */
    method WriteFile(p: Path, data: seq<Byte>) returns (r: Result<nat>, ghost stored: Option<Image>)
      requires Valid() && BlocksFor(|data|) < MAX_BLOCKS
      modifies this`index, this`owners, this`holdings, this`history, disk, bitmap, bitmap.bits, log
      ensures old(disk.trace) <= disk.trace
      ensures PartsValid() && log.nextLsn > 0
      ensures r.Err? ==> Sound(State(), None) && SameNamespace()
      ensures r.Ok? ==>
                && Sound(State(), Superseded(old(index), p)) && r.value == old(log.nextLsn) == log.nextLsn - 1
                && Installed(p, data, stored, old(index), old(holdings), old(history))
      ensures p in old(index) && old(index)[p].node.Dir? ==> r == Err(IsADirectory)
      ensures if r.Ok? then HandedOver(old(index), p, old(owners), owners) else SameFiles(old(owners), owners)
    {
      stored := None;
      if p in index && index[p].node.Dir? {
        return Err(IsADirectory), stored;
      }
      if |data| <= INLINE_SIZE {
        r := WriteInline(p, data);
      } else {
        r, stored := WriteExtentFile(p, data);
      }
    }

    /** Write a file; a full log is checkpointed once and the write tried again. */
    method WriteFileCheckpointing(p: Path, data: seq<Byte>) returns (r: Result<nat>, ghost stored: Option<Image>)
      requires Valid() && BlocksFor(|data|) < MAX_BLOCKS
      modifies this`index, this`owners, this`holdings, this`history, this`sb, this`synced, disk, bitmap, bitmap.bits, log
      ensures old(disk.trace) <= disk.trace && old(synced) <= synced
      ensures PartsValid() && log.nextLsn > 0
      ensures r.Err? ==> Sound(State(), None) && SameNamespace()
      ensures r.Ok? ==>
                && Sound(State(), Superseded(old(index), p)) && r.value == old(log.nextLsn) == log.nextLsn - 1
                && Installed(p, data, stored, old(index), old(holdings), old(history))
      ensures p in old(index) && old(index)[p].node.Dir? ==> r == Err(IsADirectory)
      ensures if r.Ok? then HandedOver(old(index), p, old(owners), owners) else SameFiles(old(owners), owners)
    {
      r, stored := WriteFile(p, data);
      if r == Err(LogFull) {
        r, stored := CheckpointAndWrite(p, data);
      }
    }

    method CheckpointAndWrite(p: Path, data: seq<Byte>) returns (r: Result<nat>, ghost stored: Option<Image>)
      requires Valid() && BlocksFor(|data|) < MAX_BLOCKS && !(p in index && index[p].node.Dir?)
      modifies this`index, this`owners, this`holdings, this`history, this`sb, this`synced, disk, bitmap, bitmap.bits, log
      ensures old(disk.trace) <= disk.trace && old(synced) <= synced
      ensures PartsValid() && log.nextLsn > 0
      ensures r.Err? ==> Sound(State(), None) && SameNamespace()
      ensures r.Ok? ==>
                && Sound(State(), Superseded(old(index), p)) && r.value == old(log.nextLsn) == log.nextLsn - 1
                && Installed(p, data, stored, old(index), old(holdings), old(history))
      ensures if r.Ok? then HandedOver(old(index), p, old(owners), owners) else SameFiles(old(owners), owners)
    {
      var saved := Checkpoint();
      if saved.Err? {
        return Err(saved.error), None;
      }
      ghost var mid := owners;
      r, stored := WriteFile(p, data);
      if r.Ok? {
        HandedOverLater(old(index), p, old(owners), mid, owners);
      }
    }

    /** Whether a snapshot was taken while the version was current. */
    predicate SnapshotPins(oldLsn: nat, newLsn: nat)
      reads this
    {
      exists i :: 0 <= i < |snapshots| && oldLsn <= snapshots[i] < newLsn
    }

    /** Deal with the version at `p` superseded by the entry now there: free its blocks unless a snapshot pins it. */
    method Reclaim(p: Path, was: Entry, newLsn: nat)
      requires PartsValid() && log.nextLsn > 0 && was.node.Extents? && Sound(State(), Some(Kept(p, was.lsn)))
      requires p in index && index[p].lsn == newLsn && Kept(p, was.lsn) in holdings && holdings[Kept(p, was.lsn)].file == was.node.file
      requires forall t :: t in pins ==> t < newLsn && (was.lsn <= t ==> p in pins[t] && pins[t][p].lsn == was.lsn)
      modifies this`owners, this`holdings, bitmap, bitmap.bits
      ensures Valid() && Kept(p, was.lsn) in old(owners)
      ensures SnapshotPins(was.lsn, newLsn) ==> owners == old(owners) && holdings == old(holdings) && bitmap.used == old(bitmap.used)
      ensures !SnapshotPins(was.lsn, newLsn) ==>
                && owners == old(owners) - {Kept(p, was.lsn)} && holdings == old(holdings) - {Kept(p, was.lsn)}
                && bitmap.used == old(bitmap.used) - old(owners)[Kept(p, was.lsn)]
    {
      ghost var s := State();
      ghost var o := Kept(p, was.lsn);
      HeldNow(s, Some(o), o);
      if SnapshotPins(was.lsn, newLsn) {
        ghost var i :| 0 <= i < |snapshots| && was.lsn <= snapshots[i] < newLsn;
        KeepKept(s, p, was.lsn, snapshots[i]);
      } else {
        assert forall t :: t in pins ==> t in snapshots;
        DropKept(s, p, was.lsn);
        FreeVersion(o, was.node.file, s);
      }
    }

    /** Free the blocks of a stored version and forget it. */
    method FreeVersion(ghost o: Owner, f: File, ghost s: Fs)
      requires PartsValid() && log.nextLsn > 0 && State() == s && o in s.owners && Sound(WithoutKept(s, o), None)
      requires o in holdings && holdings[o].file == f && HeldOk(disk.blocks, owners[o], holdings[o]) && owners[o] <= bitmap.used
      modifies this`owners, this`holdings, bitmap, bitmap.bits
      ensures Valid() && owners == old(owners) - {o} && holdings == old(holdings) - {o} && bitmap.used == old(bitmap.used) - old(owners)[o]
    {
      FreeStored(disk.blocks, bitmap, owners[o], holdings[o], f);
      owners, holdings := owners - {o}, holdings - {o};
      assert State() == WithoutKept(s, o);
    }

    /**
     Overwrite `p`. On success `p` reads as `data` and no other file changes; the superseded version keeps
     its blocks exactly when a snapshot was taken while it was current. On failure no file changes.
     */
    method Write(p: Path, data: seq<Byte>) returns (r: Result<()>)
      requires Valid() && BlocksFor(|data|) < MAX_BLOCKS
      modifies this`index, this`owners, this`holdings, this`history, this`sb, this`synced, disk, bitmap, bitmap.bits, log
      ensures old(disk.trace) <= disk.trace && old(synced) <= synced
      ensures Valid()
      ensures r.Ok? ==> Contents(p) == Some(data) && forall q :: q != p ==> Contents(q) == old(Contents(q))
      ensures r.Err? ==> SameNamespace()
      ensures r.Ok? && Superseded(old(index), p).Some? ==>
                && Live(p) in old(owners)
                && (Superseded(old(index), p).value in owners <==> SnapshotPins(old(index)[p].lsn, old(log.nextLsn)))
                && (if SnapshotPins(old(index)[p].lsn, old(log.nextLsn))
                    then owners[Superseded(old(index), p).value] == old(owners)[Live(p)]
                    else old(owners)[Live(p)] !! bitmap.used)
      ensures p in old(index) && old(index)[p].node.Dir? ==> r == Err(IsADirectory)
    {
      CanSupersede(State(), p);
      var before := if p in index && index[p].node.Extents? then Some(index[p]) else None;
      var lsn, stored := WriteFileCheckpointing(p, data);
      if lsn.Err? {
        return Err(lsn.error);
      }
      ReplacedContents(old(index), old(holdings), p, stored, data, lsn.value);
      if before.Some? {
        KeptContents(index, holdings, Kept(p, before.value.lsn));
        Reclaim(p, before.value, lsn.value);
      }
      r := Ok(());
    }

    /** Read a whole file. */
    method Read(p: Path) returns (r: Result<seq<Byte>>)
      requires Valid()
      ensures r.Ok? <==> p in index && !index[p].node.Dir?
      ensures r.Ok? ==> Contents(p) == Some(r.value)
      ensures r.Err? ==> r.error == if p in index then IsADirectory else NotFound
    {
      if p !in index {
        return Err(NotFound);
      }
      CanSupersede(State(), p);
      match index[p].node
      case Dir => r := Err(IsADirectory);
      case Inline(data) => r := Ok(data);
      case Extents(f) =>
        HeldNow(State(), None, Live(p));
        r := ReadFile(disk.blocks, f);
    }

    /**
     Resize a file: a prefix, or the file followed by zeros. Growing past the limit is refused.
     */
    method Truncate(p: Path, newSize: nat) returns (r: Result<()>)
      requires Valid() && BlocksFor(newSize) < MAX_BLOCKS
      modifies this`index, this`owners, this`holdings, this`history, this`sb, this`synced, disk, bitmap, bitmap.bits, log
      ensures old(disk.trace) <= disk.trace && old(synced) <= synced
      ensures Valid()
      ensures p !in old(index) ==> r == Err(NotFound)
      ensures p in old(index) && old(index)[p].node.Dir? ==> r == Err(IsADirectory)
      ensures old(Contents(p)).Some? && newSize > |old(Contents(p)).value| && newSize > MAX_TRUNCATE_GROW ==> r == Err(FileTooLarge)
      ensures r.Ok? ==> old(Contents(p)).Some? && Contents(p) == Some(Resized(old(Contents(p)).value, newSize))
      ensures r.Ok? ==> forall q :: q != p ==> Contents(q) == old(Contents(q))
      ensures r.Err? ==> SameNamespace()
    {
      if p !in index {
        return Err(NotFound);
      }
      if index[p].node.Dir? {
        return Err(IsADirectory);
      }
      SizeIs(State(), p);
      var size := NodeSize(index[p].node);
      if newSize == size {
        assert Resized(Contents(p).value, size) == Contents(p).value;
        return Ok(());
      }
      if newSize > size && newSize > MAX_TRUNCATE_GROW {
        return Err(FileTooLarge);
      }
      var current := Read(p);
      match current
      case Err(e) => r := Err(e);
      case Ok(data) => r := Write(p, Resized(data, newSize));
    }

    /**
     Mark a point in the log. From then on the extent-backed versions current now are pinned, even if
     persisting the marker fails.
     */
    method Snapshot() returns (r: Result<nat>)
      requires Valid()
      modifies this`snapshots, this`pins, this`history, this`sb, this`synced, disk`trace, log
      ensures old(disk.trace) <= disk.trace && old(synced) <= synced
      ensures Valid() && index == old(index) && holdings == old(holdings)
      ensures log.nextLsn == old(log.nextLsn) ==> r.Err? && snapshots == old(snapshots) && pins == old(pins)
      ensures log.nextLsn != old(log.nextLsn) ==>
                && log.nextLsn == old(log.nextLsn) + 1 && snapshots == old(snapshots) + [old(log.nextLsn)]
                && pins == old(pins)[old(log.nextLsn) := Seen(index, holdings)]
      ensures r.Ok? ==> r.value == old(log.nextLsn) && snapshots == old(snapshots) + [r.value] && SlotsAgree(disk.Now(), sb)
      ensures forall t :: t in old(pins) ==> t < old(log.nextLsn)
    {
      PinsBelow(State());
      var lsn, s1 := AppendLog();
      if lsn.Err? {
        assert State() == s1;
        return Err(lsn.error);
      }
      MarkSnapshot(lsn.value, s1);
      var done, _ := Sync();
      r := if done.Ok? then lsn else Err(done.error);
    }

    // ---- whole runs ----

    /**
     Any sequence of requests, any of which may fail anywhere: the invariant holds at the end, every moment of
     the device's history so far could have been mounted from, none since a successful sync would have led back
     behind it, and what earlier snapshots saw is what they see.
     */
    method Run(requests: seq<Request>)
      requires Valid() && forall i :: 0 <= i < |requests| ==> Sized(requests[i])
      modifies this, disk, bitmap, bitmap.bits, log
      ensures Valid() && old(disk.trace) <= disk.trace && TraceSafe(disk.trace, history, encode)
      ensures old(synced) <= synced && forall e :: e in synced ==> NeverBehind(disk.trace, e)
      ensures forall t :: t in old(pins) ==> t in pins && pins[t] == old(pins)[t]
      ensures forall t, p :: t in pins && p in pins[t] ==> Holds(disk.blocks, pins[t][p].image.file, pins[t][p].image.data)
    {
      for i := 0 to |requests|
        invariant Valid() && old(disk.trace) <= disk.trace && old(synced) <= synced
        invariant forall t :: t in old(pins) ==> t in pins && pins[t] == old(pins)[t]
      {
        Serve(requests[i]);
      }
      RunFacts(State());
    }

    method Serve(request: Request)
      requires Valid() && Sized(request)
      modifies this, disk, bitmap, bitmap.bits, log
      ensures Valid() && old(disk.trace) <= disk.trace && old(synced) <= synced
      ensures forall t :: t in old(pins) ==> t in pins && pins[t] == old(pins)[t]
    {
      match request
      case WriteTo(p, data) => var _ := Write(p, data);
      case TruncateTo(p, size) => var _ := Truncate(p, size);
      case TakeSnapshot => var _ := Snapshot();
      case Syncing => var _, _ := Sync();
      case Checkpointing => var _ := Checkpoint();
    }

    /** Remember a snapshot whose marker was just appended in state `s`. */
    method MarkSnapshot(lsn: nat, ghost s: Fs)
      requires PartsValid() && Sound(s, None) && State() == s.(next := log.nextLsn) && log.nextLsn == s.next + 1 && lsn == s.next
      modifies this`snapshots, this`pins, this`history
      ensures Valid() && snapshots == old(snapshots) + [lsn] && pins == old(pins)[lsn := Seen(index, holdings)]
    {
      SnapshotStep(s);
      snapshots := snapshots + [lsn];
      pins, history := Snapshotting(s).pins, Snapshotting(s).history;
      assert State() == Snapshotting(s);
    }
  }

  /** Free the blocks of a file that is intact on them. */
  method FreeStored(blocks: Blocks, bitmap: BlockBitmap, ghost own: set<nat>, ghost image: Image, f: File)
    requires bitmap.Valid() && f == image.file && HeldOk(blocks, own, image) && own <= bitmap.used
    modifies bitmap, bitmap.bits
    ensures bitmap.Valid() && bitmap.used == old(bitmap.used) - own
  {
    HoldsIsClean(blocks, f, image.data);
    FreeFileBlocks(blocks, bitmap, f);
  }

  /** What the invariant says of the device's history and of snapshots. */
  lemma RunFacts(s: Fs)
    requires Sound(s, None)
    ensures TraceSafe(s.trace, s.history, s.encode) && WholeBlocks(Last(s.trace).blocks)
    ensures forall e :: e in s.synced ==> NeverBehind(s.trace, e)
    ensures forall t, p :: t in s.pins && p in s.pins[t] ==> Holds(Last(s.trace).blocks, s.pins[t][p].image.file, s.pins[t][p].image.data)
  {
    Parts(s, None);
    Commits(s, None);
    forall t, p | t in s.pins && p in s.pins[t] ensures Holds(Last(s.trace).blocks, s.pins[t][p].image.file, s.pins[t][p].image.data) {
      SnapshotsReadable(s, t, p);
    }
  }

  lemma InstallStored(s: Fs, p: Path, f: File, data: seq<Byte>, used: set<nat>)
    requires Sound(s, None) && data != [] && FileWrite.Installed(Last(s.trace).blocks, f, data, s.used, used)
    ensures var s' := Installing(s, p, Some(Image(f, data)), Owned(Last(s.trace).blocks, f), data);
            && Sound(s', Superseded(s.index, p)) && s'.used == used && HandedOver(s.index, p, s.owners, s'.owners)
  {
    var own := Owned(Last(s.trace).blocks, f);
    EngineState.Install(s, p, Some(Image(f, data)), own, data);
    InstallKeeps(s, p, Some(Image(f, data)), own, data);
  }

  /** The size an entry records. */
  function NodeSize(node: Node): nat
    requires !node.Dir?
  {
    match node
    case Inline(data) => |data|
    case Extents(f) => f.size
  }

  lemma SizeIs(s: Fs, p: Path)
    requires Sound(s, None) && p in s.index && !s.index[p].node.Dir?
    ensures ContentsIn(s.index, s.holdings, p).Some? && |ContentsIn(s.index, s.holdings, p).value| == NodeSize(s.index[p].node)
  {
    CanSupersede(s, p);
    if s.index[p].node.Extents? {
      HeldNow(s, None, Live(p));
    }
  }

  /** A prefix of the data, or the data followed by zeros. */
  function Resized(data: seq<Byte>, size: nat): (s: seq<Byte>)
    ensures |s| == size
  {
    if size <= |data| then data[..size] else data + Zeros(size - |data|)
  }

  /**
   The superblock a mount uses, from what reading the slots gave; `None` is a slot that cannot be read. Both
   slots must be readable and one copy valid: a valid copy does not help if the other slot cannot be read.
   */
  function RecoverSuperblock(a: Option<Slot>, b: Option<Slot>): (r: Result<Superblock>)
    ensures r.Ok? <==> a.Some? && b.Some? && (a.value.Copy? || b.value.Copy?)
    ensures r.Ok? ==> Some(Copy(r.value)) == a || Some(Copy(r.value)) == b
    ensures forall c: Slot :: r.Ok? && c.Copy? && (Some(c) == a || Some(c) == b) ==> c.sb.committedLsn <= r.value.committedLsn
    ensures r.Err? ==> r.error == if a.None? || b.None? then IoReadFailed else NoValidSuperblock
  {
    if a.None? || b.None? then Err(IoReadFailed)
    else match Recover(a.value, b.value)
      case None => Err(NoValidSuperblock)
      case Some(sb) => Ok(sb)
  }

  /**
   Mounting: pick a superblock copy and load the index region it names. Where that region holds the namespace
   of its checkpoint, as it does after a crash at any moment, the records loaded are that namespace.
   */
  method MountIndex(blocks: Blocks, a: Option<Slot>, b: Option<Slot>, ghost history: History, ghost encode: Encoder)
      returns (r: Result<seq<Record>>)
    requires WholeBlocks(blocks)
    ensures a.None? || b.None? ==> r == Err(IoReadFailed)
    ensures r == Err(NoValidSuperblock) <==> a == Some(Torn) && b == Some(Torn)
    ensures RecoverSuperblock(a, b).Ok? ==>
              var sb := RecoverSuperblock(a, b).value;
              && (sb.indexRoot == BLOCK_NULL ==> r == Ok([]))
              && (sb.indexRoot != BLOCK_NULL && SbLoads(blocks, sb, history, encode) ==>
                    r.Ok? && exists entries :: Lists(entries, history[sb.checkpointLsn], encode) && r.value == FilledAll(entries))
  {
    var chosen := RecoverSuperblock(a, b);
    if chosen.Err? {
      return Err(chosen.error);
    }
    var sb := chosen.value;
    if sb.indexRoot == BLOCK_NULL {
      return Ok([]);
    }
    r := LoadRegion(blocks, sb.indexRoot, sb.indexBlocks, sb.entryCount);
    if SbLoads(blocks, sb, history, encode) {
      ghost var entries :| RegionOf(blocks, sb.indexRoot, sb.indexBlocks, sb.entryCount, entries) && Lists(entries, history[sb.checkpointLsn], encode);
      assert r == Ok(FilledAll(entries));
    }
  }
}
