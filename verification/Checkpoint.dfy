/** The index checkpoint region: 512-byte records, each with its checksum, eight to a block. */
module Checkpoint {
  import opened Bytes
  import opened Helix
  import opened FileRead
  import opened Device
  import opened Prelude
  import Crc

  const RECORD_SIZE: nat := 512
  const PER_BLOCK: nat := 8
  const CRC_OFF: nat := 448
  const CRC_END: nat := 452

  type Record = s: seq<Byte> | |s| == RECORD_SIZE witness Zeros(RECORD_SIZE)

  /** The record with its checksum field cleared. */
  function Blanked(s: Record): Record
  {
    s[..CRC_OFF] + Zeros(4) + s[CRC_END..]
  }

  /** The record with its checksum field filled in. */
  function Filled(s: Record): Record
  {
    s[..CRC_OFF] + ToLe(Crc.Checksum(Blanked(s)), 4) + s[CRC_END..]
  }

  predicate CrcHolds(s: Record)
  {
    Crc.Checksum(Blanked(s)) == FromLe(s[CRC_OFF..CRC_END])
  }

  lemma FilledHolds(s: Record)
    ensures CrcHolds(Filled(s)) && Blanked(Filled(s)) == Blanked(s)
  {
    var crc := Crc.Checksum(Blanked(s));
    var f := Filled(s);
    assert f[CRC_OFF..CRC_END] == ToLe(crc, 4);
    assert f[..CRC_OFF] == s[..CRC_OFF] && f[CRC_END..] == s[CRC_END..];
    Crc.ChecksumBound(Blanked(s));
    WordFits(crc);
    LeRoundTrip(crc, 4);
  }

  /** Blocks of a region of `n` records: at least one. */
  function RegionBlocks(n: nat): nat
  {
    if (n + PER_BLOCK - 1) / PER_BLOCK < 1 then 1 else (n + PER_BLOCK - 1) / PER_BLOCK
  }

  /** The bytes of the first `k` records of a block that starts with record `from`. */
  function Packed(entries: seq<Record>, from: nat, k: nat): (s: seq<Byte>)
    requires from + k <= |entries|
    ensures |s| == k * RECORD_SIZE
  {
    if k == 0 then [] else Packed(entries, from, k - 1) + Filled(entries[from + k - 1])
  }

  /** How many records block `b` holds. */
  function InBlock(n: nat, b: nat): nat
  {
    if n <= b * PER_BLOCK then 0 else if n - b * PER_BLOCK < PER_BLOCK then n - b * PER_BLOCK else PER_BLOCK
  }

  function BlockImage(entries: seq<Record>, b: nat): (s: seq<Byte>)
    ensures |s| == BLOCK_SIZE
  {
    var k := InBlock(|entries|, b);
    (if k == 0 then [] else Packed(entries, b * PER_BLOCK, k)) + Zeros(BLOCK_SIZE - k * RECORD_SIZE)
  }

  /** The region at `root` holds the records. */
  ghost predicate RegionHolds(blocks: Blocks, root: nat, entries: seq<Record>)
  {
    forall b: nat :: b < RegionBlocks(|entries|) ==> BlockHolds(blocks, root, entries, b)
  }

  /** The block and record counts describe a region that holds the records. */
  ghost predicate RegionOf(blocks: Blocks, root: nat, blockCount: nat, count: nat, entries: seq<Record>)
  {
    RegionHolds(blocks, root, entries) && count == |entries| && blockCount == RegionBlocks(count)
  }

  ghost predicate BlockHolds(blocks: Blocks, root: nat, entries: seq<Record>, b: nat)
  {
    root + b in blocks && blocks[root + b] == BlockImage(entries, b)
  }

  /** Fill one block of the region. */
  method PackBlock(entries: seq<Record>, b: nat) returns (buf: seq<Byte>)
    ensures buf == BlockImage(entries, b)
  {
    var packed: seq<Byte> := [];
    var slot := 0;
    while slot < PER_BLOCK && b * PER_BLOCK + slot < |entries|
      invariant slot <= InBlock(|entries|, b)
      invariant slot > 0 ==> packed == Packed(entries, b * PER_BLOCK, slot)
      invariant slot == 0 ==> packed == []
    {
      packed := packed + Filled(entries[b * PER_BLOCK + slot]);
      slot := slot + 1;
    }
    buf := packed + Zeros(BLOCK_SIZE - slot * RECORD_SIZE);
  }

  method WriteRegionBlock(disk: Disk, root: nat, entries: seq<Record>, b: nat) returns (ok: bool)
    requires disk.Valid()
    modifies disk
    ensures disk.Valid() && Extends(old(disk.trace), disk.trace, {root + b}) && |disk.trace| > |old(disk.trace)|
    ensures ok ==> BlockHolds(disk.blocks, root, entries, b)
  {
    var buf := PackBlock(entries, b);
    ok := disk.Write(root + b, buf);
  }

  method WriteRegion(disk: Disk, root: nat, entries: seq<Record>) returns (r: Result<()>)
    requires disk.Valid()
    modifies disk
    ensures disk.Valid()
    ensures Extends(old(disk.trace), disk.trace, Range(root, RegionBlocks(|entries|)))
    ensures r.Ok? ==> RegionHolds(disk.blocks, root, entries)
    ensures r.Err? ==> r.error == IoWriteFailed
  {
    var count := RegionBlocks(|entries|);
    for b := 0 to count
      invariant disk.Valid()
      invariant Extends(old(disk.trace), disk.trace, Range(root, count))
      invariant forall i: nat :: i < b ==> BlockHolds(disk.blocks, root, entries, i)
    {
      ghost var before, trace := disk.blocks, disk.trace;
      assert root + b in Range(root, count);
      var ok := WriteRegionBlock(disk, root, entries, b);
      ExtendsWider(trace, disk.trace, {root + b}, Range(root, count));
      ExtendsTrans(old(disk.trace), trace, disk.trace, Range(root, count));
      if !ok {
        return Err(IoWriteFailed);
      }
      HeldKept(before, disk.blocks, root, entries, b);
    }
    r := Ok(());
  }

  lemma HeldKept(before: Blocks, after: Blocks, root: nat, entries: seq<Record>, b: nat)
    requires SameExcept(before, after, {root + b})
    requires forall i: nat :: i < b ==> BlockHolds(before, root, entries, i)
    ensures forall i: nat :: i < b ==> BlockHolds(after, root, entries, i)
  {
    forall i: nat | i < b ensures BlockHolds(after, root, entries, i) {
      assert BlockHolds(before, root, entries, i) && root + i !in {root + b};
    }
  }

  // ---- loading ----

  function SlotOf(buf: seq<Byte>, slot: nat): Record
    requires |buf| == BLOCK_SIZE && slot < PER_BLOCK
  {
    buf[slot * RECORD_SIZE..slot * RECORD_SIZE + RECORD_SIZE]
  }

  /** Record `i` of the region, if its block can be read. */
  function RecordAt(blocks: Blocks, root: nat, i: nat): Option<Record>
    requires WholeBlocks(blocks)
  {
    if root + i / PER_BLOCK in blocks then Some(SlotOf(blocks[root + i / PER_BLOCK], i % PER_BLOCK)) else None
  }

  predicate RecordOk(blocks: Blocks, root: nat, i: nat)
    requires WholeBlocks(blocks)
  {
    RecordAt(blocks, root, i).Some? && CrcHolds(RecordAt(blocks, root, i).value)
  }

  function Least(a: nat, b: nat): nat
  {
    if a < b then a else b
  }

  /** Load up to `want` records of one block. */
  method LoadBlock(buf: seq<Byte>, want: nat) returns (r: Result<seq<Record>>)
    requires |buf| == BLOCK_SIZE
    ensures r.Ok? <==> forall s: nat :: s < Least(want, PER_BLOCK) ==> CrcHolds(SlotOf(buf, s))
    ensures r.Ok? ==> |r.value| == Least(want, PER_BLOCK) && forall s: nat :: s < |r.value| ==> r.value[s] == SlotOf(buf, s)
    ensures r.Err? ==> r.error == IndexCrcMismatch
  {
    var loaded: seq<Record> := [];
    for slot := 0 to Least(want, PER_BLOCK)
      invariant |loaded| == slot
      invariant forall s: nat :: s < slot ==> loaded[s] == SlotOf(buf, s) && CrcHolds(SlotOf(buf, s))
    {
      var e := SlotOf(buf, slot);
      if !CrcHolds(e) {
        return Err(IndexCrcMismatch);
      }
      loaded := loaded + [e];
    }
    r := Ok(loaded);
  }

  lemma SlotIsRecord(blocks: Blocks, root: nat, b: nat, s: nat)
    requires WholeBlocks(blocks) && root + b in blocks && s < PER_BLOCK
    ensures RecordAt(blocks, root, b * PER_BLOCK + s) == Some(SlotOf(blocks[root + b], s))
  {
    assert (b * PER_BLOCK + s) / PER_BLOCK == b && (b * PER_BLOCK + s) % PER_BLOCK == s;
  }

  /** The records are the first ones of the region, each with a good checksum. */
  ghost predicate Loaded(blocks: Blocks, root: nat, loaded: seq<Record>)
    requires WholeBlocks(blocks)
  {
    forall i: nat :: i < |loaded| ==> RecordAt(blocks, root, i) == Some(loaded[i]) && CrcHolds(loaded[i])
  }

  ghost predicate AllOk(blocks: Blocks, root: nat, n: nat)
    requires WholeBlocks(blocks)
  {
    forall i: nat :: i < n ==> RecordOk(blocks, root, i)
  }

  lemma BadSlot(blocks: Blocks, root: nat, b: nat, count: nat, s: nat)
    requires WholeBlocks(blocks) && root + b in blocks && b * PER_BLOCK < count
    requires s < Least(count - b * PER_BLOCK, PER_BLOCK) && !CrcHolds(SlotOf(blocks[root + b], s))
    ensures !AllOk(blocks, root, Least(count, (b + 1) * PER_BLOCK))
  {
    SlotIsRecord(blocks, root, b, s);
    assert !RecordOk(blocks, root, b * PER_BLOCK + s);
  }

  lemma MissingBlock(blocks: Blocks, root: nat, b: nat, count: nat)
    requires WholeBlocks(blocks) && root + b !in blocks && b * PER_BLOCK < count
    ensures !AllOk(blocks, root, Least(count, (b + 1) * PER_BLOCK))
  {
    assert !RecordOk(blocks, root, b * PER_BLOCK);
  }

  /** Load the next block of the region. */
  method LoadNext(blocks: Blocks, root: nat, b: nat, count: nat, loaded: seq<Record>) returns (r: Result<seq<Record>>)
    requires WholeBlocks(blocks) && |loaded| == b * PER_BLOCK < count && Loaded(blocks, root, loaded)
    ensures r.Ok? ==> |r.value| == Least(count, (b + 1) * PER_BLOCK) && Loaded(blocks, root, r.value)
    ensures r.Err? ==> !AllOk(blocks, root, Least(count, (b + 1) * PER_BLOCK))
    ensures r.Err? ==> r.error == IoReadFailed || r.error == IndexCrcMismatch
  {
    if root + b !in blocks {
      MissingBlock(blocks, root, b, count);
      return Err(IoReadFailed);
    }
    var next := LoadBlock(blocks[root + b], count - |loaded|);
    if next.Err? {
      ghost var s: nat :| s < Least(count - |loaded|, PER_BLOCK) && !CrcHolds(SlotOf(blocks[root + b], s));
      BadSlot(blocks, root, b, count, s);
      return Err(next.error);
    }
    JoinBlock(blocks, root, b, loaded, next.value);
    r := Ok(loaded + next.value);
  }

  /**
   Load `count` records, or as many as the region's blocks hold. Any unreadable block or bad checksum among
   them is an error; a region that holds the records loads as them, in order, checksums filled in.
   */
  method LoadRegion(blocks: Blocks, root: nat, blockCount: nat, count: nat) returns (r: Result<seq<Record>>)
    requires WholeBlocks(blocks)
    ensures r.Ok? <==> AllOk(blocks, root, Least(count, blockCount * PER_BLOCK))
    ensures r.Ok? ==> |r.value| == Least(count, blockCount * PER_BLOCK) && Loaded(blocks, root, r.value)
    ensures r.Err? ==> r.error == IoReadFailed || r.error == IndexCrcMismatch
    ensures forall entries :: RegionOf(blocks, root, blockCount, count, entries) ==> r == Ok(FilledAll(entries))
  {
    var loaded: seq<Record> := [];
    var b := 0;
    while b < blockCount && |loaded| < count
      invariant b <= blockCount && |loaded| == Least(count, b * PER_BLOCK)
      invariant Loaded(blocks, root, loaded)
    {
      var next := LoadNext(blocks, root, b, count, loaded);
      if next.Err? {
        r := Err(next.error);
        RegionLoads(blocks, root, blockCount, count, r);
        return;
      }
      loaded := next.value;
      b := b + 1;
    }
    r := Ok(loaded);
    LoadedOk(blocks, root, loaded);
    RegionLoads(blocks, root, blockCount, count, r);
  }

  lemma LoadedOk(blocks: Blocks, root: nat, loaded: seq<Record>)
    requires WholeBlocks(blocks) && Loaded(blocks, root, loaded)
    ensures AllOk(blocks, root, |loaded|)
  {
    forall i: nat | i < |loaded| ensures RecordOk(blocks, root, i) {
      assert RecordAt(blocks, root, i) == Some(loaded[i]);
    }
  }

  lemma JoinBlock(blocks: Blocks, root: nat, b: nat, loaded: seq<Record>, next: seq<Record>)
    requires WholeBlocks(blocks) && root + b in blocks && |loaded| == b * PER_BLOCK && |next| <= PER_BLOCK
    requires Loaded(blocks, root, loaded)
    requires forall s: nat :: s < |next| ==> next[s] == SlotOf(blocks[root + b], s) && CrcHolds(SlotOf(blocks[root + b], s))
    ensures Loaded(blocks, root, loaded + next)
  {
    forall i: nat | |loaded| <= i < |loaded + next|
      ensures RecordAt(blocks, root, i) == Some((loaded + next)[i]) && CrcHolds((loaded + next)[i])
    {
      var s := i - |loaded|;
      SlotIsRecord(blocks, root, b, s);
      assert (loaded + next)[i] == next[s];
    }
  }

  // ---- round trip ----

  lemma {:induction false} PackedAt(entries: seq<Record>, from: nat, k: nat, s: nat)
    requires from + k <= |entries| && s < k
    ensures Packed(entries, from, k)[s * RECORD_SIZE..s * RECORD_SIZE + RECORD_SIZE] == Filled(entries[from + s])
    decreases k
  {
    var init := Packed(entries, from, k - 1);
    if s < k - 1 {
      PackedAt(entries, from, k - 1, s);
      assert (init + Filled(entries[from + k - 1]))[s * RECORD_SIZE..s * RECORD_SIZE + RECORD_SIZE]
          == init[s * RECORD_SIZE..s * RECORD_SIZE + RECORD_SIZE];
    }
  }

  /** A written region loads as the records in order, with their checksums filled in. */
  lemma RegionRecord(blocks: Blocks, root: nat, entries: seq<Record>, i: nat)
    requires WholeBlocks(blocks) && RegionHolds(blocks, root, entries) && i < |entries|
    ensures RecordAt(blocks, root, i) == Some(Filled(entries[i])) && RecordOk(blocks, root, i)
  {
    var b, s := i / PER_BLOCK, i % PER_BLOCK;
    assert BlockHolds(blocks, root, entries, b);
    var k := InBlock(|entries|, b);
    PackedAt(entries, b * PER_BLOCK, k, s);
    var image, packed := BlockImage(entries, b), Packed(entries, b * PER_BLOCK, k);
    assert image[s * RECORD_SIZE..s * RECORD_SIZE + RECORD_SIZE] == packed[s * RECORD_SIZE..s * RECORD_SIZE + RECORD_SIZE];
    FilledHolds(entries[i]);
  }

  function FilledAll(entries: seq<Record>): seq<Record>
  {
    seq(|entries|, i requires 0 <= i < |entries| => Filled(entries[i]))
  }

  /** An outcome of loading is fixed by what the region holds. */
  lemma RegionLoads(blocks: Blocks, root: nat, blockCount: nat, count: nat, r: Result<seq<Record>>)
    requires WholeBlocks(blocks)
    requires r.Ok? ==> |r.value| == Least(count, blockCount * PER_BLOCK) && Loaded(blocks, root, r.value)
    requires r.Err? ==> !AllOk(blocks, root, Least(count, blockCount * PER_BLOCK))
    ensures forall entries :: RegionOf(blocks, root, blockCount, count, entries) ==> r == Ok(FilledAll(entries))
  {
    forall entries | RegionOf(blocks, root, blockCount, count, entries) ensures r == Ok(FilledAll(entries)) {
      assert Least(count, blockCount * PER_BLOCK) == count;
      forall i: nat | i < count ensures RecordAt(blocks, root, i) == Some(Filled(entries[i])) && RecordOk(blocks, root, i) {
        RegionRecord(blocks, root, entries, i);
      }
      assert r.Ok?;
      assert r.value == FilledAll(entries);
    }
  }
}
