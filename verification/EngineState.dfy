/** The engine's state as a value, its invariant, and the steps that keep it. */
module EngineState {
  import opened Bytes
  import opened Helix
  import opened FileRead
  import opened Ownership
  import opened Device
  import opened Checkpoint
  import opened EngineSpec
  import opened CrashSpec
  import opened Prelude

  /**
   The device's history, the allocated blocks, the in-memory superblock and index, the next sequence number;
   who owns each block and what is stored there; what each snapshot saw; the index after each sequence number;
   the successful syncs.
   */
  datatype Fs = Fs(trace: seq<Media>, used: set<nat>, sb: Superblock, index: Index, next: nat,
                   owners: Owners, holdings: Holdings, pins: Pins, history: History, synced: set<Synced>, encode: Encoder)

  /** A sync that succeeded: how many moments the device's history had then, and the sequence number committed. */
  datatype Synced = Synced(at: nat, lsn: nat)

  function Last(t: seq<Media>): Media
    requires t != []
  {
    t[|t| - 1]
  }

  /** The region a superblock names belongs to it. */
  ghost predicate RegionOwned(owners: Owners, sb: Superblock)
  {
    sb.indexRoot != BLOCK_NULL ==>
      Region(sb.indexRoot) in owners && owners[Region(sb.indexRoot)] == Range(sb.indexRoot, sb.indexBlocks)
  }

  /** Every region that may be mounted from after a crash is allocated and owned as a region. */
  ghost predicate RegionsOwned(m: Media, owners: Owners)
  {
    |m.slots| == 2 && forall c :: Candidate(m, c) && c.Copy? ==> RegionOwned(owners, c.sb)
  }

  ghost predicate RootsInside(owners: Owners)
  {
    forall root: nat :: Region(root) in owners ==> root in owners[Region(root)]
  }

  ghost predicate DeviceOk(s: Fs)
  {
    && s.trace != [] && MediaOk(Last(s.trace)) && TraceSafe(s.trace, s.history, s.encode)
    && RegionsOwned(Last(s.trace), s.owners)
    && RegionOwned(s.owners, s.sb) && SbLoads(Last(s.trace).blocks, s.sb, s.history, s.encode)
  }

  ghost predicate BlocksOk(s: Fs)
  {
    && s.trace != [] && Partition(s.owners, s.used) && RootsInside(s.owners)
    && HoldingsOk(Last(s.trace).blocks, s.owners, s.holdings)
  }

  ghost predicate NamesOk(s: Fs, except: Option<Owner>)
  {
    && |s.history| == s.next > 0 && s.history[s.next - 1] == s.index
    && PinsOk(s.index, s.holdings, s.pins, s.next, except)
  }

  // ---- what is committed ----

  /** Every copy a crash at this moment may leave commits at least the given sequence number. */
  ghost predicate Above(m: Media, lsn: nat)
  {
    |m.slots| == 2 && forall c :: Candidate(m, c) && c.Copy? ==> c.sb.committedLsn >= lsn
  }

  /** Since a sync no moment could lead a mount back behind it. */
  ghost predicate NeverBehind(trace: seq<Media>, e: Synced)
  {
    0 < e.at <= |trace| && forall k :: e.at - 1 <= k < |trace| ==> Above(trace[k], e.lsn)
  }

  ghost predicate SyncedOk(s: Fs)
  {
    s.sb.committedLsn < s.next && forall e :: e in s.synced ==> NeverBehind(s.trace, e) && e.lsn <= s.sb.committedLsn
  }

  /** The sequence number of the write that made a stored version. */
  function LsnOf(index: Index, o: Owner): nat
  {
    match o
    case Live(p) => if p in index then index[p].lsn else 0
    case Kept(_, l) => l
    case _ => 0
  }

  /** The stored versions written up to `lsn` are durable. */
  ghost predicate CleanUpTo(s: Fs, lsn: nat)
    requires s.trace != []
  {
    forall o :: o in s.holdings && LsnOf(s.index, o) <= lsn ==> o in s.owners && s.owners[o] !! Last(s.trace).dirty
  }

  /** What the checkpoint lists was committed. */
  predicate Flushed(sb: Superblock)
  {
    sb.indexRoot != BLOCK_NULL ==> sb.checkpointLsn <= sb.committedLsn
  }

  /** What a copy that a crash may leave commits is durable. */
  ghost predicate CopiesOk(s: Fs)
  {
    s.trace != [] && |Last(s.trace).slots| == 2 &&
    forall c :: Candidate(Last(s.trace), c) && c.Copy? ==>
                  Flushed(c.sb) && c.sb.committedLsn <= s.sb.committedLsn && CleanUpTo(s, c.sb.committedLsn)
  }

  /**
   An entry of an earlier namespace is not newer than that, is still the entry unless it was overwritten since,
   and if it was, a version kept of it is the one it names.
   */
  ghost predicate EntryOk(index: Index, holdings: Holdings, p: Path, e: Entry, lsn: nat)
  {
    && e.lsn <= lsn
    && p in index && e.lsn <= index[p].lsn && (e.lsn == index[p].lsn ==> e == index[p])
    && (e.lsn < index[p].lsn && e.node.Extents? && Kept(p, e.lsn) in holdings ==> holdings[Kept(p, e.lsn)].file == e.node.file)
  }

  ghost predicate HistoryOk(s: Fs)
  {
    forall lsn: nat, p :: lsn < |s.history| && p in s.history[lsn] ==> EntryOk(s.index, s.holdings, p, s.history[lsn][p], lsn)
  }

  ghost predicate CommitsOk(s: Fs)
  {
    SyncedOk(s) && CopiesOk(s) && HistoryOk(s)
  }

  datatype Aspect = OfDevice | OfBlocks | OfNames | OfCommits

  ghost predicate AspectOk(s: Fs, except: Option<Owner>, a: Aspect)
  {
    match a
    case OfDevice => DeviceOk(s)
    case OfBlocks => BlocksOk(s)
    case OfNames => NamesOk(s, except)
    case OfCommits => CommitsOk(s)
  }

  /** The invariant; `except` is a version being superseded, which need not be pinned. */
  ghost predicate Sound(s: Fs, except: Option<Owner>)
  {
    s.trace != [] && |Last(s.trace).slots| == 2 && forall a: Aspect :: AspectOk(s, except, a)
  }

  lemma Parts(s: Fs, except: Option<Owner>)
    requires Sound(s, except)
    ensures DeviceOk(s) && BlocksOk(s) && NamesOk(s, except)
  {
    assert AspectOk(s, except, OfDevice) && AspectOk(s, except, OfBlocks) && AspectOk(s, except, OfNames);
  }

  lemma PinsNow(s: Fs, except: Option<Owner>)
    requires Sound(s, except)
    ensures LiveOk(s.index, s.holdings) && PinsHeld(s.index, s.holdings, s.pins) && LivePinned(s.index, s.pins)
    ensures LsnsOk(s.index, s.holdings, s.pins, s.next) && KeptPinned(s.holdings, s.pins, except)
  {
    Parts(s, except);
    PinParts(s.index, s.holdings, s.pins, s.next, except);
  }

  lemma Commits(s: Fs, except: Option<Owner>)
    requires Sound(s, except)
    ensures CommitsOk(s)
  {
    assert AspectOk(s, except, OfCommits);
  }

  lemma Together(s: Fs, except: Option<Owner>)
    requires DeviceOk(s) && BlocksOk(s) && NamesOk(s, except) && CommitsOk(s)
    ensures Sound(s, except)
  {
    forall a: Aspect ensures AspectOk(s, except, a) {
      match a
      case OfDevice =>
      case OfBlocks =>
      case OfNames =>
      case OfCommits =>
    }
  }

  /** Some stored versions may have gone; the others are as before. */
  ghost predicate FewerVersions(s: Fs, s': Fs)
  {
    forall o :: o in s'.holdings ==>
                  o in s.holdings && s'.holdings[o] == s.holdings[o] && (o in s.owners ==> o in s'.owners && s'.owners[o] == s.owners[o])
  }

  /** Commits are kept by steps that touch neither the device nor what the stored versions are. */
  lemma CommitsKept(s: Fs, s': Fs)
    requires CommitsOk(s) && s'.trace == s.trace && s'.synced == s.synced && s'.index == s.index && FewerVersions(s, s')
    requires s.sb.committedLsn <= s'.sb.committedLsn < s'.next && (s'.history == s.history || s'.history == s.history + [s.index])
    requires forall p :: p in s.index ==> s.index[p].lsn <= |s.history|
    ensures CommitsOk(s')
  {
    forall lsn: nat, p | lsn < |s'.history| && p in s'.history[lsn] ensures EntryOk(s'.index, s'.holdings, p, s'.history[lsn][p], lsn) {
      assert lsn < |s.history| ==> EntryOk(s.index, s.holdings, p, s.history[lsn][p], lsn);
    }
    forall c | Candidate(Last(s.trace), c) && c.Copy? ensures CleanUpTo(s', c.sb.committedLsn) {
      assert CleanUpTo(s, c.sb.committedLsn);
    }
  }

  /** A further moment that may show the superblock in memory keeps commits if everything is durable. */
  lemma CommitsMoment(s: Fs, m: Media)
    requires CommitsOk(s) && |m.slots| == 2 && (m.dirty == {} || m == Last(s.trace)) && forall o :: o in s.holdings ==> o in s.owners
    requires forall c :: Candidate(m, c) && c.Copy? ==> Candidate(Last(s.trace), c) || (c == Copy(s.sb) && Flushed(s.sb))
    ensures CommitsOk(s.(trace := s.trace + [m]))
  {
    var s' := s.(trace := s.trace + [m]);
    forall e | e in s.synced ensures NeverBehind(s'.trace, e) {
      assert NeverBehind(s.trace, e) && Above(s.trace[|s.trace| - 1], e.lsn);
      forall k | e.at - 1 <= k < |s'.trace| ensures Above(s'.trace[k], e.lsn) {
        assert k < |s.trace| ==> s'.trace[k] == s.trace[k];
      }
    }
    forall c | Candidate(m, c) && c.Copy?
      ensures Flushed(c.sb) && c.sb.committedLsn <= s.sb.committedLsn && CleanUpTo(s', c.sb.committedLsn)
    {
      MomentClean(s, m, c);
    }
  }

  lemma MomentClean(s: Fs, m: Media, c: Slot)
    requires CopiesOk(s) && (forall o :: o in s.holdings ==> o in s.owners) && (m.dirty == {} || m == Last(s.trace)) && c.Copy?
    requires Candidate(Last(s.trace), c) || m.dirty == {}
    ensures CleanUpTo(s.(trace := s.trace + [m]), c.sb.committedLsn)
  {
    if m.dirty != {} {
      assert CleanUpTo(s, c.sb.committedLsn);
    }
  }

  lemma AboveNarrowed(m0: Media, m: Media, lsn: nat)
    requires MediaOk(m0) && Above(m0, lsn) && Narrowed(m0.slots, m.slots)
    ensures Above(m, lsn)
  {
    forall c | Candidate(m, c) ensures Candidate(m0, c) {
    }
  }

  lemma SyncedExtends(s: Fs, t: seq<Media>, free: set<nat>, e: Synced)
    requires NeverBehind(s.trace, e) && s.trace != [] && MediaOk(Last(s.trace)) && Extends(s.trace, t, free)
    ensures NeverBehind(t, e)
  {
    forall k | e.at - 1 <= k < |t| ensures Above(t[k], e.lsn) {
      if k < |s.trace| {
        assert t[k] == t[..|s.trace|][k] == s.trace[k];
      } else {
        assert Above(s.trace[|s.trace| - 1], e.lsn) && Near(s.trace[|s.trace| - 1], t[k], free);
        AboveNarrowed(s.trace[|s.trace| - 1], t[k], e.lsn);
      }
    }
  }

  /** Writing to free blocks keeps commits. */
  lemma CommitsExtend(s: Fs, t: seq<Media>, free: set<nat>)
    requires CommitsOk(s) && MediaOk(Last(s.trace)) && Partition(s.owners, s.used) && free !! s.used && Extends(s.trace, t, free)
    ensures CommitsOk(s.(trace := t))
  {
    forall e | e in s.synced ensures NeverBehind(t, e) {
      SyncedExtends(s, t, free, e);
    }
    LastNear(s.trace, t, free);
    forall c | Candidate(Last(t), c) && c.Copy?
      ensures Flushed(c.sb) && c.sb.committedLsn <= s.sb.committedLsn && CleanUpTo(s.(trace := t), c.sb.committedLsn)
    {
      assert Candidate(Last(s.trace), c) && CleanUpTo(s, c.sb.committedLsn);
    }
  }

  // ---- writing to free blocks ----

  lemma LastNear(t0: seq<Media>, t: seq<Media>, touched: set<nat>)
    requires Extends(t0, t, touched)
    ensures Last(t) == Last(t0) || Near(Last(t0), Last(t), touched)
    ensures SameExcept(Last(t0).blocks, Last(t).blocks, touched)
  {
    if |t| == |t0| {
      assert t == t[..|t0|];
    }
  }

  /** Free blocks are never part of a region that may be mounted from. */
  lemma FreeIsOffLimits(m: Media, owners: Owners, used: set<nat>, free: set<nat>)
    requires RegionsOwned(m, owners) && Partition(owners, used) && free !! used
    ensures OffLimits(m, free)
  {
    forall c | Candidate(m, c) && c.Copy? ensures SbRegion(c.sb) !! free {
      if c.sb.indexRoot != BLOCK_NULL {
        assert owners[Region(c.sb.indexRoot)] <= used;
      }
    }
  }

  lemma NarrowedOwned(m0: Media, m: Media, owners: Owners)
    requires MediaOk(m0) && RegionsOwned(m0, owners) && Narrowed(m0.slots, m.slots)
    ensures RegionsOwned(m, owners)
  {
    forall c | Candidate(m, c) && c.Copy? ensures RegionOwned(owners, c.sb) {
      assert Candidate(m0, c);
    }
  }

  lemma FreeWritesDevice(s: Fs, t: seq<Media>, free: set<nat>)
    requires DeviceOk(s) && Partition(s.owners, s.used) && free !! s.used && Extends(s.trace, t, free) && MediaOk(Last(t))
    ensures DeviceOk(s.(trace := t))
  {
    var m0, m := Last(s.trace), Last(t);
    FreeIsOffLimits(m0, s.owners, s.used, free);
    ExtendsSafe(s.trace, t, free, s.history, s.encode);
    LastNear(s.trace, t, free);
    if m != m0 {
      NarrowedOwned(m0, m, s.owners);
      if s.sb.indexRoot != BLOCK_NULL {
        assert s.owners[Region(s.sb.indexRoot)] <= s.used;
      }
      LoadsKept(m0.blocks, m.blocks, s.sb, s.history, s.encode, free);
    }
  }

  /** Writing to free blocks, and flushing, keeps everything; all along the device can be mounted from. */
  lemma FreeWrites(s: Fs, t: seq<Media>, free: set<nat>, except: Option<Owner>)
    requires Sound(s, except) && free !! s.used && Extends(s.trace, t, free) && MediaOk(Last(t))
    ensures Sound(s.(trace := t), except)
  {
    Parts(s, except);
    FreeWritesDevice(s, t, free);
    LastNear(s.trace, t, free);
    HoldingsKept(Last(s.trace).blocks, Last(t).blocks, s.owners, s.used, s.holdings, free);
    Commits(s, except);
    CommitsExtend(s, t, free);
    Together(s.(trace := t), except);
  }

  // ---- superblock slots ----

  lemma SlotDevice(s: Fs, i: nat, ok: bool, m: Media)
    requires DeviceOk(s) && i < 2 && Last(s.trace).dirty == {}
    requires m == Last(s.trace).(slots := Last(s.trace).slots[i := Written(Last(s.trace).slots[i], s.sb, ok)])
    ensures DeviceOk(s.(trace := s.trace + [m]))
  {
    var m0 := Last(s.trace);
    assert MomentSafe(m0, s.history, s.encode);
    SlotWriteSafe(m0, i, s.sb, ok, s.history, s.encode);
    OneMoreSafe(s.trace, m, s.history, s.encode);
    forall c | Candidate(m, c) && c.Copy? ensures RegionOwned(s.owners, c.sb) {
      assert c == Copy(s.sb) || Candidate(m0, c);
    }
  }

  lemma SlotStep(s: Fs, i: nat, ok: bool, m: Media)
    requires Sound(s, None) && Flushed(s.sb) && i < 2 && Last(s.trace).dirty == {}
    requires m == Last(s.trace).(slots := Last(s.trace).slots[i := Written(Last(s.trace).slots[i], s.sb, ok)])
    ensures Sound(s.(trace := s.trace + [m]), None)
  {
    Parts(s, None);
    SlotDevice(s, i, ok, m);
    Commits(s, None);
    CommitsMoment(s, m);
    Together(s.(trace := s.trace + [m]), None);
  }

  lemma FlushStep(s: Fs, m: Media, except: Option<Owner>)
    requires Sound(s, except) && (m == Last(s.trace) || m == Settled(Last(s.trace)))
    ensures Sound(s.(trace := s.trace + [m]), except)
  {
    Parts(s, except);
    var m0 := Last(s.trace);
    assert MomentSafe(m0, s.history, s.encode);
    FlushSafe(m0, s.history, s.encode);
    OneMoreSafe(s.trace, m, s.history, s.encode);
    forall c | Candidate(m, c) && c.Copy? ensures RegionOwned(s.owners, c.sb) {
      assert Candidate(m0, c);
    }
    Commits(s, except);
    CommitsMoment(s, m);
    Together(s.(trace := s.trace + [m]), except);
  }

  // ---- regions ----

  /** The empty file system. */
  lemma EmptySound(s: Fs)
    requires |s.trace| == 1 && MediaOk(Last(s.trace)) && SlotsAgree(Last(s.trace), s.sb) && s.sb.indexRoot == BLOCK_NULL
    requires s.used == {} && s.index == map[] && s.next == 1 && s.owners == map[] && s.holdings == map[] && s.pins == map[]
    requires s.history == [map[]] && s.synced == {} && s.sb.committedLsn == 0
    ensures Sound(s, None)
  {
    var m := Last(s.trace);
    forall c | Candidate(m, c) && c.Copy? ensures c.sb.indexRoot == BLOCK_NULL {
    }
    Together(s, None);
  }

  lemma KeepCommits(s: Fs, s': Fs, except: Option<Owner>)
    requires Sound(s, except) && s'.trace == s.trace && s'.synced == s.synced && s'.index == s.index
    requires s.sb.committedLsn <= s'.sb.committedLsn && (s'.next == s.next || s'.next == s.next + 1)
    requires s'.sb.committedLsn == s.sb.committedLsn || s'.sb.committedLsn < s'.next
    requires s'.history == s.history || s'.history == s.history + [s.index]
    requires FewerVersions(s, s')
    ensures CommitsOk(s')
  {
    Parts(s, except);
    Commits(s, except);
    CommitsKept(s, s');
  }

  lemma SetSuperblock(s: Fs, sb: Superblock)
    requires s.sb.committedLsn <= sb.committedLsn < s.next
    requires Sound(s, None) && RegionOwned(s.owners, sb) && SbLoads(Last(s.trace).blocks, sb, s.history, s.encode)
    ensures Sound(s.(sb := sb), None)
  {
    Parts(s, None);
    KeepCommits(s, s.(sb := sb), None);
    Together(s.(sb := sb), None);
  }

  /** A superblock that names the same checkpoint loads the same. */
  lemma SameRegion(blocks: Blocks, a: Superblock, b: Superblock, owners: Owners, history: History, encode: Encoder)
    requires RegionOwned(owners, a) && SbLoads(blocks, a, history, encode) && b == a.(committedLsn := b.committedLsn)
    ensures RegionOwned(owners, b) && SbLoads(blocks, b, history, encode)
  {
    if a.indexRoot != BLOCK_NULL {
      var entries :| RegionOf(blocks, a.indexRoot, a.indexBlocks, a.entryCount, entries) && Lists(entries, history[a.checkpointLsn], encode);
      assert RegionOf(blocks, b.indexRoot, b.indexBlocks, b.entryCount, entries);
    }
  }

  /** A superblock that names a region just written loads the index listed there. */
  lemma NamesRegion(blocks: Blocks, sb: Superblock, entries: seq<Record>, history: History, encode: Encoder)
    requires RegionHolds(blocks, sb.indexRoot, entries) && sb.indexBlocks == RegionBlocks(|entries|) && sb.entryCount == |entries|
    requires sb.checkpointLsn < |history| && Lists(entries, history[sb.checkpointLsn], encode)
    ensures SbLoads(blocks, sb, history, encode)
  {
    assert RegionOf(blocks, sb.indexRoot, sb.indexBlocks, sb.entryCount, entries);
  }

  lemma HoldingsApart(blocks: Blocks, owners: Owners, holdings: Holdings, o: Owner, own: set<nat>)
    requires HoldingsOk(blocks, owners, holdings) && (o.Region? || o.Lost?)
    ensures HoldingsOk(blocks, owners - {o}, holdings) && HoldingsOk(blocks, owners[o := own], holdings)
  {
    forall q | q in holdings
      ensures (q.Live? || q.Kept?) && q in owners && q != o && HeldOk(blocks, owners[q], holdings[q])
    {
    }
  }

  function WithRegion(s: Fs, root: nat, count: nat): Fs
  {
    s.(owners := s.owners[Region(root) := Range(root, count)], used := s.used + Range(root, count))
  }

  lemma OwnersMore(m: Media, owners: Owners, sb: Superblock, o: Owner, own: set<nat>)
    requires RegionsOwned(m, owners) && RegionOwned(owners, sb) && o !in owners
    ensures RegionsOwned(m, owners[o := own]) && RegionOwned(owners[o := own], sb)
  {
    forall c | Candidate(m, c) && c.Copy? ensures RegionOwned(owners[o := own], c.sb) {
      assert RegionOwned(owners, c.sb);
    }
  }

  lemma AddKeepsBlocks(s: Fs, root: nat, count: nat)
    requires BlocksOk(s) && count > 0 && Range(root, count) !! s.used
    ensures Region(root) !in s.owners && BlocksOk(WithRegion(s, root, count)) && FewerVersions(s, WithRegion(s, root, count))
  {
    assert root in Range(root, count);
    assert forall q :: q in s.owners ==> root !in s.owners[q];
    AddOwner(s.owners, s.used, Region(root), Range(root, count));
    HoldingsApart(Last(s.trace).blocks, s.owners, s.holdings, Region(root), Range(root, count));
  }

  lemma AddRegion(s: Fs, root: nat, count: nat)
    requires Sound(s, None) && count > 0 && Range(root, count) !! s.used
    ensures Region(root) !in s.owners && Sound(WithRegion(s, root, count), None)
  {
    Parts(s, None);
    AddKeepsBlocks(s, root, count);
    OwnersMore(Last(s.trace), s.owners, s.sb, Region(root), Range(root, count));
    KeepCommits(s, WithRegion(s, root, count), None);
    Together(WithRegion(s, root, count), None);
  }

  /** Committing a later sequence number changes nothing a mount depends on. */
  lemma CommitStep(s: Fs, lsn: nat)
    requires Sound(s, None) && lsn == s.next - 1
    ensures Sound(s.(sb := s.sb.(committedLsn := lsn)), None) && Flushed(s.sb.(committedLsn := lsn))
  {
    Parts(s, None);
    Commits(s, None);
    SameRegion(Last(s.trace).blocks, s.sb, s.sb.(committedLsn := lsn), s.owners, s.history, s.encode);
    SetSuperblock(s, s.sb.(committedLsn := lsn));
  }

  lemma CommittedBelow(s: Fs)
    requires Sound(s, None)
    ensures s.sb.committedLsn < s.next
  {
    Commits(s, None);
  }

  lemma HistoryEnds(s: Fs, except: Option<Owner>)
    requires Sound(s, except)
    ensures |s.history| == s.next > 0 && s.history[s.next - 1] == s.index
  {
    Parts(s, except);
  }

  lemma OwnedUsed(s: Fs, except: Option<Owner>, o: Owner)
    requires Sound(s, except) && o in s.owners
    ensures s.owners[o] <= s.used
  {
    Parts(s, except);
  }

  /** The superblock in memory may name a region that holds the current index. */
  lemma NameStep(s: Fs, sb: Superblock, entries: seq<Record>)
    requires Sound(s, None) && Lists(entries, s.index, s.encode) && s.next > 0 && sb.checkpointLsn == s.next - 1
    requires sb.committedLsn == s.sb.committedLsn
    requires RegionHolds(Last(s.trace).blocks, sb.indexRoot, entries) && sb.indexBlocks == RegionBlocks(|entries|) && sb.entryCount == |entries|
    requires RegionOwned(s.owners, sb)
    ensures Sound(s.(sb := sb), None)
  {
    CommittedBelow(s);
    HistoryEnds(s, None);
    NamesRegion(Last(s.trace).blocks, sb, entries, s.history, s.encode);
    SetSuperblock(s, sb);
  }

  lemma SuperblockOwned(s: Fs)
    requires Sound(s, None)
    ensures RegionOwned(s.owners, s.sb)
  {
    Parts(s, None);
  }

  lemma SwapOwner(owners: Owners, a: Owner, b: Owner, own: set<nat>)
    requires a != b
    ensures owners[b := own] - {a} == (owners - {a})[b := own]
  {
  }

  function WithoutRegion(s: Fs, root: nat): Fs
    requires Region(root) in s.owners
  {
    s.(owners := s.owners - {Region(root)}, used := s.used - s.owners[Region(root)])
  }

  /** A region may go once both slots name another. */
  lemma DropRegion(s: Fs, root: nat)
    requires Sound(s, None) && SlotsAgree(Last(s.trace), s.sb) && root != s.sb.indexRoot && Region(root) in s.owners
    ensures Sound(WithoutRegion(s, root), None)
  {
    Parts(s, None);
    DropOwner(s.owners, s.used, Region(root));
    HoldingsApart(Last(s.trace).blocks, s.owners, s.holdings, Region(root), {});
    var owners := s.owners - {Region(root)};
    assert RegionOwned(owners, s.sb);
    forall c | Candidate(Last(s.trace), c) && c.Copy? ensures RegionOwned(owners, c.sb) {
      assert c == Copy(s.sb);
    }
    KeepCommits(s, WithoutRegion(s, root), None);
    Together(WithoutRegion(s, root), None);
  }

  // ---- files ----

  function Losing(s: Fs, lost: set<nat>): Fs
  {
    s.(owners := WithLost(s.owners, lost), used := s.used + lost)
  }

  lemma LoseKeepsDevice(s: Fs, lost: set<nat>)
    requires DeviceOk(s)
    ensures DeviceOk(Losing(s, lost))
  {
    forall c | Candidate(Last(s.trace), c) && c.Copy? ensures RegionOwned(WithLost(s.owners, lost), c.sb) {
      assert RegionOwned(s.owners, c.sb);
    }
  }

  lemma LoseKeepsBlocks(s: Fs, lost: set<nat>)
    requires BlocksOk(s) && lost !! s.used
    ensures BlocksOk(Losing(s, lost)) && FewerVersions(s, Losing(s, lost))
  {
    LoseBlocks(s.owners, s.used, lost);
    HoldingsApart(Last(s.trace).blocks, s.owners, s.holdings, Lost, WithLost(s.owners, lost)[Lost]);
  }

  /** Blocks taken by a write that did not fit belong to nobody. */
  lemma LoseStep(s: Fs, lost: set<nat>)
    requires Sound(s, None) && lost !! s.used
    ensures Sound(Losing(s, lost), None)
  {
    assert AspectOk(s, None, OfBlocks);
    LoseKeepsBlocks(s, lost);
    KeepCommits(s, Losing(s, lost), None);
    forall a: Aspect ensures AspectOk(Losing(s, lost), None, a) {
      assert AspectOk(s, None, a);
      match a
      case OfDevice => LoseKeepsDevice(s, lost);
      case OfBlocks =>
      case OfNames =>
      case OfCommits =>
    }
  }

  /** The state after a write of `data` to `p`, stored as `stored` on blocks `own` or inline. */
  function Installing(s: Fs, p: Path, stored: Option<Image>, own: set<nat>, data: seq<Byte>): Fs
  {
    var index := s.index[p := Entry(NodeFor(stored, data), s.next)];
    s.(index := index, history := s.history + [index], next := s.next + 1, used := s.used + own,
       owners := ReplacedOwners(s.index, s.owners, p, stored, own), holdings := Replaced(s.index, s.holdings, p, stored))
  }

  lemma InstallDevice(s: Fs, p: Path, stored: Option<Image>, own: set<nat>, data: seq<Byte>)
    requires DeviceOk(s)
    ensures DeviceOk(Installing(s, p, stored, own, data))
  {
    var s' := Installing(s, p, stored, own, data);
    HistorySafe(s.trace, s.history, s'.index, s.encode);
    LoadsLater(Last(s.trace).blocks, s.sb, s.history, s'.index, s.encode);
    forall c | Candidate(Last(s.trace), c) && c.Copy? ensures RegionOwned(s'.owners, c.sb) {
      assert RegionOwned(s.owners, c.sb);
    }
  }

  lemma NamesFrom(s: Fs, except: Option<Owner>, index: Index, holdings: Holdings, pins: Pins, next: nat)
    requires PinsOk(index, holdings, pins, next, except)
    requires s.index == index && s.holdings == holdings && s.pins == pins && s.next == next
    requires |s.history| == s.next > 0 && s.history[s.next - 1] == s.index
    ensures NamesOk(s, except)
  {
  }

  lemma InstallNames(s: Fs, p: Path, stored: Option<Image>, own: set<nat>, data: seq<Byte>)
    requires NamesOk(s, None)
    ensures NamesOk(Installing(s, p, stored, own, data), Superseded(s.index, p))
  {
    SupersedePins(s.index, s.holdings, s.pins, s.next, p, stored, data);
    NamesFrom(Installing(s, p, stored, own, data), Superseded(s.index, p),
              s.index[p := Entry(NodeFor(stored, data), s.next)], Replaced(s.index, s.holdings, p, stored), s.pins, s.next + 1);
  }

  lemma InstallBlocks(s: Fs, p: Path, stored: Option<Image>, own: set<nat>, data: seq<Byte>)
    requires BlocksOk(s) && NamesOk(s, None) && own !! s.used
    requires if stored.Some? then HeldOk(Last(s.trace).blocks, own, stored.value) else own == {}
    ensures BlocksOk(Installing(s, p, stored, own, data))
  {
    ReplaceOwners(Last(s.trace).blocks, s.index, s.owners, s.holdings, s.pins, s.next, s.used, p, stored, own);
  }

  lemma Install(s: Fs, p: Path, stored: Option<Image>, own: set<nat>, data: seq<Byte>)
    requires Sound(s, None) && own !! s.used
    requires if stored.Some? then HeldOk(Last(s.trace).blocks, own, stored.value) else own == {}
    ensures Sound(Installing(s, p, stored, own, data), Superseded(s.index, p))
  {
    Parts(s, None);
    InstallDevice(s, p, stored, own, data);
    InstallBlocks(s, p, stored, own, data);
    InstallNames(s, p, stored, own, data);
    InstallCommits(s, p, stored, own, data);
    Together(Installing(s, p, stored, own, data), Superseded(s.index, p));
  }

  /** The version of `p` superseded keeps its blocks for now. */
  ghost predicate HandedOver(index: Index, p: Path, before: Owners, after: Owners)
  {
    var o := Superseded(index, p);
    o.Some? ==> Live(p) in before && o.value in after && after[o.value] == before[Live(p)]
  }

  lemma InstallKeeps(s: Fs, p: Path, stored: Option<Image>, own: set<nat>, data: seq<Byte>)
    requires Sound(s, None)
    ensures HandedOver(s.index, p, s.owners, Installing(s, p, stored, own, data).owners)
  {
    Parts(s, None);
    PinsNow(s, None);
    assert LiveAt(s.index, s.holdings, p);
  }

  /** File versions own the same blocks. */
  ghost predicate SameFiles(a: Owners, b: Owners)
  {
    forall o: Owner :: o.Live? || o.Kept? ==> (o in a <==> o in b) && (o in a && o in b ==> a[o] == b[o])
  }

  lemma HandedOverLater(index: Index, p: Path, a: Owners, b: Owners, c: Owners)
    requires SameFiles(a, b) && HandedOver(index, p, b, c)
    ensures HandedOver(index, p, a, c)
  {
  }

  /** Earlier entries stay as they are, or their version is kept. */
  lemma InstallEntry(s: Fs, p: Path, stored: Option<Image>, own: set<nat>, data: seq<Byte>, lsn: nat, q: Path)
    requires HistoryOk(s) && LiveAt(s.index, s.holdings, p) && |s.history| == s.next && lsn <= s.next
    requires forall q :: q in s.index ==> s.index[q].lsn < s.next
    ensures var s' := Installing(s, p, stored, own, data);
            q in s'.history[lsn] ==> EntryOk(s'.index, s'.holdings, q, s'.history[lsn][q], lsn)
  {
    var s' := Installing(s, p, stored, own, data);
    if lsn < s.next && q in s.history[lsn] {
      assert EntryOk(s.index, s.holdings, q, s.history[lsn][q], lsn);
    }
  }

  /** The new version is newer than anything committed, the others own what they owned. */
  lemma InstallClean(s: Fs, p: Path, stored: Option<Image>, own: set<nat>, data: seq<Byte>, lsn: nat)
    requires s.trace != [] && CleanUpTo(s, lsn) && lsn < s.next
    requires LiveAt(s.index, s.holdings, p) && (Live(p) in s.owners <==> Live(p) in s.holdings)
    ensures CleanUpTo(Installing(s, p, stored, own, data), lsn)
  {
    var s' := Installing(s, p, stored, own, data);
    forall o | o in s'.holdings && LsnOf(s'.index, o) <= lsn ensures o in s'.owners && s'.owners[o] !! Last(s.trace).dirty {
      assert o != Live(p);
      if Superseded(s.index, p) == Some(o) {
        assert LsnOf(s.index, Live(p)) == LsnOf(s'.index, o);
      }
    }
  }

  lemma InstallCommits(s: Fs, p: Path, stored: Option<Image>, own: set<nat>, data: seq<Byte>)
    requires Sound(s, None)
    ensures CommitsOk(Installing(s, p, stored, own, data))
  {
    Parts(s, None);
    PinsNow(s, None);
    Commits(s, None);
    assert LiveAt(s.index, s.holdings, p);
    var s' := Installing(s, p, stored, own, data);
    forall lsn: nat, q | lsn < |s'.history| && q in s'.history[lsn] ensures EntryOk(s'.index, s'.holdings, q, s'.history[lsn][q], lsn) {
      InstallEntry(s, p, stored, own, data, lsn, q);
    }
    forall c | Candidate(Last(s.trace), c) && c.Copy? ensures CleanUpTo(s', c.sb.committedLsn) {
      InstallClean(s, p, stored, own, data, c.sb.committedLsn);
    }
  }

  function WithoutKept(s: Fs, o: Owner): Fs
    requires o in s.owners
  {
    s.(owners := s.owners - {o}, holdings := s.holdings - {o}, used := s.used - s.owners[o])
  }

  lemma OwnersLess(m: Media, owners: Owners, sb: Superblock, o: Owner)
    requires RegionsOwned(m, owners) && RegionOwned(owners, sb) && !o.Region?
    ensures RegionsOwned(m, owners - {o}) && RegionOwned(owners - {o}, sb)
  {
    forall c | Candidate(m, c) && c.Copy? ensures RegionOwned(owners - {o}, c.sb) {
      assert RegionOwned(owners, c.sb);
    }
  }

  /** The superseded version goes when no snapshot lies between it and its successor. */
  lemma DropKept(s: Fs, p: Path, l: nat)
    requires Sound(s, Some(Kept(p, l))) && Kept(p, l) in s.holdings && p in s.index
    requires forall t :: t in s.pins ==> t < s.index[p].lsn && !(l <= t < s.index[p].lsn)
    ensures Kept(p, l) in s.owners && Sound(WithoutKept(s, Kept(p, l)), None)
  {
    Parts(s, Some(Kept(p, l)));
    DropHolding(Last(s.trace).blocks, s.owners, s.holdings, s.used, Kept(p, l));
    UnpinPins(s.index, s.holdings, s.pins, s.next, p, l);
    OwnersLess(Last(s.trace), s.owners, s.sb, Kept(p, l));
    KeepCommits(s, WithoutKept(s, Kept(p, l)), Some(Kept(p, l)));
    DropsTo(s, WithoutKept(s, Kept(p, l)));
  }

  /** Piecing the invariant together when only ownership and pins changed. */
  lemma DropsTo(s: Fs, s': Fs)
    requires DeviceOk(s) && |s.history| == s.next > 0 && s.history[s.next - 1] == s.index && RootsInside(s.owners)
    requires s' == s.(owners := s'.owners, holdings := s'.holdings, used := s'.used)
    requires forall r :: r in s'.owners ==> r in s.owners && s'.owners[r] == s.owners[r]
    requires RegionsOwned(Last(s.trace), s'.owners) && RegionOwned(s'.owners, s.sb)
    requires Partition(s'.owners, s'.used) && HoldingsOk(Last(s.trace).blocks, s'.owners, s'.holdings)
    requires PinsOk(s.index, s'.holdings, s.pins, s.next, None) && CommitsOk(s')
    ensures Sound(s', None)
  {
    Together(s', None);
  }

  /** What a write must know of the version it is about to supersede. */
  ghost predicate Supersedable(s: Fs, p: Path)
  {
    && (forall t :: t in s.pins ==> t < s.next)
    && (Superseded(s.index, p).Some? ==>
          && Live(p) in s.holdings && s.holdings[Live(p)].file == s.index[p].node.file
          && forall t :: t in s.pins && s.index[p].lsn <= t ==> p in s.pins[t] && s.pins[t][p].lsn == s.index[p].lsn)
  }

  lemma CanSupersede(s: Fs, p: Path)
    requires Sound(s, None)
    ensures Supersedable(s, p)
  {
    Parts(s, None);
    PinsNow(s, None);
    assert LiveAt(s.index, s.holdings, p);
  }

  lemma PinsBelow(s: Fs)
    requires Sound(s, None)
    ensures forall t :: t in s.pins ==> t < s.next
  {
    Parts(s, None);
    PinsNow(s, None);
  }

  /** A stored version is intact on the blocks it owns. */
  lemma HeldNow(s: Fs, except: Option<Owner>, o: Owner)
    requires Sound(s, except) && o in s.holdings
    ensures o in s.owners && s.owners[o] <= s.used && HeldOk(Last(s.trace).blocks, s.owners[o], s.holdings[o])
  {
    Parts(s, except);
  }

  /** A pinned version stays. */
  lemma KeepKept(s: Fs, p: Path, l: nat, t: nat)
    requires Sound(s, Some(Kept(p, l))) && t in s.pins && p in s.pins[t] && s.pins[t][p].lsn == l
    ensures Sound(s, None)
  {
    Parts(s, Some(Kept(p, l)));
    PinsNow(s, Some(Kept(p, l)));
    forall q, k: nat | Kept(q, k) in s.holdings ensures PinnedBy(s.pins, q, k) {
    }
    PinsTogether(s.index, s.holdings, s.pins, s.next, None);
    Commits(s, Some(Kept(p, l)));
    Together(s, None);
  }

  function Snapshotting(s: Fs): Fs
  {
    s.(pins := s.pins[s.next := Seen(s.index, s.holdings)], history := s.history + [s.index], next := s.next + 1)
  }

  lemma SnapshotDevice(s: Fs)
    requires DeviceOk(s)
    ensures DeviceOk(Snapshotting(s))
  {
    HistorySafe(s.trace, s.history, s.index, s.encode);
    LoadsLater(Last(s.trace).blocks, s.sb, s.history, s.index, s.encode);
  }

  lemma SnapshotNames(s: Fs)
    requires NamesOk(s, None)
    ensures NamesOk(Snapshotting(s), None)
  {
    SnapshotPins(s.index, s.holdings, s.pins, s.next);
    NamesFrom(Snapshotting(s), None, s.index, s.holdings, s.pins[s.next := Seen(s.index, s.holdings)], s.next + 1);
  }

  lemma SnapshotStep(s: Fs)
    requires Sound(s, None)
    ensures Sound(Snapshotting(s), None)
  {
    KeepCommits(s, Snapshotting(s), None);
    forall a: Aspect ensures AspectOk(Snapshotting(s), None, a) {
      assert AspectOk(s, None, a);
      match a
      case OfDevice => SnapshotDevice(s);
      case OfBlocks =>
      case OfNames => SnapshotNames(s);
      case OfCommits =>
    }
  }

  // ---- what the invariant is for ----

  /** Every file version a snapshot saw still reads back as it was, from blocks nobody else owns. */
  lemma SnapshotsReadable(s: Fs, t: nat, p: Path)
    requires Sound(s, None) && t in s.pins && p in s.pins[t]
    ensures WholeBlocks(Last(s.trace).blocks) && Holds(Last(s.trace).blocks, s.pins[t][p].image.file, s.pins[t][p].image.data)
    ensures Owned(Last(s.trace).blocks, s.pins[t][p].image.file) <= s.used
  {
    Parts(s, None);
    PinsNow(s, None);
    assert PinHeld(s.index, s.holdings, t, p, s.pins[t][p]);
    var o := if s.index[p].lsn == s.pins[t][p].lsn then Live(p) else Kept(p, s.pins[t][p].lsn);
    assert HeldOk(Last(s.trace).blocks, s.owners[o], s.holdings[o]);
    assert s.owners[o] <= s.used;
  }

  /** What the rebuild looks at in an entry. */
  function TargetOf(e: Entry): Target
  {
    match e.node
    case Dir => Target(true, false, false, File(BLOCK_NULL, 0, false))
    case Inline(data) => Target(false, false, true, File(BLOCK_NULL, |data|, false))
    case Extents(f) => Target(false, false, false, f)
  }

  ghost predicate TargetsOf(targets: seq<Target>, index: Index, order: seq<Path>)
  {
    && |targets| == |order| && (forall p :: p in index ==> p in order)
    && forall i :: 0 <= i < |order| ==> order[i] in index && targets[i] == TargetOf(index[order[i]])
  }

  lemma LiveNow(s: Fs, p: Path)
    requires Sound(s, None)
    ensures LiveAt(s.index, s.holdings, p) && (Live(p) in s.owners <==> Live(p) in s.holdings)
  {
    Parts(s, None);
    PinsNow(s, None);
  }

  lemma TargetBlocks(s: Fs, p: Path)
    requires Sound(s, None) && p in s.index
    ensures WholeBlocks(Last(s.trace).blocks)
    ensures EntryBlocks(Last(s.trace).blocks, TargetOf(s.index[p])) == if Live(p) in s.owners then s.owners[Live(p)] else {}
  {
    LiveNow(s, p);
    MediaNow(s);
    if Live(p) in s.holdings {
      HeldNow(s, None, Live(p));
    }
  }

  /**
   A rebuild from the index marks the blocks of live files and of the region the superblock names. The other
   allocated blocks, those of pinned versions, of abandoned regions and the lost ones, it leaves free.
   */
  lemma RebuildMarks(s: Fs, targets: seq<Target>, order: seq<Path>, b: nat)
    requires Sound(s, None) && TargetsOf(targets, s.index, order)
    ensures WholeBlocks(Last(s.trace).blocks)
    ensures b in LiveBlocks(Last(s.trace).blocks, targets) + SbRegion(s.sb) <==>
            exists o :: o in s.owners && b in s.owners[o] && (o.Live? || (o == Region(s.sb.indexRoot) && s.sb.indexRoot != BLOCK_NULL))
  {
    var blocks := Last(s.trace).blocks;
    Parts(s, None);
    LiveBlocksAt(blocks, targets, b);
    if i :| 0 <= i < |targets| && b in EntryBlocks(blocks, targets[i]) {
      TargetBlocks(s, order[i]);
      assert Live(order[i]) in s.owners && b in s.owners[Live(order[i])];
    }
    if o :| o in s.owners && b in s.owners[o] && o.Live? {
      LiveInIndex(s, o.path);
      var i :| 0 <= i < |order| && order[i] == o.path;
      TargetBlocks(s, order[i]);
      assert b in EntryBlocks(blocks, targets[i]);
    }
    if s.sb.indexRoot != BLOCK_NULL {
      assert Region(s.sb.indexRoot) in s.owners && s.owners[Region(s.sb.indexRoot)] == SbRegion(s.sb);
    }
  }

  lemma LiveInIndex(s: Fs, p: Path)
    requires Sound(s, None) && Live(p) in s.owners
    ensures p in s.index
  {
    Parts(s, None);
    PinsNow(s, None);
    assert LiveAt(s.index, s.holdings, p);
  }

  // ---- durability ----

  /** A sync that has reached both slots is remembered. */
  lemma SyncStep(s: Fs)
    requires Sound(s, None) && SlotsAgree(Last(s.trace), s.sb) && Last(s.trace).dirty == {}
    ensures Sound(s.(synced := s.synced + {Synced(|s.trace|, s.sb.committedLsn)}), None)
  {
    Parts(s, None);
    Commits(s, None);
    var e := Synced(|s.trace|, s.sb.committedLsn);
    forall c | Candidate(Last(s.trace), c) && c.Copy? ensures c.sb.committedLsn >= e.lsn {
      assert c == Copy(s.sb);
    }
    assert NeverBehind(s.trace, e);
    Together(s.(synced := s.synced + {e}), None);
  }

  /** Once a sync has succeeded, a mount after a crash at any later moment finds at least the sequence number it committed. */
  lemma SyncedNumberKept(s: Fs, e: Synced, k: nat, after: Blocks, a: Slot, b: Slot)
    requires Sound(s, None) && e in s.synced && e.at - 1 <= k < |s.trace| && CrashOutcome(s.trace[k], after, a, b)
    ensures Recover(a, b).Some? ==> Recover(a, b).value.committedLsn >= e.lsn
  {
    Commits(s, None);
    assert NeverBehind(s.trace, e) && Above(s.trace[k], e.lsn);
    if Recover(a, b).Some? {
      assert Candidate(s.trace[k], Copy(Recover(a, b).value));
    }
  }

  /** After a crash, a stored version that the recovered superblock commits still holds its data. */
  lemma CommittedIntact(s: Fs, o: Owner, after: Blocks, a: Slot, b: Slot)
    requires Sound(s, None) && o in s.holdings && CrashOutcome(Last(s.trace), after, a, b)
    requires Recover(a, b).Some? && LsnOf(s.index, o) <= Recover(a, b).value.committedLsn
    ensures Holds(after, s.holdings[o].file, s.holdings[o].data)
  {
    Commits(s, None);
    HeldNow(s, None, o);
    assert Candidate(Last(s.trace), Copy(Recover(a, b).value));
    EngineSpec.HeldKept(Last(s.trace).blocks, after, s.owners[o], s.holdings[o], Last(s.trace).dirty);
  }

  /** After a crash a version stored before a successful sync still holds its data. */
  lemma SyncedDataIntact(s: Fs, e: Synced, o: Owner, after: Blocks, a: Slot, b: Slot)
    requires Sound(s, None) && e in s.synced && o in s.holdings && LsnOf(s.index, o) <= e.lsn
    requires CrashOutcome(Last(s.trace), after, a, b) && Recover(a, b).Some?
    ensures Holds(after, s.holdings[o].file, s.holdings[o].data)
  {
    SyncedAt(s, e);
    SyncedNumberKept(s, e, |s.trace| - 1, after, a, b);
    CommittedIntact(s, o, after, a, b);
  }

  lemma SyncedAt(s: Fs, e: Synced)
    requires Sound(s, None) && e in s.synced
    ensures 0 < e.at <= |s.trace|
  {
    Commits(s, None);
    assert NeverBehind(s.trace, e);
  }

  /** The version that `p` had after `lsn`: the live one unless it was overwritten since. */
  function VersionOf(s: Fs, p: Path, lsn: nat): Owner
  {
    if p in s.index && s.index[p].lsn == lsn then Live(p) else Kept(p, lsn)
  }

  /** The version was not overwritten, or a snapshot pins it. */
  ghost predicate Survives(s: Fs, p: Path, lsn: nat)
  {
    (p in s.index && s.index[p].lsn == lsn) || PinnedBy(s.pins, p, lsn)
  }

  lemma EntryNow(s: Fs, p: Path, lsn: nat)
    requires Sound(s, None) && lsn < |s.history| && p in s.history[lsn]
    ensures EntryOk(s.index, s.holdings, p, s.history[lsn][p], lsn)
  {
    Commits(s, None);
  }

  /** A pinned version is held. */
  lemma PinnedHeld(s: Fs, p: Path, l: nat)
    requires Sound(s, None) && PinnedBy(s.pins, p, l)
    ensures VersionOf(s, p, l) in s.holdings
  {
    PinsNow(s, None);
    var t :| t in s.pins && p in s.pins[t] && s.pins[t][p].lsn == l;
    assert PinHeld(s.index, s.holdings, t, p, s.pins[t][p]);
  }

  lemma SurvivorHeld(s: Fs, p: Path, lsn: nat)
    requires Sound(s, None) && lsn < |s.history| && p in s.history[lsn] && s.history[lsn][p].node.Extents?
    requires Survives(s, p, s.history[lsn][p].lsn)
    ensures var o := VersionOf(s, p, s.history[lsn][p].lsn);
            o in s.holdings && s.holdings[o].file == s.history[lsn][p].node.file && LsnOf(s.index, o) <= lsn
  {
    EntryNow(s, p, lsn);
    LiveNow(s, p);
    if s.index[p].lsn != s.history[lsn][p].lsn {
      PinnedHeld(s, p, s.history[lsn][p].lsn);
    }
  }

  /**
   After a crash, a file the mounted checkpoint names still holds its data if it was not overwritten since or
   a snapshot pins it.
   */
  lemma MountedFileIntact(s: Fs, p: Path, after: Blocks, a: Slot, b: Slot)
    requires Sound(s, None) && CrashOutcome(Last(s.trace), after, a, b)
    requires Recover(a, b).Some? && Recover(a, b).value.indexRoot != BLOCK_NULL
    ensures var at := Recover(a, b).value.checkpointLsn;
            at < |s.history| &&
            (p in s.history[at] && s.history[at][p].node.Extents? && Survives(s, p, s.history[at][p].lsn) ==>
               var o := VersionOf(s, p, s.history[at][p].lsn);
               o in s.holdings && Holds(after, s.history[at][p].node.file, s.holdings[o].data))
  {
    Parts(s, None);
    Commits(s, None);
    var sb := Recover(a, b).value;
    assert Candidate(Last(s.trace), Copy(sb)) && MomentSafe(Last(s.trace), s.history, s.encode);
    assert CopySafe(Last(s.trace), Copy(sb), s.history, s.encode);
    var at := sb.checkpointLsn;
    if p in s.history[at] && s.history[at][p].node.Extents? && Survives(s, p, s.history[at][p].lsn) {
      SurvivorHeld(s, p, at);
      CommittedIntact(s, VersionOf(s, p, s.history[at][p].lsn), after, a, b);
    }
  }

  /** Overwriting the first block of a file changes what it reads as. */
  lemma FirstBlockLost(blocks: Blocks, f: File, data: seq<Byte>, junk: seq<Byte>) returns (x: nat)
    requires WholeBlocks(blocks) && Holds(blocks, f, data) && data != [] && |junk| == BLOCK_SIZE && junk[0] != data[0]
    ensures x in Owned(blocks, f) && RunsOf(blocks[x := junk], f) == RunsOf(blocks, f)
    ensures !Holds(blocks[x := junk], f, data) && FileByte(blocks[x := junk], RunsOf(blocks, f).value, 0) == junk[0]
  {
    var runs := RunsOf(blocks, f).value;
    TiledCells(runs, BlocksFor(|data|));
    x := Cells(runs)[0];
    CellsAreBlocks(runs, x);
    assert x in Cells(runs);
    assert Source(runs, 0) == Some(x);
    assert Chunk(data, 0)[0] == data[0];
  }

  /** The state once `p` has been overwritten: the superseded version is dropped unless a snapshot pins it. */
  function Overwritten(s: Fs, p: Path, stored: Option<Image>, own: set<nat>, data: seq<Byte>): Fs
    requires p in s.index && Live(p) in s.owners && s.index[p].node.Extents?
  {
    var s' := Installing(s, p, stored, own, data);
    if Pinned(s, p) then s' else WithoutKept(s', Kept(p, s.index[p].lsn))
  }

  /** A snapshot was taken while the version at `p` was current. */
  predicate Pinned(s: Fs, p: Path)
    requires p in s.index
  {
    exists t :: t in s.pins && s.index[p].lsn <= t
  }

  lemma OverwriteSound(s: Fs, p: Path, stored: Option<Image>, own: set<nat>, data: seq<Byte>)
    requires Sound(s, None) && p in s.index && s.index[p].node.Extents? && Live(p) in s.owners && own !! s.used
    requires if stored.Some? then HeldOk(Last(s.trace).blocks, own, stored.value) else own == {}
    ensures Sound(Overwritten(s, p, stored, own, data), None)
  {
    CanSupersede(s, p);
    var s', l := Installing(s, p, stored, own, data), s.index[p].lsn;
    Install(s, p, stored, own, data);
    InstallKeeps(s, p, stored, own, data);
    if Pinned(s, p) {
      var t :| t in s.pins && l <= t;
      KeepKept(s', p, l, t);
    } else {
      DropKept(s', p, l);
    }
  }

  /** Whatever is written to free blocks from here on, the file keeps its data. */
  ghost predicate SafeFromReuse(s: Fs, image: Image)
  {
    forall t, free: set<nat> :: Extends(s.trace, t, free) && free !! s.used && MediaOk(Last(t)) ==> Holds(Last(t).blocks, image.file, image.data)
  }

  lemma HeldIsSafe(s: Fs, o: Owner)
    requires Sound(s, None) && o in s.holdings
    ensures SafeFromReuse(s, s.holdings[o])
  {
    HeldNow(s, None, o);
    forall t, free: set<nat> | Extends(s.trace, t, free) && free !! s.used && MediaOk(Last(t))
      ensures Holds(Last(t).blocks, s.holdings[o].file, s.holdings[o].data)
    {
      LastNear(s.trace, t, free);
      EngineSpec.HeldKept(Last(s.trace).blocks, Last(t).blocks, s.owners[o], s.holdings[o], free);
    }
  }

  /** A file whose blocks are free may be lost with the next block written, while the slots are as they were. */
  lemma FreedIsLost(s: Fs, image: Image)
    requires Sound(s, None) && MediaOk(Last(s.trace)) && image.data != []
    requires Holds(Last(s.trace).blocks, image.file, image.data) && Owned(Last(s.trace).blocks, image.file) !! s.used
    ensures !SafeFromReuse(s, image)
  {
    var m, x := WrittenOver(s, image);
    assert Last(s.trace + [m]) == m;
  }

  /**
   Overwriting frees the superseded blocks at once, while the slots may still name a checkpoint that lists the
   old version: it is safe from what is written next exactly if a snapshot pins it.
   */
  lemma OverwriteSafeIff(s: Fs, p: Path, stored: Option<Image>, own: set<nat>, data: seq<Byte>)
    requires Sound(s, None) && p in s.index && s.index[p].node.Extents? && Live(p) in s.owners && Live(p) in s.holdings
    requires own !! s.used && if stored.Some? then HeldOk(Last(s.trace).blocks, own, stored.value) else own == {}
    ensures Overwritten(s, p, stored, own, data).trace == s.trace
    ensures SafeFromReuse(Overwritten(s, p, stored, own, data), s.holdings[Live(p)]) <==> Pinned(s, p)
  {
    var s', was := Overwritten(s, p, stored, own, data), s.holdings[Live(p)];
    OverwriteSound(s, p, stored, own, data);
    HeldNow(s, None, Live(p));
    if Pinned(s, p) {
      HeldIsSafe(s', Kept(p, s.index[p].lsn));
    } else {
      MediaNow(s);
      OldBlocksFreed(s, p, stored, own, data);
      FreedIsLost(s', was);
    }
  }

  // ---- what a mount after an overwrite finds ----

  /** The checkpoint a superblock names lists this entry at `p`. */
  predicate NamesEntry(history: History, sb: Superblock, p: Path, e: Entry)
  {
    sb.indexRoot != BLOCK_NULL && sb.checkpointLsn < |history| && p in history[sb.checkpointLsn] && history[sb.checkpointLsn][p] == e
  }

  /** These two copies, found in the slots, make a mount use a checkpoint that lists the entry. */
  predicate MountsEntry(s: Fs, a: Slot, b: Slot, p: Path, e: Entry)
  {
    Recover(a, b).Some? && NamesEntry(s.history, Recover(a, b).value, p, e)
  }

  /** A crash now may lead to such a mount. */
  ghost predicate MayMount(s: Fs, p: Path, e: Entry)
    requires s.trace != [] && |Last(s.trace).slots| == 2
  {
    exists a, b :: a in Last(s.trace).slots[0].maybe && b in Last(s.trace).slots[1].maybe && MountsEntry(s, a, b, p, e)
  }

  /**
   Whatever is written to free blocks from here on and wherever a crash comes, a mount whose checkpoint lists
   the entry finds the file with its data.
   */
  ghost predicate MountsIntact(s: Fs, p: Path, e: Entry, image: Image)
  {
    forall t, free: set<nat>, after, a, b ::
      Extends(s.trace, t, free) && free !! s.used && CrashOutcome(Last(t), after, a, b) && MountsEntry(s, a, b, p, e) ==>
        Holds(after, image.file, image.data)
  }

  /** A version of which an owner is left is found intact. */
  lemma KeptMountsIntact(s: Fs, p: Path, e: Entry, o: Owner)
    requires Sound(s, None) && e.node.Extents? && Survives(s, p, e.lsn) && o == VersionOf(s, p, e.lsn) && o in s.holdings
    requires s.holdings[o].file == e.node.file
    ensures MountsIntact(s, p, e, s.holdings[o])
  {
    forall t, free: set<nat>, after, a, b |
      Extends(s.trace, t, free) && free !! s.used && CrashOutcome(Last(t), after, a, b) && MountsEntry(s, a, b, p, e)
      ensures Holds(after, s.holdings[o].file, s.holdings[o].data)
    {
      FreeWrites(s, t, free, None);
      MountedFileIntact(s.(trace := t), p, after, a, b);
    }
  }

  /** Writing to free blocks adds nothing to what the slots may hold. */
  lemma MayMountNarrows(s: Fs, t: seq<Media>, free: set<nat>, after: Blocks, a: Slot, b: Slot, p: Path, e: Entry)
    requires s.trace != [] && MediaOk(Last(s.trace)) && Extends(s.trace, t, free)
    requires CrashOutcome(Last(t), after, a, b) && MountsEntry(s, a, b, p, e)
    ensures MayMount(s, p, e)
  {
    LastNear(s.trace, t, free);
    assert a in Last(s.trace).slots[0].maybe && b in Last(s.trace).slots[1].maybe;
  }

  lemma IntactOrMounted(s: Fs, p: Path, e: Entry, image: Image)
    requires s.trace != [] && MediaOk(Last(s.trace))
    ensures MountsIntact(s, p, e, image) || MayMount(s, p, e)
  {
    if !MountsIntact(s, p, e, image) {
      var t, free: set<nat>, after, a, b :|
        Extends(s.trace, t, free) && free !! s.used && CrashOutcome(Last(t), after, a, b) && MountsEntry(s, a, b, p, e) &&
        !Holds(after, image.file, image.data);
      MayMountNarrows(s, t, free, after, a, b, p, e);
    }
  }

  /** One more block is written, to a free block of the file. */
  lemma WrittenOver(s: Fs, image: Image) returns (m: Media, x: nat)
    requires s.trace != [] && MediaOk(Last(s.trace)) && image.data != []
    requires Holds(Last(s.trace).blocks, image.file, image.data) && Owned(Last(s.trace).blocks, image.file) !! s.used
    ensures x !in s.used && Extends(s.trace, s.trace + [m], {x}) && MediaOk(m) && m.slots == Last(s.trace).slots
    ensures !Holds(m.blocks, image.file, image.data)
  {
    var m0 := Last(s.trace);
    var junk := Chunk(image.data, 0)[0 := if image.data[0] == 0 then 1 else 0];
    x := FirstBlockLost(m0.blocks, image.file, image.data, junk);
    m := Media(m0.blocks[x := junk], m0.dirty + {x}, m0.slots);
  }

  lemma FreedMountsLost(s: Fs, p: Path, e: Entry, image: Image)
    requires Sound(s, None) && MediaOk(Last(s.trace)) && image.data != [] && MayMount(s, p, e)
    requires Holds(Last(s.trace).blocks, image.file, image.data) && Owned(Last(s.trace).blocks, image.file) !! s.used
    ensures !MountsIntact(s, p, e, image)
  {
    var a, b :| a in Last(s.trace).slots[0].maybe && b in Last(s.trace).slots[1].maybe && MountsEntry(s, a, b, p, e);
    var m, x := WrittenOver(s, image);
    assert Last(s.trace + [m]) == m && CrashOutcome(m, m.blocks, a, b);
  }

  /** The superseded version after an overwrite. */
  lemma OverwrittenKeeps(s: Fs, p: Path, stored: Option<Image>, own: set<nat>, data: seq<Byte>)
    requires Sound(s, None) && p in s.index && s.index[p].node.Extents? && Live(p) in s.owners && Pinned(s, p)
    ensures var s', e := Overwritten(s, p, stored, own, data), s.index[p];
            && Live(p) in s.holdings && Survives(s', p, e.lsn) && VersionOf(s', p, e.lsn) == Kept(p, e.lsn)
            && Kept(p, e.lsn) in s'.holdings && s'.holdings[Kept(p, e.lsn)] == s.holdings[Live(p)]
            && s.holdings[Live(p)].file == e.node.file
  {
    CanSupersede(s, p);
    EntryBelow(s, p);
    var t :| t in s.pins && s.index[p].lsn <= t;
    assert PinnedBy(s.pins, p, s.index[p].lsn);
  }

  lemma EntryBelow(s: Fs, p: Path)
    requires Sound(s, None) && p in s.index
    ensures s.index[p].lsn < s.next
  {
    Parts(s, None);
    PinsNow(s, None);
  }

  /**
   Overwriting frees the superseded blocks at once. Mounting an older checkpoint that lists the old version
   finds it intact, whatever is written next and wherever a crash comes, exactly if a snapshot pins it or no
   pair of copies the slots may hold leads to such a checkpoint.
   */
  lemma OverwrittenMountsIff(s: Fs, p: Path, stored: Option<Image>, own: set<nat>, data: seq<Byte>)
    requires Sound(s, None) && p in s.index && s.index[p].node.Extents? && Live(p) in s.owners && Live(p) in s.holdings
    requires own !! s.used && if stored.Some? then HeldOk(Last(s.trace).blocks, own, stored.value) else own == {}
    ensures MountsIntact(Overwritten(s, p, stored, own, data), p, s.index[p], s.holdings[Live(p)])
            <==> Pinned(s, p) || !MayMount(s, p, s.index[p])
  {
    var s', e := Overwritten(s, p, stored, own, data), s.index[p];
    MediaNow(s);
    OverwriteSound(s, p, stored, own, data);
    SameMounts(s, p, stored, own, data);
    if Pinned(s, p) {
      OverwrittenKeeps(s, p, stored, own, data);
      KeptMountsIntact(s', p, e, Kept(p, e.lsn));
    } else if !MayMount(s, p, e) {
      IntactOrMounted(s', p, e, s.holdings[Live(p)]);
    } else {
      HeldNow(s, None, Live(p));
      OldBlocksFreed(s, p, stored, own, data);
      FreedMountsLost(s', p, e, s.holdings[Live(p)]);
    }
  }

  /** What an overwrite adds to the history is newer than any checkpoint the slots may name. */
  lemma SameMounts(s: Fs, p: Path, stored: Option<Image>, own: set<nat>, data: seq<Byte>)
    requires Sound(s, None) && p in s.index && s.index[p].node.Extents? && Live(p) in s.owners
    ensures var s' := Overwritten(s, p, stored, own, data);
            s'.trace == s.trace && (MayMount(s', p, s.index[p]) <==> MayMount(s, p, s.index[p]))
  {
    var s', e := Overwritten(s, p, stored, own, data), s.index[p];
    EntryBelow(s, p);
    HistoryEnds(s, None);
    forall sb: Superblock ensures NamesEntry(s'.history, sb, p, e) <==> NamesEntry(s.history, sb, p, e) {
    }
    assert forall a, b :: MountsEntry(s', a, b, p, e) <==> MountsEntry(s, a, b, p, e);
  }

  /**
   It does fail: in the state a checkpoint leaves, overwrite a file no snapshot pins and write one more block.
   A crash then mounts that checkpoint, which loads and lists the file as it was, and the file is lost.
   */
  lemma MountCanLoseFile(s: Fs, p: Path, stored: Option<Image>, own: set<nat>, data: seq<Byte>) returns (m: Media)
    requires Sound(s, None) && SlotsAgree(Last(s.trace), s.sb) && s.sb.indexRoot != BLOCK_NULL && s.sb.checkpointLsn == s.next - 1
    requires p in s.index && s.index[p].node.Extents? && Live(p) in s.owners && Live(p) in s.holdings && !Pinned(s, p)
    requires own !! s.used && if stored.Some? then HeldOk(Last(s.trace).blocks, own, stored.value) else own == {}
    ensures var s' := Overwritten(s, p, stored, own, data);
            && Sound(s'.(trace := s.trace + [m]), None)
            && CrashOutcome(m, m.blocks, Copy(s.sb), Copy(s.sb)) && Recover(Copy(s.sb), Copy(s.sb)) == Some(s.sb)
            && SbLoads(m.blocks, s.sb, s'.history, s.encode) && NamesEntry(s'.history, s.sb, p, s.index[p])
            && !Holds(m.blocks, s.index[p].node.file, s.holdings[Live(p)].data)
  {
    var s' := Overwritten(s, p, stored, own, data);
    MediaNow(s);
    HistoryEnds(s, None);
    OverwriteSound(s, p, stored, own, data);
    HeldNow(s, None, Live(p));
    OldBlocksFreed(s, p, stored, own, data);
    CanSupersede(s, p);
    var x;
    m, x := WrittenOver(s', s.holdings[Live(p)]);
    FreeWrites(s', s.trace + [m], {x}, None);
    NowLoads(s'.(trace := s.trace + [m]));
  }

  lemma NowLoads(s: Fs)
    requires Sound(s, None)
    ensures SbLoads(Last(s.trace).blocks, s.sb, s.history, s.encode)
  {
    Parts(s, None);
  }

  lemma MediaNow(s: Fs)
    requires Sound(s, None)
    ensures MediaOk(Last(s.trace))
  {
    Parts(s, None);
  }

  lemma OldBlocksFreed(s: Fs, p: Path, stored: Option<Image>, own: set<nat>, data: seq<Byte>)
    requires Sound(s, None) && p in s.index && s.index[p].node.Extents? && Live(p) in s.owners && own !! s.used && !Pinned(s, p)
    ensures s.owners[Live(p)] !! Overwritten(s, p, stored, own, data).used
  {
    InstallKeeps(s, p, stored, own, data);
    OwnedUsed(s, None, Live(p));
  }
}
