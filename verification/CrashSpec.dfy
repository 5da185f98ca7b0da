/** What mounting after a crash needs of the device, and why the engine's writes keep it. */
module CrashSpec {
  import opened Helix
  import opened FileRead
  import opened Ownership
  import opened Device
  import opened Checkpoint
  import opened EngineSpec
  import opened Prelude

  /** How an entry is laid out as a record is left open; the checksum field is filled in when it is written. */
  type Encoder = (Path, Entry) -> Record

  /** The namespace after each sequence number. */
  type History = seq<Index>

  /** The records are the index entries, one each, in the order of `order`. */
  ghost predicate ListedBy(entries: seq<Record>, index: Index, encode: Encoder, order: seq<Path>)
  {
    && |order| == |entries|
    && (forall p :: p in order <==> p in index)
    && (forall i, j :: 0 <= i < j < |order| ==> order[i] != order[j])
    && (forall i :: 0 <= i < |order| ==> order[i] in index && entries[i] == encode(order[i], index[order[i]]))
  }

  ghost predicate Lists(entries: seq<Record>, index: Index, encode: Encoder)
  {
    exists order :: ListedBy(entries, index, encode, order)
  }

  /** The region a superblock names holds the namespace as of its checkpoint. */
  ghost predicate SbLoads(blocks: Blocks, sb: Superblock, history: History, encode: Encoder)
  {
    sb.indexRoot != BLOCK_NULL ==>
      && sb.checkpointLsn < |history|
      && exists entries ::
           RegionOf(blocks, sb.indexRoot, sb.indexBlocks, sb.entryCount, entries) && Lists(entries, history[sb.checkpointLsn], encode)
  }

  function SbRegion(sb: Superblock): set<nat>
  {
    IndexRegion(sb.indexRoot, sb.indexBlocks)
  }

  /** A superblock copy that a crash may leave behind can be mounted from. */
  ghost predicate CopySafe(m: Media, c: Slot, history: History, encode: Encoder)
  {
    c.Copy? ==> SbLoads(m.blocks, c.sb, history, encode) && SbRegion(c.sb) !! m.dirty
  }

  predicate Candidate(m: Media, c: Slot)
    requires |m.slots| == 2
  {
    c in m.slots[0].maybe || c in m.slots[1].maybe
  }

  ghost predicate MomentSafe(m: Media, history: History, encode: Encoder)
  {
    |m.slots| == 2 && forall c :: Candidate(m, c) ==> CopySafe(m, c, history, encode)
  }

  /** So far there has been no moment at which a crash would have lost the checkpoint. */
  ghost predicate TraceSafe(trace: seq<Media>, history: History, encode: Encoder)
  {
    forall k :: 0 <= k < |trace| ==> MomentSafe(trace[k], history, encode)
  }

  /** Regions that may be mounted from are off limits to `touched`. */
  ghost predicate OffLimits(m: Media, touched: set<nat>)
  {
    |m.slots| == 2 && forall c :: Candidate(m, c) && c.Copy? ==> SbRegion(c.sb) !! touched
  }

  lemma LoadsKept(before: Blocks, after: Blocks, sb: Superblock, history: History, encode: Encoder, touched: set<nat>)
    requires SbLoads(before, sb, history, encode) && SameExcept(before, after, touched) && SbRegion(sb) !! touched
    ensures SbLoads(after, sb, history, encode)
  {
    if sb.indexRoot != BLOCK_NULL {
      var entries :| RegionOf(before, sb.indexRoot, sb.indexBlocks, sb.entryCount, entries) && Lists(entries, history[sb.checkpointLsn], encode);
      RegionKept(before, after, sb, entries, touched);
    }
  }

  lemma RegionKept(before: Blocks, after: Blocks, sb: Superblock, entries: seq<Record>, touched: set<nat>)
    requires RegionOf(before, sb.indexRoot, sb.indexBlocks, sb.entryCount, entries)
    requires SameExcept(before, after, touched) && Range(sb.indexRoot, sb.indexBlocks) !! touched
    ensures RegionOf(after, sb.indexRoot, sb.indexBlocks, sb.entryCount, entries)
  {
    forall b: nat | b < RegionBlocks(|entries|) ensures BlockHolds(after, sb.indexRoot, entries, b) {
      assert BlockHolds(before, sb.indexRoot, entries, b);
      assert sb.indexRoot + b in Range(sb.indexRoot, sb.indexBlocks);
    }
  }

  lemma NearSafe(m0: Media, m: Media, touched: set<nat>, history: History, encode: Encoder)
    requires MediaOk(m0) && MomentSafe(m0, history, encode) && Near(m0, m, touched) && OffLimits(m0, touched)
    ensures MomentSafe(m, history, encode) && OffLimits(m, touched)
  {
    forall c | Candidate(m, c) ensures Candidate(m0, c) && CopySafe(m, c, history, encode) {
      assert CopySafe(m0, c, history, encode);
      if c.Copy? {
        LoadsKept(m0.blocks, m.blocks, c.sb, history, encode, touched);
      }
    }
  }

  /** Writes that keep clear of the candidate regions keep every moment safe. */
  lemma ExtendsSafe(t0: seq<Media>, t: seq<Media>, touched: set<nat>, history: History, encode: Encoder)
    requires TraceSafe(t0, history, encode) && Extends(t0, t, touched)
    requires MediaOk(t0[|t0| - 1]) && OffLimits(t0[|t0| - 1], touched)
    ensures TraceSafe(t, history, encode)
  {
    forall k | 0 <= k < |t| ensures MomentSafe(t[k], history, encode) {
      if k < |t0| {
        assert t[k] == t[..|t0|][k] == t0[k];
      } else {
        assert MomentSafe(t0[|t0| - 1], history, encode);
        NearSafe(t0[|t0| - 1], t[k], touched, history, encode);
      }
    }
  }

  /** Later history does not change what is safe. */
  lemma HistorySafe(trace: seq<Media>, history: History, next: Index, encode: Encoder)
    requires TraceSafe(trace, history, encode)
    ensures TraceSafe(trace, history + [next], encode)
  {
    forall k | 0 <= k < |trace| ensures MomentSafe(trace[k], history + [next], encode) {
      assert MomentSafe(trace[k], history, encode);
      forall c | Candidate(trace[k], c) ensures CopySafe(trace[k], c, history + [next], encode) {
        assert CopySafe(trace[k], c, history, encode);
        if c.Copy? {
          LoadsLater(trace[k].blocks, c.sb, history, next, encode);
        }
      }
    }
  }

  lemma LoadsLater(blocks: Blocks, sb: Superblock, history: History, next: Index, encode: Encoder)
    requires SbLoads(blocks, sb, history, encode)
    ensures SbLoads(blocks, sb, history + [next], encode)
  {
    if sb.indexRoot != BLOCK_NULL {
      assert (history + [next])[sb.checkpointLsn] == history[sb.checkpointLsn];
    }
  }

  /** Writing a copy of a superblock whose region is durable is safe at once and after a flush. */
  lemma SlotWriteSafe(m: Media, i: nat, sb: Superblock, ok: bool, history: History, encode: Encoder)
    requires MediaOk(m) && MomentSafe(m, history, encode) && i < 2
    requires SbLoads(m.blocks, sb, history, encode) && SbRegion(sb) !! m.dirty
    ensures MomentSafe(m.(slots := m.slots[i := Written(m.slots[i], sb, ok)]), history, encode)
  {
    var m' := m.(slots := m.slots[i := Written(m.slots[i], sb, ok)]);
    forall c | Candidate(m', c) ensures CopySafe(m', c, history, encode) {
      if c != Torn && c != Copy(sb) {
        assert Candidate(m, c) && CopySafe(m, c, history, encode);
      }
    }
  }

  lemma FlushSafe(m: Media, history: History, encode: Encoder)
    requires MediaOk(m) && MomentSafe(m, history, encode)
    ensures MomentSafe(Settled(m), history, encode)
  {
    forall c | Candidate(Settled(m), c) ensures CopySafe(Settled(m), c, history, encode) {
      assert Candidate(m, c) && CopySafe(m, c, history, encode);
    }
  }

  lemma OneMoreSafe(t: seq<Media>, m: Media, history: History, encode: Encoder)
    requires TraceSafe(t, history, encode) && MomentSafe(m, history, encode)
    ensures TraceSafe(t + [m], history, encode)
  {
  }

  // ---- mounting ----

  /** The copy mounting uses: the valid one with the higher committed sequence number, the first on a tie. */
  function Recover(a: Slot, b: Slot): Option<Superblock>
  {
    match (a, b)
    case (Torn, Torn) => None
    case (Copy(x), Torn) => Some(x)
    case (Torn, Copy(y)) => Some(y)
    case (Copy(x), Copy(y)) => if y.committedLsn > x.committedLsn then Some(y) else Some(x)
  }

  /** What a crash at moment `m` may leave: the unflushed blocks hold anything, each slot one of its candidates. */
  ghost predicate CrashOutcome(m: Media, after: Blocks, a: Slot, b: Slot)
  {
    && MediaOk(m) && WholeBlocks(after) && SameExcept(m.blocks, after, m.dirty)
    && a in m.slots[0].maybe && b in m.slots[1].maybe
  }

  /**
   After a crash at any moment of any run, a readable superblock copy leads to an index region that loads
   as the namespace of its checkpoint.
   */
  lemma MountAfterCrash(trace: seq<Media>, k: nat, history: History, encode: Encoder, after: Blocks, a: Slot, b: Slot)
    requires TraceSafe(trace, history, encode) && k < |trace| && CrashOutcome(trace[k], after, a, b)
    requires Recover(a, b).Some?
    ensures SbLoads(after, Recover(a, b).value, history, encode)
  {
    var m, sb := trace[k], Recover(a, b).value;
    assert MomentSafe(m, history, encode);
    assert Candidate(m, Copy(sb)) && CopySafe(m, Copy(sb), history, encode);
    LoadsKept(m.blocks, after, sb, history, encode, m.dirty);
  }

  /** A crash may leave no valid copy at all. */
  predicate MayLoseBoth(m: Media)
    requires |m.slots| == 2
  {
    Torn in m.slots[0].maybe && Torn in m.slots[1].maybe
  }

  /** Some moment from `start` on may lose both copies. */
  ghost predicate LosesBoth(trace: seq<Media>, start: nat)
  {
    exists k :: start <= k < |trace| && |trace[k].slots| == 2 && MayLoseBoth(trace[k])
  }

  lemma LosesSplit(t: seq<Media>, u: seq<Media>, start: nat)
    requires t <= u && start <= |t|
    ensures LosesBoth(u, start) <==> LosesBoth(t, start) || LosesBoth(u, |t|)
  {
    assert forall k :: 0 <= k < |t| ==> t[k] == u[k];
    if LosesBoth(t, start) {
      var k :| start <= k < |t| && |t[k].slots| == 2 && MayLoseBoth(t[k]);
      assert MayLoseBoth(u[k]);
    }
    if LosesBoth(u, start) && !LosesBoth(u, |t|) {
      var k :| start <= k < |u| && |u[k].slots| == 2 && MayLoseBoth(u[k]);
      assert k < |t| && MayLoseBoth(t[k]);
    }
  }

  /** The moments of writing one slot, and flushing if the write went through. */
  lemma SlotMoments(t: seq<Media>, i: nat, sb: Superblock, ok: bool, more: seq<Media>)
    requires t != [] && MediaOk(t[|t| - 1]) && i < 2
    requires var m := t[|t| - 1];
             var m1 := m.(slots := m.slots[i := Written(m.slots[i], sb, ok)]);
             more == [m1] || more == [m1, m1] || more == [m1, Settled(m1)]
    ensures LosesBoth(t + more, |t|) <==> Torn in t[|t| - 1].slots[1 - i].maybe
  {
    var m := t[|t| - 1];
    assert (t + more)[|t|] == more[0];
    if Torn in m.slots[1 - i].maybe {
      assert MayLoseBoth((t + more)[|t|]);
    }
    if LosesBoth(t + more, |t|) {
      var k :| |t| <= k < |t + more| && |(t + more)[k].slots| == 2 && MayLoseBoth((t + more)[k]);
      assert (t + more)[k] == more[k - |t|];
    }
  }

  // ---- the moments of a commit ----

  /** Both slots hold this superblock and nothing else. */
  ghost predicate SlotsAgree(m: Media, sb: Superblock)
  {
    m.slots == [SlotState({Copy(sb)}, Some(Copy(sb))), SlotState({Copy(sb)}, Some(Copy(sb)))]
  }

  /** Where committing a superblock ends. */
  datatype CommitEnd =
    | LogUnwritten | LogUnflushed
    | FirstUnwritten | FirstUnflushed
    | SecondUnwritten | SecondUnflushed
    | LastUnflushed | Committed

  /** The device once a write of slot `i` has begun. */
  function SlotWritten(m: Media, i: nat, sb: Superblock, ok: bool): Media
    requires |m.slots| == 2 && i < 2
  {
    m.(slots := m.slots[i := Written(m.slots[i], sb, ok)])
  }

  /** The moments of writing a slot and flushing. */
  function SlotTrace(m: Media, i: nat, sb: Superblock, written: bool, flushed: bool): seq<Media>
    requires |m.slots| == 2 && i < 2
  {
    var m1 := SlotWritten(m, i, sb, written);
    if !written then [m1] else [m1, if flushed then Settled(m1) else m1]
  }

  /** The moments of committing a superblock: flush the log, write and flush each slot, flush. */
  function CommitTrace(m: Media, sb: Superblock, end: CommitEnd): seq<Media>
    requires |m.slots| == 2
  {
    if end.LogUnwritten? then []
    else if end.LogUnflushed? then [m]
    else [Settled(m)] + SlotsTrace(Settled(m), sb, end)
  }

  function SlotsTrace(m: Media, sb: Superblock, end: CommitEnd): seq<Media>
    requires |m.slots| == 2 && !end.LogUnwritten? && !end.LogUnflushed?
  {
    if end.FirstUnwritten? || end.FirstUnflushed? then SlotTrace(m, 0, sb, end.FirstUnflushed?, false)
    else SlotTrace(m, 0, sb, true, true) + SecondTrace(Settled(SlotWritten(m, 0, sb, true)), sb, end)
  }

  /** The moments from the second slot on. */
  function SecondTrace(m: Media, sb: Superblock, end: CommitEnd): seq<Media>
    requires |m.slots| == 2
  {
    if end.SecondUnwritten? || end.SecondUnflushed? then SlotTrace(m, 1, sb, end.SecondUnflushed?, false)
    else
      var m' := Settled(SlotWritten(m, 1, sb, true));
      SlotTrace(m, 1, sb, true, true) + [if end.Committed? then Settled(m') else m']
  }

  /** Where a commit can end once the first slot is written. */
  predicate InSecond(end: CommitEnd)
  {
    end.SecondUnwritten? || end.SecondUnflushed? || end.LastUnflushed? || end.Committed?
  }

  /** Having written a slot and flushed: it holds the copy alone, the other slot is settled. */
  lemma SlotDone(m: Media, i: nat, sb: Superblock)
    requires MediaOk(m) && i < 2
    ensures var m' := Settled(SlotWritten(m, i, sb, true));
            && MediaOk(m') && m'.dirty == {} && m'.slots[i] == SlotState({Copy(sb)}, Some(Copy(sb))) && m'.slots[1 - i] == Settle(m.slots[1 - i])
  {
  }

  /** A commit that has reached the slots leaves no valid copy at some moment exactly when the second slot may be torn before. */
  lemma SlotsMoments(t: seq<Media>, sb: Superblock, end: CommitEnd)
    requires t != [] && MediaOk(t[|t| - 1]) && !end.LogUnwritten? && !end.LogUnflushed?
    ensures LosesBoth(t + SlotsTrace(t[|t| - 1], sb, end), |t|) <==> Torn in t[|t| - 1].slots[1].maybe
  {
    var m := t[|t| - 1];
    var first := SlotTrace(m, 0, sb, !end.FirstUnwritten?, !end.FirstUnwritten? && !end.FirstUnflushed?);
    SlotMoments(t, 0, sb, !end.FirstUnwritten?, first);
    if !end.FirstUnwritten? && !end.FirstUnflushed? {
      var m1 := Settled(SlotWritten(m, 0, sb, true));
      SlotDone(m, 0, sb);
      var t1 := t + first;
      var second := SlotTrace(m1, 1, sb, !end.SecondUnwritten?, !end.SecondUnwritten? && !end.SecondUnflushed?);
      SlotMoments(t1, 1, sb, !end.SecondUnwritten?, second);
      LosesSplit(t1, t1 + second, |t|);
      assert t + (first + second) == t1 + second;
      if end.Committed? || end.LastUnflushed? {
        var m2 := Settled(SlotWritten(m1, 1, sb, true));
        SlotDone(m1, 1, sb);
        var last := if end.Committed? then Settled(m2) else m2;
        LosesSplit(t1 + second, t1 + second + [last], |t|);
        assert t + (first + (second + [last])) == t1 + second + [last];
      }
    }
  }

  /** A commit that succeeds leaves both slots holding the superblock and nothing unflushed. */
  lemma SlotsCommitted(t: seq<Media>, t': seq<Media>, sb: Superblock)
    requires t != [] && MediaOk(t[|t| - 1]) && t' == t + SlotsTrace(t[|t| - 1], sb, Committed)
    ensures t' != [] && SlotsAgree(t'[|t'| - 1], sb) && t'[|t'| - 1].dirty == {}
  {
    var m := t[|t| - 1];
    var m1 := Settled(SlotWritten(m, 0, sb, true));
    SlotDone(m, 0, sb);
    SlotDone(m1, 1, sb);
  }

  /** The moments of both slots, put together. */
  lemma SlotsJoined(t: seq<Media>, t1: seq<Media>, t2: seq<Media>, sb: Superblock, end: CommitEnd)
    requires t != [] && MediaOk(t[|t| - 1]) && InSecond(end)
    requires t1 == t + SlotTrace(t[|t| - 1], 0, sb, true, true) && t2 == t1 + SecondTrace(t1[|t1| - 1], sb, end)
    ensures t2 == t + SlotsTrace(t[|t| - 1], sb, end)
  {
    assert t1[|t1| - 1] == Settled(SlotWritten(t[|t| - 1], 0, sb, true));
  }

  lemma CommitJoined(t: seq<Media>, t1: seq<Media>, t2: seq<Media>, sb: Superblock, end: CommitEnd)
    requires t != [] && MediaOk(t[|t| - 1]) && !end.LogUnwritten? && !end.LogUnflushed?
    requires t1 == t + [Settled(t[|t| - 1])] && t2 == t1 + SlotsTrace(t1[|t1| - 1], sb, end)
    ensures t2 == t + CommitTrace(t[|t| - 1], sb, end)
  {
  }

  /** What is left of agreeing slots when writing the second one fails: the first is new, the second may be torn. */
  lemma SecondWriteFails(m: Media, sb: Superblock, next: Superblock)
    requires MediaOk(m) && SlotsAgree(m, sb)
    ensures var t := CommitTrace(m, next, SecondUnwritten);
            && t != [] && MediaOk(t[|t| - 1])
            && t[|t| - 1].slots == [SlotState({Copy(next)}, Some(Copy(next))), SlotState({Copy(sb), Torn, Copy(next)}, None)]
  {
    var m0 := Settled(m);
    var m1 := Settled(SlotWritten(m0, 0, next, true));
    assert m1.slots[0] == SlotState({Copy(next)}, Some(Copy(next)));
    assert m1.slots[1] == SlotState({Copy(sb)}, Some(Copy(sb)));
    var m2 := SlotWritten(m1, 1, next, false);
    var t := CommitTrace(m, next, SecondUnwritten);
    assert t == [m0] + (SlotTrace(m0, 0, next, true, true) + [m2]) && |t| == 4 && t[3] == m2;
    assert {Copy(sb)} + {Torn, Copy(next)} == {Copy(sb), Torn, Copy(next)};
    assert m2.slots == [m1.slots[0], SlotState({Copy(sb)} + {Torn, Copy(next)}, None)];
  }

  /**
   Two copies are not always enough: after a commit whose write of the second slot failed, the next commit
   that gets as far as the first slot has a moment at which a crash leaves no valid copy.
   */
  lemma BothCopiesCanBeLost(m: Media, sb: Superblock, next: Superblock, later: Superblock, end: CommitEnd)
    requires MediaOk(m) && SlotsAgree(m, sb) && !end.LogUnwritten? && !end.LogUnflushed?
    ensures var failed := CommitTrace(m, next, SecondUnwritten);
            failed != [] && MediaOk(failed[|failed| - 1]) &&
            var again := CommitTrace(failed[|failed| - 1], later, end);
            |again| > 1 && CrashOutcome(again[1], again[1].blocks, Torn, Torn) && Recover(Torn, Torn).None?
  {
    SecondWriteFails(m, sb, next);
    var t := CommitTrace(m, next, SecondUnwritten);
    var f := t[|t| - 1];
    var again := CommitTrace(f, later, end);
    assert again[1] == SlotWritten(Settled(f), 0, later, !end.FirstUnwritten?);
    assert Settled(f).slots[1] == f.slots[1];
  }
}
