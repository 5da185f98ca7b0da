/**
 The block device under HelixFS and what a crash may leave of it. Any write or flush may fail. Contents
 become durable at a successful flush; until then a crash may leave a written block holding anything,
 and a superblock slot holding the old copy, the new copy or a torn mixture.
 */
module Device {
  import opened Bytes
  import opened Helix
  import opened FileRead
  import opened Prelude

  /** The fields of the superblock that say where the index checkpoint is and how far the log is committed. */
  datatype Superblock = Superblock(indexRoot: nat, indexBlocks: nat, entryCount: nat, checkpointLsn: nat, committedLsn: nat)

  datatype Slot = Torn | Copy(sb: Superblock)

  /** What a slot may hold after a crash, and the copy a successful write last put there. */
  datatype SlotState = SlotState(maybe: set<Slot>, latest: Option<Slot>)

  ghost predicate SlotOk(s: SlotState)
  {
    s.latest.Some? ==> s.latest.value in s.maybe
  }

  function Settle(s: SlotState): SlotState
  {
    if s.latest.Some? then SlotState({s.latest.value}, s.latest) else s
  }

  /** Only the blocks in `touched` may differ. */
  ghost predicate SameExcept(a: Blocks, b: Blocks, touched: set<nat>)
  {
    forall x :: x !in touched ==> (x in a <==> x in b) && (x in a && x in b ==> a[x] == b[x])
  }

  /** The device at one moment; `dirty` are the data blocks written since the last successful flush. */
  datatype Media = Media(blocks: Blocks, dirty: set<nat>, slots: seq<SlotState>)

  ghost predicate MediaOk(m: Media)
  {
    WholeBlocks(m.blocks) && |m.slots| == 2 && SlotOk(m.slots[0]) && SlotOk(m.slots[1])
  }

  /** Nothing new may be found in a slot after a crash. */
  ghost predicate Narrowed(before: seq<SlotState>, after: seq<SlotState>)
  {
    && |before| == |after| == 2
    && (after[0] == before[0] || after[0] == Settle(before[0]))
    && (after[1] == before[1] || after[1] == Settle(before[1]))
  }

  /** `m` differs from `m0` at most in the blocks `touched`, apart from what has become durable. */
  ghost predicate Near(m0: Media, m: Media, touched: set<nat>)
  {
    SameExcept(m0.blocks, m.blocks, touched) && m.dirty <= m0.dirty + touched && Narrowed(m0.slots, m.slots)
  }

  /** The history `t` continues `t0`, and all along only the blocks `touched` were written. */
  ghost predicate Extends(t0: seq<Media>, t: seq<Media>, touched: set<nat>)
  {
    && 0 < |t0| <= |t| && t[..|t0|] == t0
    && forall k :: |t0| <= k < |t| ==> Near(t0[|t0| - 1], t[k], touched)
  }

  lemma NearTrans(a: Media, b: Media, c: Media, touched: set<nat>)
    requires Near(a, b, touched) && Near(b, c, touched)
    ensures Near(a, c, touched)
  {
  }

  lemma ExtendsTrans(a: seq<Media>, b: seq<Media>, c: seq<Media>, touched: set<nat>)
    requires Extends(a, b, touched) && Extends(b, c, touched)
    ensures Extends(a, c, touched)
  {
    assert c[..|a|] == b[..|a|];
    forall k | |a| <= k < |c| ensures Near(a[|a| - 1], c[k], touched) {
      if k < |b| {
        assert c[k] == c[..|b|][k] == b[k];
      } else if |b| > |a| {
        NearTrans(a[|a| - 1], b[|b| - 1], c[k], touched);
      }
    }
  }

  lemma ExtendsWider(a: seq<Media>, b: seq<Media>, touched: set<nat>, wider: set<nat>)
    requires Extends(a, b, touched) && touched <= wider
    ensures Extends(a, b, wider)
  {
    forall k | |a| <= k < |b| ensures Near(a[|a| - 1], b[k], wider) {
      assert Near(a[|a| - 1], b[k], touched);
    }
  }

  class Disk {
    /** The data region, as reads see it. */
    var blocks: Blocks
    /** The device after each of its operations so far, the last one being now. */
    ghost var trace: seq<Media>

    ghost predicate Valid()
      reads this
    {
      trace != [] && MediaOk(Now()) && Now().blocks == blocks
    }

    ghost function Now(): Media
      requires trace != []
      reads this`trace
    {
      trace[|trace| - 1]
    }

    method Write(b: nat, data: seq<Byte>) returns (ok: bool)
      requires Valid() && |data| == BLOCK_SIZE
      modifies this
      ensures Valid() && trace == old(trace) + [Now()] && Extends(old(trace), trace, {b})
      ensures Now().slots == old(Now().slots) && Now().dirty == old(Now().dirty) + {b}
      ensures ok ==> b in blocks && blocks[b] == data
    {
      ok := *;
      if ok {
        blocks := blocks[b := data];
      } else {
        var junk: seq<Byte> := *;
        if |junk| == BLOCK_SIZE {
          blocks := blocks[b := junk];
        } else {
          blocks := blocks - {b};
        }
      }
      trace := trace + [Media(blocks, Now().dirty + {b}, Now().slots)];
    }

    /** Write a superblock slot. */
    method WriteSlot(i: nat, sb: Superblock) returns (ok: bool)
      requires Valid() && i < 2
      modifies this`trace
      ensures Valid() && trace == old(trace) + [Now()]
      ensures Now() == old(Now()).(slots := old(Now().slots)[i := Written(old(Now().slots[i]), sb, ok)])
    {
      ok := *;
      trace := trace + [Now().(slots := Now().slots[i := Written(Now().slots[i], sb, ok)])];
    }

    method Flush() returns (ok: bool)
      requires Valid()
      modifies this`trace
      ensures Valid() && trace == old(trace) + [Now()]
      ensures Now() == if ok then Settled(old(Now())) else old(Now())
    {
      ok := *;
      trace := trace + [if ok then Settled(Now()) else Now()];
    }
  }

  /** What may be in a slot once a write of `sb` to it has begun. */
  function Written(s: SlotState, sb: Superblock, ok: bool): SlotState
  {
    SlotState(s.maybe + {Torn, Copy(sb)}, if ok then Some(Copy(sb)) else None)
  }

  function Settled(m: Media): Media
    requires |m.slots| == 2
  {
    Media(m.blocks, {}, [Settle(m.slots[0]), Settle(m.slots[1])])
  }

  /** The log, as far as its callers see it: appending hands out the next sequence number or fails and changes nothing. */
  class Log {
    var nextLsn: nat

    constructor (committedLsn: nat)
      ensures nextLsn == committedLsn + 1
    {
      nextLsn := committedLsn + 1;
    }

    /** Appending may fill a segment, and then flushes it first. */
    method Append(disk: Disk) returns (r: Result<nat>)
      requires disk.Valid()
      modifies this, disk`trace
      ensures disk.Valid() && Extends(old(disk.trace), disk.trace, {})
      ensures r.Ok? ==> r.value == old(nextLsn) && nextLsn == old(nextLsn) + 1
      ensures r.Err? ==> nextLsn == old(nextLsn)
    {
      var fits: bool := *;
      if !fits {
        var lapsTail: bool := *;
        if lapsTail {
          return Err(LogFull);
        }
        var flushed := Flush(disk);
        if flushed.Err? {
          return Err(flushed.error);
        }
      }
      r := Ok(nextLsn);
      nextLsn := nextLsn + 1;
    }

    /** Flush the log and with it the device. */
    method Flush(disk: Disk) returns (r: Result<nat>)
      requires disk.Valid()
      modifies disk`trace
      ensures disk.Valid() && Extends(old(disk.trace), disk.trace, {})
      ensures r.Ok? ==> disk.trace == old(disk.trace) + [Settled(old(disk.Now()))] && r.value == (if nextLsn > 0 then nextLsn - 1 else 0)
      ensures r.Err? ==> r.error == IoWriteFailed || r.error == IoFlushFailed
      ensures r == Err(IoWriteFailed) ==> disk.trace == old(disk.trace)
      ensures r == Err(IoFlushFailed) ==> disk.trace == old(disk.trace) + [old(disk.Now())]
    {
      var written: bool := *;
      if !written {
        return Err(IoWriteFailed);
      }
      var ok := disk.Flush();
      if !ok {
        return Err(IoFlushFailed);
      }
      r := Ok(if nextLsn > 0 then nextLsn - 1 else 0);
    }
  }
}
