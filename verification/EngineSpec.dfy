/**
 What the HelixFS engine keeps: who owns each allocated block, which superseded versions snapshots pin,
 and what a crash at any moment leaves to mount from.
 */
module EngineSpec {
  import opened Bytes
  import opened FileRead
  import opened Ownership
  import opened Device
  import opened Prelude

  type Path = string

  datatype Node = Dir | Inline(data: seq<Byte>) | Extents(file: File)

  /** An index entry and the sequence number of the write that made it. */
  datatype Entry = Entry(node: Node, lsn: nat)

  type Index = map<Path, Entry>

  /** A stored version: where it is and what was written. */
  datatype Image = Image(file: File, data: seq<Byte>)

  // ---- who owns a block ----

  /** A live file, a superseded version, an index region, or nobody: blocks lost to a write that did not fit. */
  datatype Owner = Live(path: Path) | Kept(path: Path, lsn: nat) | Region(root: nat) | Lost

  type Owners = map<Owner, set<nat>>

  /** Every allocated block has exactly one owner and every owned block is allocated. */
  ghost predicate Partition(owners: Owners, used: set<nat>)
  {
    && (forall o :: o in owners ==> owners[o] <= used)
    && (forall o, q :: o in owners && q in owners && o != q ==> owners[o] !! owners[q])
    && (forall b :: b in used ==> exists o :: o in owners && b in owners[o])
  }

  lemma AddOwner(owners: Owners, used: set<nat>, o: Owner, own: set<nat>)
    requires Partition(owners, used) && o !in owners && own !! used
    ensures Partition(owners[o := own], used + own)
  {
    var after := owners[o := own];
    forall b | b in used + own ensures exists q :: q in after && b in after[q] {
      if b in own {
        assert o in after && b in after[o];
      } else {
        var q :| q in owners && b in owners[q];
        assert q in after && b in after[q];
      }
    }
  }

  lemma DropOwner(owners: Owners, used: set<nat>, o: Owner)
    requires Partition(owners, used) && o in owners
    ensures Partition(owners - {o}, used - owners[o])
  {
    var after := owners - {o};
    forall b | b in used - owners[o] ensures exists q :: q in after && b in after[q] {
      var q :| q in owners && b in owners[q];
      assert q in after && b in after[q];
    }
    forall q | q in after ensures after[q] <= used - owners[o] {
      assert owners[q] !! owners[o];
    }
  }

  lemma RenameOwner(owners: Owners, used: set<nat>, o: Owner, q: Owner)
    requires Partition(owners, used) && o in owners && q !in owners
    ensures Partition((owners - {o})[q := owners[o]], used)
  {
    DropOwner(owners, used, o);
    AddOwner(owners - {o}, used - owners[o], q, owners[o]);
    assert used - owners[o] + owners[o] == used;
  }

  /** The owners once the blocks newly in use belong to nobody. */
  function WithLost(owners: Owners, lost: set<nat>): Owners
  {
    owners[Lost := (if Lost in owners then owners[Lost] else {}) + lost]
  }

  lemma LoseBlocks(owners: Owners, used: set<nat>, lost: set<nat>)
    requires Partition(owners, used) && lost !! used
    ensures Partition(WithLost(owners, lost), used + lost)
  {
    if Lost in owners {
      var had := owners[Lost];
      DropOwner(owners, used, Lost);
      AddOwner(owners - {Lost}, used - had, Lost, had + lost);
      assert (owners - {Lost})[Lost := had + lost] == WithLost(owners, lost);
      assert used - had + (had + lost) == used + lost;
    } else {
      AddOwner(owners, used, Lost, {} + lost);
    }
  }

  // ---- stored versions ----

  type Holdings = map<Owner, Image>

  ghost predicate HeldOk(blocks: Blocks, own: set<nat>, image: Image)
  {
    image.data != [] && WholeBlocks(blocks) && Holds(blocks, image.file, image.data) && own == Owned(blocks, image.file)
  }

  /** Every file version that owns blocks is intact on them. */
  ghost predicate HoldingsOk(blocks: Blocks, owners: Owners, holdings: Holdings)
  {
    && (forall o :: o in holdings ==> (o.Live? || o.Kept?) && o in owners && HeldOk(blocks, owners[o], holdings[o]))
    && (forall o :: o in owners && (o.Live? || o.Kept?) ==> o in holdings)
  }

  /** A version is untouched by writes outside its blocks. */
  lemma HeldKept(before: Blocks, after: Blocks, own: set<nat>, image: Image, touched: set<nat>)
    requires HeldOk(before, own, image) && WholeBlocks(after) && SameExcept(before, after, touched) && own !! touched
    ensures HeldOk(after, own, image)
  {
    var f := image.file;
    if f.node {
      assert f.root in own && after[f.root] == before[f.root];
    }
    assert RunsOf(after, f) == RunsOf(before, f);
    var runs := RunsOf(before, f).value;
    var cells := Cells(runs);
    forall i: nat | i < |cells| ensures cells[i] in after && after[cells[i]] == Chunk(image.data, 0 + i) {
      CellsAreBlocks(runs, cells[i]);
      assert cells[i] in own;
    }
  }

  lemma HoldingsKept(before: Blocks, after: Blocks, owners: Owners, used: set<nat>, holdings: Holdings, touched: set<nat>)
    requires HoldingsOk(before, owners, holdings) && Partition(owners, used)
    requires WholeBlocks(after) && SameExcept(before, after, touched) && touched !! used
    ensures HoldingsOk(after, owners, holdings)
  {
    forall o | o in holdings ensures (o.Live? || o.Kept?) && o in owners && HeldOk(after, owners[o], holdings[o]) {
      assert owners[o] <= used;
      HeldKept(before, after, owners[o], holdings[o], touched);
    }
  }

  /** The live versions are those of the extent-backed entries. */
  ghost predicate LiveOk(index: Index, holdings: Holdings)
  {
    forall p :: LiveAt(index, holdings, p)
  }

  ghost predicate LiveAt(index: Index, holdings: Holdings, p: Path)
  {
    && (Live(p) in holdings <==> p in index && index[p].node.Extents?)
    && (Live(p) in holdings ==> holdings[Live(p)].file == index[p].node.file)
  }

  // ---- snapshots ----

  /** What a snapshot saw of a path: a version and its sequence number. */
  datatype Pin = Pin(lsn: nat, image: Image)

  /** The extent-backed version of each path current at each snapshot. */
  type Pins = map<nat, map<Path, Pin>>

  /** A pinned version is still held: it is the live one, or it was kept when it was superseded. */
  ghost predicate PinHeld(index: Index, holdings: Holdings, s: nat, p: Path, pin: Pin)
  {
    && pin.lsn <= s
    && p in index
    && var o := if index[p].lsn == pin.lsn then Live(p) else Kept(p, pin.lsn);
    && o in holdings && holdings[o] == pin.image
  }

  ghost predicate PinsHeld(index: Index, holdings: Holdings, pins: Pins)
  {
    forall s, p :: s in pins && p in pins[s] ==> PinHeld(index, holdings, s, p, pins[s][p])
  }

  /** A live version older than a snapshot is the one the snapshot saw. */
  ghost predicate LivePinned(index: Index, pins: Pins)
  {
    forall s, p :: s in pins && p in index && index[p].node.Extents? && index[p].lsn <= s ==>
                     p in pins[s] && pins[s][p].lsn == index[p].lsn
  }

  ghost predicate LsnsOk(index: Index, holdings: Holdings, pins: Pins, next: nat)
  {
    && (forall s :: s in pins ==> s < next)
    && (forall p :: p in index ==> index[p].lsn < next)
    && (forall p, l: nat :: Kept(p, l) in holdings ==> p in index && l < index[p].lsn)
  }

  ghost predicate PinnedBy(pins: Pins, p: Path, l: nat)
  {
    exists s :: s in pins && p in pins[s] && pins[s][p].lsn == l
  }

  /** Superseded versions are kept only for a snapshot's sake. */
  ghost predicate KeptPinned(holdings: Holdings, pins: Pins, except: Option<Owner>)
  {
    forall p, l: nat :: Kept(p, l) in holdings && except != Some(Kept(p, l)) ==> PinnedBy(pins, p, l)
  }

  datatype PinAspect = OfLive | OfPins | OfLivePins | OfLsns | OfKept

  ghost predicate PinAspectOk(index: Index, holdings: Holdings, pins: Pins, next: nat, except: Option<Owner>, a: PinAspect)
  {
    match a
    case OfLive => LiveOk(index, holdings)
    case OfPins => PinsHeld(index, holdings, pins)
    case OfLivePins => LivePinned(index, pins)
    case OfLsns => LsnsOk(index, holdings, pins, next)
    case OfKept => KeptPinned(holdings, pins, except)
  }

  ghost predicate PinsOk(index: Index, holdings: Holdings, pins: Pins, next: nat, except: Option<Owner>)
  {
    forall a: PinAspect :: PinAspectOk(index, holdings, pins, next, except, a)
  }

  lemma PinParts(index: Index, holdings: Holdings, pins: Pins, next: nat, except: Option<Owner>)
    requires PinsOk(index, holdings, pins, next, except)
    ensures LiveOk(index, holdings) && PinsHeld(index, holdings, pins) && LivePinned(index, pins)
    ensures LsnsOk(index, holdings, pins, next) && KeptPinned(holdings, pins, except)
  {
    assert PinAspectOk(index, holdings, pins, next, except, OfLive) && PinAspectOk(index, holdings, pins, next, except, OfPins);
    assert PinAspectOk(index, holdings, pins, next, except, OfLivePins) && PinAspectOk(index, holdings, pins, next, except, OfLsns);
    assert PinAspectOk(index, holdings, pins, next, except, OfKept);
  }

  lemma PinsTogether(index: Index, holdings: Holdings, pins: Pins, next: nat, except: Option<Owner>)
    requires LiveOk(index, holdings) && PinsHeld(index, holdings, pins) && LivePinned(index, pins)
    requires LsnsOk(index, holdings, pins, next) && KeptPinned(holdings, pins, except)
    ensures PinsOk(index, holdings, pins, next, except)
  {
    forall a: PinAspect ensures PinAspectOk(index, holdings, pins, next, except, a) {
      match a
      case OfLive =>
      case OfPins =>
      case OfLivePins =>
      case OfLsns =>
      case OfKept =>
    }
  }

  /** The version of `p` that a write replaces. */
  function Superseded(index: Index, p: Path): Option<Owner>
  {
    if p in index && index[p].node.Extents? then Some(Kept(p, index[p].lsn)) else None
  }

  /** The stored versions once the one at `p` is superseded and `stored` takes its place. */
  function Replaced(index: Index, holdings: Holdings, p: Path, stored: Option<Image>): Holdings
  {
    var without := if Superseded(index, p).Some? && Live(p) in holdings
                   then (holdings - {Live(p)})[Superseded(index, p).value := holdings[Live(p)]]
                   else holdings;
    if stored.Some? then without[Live(p) := stored.value] else without
  }

  function NodeFor(stored: Option<Image>, data: seq<Byte>): Node
  {
    if stored.Some? then Extents(stored.value.file) else Inline(data)
  }

  /** The contents of a file. */
  function ContentsIn(index: Index, holdings: Holdings, p: Path): Option<seq<Byte>>
  {
    if p !in index || index[p].node.Dir? then None
    else if index[p].node.Inline? then Some(index[p].node.data)
    else if Live(p) in holdings then Some(holdings[Live(p)].data)
    else None
  }

  /** Replacing the version at `p` changes the contents of `p` alone and keeps the old version. */
  lemma ReplacedContents(index: Index, holdings: Holdings, p: Path, stored: Option<Image>, data: seq<Byte>, lsn: nat)
    requires stored.Some? ==> stored.value.data == data
    ensures ContentsIn(index[p := Entry(NodeFor(stored, data), lsn)], Replaced(index, holdings, p, stored), p) == Some(data)
    ensures forall q :: q != p ==>
              ContentsIn(index[p := Entry(NodeFor(stored, data), lsn)], Replaced(index, holdings, p, stored), q) == ContentsIn(index, holdings, q)
    ensures Superseded(index, p).Some? && Live(p) in holdings ==>
              && Superseded(index, p).value in Replaced(index, holdings, p, stored)
              && Replaced(index, holdings, p, stored)[Superseded(index, p).value] == holdings[Live(p)]
  {
  }

  lemma KeptContents(index: Index, holdings: Holdings, o: Owner)
    requires o.Kept?
    ensures forall q :: ContentsIn(index, holdings - {o}, q) == ContentsIn(index, holdings, q)
  {
  }

  /** The owners to match. */
  function ReplacedOwners(index: Index, owners: Owners, p: Path, stored: Option<Image>, own: set<nat>): Owners
  {
    var without := if Superseded(index, p).Some? && Live(p) in owners
                   then (owners - {Live(p)})[Superseded(index, p).value := owners[Live(p)]]
                   else owners;
    if stored.Some? then without[Live(p) := own] else without
  }

  /** The names the replacement puts in use are free. */
  lemma NamesFree(blocks: Blocks, index: Index, owners: Owners, holdings: Holdings, pins: Pins, next: nat, p: Path)
    requires HoldingsOk(blocks, owners, holdings) && PinsOk(index, holdings, pins, next, None)
    ensures Superseded(index, p).Some? ==> Live(p) in holdings && Live(p) in owners && Superseded(index, p).value !in owners
    ensures Superseded(index, p).None? ==> Live(p) !in owners && Live(p) !in holdings
  {
    PinParts(index, holdings, pins, next, None);
    assert LiveAt(index, holdings, p);
  }

  lemma ReplacePartition(index: Index, owners: Owners, used: set<nat>, p: Path, stored: Option<Image>, own: set<nat>)
    requires Partition(owners, used) && own !! used && (stored.None? ==> own == {})
    requires Superseded(index, p).Some? ==> Live(p) in owners && Superseded(index, p).value !in owners
    requires Superseded(index, p).None? ==> Live(p) !in owners
    ensures Partition(ReplacedOwners(index, owners, p, stored, own), used + own)
  {
    var mid := owners;
    if Superseded(index, p).Some? {
      RenameOwner(owners, used, Live(p), Superseded(index, p).value);
      mid := (owners - {Live(p)})[Superseded(index, p).value := owners[Live(p)]];
    }
    if stored.Some? {
      AddOwner(mid, used, Live(p), own);
    } else {
      assert used + own == used;
    }
  }

  lemma ReplaceOwners(blocks: Blocks, index: Index, owners: Owners, holdings: Holdings, pins: Pins, next: nat,
                      used: set<nat>, p: Path, stored: Option<Image>, own: set<nat>)
    requires Partition(owners, used) && HoldingsOk(blocks, owners, holdings) && PinsOk(index, holdings, pins, next, None)
    requires own !! used && (if stored.Some? then HeldOk(blocks, own, stored.value) else own == {})
    ensures Partition(ReplacedOwners(index, owners, p, stored, own), used + own)
    ensures HoldingsOk(blocks, ReplacedOwners(index, owners, p, stored, own), Replaced(index, holdings, p, stored))
  {
    NamesFree(blocks, index, owners, holdings, pins, next, p);
    ReplacePartition(index, owners, used, p, stored, own);
    ReplaceHoldings(blocks, index, owners, holdings, p, stored, own);
  }

  lemma ReplaceHoldings(blocks: Blocks, index: Index, owners: Owners, holdings: Holdings, p: Path, stored: Option<Image>, own: set<nat>)
    requires HoldingsOk(blocks, owners, holdings) && (stored.Some? ==> HeldOk(blocks, own, stored.value))
    requires Live(p) in owners <==> Superseded(index, p).Some?
    ensures HoldingsOk(blocks, ReplacedOwners(index, owners, p, stored, own), Replaced(index, holdings, p, stored))
  {
    var owners', holdings' := ReplacedOwners(index, owners, p, stored, own), Replaced(index, holdings, p, stored);
    forall o | o in holdings' ensures (o.Live? || o.Kept?) && o in owners' && HeldOk(blocks, owners'[o], holdings'[o]) {
      if o != Live(p) && Superseded(index, p) != Some(o) {
        assert o in holdings && holdings'[o] == holdings[o] && owners'[o] == owners[o];
      }
    }
  }

  /** A superseded version that nothing needs is given back. */
  lemma DropHolding(blocks: Blocks, owners: Owners, holdings: Holdings, used: set<nat>, o: Owner)
    requires Partition(owners, used) && HoldingsOk(blocks, owners, holdings) && o in holdings
    ensures Partition(owners - {o}, used - owners[o]) && HoldingsOk(blocks, owners - {o}, holdings - {o})
  {
    DropOwner(owners, used, o);
  }

  /** Installing a new version keeps every pin; the replaced version is the only one that may be unpinned. */
  lemma SupersedePins(index: Index, holdings: Holdings, pins: Pins, next: nat, p: Path, stored: Option<Image>, data: seq<Byte>)
    requires PinsOk(index, holdings, pins, next, None)
    ensures PinsOk(index[p := Entry(NodeFor(stored, data), next)], Replaced(index, holdings, p, stored), pins, next + 1, Superseded(index, p))
  {
    var index', holdings' := index[p := Entry(NodeFor(stored, data), next)], Replaced(index, holdings, p, stored);
    PinParts(index, holdings, pins, next, None);
    assert LiveAt(index, holdings, p);
    forall q ensures LiveAt(index', holdings', q) {
      assert LiveAt(index, holdings, q);
    }
    forall s: nat, q: Path | s in pins && q in pins[s] ensures PinHeld(index', holdings', s, q, pins[s][q]) {
      assert PinHeld(index, holdings, s, q, pins[s][q]);
    }
    forall q, l: nat | Kept(q, l) in holdings' && Superseded(index, p) != Some(Kept(q, l)) ensures PinnedBy(pins, q, l) {
      assert Kept(q, l) in holdings;
    }
    PinsTogether(index', holdings', pins, next + 1, Superseded(index, p));
  }

  /** A superseded version no snapshot falls on can go. */
  lemma UnpinPins(index: Index, holdings: Holdings, pins: Pins, next: nat, p: Path, l: nat)
    requires PinsOk(index, holdings, pins, next, Some(Kept(p, l))) && Kept(p, l) in holdings && p in index
    requires forall s :: s in pins ==> s < index[p].lsn && !(l <= s < index[p].lsn)
    ensures PinsOk(index, holdings - {Kept(p, l)}, pins, next, None)
  {
    var holdings' := holdings - {Kept(p, l)};
    PinParts(index, holdings, pins, next, Some(Kept(p, l)));
    forall q ensures LiveAt(index, holdings', q) {
      assert LiveAt(index, holdings, q);
    }
    forall s: nat, q: Path | s in pins && q in pins[s] ensures PinHeld(index, holdings', s, q, pins[s][q]) {
      assert PinHeld(index, holdings, s, q, pins[s][q]);
    }
    forall q, k: nat | Kept(q, k) in holdings' ensures PinnedBy(pins, q, k) {
    }
    PinsTogether(index, holdings', pins, next, None);
  }

  /** What a snapshot taken now sees. */
  function Seen(index: Index, holdings: Holdings): map<Path, Pin>
  {
    map p | p in index && index[p].node.Extents? && Live(p) in holdings :: Pin(index[p].lsn, holdings[Live(p)])
  }

  lemma SnapshotPins(index: Index, holdings: Holdings, pins: Pins, next: nat)
    requires PinsOk(index, holdings, pins, next, None)
    ensures PinsOk(index, holdings, pins[next := Seen(index, holdings)], next + 1, None)
  {
    PinParts(index, holdings, pins, next, None);
    SnapshotHeld(index, holdings, pins, next);
    var pins': Pins := pins[next := Seen(index, holdings)];
    forall s: nat, p: Path | s in pins' && p in index && index[p].node.Extents? && index[p].lsn <= s
      ensures p in pins'[s] && pins'[s][p].lsn == index[p].lsn
    {
      assert LiveAt(index, holdings, p);
    }
    forall p, l: nat | Kept(p, l) in holdings ensures PinnedBy(pins', p, l) {
      PinnedStill(pins, pins', p, l);
    }
    PinsTogether(index, holdings, pins', next + 1, None);
  }

  lemma PinnedStill(pins: Pins, pins': Pins, p: Path, l: nat)
    requires PinnedBy(pins, p, l) && forall s :: s in pins ==> s in pins' && pins'[s] == pins[s]
    ensures PinnedBy(pins', p, l)
  {
    var s :| s in pins && p in pins[s] && pins[s][p].lsn == l;
    assert s in pins' && p in pins'[s];
  }

  lemma SnapshotHeld(index: Index, holdings: Holdings, pins: Pins, next: nat)
    requires LiveOk(index, holdings) && PinsHeld(index, holdings, pins) && LsnsOk(index, holdings, pins, next)
    ensures PinsHeld(index, holdings, pins[next := Seen(index, holdings)])
  {
    var pins': Pins := pins[next := Seen(index, holdings)];
    forall s: nat, p: Path | s in pins' && p in pins'[s] ensures PinHeld(index, holdings, s, p, pins'[s][p]) {
      if s != next {
        assert PinHeld(index, holdings, s, p, pins[s][p]);
      }
    }
  }
}
