/** FAT directory entries: long-name slots, their reassembly, and the short entry that ends a set of slots. */
module FatNames {
  import opened Bytes
  import opened Utf16
  import opened Prelude

  const ENTRY_SIZE: nat := 32
  const ENTRY_FREE: Byte := 0xE5
  const ENTRY_END: Byte := 0x00
  const ATTR_LONG_NAME: Byte := 0x0F
  const SLOT_UNITS: nat := 13

  function Le16(a: Byte, b: Byte): Unit
  {
    a + 0x100 * b
  }

  predicate Bit(b: Byte, weight: nat)
    requires weight > 0
  {
    b / weight % 2 == 1
  }

  // ---- parsing ----

  /** Where the i-th unit of a slot is stored: byte ranges 1..11, 14..26 and 28..32. */
  function UnitOffset(i: nat): nat
  {
    if i < 5 then 1 + 2 * i else if i < 11 then 4 + 2 * i else 6 + 2 * i
  }

  function SlotUnits(raw: seq<Byte>): (units: seq<Unit>)
    requires |raw| == ENTRY_SIZE
  {
    seq(SLOT_UNITS, i requires 0 <= i < SLOT_UNITS => Le16(raw[UnitOffset(i)], raw[UnitOffset(i) + 1]))
  }

  /** Append the units of one slot to `dst`, range by range. */
  method LfnUnits(raw: seq<Byte>, dst: seq<Unit>) returns (r: seq<Unit>)
    requires |raw| == ENTRY_SIZE
    ensures r == dst + SlotUnits(raw)
  {
    var ranges := [(1, 11), (14, 26), (28, 32)];
    r := dst;
    ghost var n := 0;
    for k := 0 to 3
      invariant n == (if k == 0 then 0 else if k == 1 then 5 else if k == 2 then 11 else 13)
      invariant r == dst + SlotUnits(raw)[..n]
    {
      var (start, end) := ranges[k];
      var i := start;
      while i + 1 < end
        invariant n <= SLOT_UNITS && i <= end <= 32 && (n < SLOT_UNITS && i < end ==> i == UnitOffset(n))
        invariant i == start + 2 * (n - (if k == 0 then 0 else if k == 1 then 5 else 11))
        invariant r == dst + SlotUnits(raw)[..n]
      {
        r := r + [Le16(raw[i], raw[i + 1])];
        i := i + 2;
        n := n + 1;
      }
    }
  }

  datatype DirEntry = DirEntry(name: String, isDir: bool, size: nat, startCluster: nat)

  function Lower(c: Byte): Byte
  {
    if 'A' as int <= c <= 'Z' as int then c + 32 else c
  }

  /** One padded field of an 8.3 name, up to the first space. */
  function ShortField(raw: seq<Byte>, lower: bool): String
  {
    if raw == [] || raw[0] == 0x20 then []
    else [if lower then Lower(raw[0]) else raw[0]] + ShortField(raw[1..], lower)
  }

  function ShortName(raw: seq<Byte>): String
    requires |raw| == ENTRY_SIZE
  {
    var base := ShortField(raw[0..8], Bit(raw[12], 8));
    var ext := ShortField(raw[8..11], Bit(raw[12], 16));
    if ext == [] then base else base + ['.' as int] + ext
  }

  /** Index of the first zero unit, or the length. */
  function Terminator(units: seq<Unit>): (n: nat)
    ensures n <= |units|
  {
    if units == [] || units[0] == 0 then 0 else 1 + Terminator(units[1..])
  }

  function WithoutPadding(units: seq<Unit>): seq<Unit>
  {
    if units == [] then []
    else (if units[0] == 0xFFFF then [] else [units[0]]) + WithoutPadding(units[1..])
  }

  function DecodeLfn(units: seq<Unit>): Option<String>
  {
    var trimmed := WithoutPadding(units[..Terminator(units)]);
    if trimmed == [] then None else Decode(trimmed)
  }

  function ResolvedName(raw: seq<Byte>, lfn: seq<Unit>): String
    requires |raw| == ENTRY_SIZE
  {
    if lfn == [] then ShortName(raw)
    else match DecodeLfn(lfn)
      case Some(name) => name
      case None => ShortName(raw)
  }

  predicate DotName(name: String)
  {
    name == ['.' as int] || name == ['.' as int, '.' as int]
  }

  function EntryOf(raw: seq<Byte>, lfn: seq<Unit>): DirEntry
    requires |raw| == ENTRY_SIZE
  {
    DirEntry(ResolvedName(raw, lfn), Bit(raw[11], 16), Le32(raw[28], raw[29], raw[30], raw[31]),
             Le16(raw[20], raw[21]) * 0x1_0000 + Le16(raw[26], raw[27]))
  }

  /** The entries of a directory blob; `lfn` is what the slots just before it have collected. */
  function Entries(blob: seq<Byte>, lfn: seq<Unit>): seq<DirEntry>
    decreases |blob|
  {
    if |blob| < ENTRY_SIZE then []
    else
      var raw, rest := blob[..ENTRY_SIZE], blob[ENTRY_SIZE..];
      if raw[0] == ENTRY_END then []
      else if raw[0] == ENTRY_FREE then Entries(rest, [])
      else if raw[11] % 16 == ATTR_LONG_NAME then Entries(rest, SlotUnits(raw) + lfn)
      else if Bit(raw[11], 8) then Entries(rest, [])
      else if DotName(ResolvedName(raw, lfn)) then Entries(rest, [])
      else [EntryOf(raw, lfn)] + Entries(rest, [])
  }

  method ParseEntries(blob: seq<Byte>) returns (out: seq<DirEntry>)
    ensures out == Entries(blob, [])
  {
    out := [];
    var lfn: seq<Unit> := [];
    var off := 0;
    while off + ENTRY_SIZE <= |blob|
      invariant 0 <= off <= |blob|
      invariant out + Entries(blob[off..], lfn) == Entries(blob, [])
      decreases |blob| - off
    {
      var raw := blob[off..off + ENTRY_SIZE];
      assert blob[off..][..ENTRY_SIZE] == raw && blob[off..][ENTRY_SIZE..] == blob[off + ENTRY_SIZE..];
      off := off + ENTRY_SIZE;
      if raw[0] == ENTRY_END {
        return out;
      }
      if raw[0] == ENTRY_FREE {
        lfn := [];
        continue;
      }
      if raw[11] % 16 == ATTR_LONG_NAME {
        var units := LfnUnits(raw, []);
        assert units == SlotUnits(raw);
        lfn := units + lfn;
        continue;
      }
      if Bit(raw[11], 8) {
        lfn := [];
        continue;
      }
      var name := ResolvedName(raw, lfn);
      var entry := EntryOf(raw, lfn);
      lfn := [];
      if DotName(name) {
        continue;
      }
      assert out + ([entry] + Entries(blob[off..], [])) == (out + [entry]) + Entries(blob[off..], []);
      out := out + [entry];
    }
  }

  // ---- writing: the layout the parser is meant for ----

  datatype FileRecord = FileRecord(name: String, short: seq<Byte>, attr: Byte, startCluster: nat, size: nat)

  const U32_LIMIT: nat := 0x1_0000_0000

  /** A record the format can hold: 1 to 255 name units, no padding or terminator unit among them, and a short entry that ends the slots. */
  ghost predicate Storable(f: FileRecord)
  {
    && Sized(f) && f.name != [] && !DotName(f.name)
    && (forall u :: u in Encode(f.name) ==> u != 0 && u != 0xFFFF)
    && f.short[0] != ENTRY_END && f.short[0] != ENTRY_FREE
    && f.attr % 16 != ATTR_LONG_NAME && !Bit(f.attr, 8)
  }

  /** The fields fit their places in the format. */
  ghost predicate Sized(f: FileRecord)
  {
    |f.short| == 11 && f.startCluster < U32_LIMIT && f.size < U32_LIMIT && |Encode(f.name)| <= 255
  }

  /** What a directory listing shows of a record. */
  function Listed(f: FileRecord): DirEntry
  {
    DirEntry(f.name, Bit(f.attr, 16), f.size, f.startCluster)
  }

  function Checksum(short: seq<Byte>): Byte
  {
    if short == [] then 0
    else var sum := Checksum(short[..|short| - 1]); (sum / 2 + sum % 2 * 128 + short[|short| - 1]) % 256
  }

  /** Unit `i` of a name in its slots: past the name one terminator, then padding. */
  function UnitAt(units: seq<Unit>, i: nat): Unit
  {
    if i < |units| then units[i] else if i == |units| then 0 else 0xFFFF
  }

  function SlotCount(units: seq<Unit>): nat
  {
    (|units| + SLOT_UNITS - 1) / SLOT_UNITS
  }

  /** Which unit of the slot byte `i` belongs to; the low byte comes first. */
  function SlotByte(units: seq<Unit>, first: nat, i: nat): Byte
  {
    var at := if 1 <= i < 11 then i - 1 else if 14 <= i < 26 then i - 4 else i - 6;
    if at < 0 then 0
    else var u: int := UnitAt(units, first + at / 2); if at % 2 == 0 then u % 256 else u / 256
  }

  function SlotRaw(units: seq<Unit>, slot: nat, short: seq<Byte>): (raw: seq<Byte>)
    requires slot < 20
    ensures |raw| == ENTRY_SIZE
  {
    var ord := slot + 1 + (if slot + 1 == SlotCount(units) then 0x40 else 0);
    seq(ENTRY_SIZE, i requires 0 <= i < ENTRY_SIZE =>
      if i == 0 then ord as Byte
      else if i == 11 then ATTR_LONG_NAME
      else if i == 13 then Checksum(short)
      else if i == 12 || i == 26 || i == 27 then 0
      else SlotByte(units, SLOT_UNITS * slot, i))
  }

  /** Slots `k - 1` down to 0: stored last slot first. */
  function Slots(units: seq<Unit>, k: nat, short: seq<Byte>): seq<Byte>
    requires k <= 20
  {
    if k == 0 then [] else SlotRaw(units, k - 1, short) + Slots(units, k - 1, short)
  }

  function ShortRaw(f: FileRecord): (raw: seq<Byte>)
    requires Sized(f)
    ensures |raw| == ENTRY_SIZE
  {
    f.short + [f.attr, 0, 0, 0, 0, 0, 0, 0, 0]
      + [f.startCluster / 0x1_0000 % 256, f.startCluster / 0x100_0000, 0, 0, 0, 0, f.startCluster % 256, f.startCluster / 256 % 256]
      + [f.size % 256, f.size / 256 % 256, f.size / 0x1_0000 % 256, f.size / 0x100_0000]
  }

  function RecordBytes(f: FileRecord): seq<Byte>
    requires Sized(f)
  {
    var units := Encode(f.name);
    Slots(units, SlotCount(units), f.short) + ShortRaw(f)
  }

  function DirectoryBytes(fs: seq<FileRecord>): seq<Byte>
    requires forall i :: 0 <= i < |fs| ==> Storable(fs[i])
  {
    if fs == [] then []
    else
      assert Storable(fs[0]);
      RecordBytes(fs[0]) + DirectoryBytes(fs[1..])
  }

  function Listing(fs: seq<FileRecord>): seq<DirEntry>
  {
    if fs == [] then [] else [Listed(fs[0])] + Listing(fs[1..])
  }

  // ---- round trip ----

  /** The first `13 * k` units as stored. */
  function Stored(units: seq<Unit>, k: nat): seq<Unit>
  {
    seq(SLOT_UNITS * k, i requires 0 <= i => UnitAt(units, i))
  }

  /** The 13 units that belong in one slot. */
  function Window(units: seq<Unit>, slot: nat): seq<Unit>
  {
    var first := SLOT_UNITS * slot;
    seq<Unit>(SLOT_UNITS, i requires 0 <= i < SLOT_UNITS => UnitAt(units, first + i))
  }

  lemma StoredGrows(units: seq<Unit>, k: nat, lfn: seq<Unit>)
    ensures Stored(units, k) + (Window(units, k) + lfn) == Stored(units, k + 1) + lfn
  {
  }

  lemma SlotHoldsUnits(units: seq<Unit>, slot: nat, short: seq<Byte>)
    requires slot < 20
    ensures SlotUnits(SlotRaw(units, slot, short)) == Window(units, slot)
  {
    var raw := SlotRaw(units, slot, short);
    forall i | 0 <= i < SLOT_UNITS ensures SlotUnits(raw)[i] == Window(units, slot)[i] {
      UnitInSlot(units, slot, short, i);
    }
  }

  lemma SlotIsLongName(units: seq<Unit>, slot: nat, short: seq<Byte>)
    requires slot < 20
    ensures var raw := SlotRaw(units, slot, short);
            raw[0] != ENTRY_END && raw[0] != ENTRY_FREE && raw[11] == ATTR_LONG_NAME
  {
  }

  lemma SlotParses(raw: seq<Byte>, rest: seq<Byte>, lfn: seq<Unit>)
    requires |raw| == ENTRY_SIZE && raw[0] != ENTRY_END && raw[0] != ENTRY_FREE && raw[11] == ATTR_LONG_NAME
    ensures Entries(raw + rest, lfn) == Entries(rest, SlotUnits(raw) + lfn)
  {
    assert (raw + rest)[..ENTRY_SIZE] == raw && (raw + rest)[ENTRY_SIZE..] == rest;
  }

  lemma UnitInSlot(units: seq<Unit>, slot: nat, short: seq<Byte>, i: nat)
    requires slot < 20 && i < SLOT_UNITS
    ensures var raw := SlotRaw(units, slot, short);
            Le16(raw[UnitOffset(i)], raw[UnitOffset(i) + 1]) == UnitAt(units, SLOT_UNITS * slot + i)
  {
    var o, first := UnitOffset(i), SLOT_UNITS * slot;
    var u: int := UnitAt(units, first + i);
    assert SlotByte(units, first, o) == u % 256;
    assert SlotByte(units, first, o + 1) == u / 256;
  }

  /** Parsing the slots of a name collects its stored units in order. */
  lemma {:induction false} SlotsCollect(units: seq<Unit>, k: nat, short: seq<Byte>, rest: seq<Byte>, lfn: seq<Unit>)
    requires k <= 20
    ensures Entries(Slots(units, k, short) + rest, lfn) == Entries(rest, Stored(units, k) + lfn)
  {
    if k == 0 {
      assert Slots(units, 0, short) + rest == rest && Stored(units, 0) + lfn == lfn;
    } else {
      var raw, more := SlotRaw(units, k - 1, short), Slots(units, k - 1, short);
      SlotIsLongName(units, k - 1, short);
      SlotHoldsUnits(units, k - 1, short);
      assert Slots(units, k, short) + rest == raw + (more + rest);
      SlotParses(raw, more + rest, lfn);
      SlotsCollect(units, k - 1, short, rest, Window(units, k - 1) + lfn);
      StoredGrows(units, k - 1, lfn);
    }
  }

  lemma {:induction false} TerminatorAt(units: seq<Unit>, n: nat)
    requires n <= |units| && (forall i :: 0 <= i < n ==> units[i] != 0) && (n < |units| ==> units[n] == 0)
    ensures Terminator(units) == n
  {
    if n > 0 {
      TerminatorAt(units[1..], n - 1);
    }
  }

  lemma {:induction false} NothingToStrip(units: seq<Unit>)
    requires forall u :: u in units ==> u != 0xFFFF
    ensures WithoutPadding(units) == units
  {
    if units != [] {
      assert forall u :: u in units[1..] ==> u in units;
      assert units[0] in units;
      NothingToStrip(units[1..]);
      assert units == [units[0]] + units[1..];
    }
  }

  lemma SlotCountCovers(units: seq<Unit>)
    requires 0 < |units| <= 255
    ensures SlotCount(units) <= 20 && |units| <= SLOT_UNITS * SlotCount(units)
  {
  }

  /** The stored units of a name decode to the name, also when it fills its last slot exactly. */
  lemma StoredNameDecodes(name: String)
    requires name != [] && |Encode(name)| <= 255 && forall u :: u in Encode(name) ==> u != 0 && u != 0xFFFF
    ensures DecodeLfn(Stored(Encode(name), SlotCount(Encode(name)))) == Some(name)
  {
    var units := Encode(name);
    EncodeLength(name);
    SlotCountCovers(units);
    var stored := Stored(units, SlotCount(units));
    forall i | 0 <= i < |units| ensures stored[i] != 0 {
      assert units[i] in units;
    }
    TerminatorAt(stored, |units|);
    assert stored[..|units|] == units;
    NothingToStrip(units);
    DecodeEncode(name);
  }

  lemma Bytes32(n: nat)
    requires n < U32_LIMIT
    ensures Le32(n % 256, n / 256 % 256, n / 0x1_0000 % 256, n / 0x100_0000) == n
    ensures Le16(n / 0x1_0000 % 256, n / 0x100_0000) * 0x1_0000 + Le16(n % 256, n / 256 % 256) == n
  {
    var a, b := n / 256, n / 0x1_0000;
    assert a / 256 == b && b / 256 == n / 0x100_0000;
  }

  lemma ShortFields(f: FileRecord, lfn: seq<Unit>)
    requires Storable(f) && lfn != [] && DecodeLfn(lfn) == Some(f.name)
    ensures EntryOf(ShortRaw(f), lfn) == Listed(f)
  {
    Bytes32(f.size);
    Bytes32(f.startCluster);
    var raw := ShortRaw(f);
    assert raw[11] == f.attr;
    assert raw[20] == f.startCluster / 0x1_0000 % 256 && raw[21] == f.startCluster / 0x100_0000;
    assert raw[26] == f.startCluster % 256 && raw[27] == f.startCluster / 256 % 256;
    assert raw[28..32] == [f.size % 256, f.size / 256 % 256, f.size / 0x1_0000 % 256, f.size / 0x100_0000];
  }

  lemma ShortParses(f: FileRecord, rest: seq<Byte>, lfn: seq<Unit>)
    requires Storable(f) && lfn != [] && DecodeLfn(lfn) == Some(f.name)
    ensures Entries(ShortRaw(f) + rest, lfn) == [Listed(f)] + Entries(rest, [])
  {
    var raw := ShortRaw(f);
    assert (raw + rest)[..ENTRY_SIZE] == raw && (raw + rest)[ENTRY_SIZE..] == rest;
    assert raw[0] == f.short[0] && raw[11] == f.attr;
    ShortFields(f, lfn);
  }

  lemma RecordParses(f: FileRecord, rest: seq<Byte>)
    requires Storable(f)
    ensures Entries(RecordBytes(f) + rest, []) == [Listed(f)] + Entries(rest, [])
  {
    var units := Encode(f.name);
    var k, raw := SlotCount(units), ShortRaw(f);
    EncodeLength(f.name);
    SlotCountCovers(units);
    assert RecordBytes(f) + rest == Slots(units, k, f.short) + (raw + rest);
    SlotsCollect(units, k, f.short, raw + rest, []);
    StoredNameDecodes(f.name);
    assert Stored(units, k) + [] == Stored(units, k);
    ShortParses(f, rest, Stored(units, k));
  }

  /** What may follow the last record: nothing, an end mark with whatever is behind it, or too little for an entry. */
  predicate EndsDirectory(rest: seq<Byte>)
  {
    |rest| < ENTRY_SIZE || rest[0] == ENTRY_END
  }

  /** Every directory of storable records lists back exactly those records, in order, with their full names, whatever lies behind its end. */
  lemma {:induction false} DirectoryRoundTrip(fs: seq<FileRecord>, rest: seq<Byte>)
    requires (forall i :: 0 <= i < |fs| ==> Storable(fs[i])) && EndsDirectory(rest)
    ensures Entries(DirectoryBytes(fs) + rest, []) == Listing(fs)
  {
    if fs == [] {
      assert DirectoryBytes(fs) + rest == rest;
    } else {
      assert DirectoryBytes(fs) + rest == RecordBytes(fs[0]) + (DirectoryBytes(fs[1..]) + rest);
      RecordParses(fs[0], DirectoryBytes(fs[1..]) + rest);
      DirectoryRoundTrip(fs[1..], rest);
    }
  }
}
