/**
 The FAT32 reader: following cluster chains and reading files through them. The volume is a byte
 image; a read past its end fails the way the block device reports it.
 */
module Fat32 {
  import opened Bytes
  import opened ClusterChain
  import opened Prelude

  const ENTRY_MODULUS: nat := 0x1000_0000   // entries keep their low 28 bits
  const U32_LIMIT: nat := 0x1_0000_0000
  const U64_LIMIT: nat := 0x1_0000_0000_0000_0000

  datatype Bpb = Bpb(bytesPerSector: nat, sectorsPerCluster: nat, reservedSectors: nat, numFats: nat, sectorsPerFat: nat, totalSectors: nat)

  /** What parsing the boot sector guarantees, with sector sums that fit 32 bits. */
  ghost predicate Parsed(b: Bpb)
  {
    && b.bytesPerSector in {512, 1024, 2048, 4096}
    && b.sectorsPerCluster > 0 && b.reservedSectors > 0 && b.numFats > 0 && b.sectorsPerFat > 0
    && 0 < b.totalSectors < U32_LIMIT
    && b.reservedSectors + b.numFats * b.sectorsPerFat < U32_LIMIT
  }

  function DataStart(b: Bpb): nat
  {
    b.reservedSectors + b.numFats * b.sectorsPerFat
  }

  function ClusterCount(b: Bpb): nat
    requires b.sectorsPerCluster > 0
  {
    (if b.totalSectors < DataStart(b) then 0 else b.totalSectors - DataStart(b)) / b.sectorsPerCluster
  }

  function BytesPerCluster(b: Bpb): nat
  {
    b.bytesPerSector * b.sectorsPerCluster
  }

  datatype Volume = Volume(image: seq<Byte>, bpb: Bpb, lbaStart: nat)

  /** `count` sectors from partition-relative sector `rel`. */
  function ReadSectors(v: Volume, rel: nat, count: nat): (r: Result<seq<Byte>>)
    ensures r.Ok? ==> |r.value| == count * v.bpb.bytesPerSector
  {
    var bs := v.bpb.bytesPerSector;
    var lba := v.lbaStart + rel;
    if lba >= U64_LIMIT then Err(InvalidOffset)
    else if lba * bs + count * bs > |v.image| then Err(IoRead)
    else Ok(v.image[lba * bs..lba * bs + count * bs])
  }

  /** Follow one FAT link: the entry's low 28 bits. */
  function NextCluster(v: Volume, cluster: nat): Result<nat>
    requires Parsed(v.bpb)
  {
    var bs := v.bpb.bytesPerSector;
    var rel := v.bpb.reservedSectors + cluster * 4 / bs;
    var off := cluster * 4 % bs;
    if rel >= U32_LIMIT then Err(ChainCorrupt)
    else match ReadSectors(v, rel, 1)
      case Err(e) => Err(e)
      case Ok(sec) =>
        EntryInSector(cluster, bs);
        Ok(Le32(sec[off], sec[off + 1], sec[off + 2], sec[off + 3]) % ENTRY_MODULUS)
  }

  lemma EntryInSector(cluster: nat, bs: nat)
    requires bs in {512, 1024, 2048, 4096}
    ensures cluster * 4 % bs + 3 < bs
  {
    var q, off := cluster * 4 / bs, cluster * 4 % bs;
    assert cluster * 4 == q * bs + off;
    assert bs == 512 ==> off == 4 * (cluster - 128 * q);
    assert bs == 1024 ==> off == 4 * (cluster - 256 * q);
    assert bs == 2048 ==> off == 4 * (cluster - 512 * q);
    assert bs == 4096 ==> off == 4 * (cluster - 1024 * q);
  }

  /** Where in the image the link of a cluster is kept. */
  function LinkAt(v: Volume, cluster: nat): nat
  {
    (v.lbaStart + v.bpb.reservedSectors) * v.bpb.bytesPerSector + 4 * cluster
  }

  /** The entry of a cluster counted from the reserved sectors on; the four sector sizes keep the arithmetic linear. */
  lemma LinkPlace(lba: nat, reserved: nat, cluster: nat, bs: nat)
    requires bs in {512, 1024, 2048, 4096}
    ensures (lba + (reserved + cluster * 4 / bs)) * bs + cluster * 4 % bs == (lba + reserved) * bs + 4 * cluster
  {
    if bs == 512 {
      assert (lba + (reserved + cluster * 4 / 512)) * 512 + cluster * 4 % 512 == (lba + reserved) * 512 + 4 * cluster;
    } else if bs == 1024 {
      assert (lba + (reserved + cluster * 4 / 1024)) * 1024 + cluster * 4 % 1024 == (lba + reserved) * 1024 + 4 * cluster;
    } else if bs == 2048 {
      assert (lba + (reserved + cluster * 4 / 2048)) * 2048 + cluster * 4 % 2048 == (lba + reserved) * 2048 + 4 * cluster;
    } else {
      assert (lba + (reserved + cluster * 4 / 4096)) * 4096 + cluster * 4 % 4096 == (lba + reserved) * 4096 + 4 * cluster;
    }
  }

  /** One sector read is that part of the image. */
  lemma SectorBytes(v: Volume, rel: nat, start: nat)
    requires ReadSectors(v, rel, 1).Ok? && start == (v.lbaStart + rel) * v.bpb.bytesPerSector
    ensures start + v.bpb.bytesPerSector <= |v.image|
    ensures ReadSectors(v, rel, 1).value == v.image[start..start + v.bpb.bytesPerSector]
  {
  }

  lemma FourBytes(image: seq<Byte>, start: nat, bs: nat, off: nat)
    requires off + 3 < bs && start + bs <= |image|
    ensures image[start..start + bs][off] == image[start + off] && image[start..start + bs][off + 1] == image[start + off + 1]
    ensures image[start..start + bs][off + 2] == image[start + off + 2] && image[start..start + bs][off + 3] == image[start + off + 3]
  {
  }

  /** A link as read from the sector that holds it. */
  lemma LinkInSector(v: Volume, cluster: nat, rel: nat, off: nat)
    requires Parsed(v.bpb) && NextCluster(v, cluster).Ok?
    requires rel == v.bpb.reservedSectors + cluster * 4 / v.bpb.bytesPerSector && off == cluster * 4 % v.bpb.bytesPerSector
    ensures ReadSectors(v, rel, 1).Ok? && off + 3 < |ReadSectors(v, rel, 1).value|
    ensures var sec := ReadSectors(v, rel, 1).value;
            NextCluster(v, cluster).value == Le32(sec[off], sec[off + 1], sec[off + 2], sec[off + 3]) % ENTRY_MODULUS
  {
    EntryInSector(cluster, v.bpb.bytesPerSector);
  }

  /** The sector and offset of a link, and where in the image the sector starts. */
  lemma LinkSector(v: Volume, cluster: nat) returns (rel: nat, off: nat, start: nat)
    requires Parsed(v.bpb) && NextCluster(v, cluster).Ok?
    ensures start == (v.lbaStart + rel) * v.bpb.bytesPerSector && start + off == LinkAt(v, cluster)
    ensures ReadSectors(v, rel, 1).Ok? && off + 3 < |ReadSectors(v, rel, 1).value|
    ensures var sec := ReadSectors(v, rel, 1).value;
            NextCluster(v, cluster).value == Le32(sec[off], sec[off + 1], sec[off + 2], sec[off + 3]) % ENTRY_MODULUS
  {
    rel, off := v.bpb.reservedSectors + cluster * 4 / v.bpb.bytesPerSector, cluster * 4 % v.bpb.bytesPerSector;
    start := (v.lbaStart + rel) * v.bpb.bytesPerSector;
    LinkInSector(v, cluster, rel, off);
    LinkPlace(v.lbaStart, v.bpb.reservedSectors, cluster, v.bpb.bytesPerSector);
  }

  /** The four bytes of a sector at `off` are those of the image at `at`. */
  lemma SectorInImage(v: Volume, rel: nat, off: nat, start: nat, at: nat)
    requires ReadSectors(v, rel, 1).Ok? && off + 3 < |ReadSectors(v, rel, 1).value|
    requires start == (v.lbaStart + rel) * v.bpb.bytesPerSector && at == start + off
    ensures var sec := ReadSectors(v, rel, 1).value;
            && at + 3 < |v.image| && sec[off] == v.image[at] && sec[off + 1] == v.image[at + 1]
            && sec[off + 2] == v.image[at + 2] && sec[off + 3] == v.image[at + 3]
  {
    SectorBytes(v, rel, start);
    FourBytes(v.image, start, v.bpb.bytesPerSector, off);
  }

  /** A link is the low 28 bits of the four bytes at its place in the image. */
  lemma LinkBytes(v: Volume, cluster: nat)
    requires Parsed(v.bpb) && NextCluster(v, cluster).Ok?
    ensures var at := LinkAt(v, cluster);
            && at + 3 < |v.image|
            && NextCluster(v, cluster).value == Le32(v.image[at], v.image[at + 1], v.image[at + 2], v.image[at + 3]) % ENTRY_MODULUS
  {
    var rel, off, start := LinkSector(v, cluster);
    SectorInImage(v, rel, off, start, LinkAt(v, cluster));
  }

  function FatBytes(b: Bpb): nat
  {
    b.sectorsPerFat * b.bytesPerSector
  }

  /** The link of a cluster lies inside the first FAT. */
  predicate InFirstFat(b: Bpb, cluster: nat)
  {
    4 * cluster + 4 <= FatBytes(b)
  }

  lemma FatIsWholeSectors(b: Bpb)
    requires Parsed(b)
    ensures FatBytes(b) % 512 == 0
  {
    var k := if b.bytesPerSector == 512 then 1 else if b.bytesPerSector == 1024 then 2 else if b.bytesPerSector == 2048 then 4 else 8;
    assert b.sectorsPerFat * (512 * k) == 512 * (b.sectorsPerFat * k);
  }

  /** Every link a walk may follow lies inside the first FAT exactly if the FAT has an entry for every cluster. */
  lemma LinksInFirstFat(b: Bpb)
    requires Parsed(b) && ClusterCount(b) > 0
    ensures (forall c: nat :: InRange(ClusterCount(b), c) ==> InFirstFat(b, c)) <==> 4 * (ClusterCount(b) + FIRST_DATA_CLUSTER) <= FatBytes(b)
  {
    FatIsWholeSectors(b);
    var last := ClusterCount(b) + FIRST_DATA_CLUSTER - 1;
    var c := if last == BAD then last - 1 else last;
    assert InRange(ClusterCount(b), c);
    assert InFirstFat(b, c) ==> 4 * (last + 1) <= FatBytes(b);
  }

  /** A boot sector the parser accepts whose FAT is too short for its clusters. */
  lemma FatCanBeTooShort()
    ensures var b := Bpb(512, 1, 1, 1, 1, 1000);
            Parsed(b) && InRange(ClusterCount(b), 500) && !InFirstFat(b, 500)
  {
  }

  function FatLinks(v: Volume): Links
    requires Parsed(v.bpb)
  {
    (cluster: nat) => NextCluster(v, cluster)
  }

  /** The clusters of a chain on this volume, in order. */
  ghost predicate FileChain(v: Volume, start: nat, chain: seq<nat>)
    requires Parsed(v.bpb)
  {
    IsChain(FatLinks(v), ClusterCount(v.bpb), chain) && chain[0] == start
  }

  lemma FileChainIsUnique(v: Volume, start: nat, c: seq<nat>, d: seq<nat>)
    requires Parsed(v.bpb) && FileChain(v, start, c) && FileChain(v, start, d)
    ensures c == d
  {
    PathFollowsChain(FatLinks(v), ClusterCount(v.bpb), c, d);
    PathFollowsChain(FatLinks(v), ClusterCount(v.bpb), d, c);
  }

  // ---- file contents ----

  function ReadCluster(v: Volume, cluster: nat): (r: Result<seq<Byte>>)
    requires cluster >= FIRST_DATA_CLUSTER
    ensures r.Ok? ==> |r.value| == BytesPerCluster(v.bpb)
  {
    Swapped(v.bpb.bytesPerSector, v.bpb.sectorsPerCluster);
    ReadSectors(v, DataStart(v.bpb) + (cluster - 2) * v.bpb.sectorsPerCluster, v.bpb.sectorsPerCluster)
  }

  /** The data of the chain's clusters by position; there is none past its end. */
  function Clusters(v: Volume, chain: seq<nat>): Fetch
    requires forall k :: 0 <= k < |chain| ==> chain[k] >= FIRST_DATA_CLUSTER
  {
    (k: nat) => if k >= |chain| then Err(ChainCorrupt) else ReadCluster(v, chain[k])
  }

  lemma ClusterBytesPositive(b: Bpb)
    requires Parsed(b)
    ensures BytesPerCluster(b) > 0
  {
    Scaled(b.bytesPerSector, b.sectorsPerCluster);
  }

  class Cookie {
    const startCluster: nat
    const size: nat
    var cursor: nat

    constructor (startCluster: nat, size: nat)
      ensures this.startCluster == startCluster && this.size == size && cursor == 0
    {
      this.startCluster, this.size := startCluster, size;
      cursor := 0;
    }
  }

  /** How much one call copies when nothing fails. */
  function Wanted(bufLen: nat, size: nat, cursor: nat): nat
  {
    if cursor >= size then 0 else if bufLen < size - cursor then bufLen else size - cursor
  }

  /**
   Read at the cookie's cursor. With a chain, the call succeeds exactly when every byte it wants can be found,
   fills the front of the buffer with those bytes and advances the cursor past them; on failure the cursor stays.
   */
  method Read(v: Volume, cookie: Cookie, buf: array<Byte>) returns (r: Result<nat>, ghost chain: seq<nat>)
    requires Parsed(v.bpb)
    modifies cookie, buf
    ensures old(cookie.cursor) >= cookie.size || cookie.startCluster < FIRST_DATA_CLUSTER ==>
              r == Ok(0) && cookie.cursor == old(cookie.cursor) && buf[..] == old(buf[..])
    ensures old(cookie.cursor) < cookie.size && cookie.startCluster >= FIRST_DATA_CLUSTER && chain == [] ==>
              r.Err? && !exists c :: FileChain(v, cookie.startCluster, c)
    ensures old(cookie.cursor) < cookie.size && cookie.startCluster >= FIRST_DATA_CLUSTER && chain != [] ==>
              var n := Wanted(buf.Length, cookie.size, old(cookie.cursor));
              && FileChain(v, cookie.startCluster, chain)
              && (r.Ok? <==> Available(Clusters(v, chain), BytesPerCluster(v.bpb), old(cookie.cursor), n))
              && (r.Ok? ==> r.value == n && cookie.cursor == old(cookie.cursor) + n)
              && (r.Ok? ==> Gathered(Clusters(v, chain), BytesPerCluster(v.bpb), old(cookie.cursor), buf[..n]))
              && (r.Ok? ==> buf[n..] == old(buf[n..]))
    ensures r.Err? ==> cookie.cursor == old(cookie.cursor)
  {
    chain := [];
    if cookie.cursor >= cookie.size {
      return Ok(0), [];
    }
    ClusterBytesPositive(v.bpb);
    if cookie.size == 0 || cookie.startCluster < FIRST_DATA_CLUSTER {
      return Ok(0), [];
    }
    var walked, _ := Walk(FatLinks(v), ClusterCount(v.bpb), cookie.startCluster);
    if walked.Err? {
      return Err(walked.error), [];
    }
    chain := walked.value;
    var want := Wanted(buf.Length, cookie.size, cookie.cursor);
    var failure := Gather(Clusters(v, walked.value), BytesPerCluster(v.bpb), cookie.cursor, buf, want);
    if failure.Err? {
      return Err(failure.error), chain;
    }
    cookie.cursor := cookie.cursor + want;
    r := Ok(want);
  }

  /** The file of `size` bytes is fully stored: its chain covers the size and every cluster can be read. */
  ghost predicate Stored(v: Volume, start: nat, size: nat, chain: seq<nat>)
    requires Parsed(v.bpb)
  {
    && FileChain(v, start, chain)
    && size <= |chain| * BytesPerCluster(v.bpb)
    && (forall k: nat :: k < |chain| ==> Clusters(v, chain)(k).Ok?)
  }

  /** The bytes of a stored file: its clusters' data in chain order, cut to the size. */
  ghost function FileData(v: Volume, start: nat, size: nat, chain: seq<nat>): (data: seq<Byte>)
    requires Parsed(v.bpb) && Stored(v, start, size, chain)
    ensures |data| == size
  {
    ConcatLength(Clusters(v, chain), BytesPerCluster(v.bpb), |chain|);
    Concat(Clusters(v, chain), |chain|)[..size]
  }

  function Total(sizes: seq<nat>): nat
  {
    if sizes == [] then 0 else Total(sizes[..|sizes| - 1]) + sizes[|sizes| - 1]
  }

  lemma JoinSlices(data: seq<Byte>, a: nat, b: nat, c: nat)
    requires a <= b <= c <= |data|
    ensures data[a..b] + data[b..c] == data[a..c]
  {
  }

  /** One read of a stored file yields the next piece of its data. */
  lemma PieceOfFile(v: Volume, start: nat, size: nat, chain: seq<nat>, chain': seq<nat>, cursor: nat, n: nat, piece: seq<Byte>)
    requires Parsed(v.bpb) && Stored(v, start, size, chain) && cursor + n <= size && |piece| == n
    requires FileChain(v, start, chain')
    ensures chain == chain' && BytesPerCluster(v.bpb) > 0
    ensures Available(Clusters(v, chain), BytesPerCluster(v.bpb), cursor, n)
    ensures Gathered(Clusters(v, chain), BytesPerCluster(v.bpb), cursor, piece) ==> piece == FileData(v, start, size, chain)[cursor..cursor + n]
  {
    FileChainIsUnique(v, start, chain, chain');
    ClusterBytesPositive(v.bpb);
    PieceOfClusters(Clusters(v, chain), BytesPerCluster(v.bpb), |chain|, size, cursor, n, piece);
  }

  lemma PieceOfClusters(fetch: Fetch, bytes: nat, count: nat, size: nat, cursor: nat, n: nat, piece: seq<Byte>)
    requires bytes > 0 && size <= count * bytes && cursor + n <= size && |piece| == n
    requires forall k: nat :: k < count ==> fetch(k).Ok? && |fetch(k).value| == bytes
    ensures |Concat(fetch, count)| >= size && Available(fetch, bytes, cursor, n)
    ensures Gathered(fetch, bytes, cursor, piece) ==> piece == Concat(fetch, count)[..size][cursor..cursor + n]
  {
    ConcatLength(fetch, bytes, count);
    GatheredIsSlice(fetch, bytes, count, cursor, n, piece);
    assert Concat(fetch, count)[..size][cursor..cursor + n] == Concat(fetch, count)[cursor..cursor + n];
  }

  /** One read of a stored file with a buffer of `n` bytes. */
  method ReadPiece(v: Volume, cookie: Cookie, n: nat, ghost chain: seq<nat>) returns (piece: seq<Byte>)
    requires Parsed(v.bpb) && cookie.startCluster >= FIRST_DATA_CLUSTER
    requires Stored(v, cookie.startCluster, cookie.size, chain) && cookie.cursor <= cookie.size
    modifies cookie
    ensures cookie.cursor == old(cookie.cursor) + Wanted(n, cookie.size, old(cookie.cursor))
    ensures piece == FileData(v, cookie.startCluster, cookie.size, chain)[old(cookie.cursor)..cookie.cursor]
  {
    var buf := new Byte[n](_ => 0);
    ghost var cursor, k := cookie.cursor, Wanted(n, cookie.size, cookie.cursor);
    var r, walked := Read(v, cookie, buf);
    if cursor < cookie.size {
      PieceOfFile(v, cookie.startCluster, cookie.size, chain, if walked == [] then chain else walked, cursor, k, buf[..k]);
    }
    piece := buf[..r.value];
  }

  /**
   Any sequence of reads of a stored file, with buffers of any sizes, returns its data piece by piece:
   together exactly the data from the cursor on, as far as the buffers reach.
   */
  method ReadPieces(v: Volume, cookie: Cookie, sizes: seq<nat>, ghost chain: seq<nat>) returns (out: seq<Byte>)
    requires Parsed(v.bpb) && cookie.startCluster >= FIRST_DATA_CLUSTER
    requires Stored(v, cookie.startCluster, cookie.size, chain) && cookie.cursor <= cookie.size
    modifies cookie
    ensures cookie.cursor == old(cookie.cursor) + Wanted(Total(sizes), cookie.size, old(cookie.cursor))
    ensures out == FileData(v, cookie.startCluster, cookie.size, chain)[old(cookie.cursor)..cookie.cursor]
  {
    out := [];
    ghost var data := FileData(v, cookie.startCluster, cookie.size, chain);
    for i := 0 to |sizes|
      invariant cookie.cursor == old(cookie.cursor) + Wanted(Total(sizes[..i]), cookie.size, old(cookie.cursor))
      invariant out == data[old(cookie.cursor)..cookie.cursor]
    {
      ghost var before := cookie.cursor;
      var piece := ReadPiece(v, cookie, sizes[i], chain);
      JoinSlices(data, old(cookie.cursor), before, cookie.cursor);
      out := out + piece;
      assert sizes[..i + 1][..i] == sizes[..i];
    }
    assert sizes[..|sizes|] == sizes;
  }
}
