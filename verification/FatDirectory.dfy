/** Listing a FAT32 directory from its clusters. */
module FatDirectory {
  import opened Bytes
  import opened ClusterChain
  import opened Fat32
  import opened Prelude
  import N = FatNames

  /** A chain from `start` all of whose clusters can be read. */
  ghost predicate ReadableChain(v: Volume, start: nat, chain: seq<nat>)
    requires Parsed(v.bpb)
  {
    FileChain(v, start, chain) && forall k: nat :: k < |chain| ==> Clusters(v, chain)(k).Ok?
  }

  /** The clusters of a directory, joined. */
  ghost function DirectoryData(v: Volume, start: nat, chain: seq<nat>): seq<Byte>
    requires Parsed(v.bpb) && ReadableChain(v, start, chain)
  {
    Concat(Clusters(v, chain), |chain|)
  }

  method JoinClusters(v: Volume, chain: seq<nat>) returns (r: Result<seq<Byte>>)
    requires forall k :: 0 <= k < |chain| ==> chain[k] >= FIRST_DATA_CLUSTER
    ensures r.Ok? <==> forall k: nat :: k < |chain| ==> Clusters(v, chain)(k).Ok?
    ensures r.Ok? ==> r.value == Concat(Clusters(v, chain), |chain|)
  {
    var blob: seq<Byte> := [];
    for i := 0 to |chain|
      invariant forall k: nat :: k < i ==> Clusters(v, chain)(k).Ok?
      invariant blob == Concat(Clusters(v, chain), i)
    {
      var cluster := ReadCluster(v, chain[i]);
      assert Clusters(v, chain)(i) == cluster;
      if cluster.Err? {
        return Err(cluster.error);
      }
      blob := blob + cluster.value;
    }
    r := Ok(blob);
  }

  /** Read a directory's clusters into one blob. */
  method ReadDirBlob(v: Volume, start: nat) returns (r: Result<seq<Byte>>)
    requires Parsed(v.bpb)
    ensures r.Ok? <==> exists chain :: ReadableChain(v, start, chain)
    ensures forall chain :: ReadableChain(v, start, chain) ==> r == Ok(DirectoryData(v, start, chain))
  {
    var walked, _ := Walk(FatLinks(v), ClusterCount(v.bpb), start);
    if walked.Err? {
      return Err(walked.error);
    }
    var chain := walked.value;
    assert FileChain(v, start, chain);
    forall other | FileChain(v, start, other) ensures other == chain {
      FileChainIsUnique(v, start, other, chain);
    }
    r := JoinClusters(v, chain);
    if r.Ok? {
      assert ReadableChain(v, start, chain);
    }
  }

  ghost predicate AllStorable(fs: seq<N.FileRecord>)
  {
    forall i :: 0 <= i < |fs| ==> N.Storable(fs[i])
  }

  /** The clusters from `start` hold these records, and then nothing or an end mark and anything at all. */
  ghost predicate HoldsDirectory(v: Volume, start: nat, fs: seq<N.FileRecord>)
    requires Parsed(v.bpb)
  {
    AllStorable(fs) &&
    exists chain, rest ::
      ReadableChain(v, start, chain) && N.EndsDirectory(rest) && DirectoryData(v, start, chain) == N.DirectoryBytes(fs) + rest
  }

  /**
   List a directory. No start cluster is an empty directory; otherwise it fails exactly when there is no chain
   or a cluster of it cannot be read. A directory that holds records lists as them.
   */
  method ReadDir(v: Volume, start: nat) returns (r: Result<seq<N.DirEntry>>)
    requires Parsed(v.bpb)
    ensures start < FIRST_DATA_CLUSTER ==> r == Ok([])
    ensures start >= FIRST_DATA_CLUSTER ==> (r.Ok? <==> exists chain :: ReadableChain(v, start, chain))
    ensures forall fs :: start >= FIRST_DATA_CLUSTER && HoldsDirectory(v, start, fs) ==> r == Ok(N.Listing(fs))
  {
    if start < FIRST_DATA_CLUSTER {
      return Ok([]);
    }
    var blob := ReadDirBlob(v, start);
    if blob.Err? {
      return Err(blob.error);
    }
    var entries := N.ParseEntries(blob.value);
    r := Ok(entries);
    forall fs | HoldsDirectory(v, start, fs) ensures entries == N.Listing(fs) {
      var chain, rest :|
        ReadableChain(v, start, chain) && N.EndsDirectory(rest) && DirectoryData(v, start, chain) == N.DirectoryBytes(fs) + rest;
      N.DirectoryRoundTrip(fs, rest);
    }
  }
}
