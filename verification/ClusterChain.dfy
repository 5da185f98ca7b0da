/** Cluster chains over any table of links: what a chain is, that it is unique and free of repeats, and the bounded walk that finds it. */
module ClusterChain {
  import opened Bytes
  import opened Prelude

  datatype Error = IoRead | ChainCorrupt | InvalidOffset | BadGeometry

  type Result<+T> = Outcome<T, Error>

  const EOC: nat := 0x0FFF_FFF8
  const BAD: nat := 0x0FFF_FFF7
  const FIRST_DATA_CLUSTER: nat := 2

  /** Following one link may fail, as reading the table may. */
  type Links = nat -> Result<nat>

  predicate IsEoc(link: nat)
  {
    link >= EOC
  }

  /** A cluster number a chain may pass through, of `count` data clusters. */
  predicate InRange(count: nat, c: nat)
  {
    FIRST_DATA_CLUSTER <= c < count + FIRST_DATA_CLUSTER && c != BAD
  }

  /** Clusters in range, each linking to the next. */
  ghost predicate IsPath(next: Links, count: nat, p: seq<nat>)
  {
    && p != []
    && (forall i :: 0 <= i < |p| ==> InRange(count, p[i]))
    && (forall i :: 0 < i < |p| ==> next(p[i - 1]) == Ok(p[i]) && !IsEoc(p[i]))
  }

  /** A path whose last link is an end-of-chain mark. */
  ghost predicate IsChain(next: Links, count: nat, p: seq<nat>)
  {
    && IsPath(next, count, p)
    && next(p[|p| - 1]).Ok? && IsEoc(next(p[|p| - 1]).value)
  }

  ghost predicate Distinct(p: seq<nat>)
  {
    forall i, j :: 0 <= i < j < |p| ==> p[i] != p[j]
  }

  lemma Suffix(next: Links, count: nat, p: seq<nat>, i: nat)
    requires IsPath(next, count, p) && i < |p|
    ensures IsPath(next, count, p[i..]) && (IsChain(next, count, p) ==> IsChain(next, count, p[i..]))
  {
  }

  /** Links are a function, so a path that starts where a chain does is a prefix of it. */
  lemma {:induction false} PathFollowsChain(next: Links, count: nat, p: seq<nat>, c: seq<nat>)
    requires IsPath(next, count, p) && IsChain(next, count, c) && p[0] == c[0]
    ensures p <= c
    decreases |p|
  {
    if |p| > 1 {
      assert next(p[0]) == Ok(p[1]) && !IsEoc(p[1]);
      assert |c| > 1 && next(c[0]) == Ok(c[1]);
      Suffix(next, count, p, 1);
      Suffix(next, count, c, 1);
      PathFollowsChain(next, count, p[1..], c[1..]);
      assert p == [p[0]] + p[1..] && c == [c[0]] + c[1..];
    }
  }

  /** A chain visits no cluster twice: it would have to repeat from there for ever. */
  lemma ChainIsDistinct(next: Links, count: nat, c: seq<nat>)
    requires IsChain(next, count, c)
    ensures Distinct(c)
  {
    forall i, j | 0 <= i < j < |c| ensures c[i] != c[j] {
      if c[i] == c[j] {
        Suffix(next, count, c, i);
        Suffix(next, count, c, j);
        PathFollowsChain(next, count, c[i..], c[j..]);
      }
    }
  }

  function Elements(p: seq<nat>): set<nat>
  {
    set x | x in p
  }

  lemma {:induction false} DistinctCount(p: seq<nat>)
    requires Distinct(p)
    ensures |Elements(p)| == |p|
  {
    if p != [] {
      var q := p[..|p| - 1];
      DistinctCount(q);
      assert Elements(p) == Elements(q) + {p[|p| - 1]};
    }
  }

  /** A chain is never longer than the number of clusters. */
  lemma ChainFits(next: Links, count: nat, c: seq<nat>)
    requires IsChain(next, count, c)
    ensures |c| <= count
  {
    ChainIsDistinct(next, count, c);
    DistinctCount(c);
    RangeSize(FIRST_DATA_CLUSTER, count);
    SubsetSize(Elements(c), Range(FIRST_DATA_CLUSTER, count));
  }

  /** Why a walk from `start` along `p` fails: a start out of range, an unreadable link, a link out of range, or a path longer than any chain. */
  ghost predicate Fails(next: Links, count: nat, start: nat, p: seq<nat>, e: Error)
  {
    if p == [] then e == ChainCorrupt && !InRange(count, start)
    else
      && IsPath(next, count, p) && p[0] == start
      && var last := next(p[|p| - 1]);
         || last == Err(e)
         || (e == ChainCorrupt && last.Ok? && !IsEoc(last.value) && !InRange(count, last.value))
         || (e == ChainCorrupt && |p| > count)
  }

  /** A failed walk proves that no chain starts at `start`. */
  lemma FailedWalk(next: Links, count: nat, start: nat, p: seq<nat>, e: Error)
    requires Fails(next, count, start, p, e)
    ensures !exists c :: IsChain(next, count, c) && c[0] == start
  {
    forall c | IsChain(next, count, c) ensures c[0] != start {
      if p != [] && c[0] == start {
        PathFollowsChain(next, count, p, c);
        ChainFits(next, count, c);
        NextOnChain(next, count, c, |p|);
      }
    }
  }

  lemma NextOnChain(next: Links, count: nat, c: seq<nat>, n: nat)
    requires IsChain(next, count, c) && 0 < n <= |c|
    ensures next(c[n - 1]).Ok? && (IsEoc(next(c[n - 1]).value) || InRange(count, next(c[n - 1]).value))
  {
    if n < |c| {
      assert next(c[n - 1]) == Ok(c[n]);
    }
  }

  /**
   Collect the chain from `start`, giving up once more clusters were seen than exist. It succeeds exactly
   when a chain starts there and then returns it; `trace` is the path walked when it fails.
   */
  method Walk(next: Links, count: nat, start: nat) returns (r: Result<seq<nat>>, ghost trace: seq<nat>)
    ensures r.Ok? ==> IsChain(next, count, r.value) && r.value[0] == start && Distinct(r.value) && |r.value| <= count
    ensures r.Err? ==> Fails(next, count, start, trace, r.error) && |trace| <= count + 1
    ensures r.Ok? <==> exists c :: IsChain(next, count, c) && c[0] == start
  {
    var out: seq<nat> := [];
    trace := [];
    if start < FIRST_DATA_CLUSTER {
      FailedWalk(next, count, start, [], ChainCorrupt);
      return Err(ChainCorrupt), [];
    }
    var max := count + FIRST_DATA_CLUSTER;
    var cur := start;
    while true
      invariant out == [] ==> cur == start
      invariant out != [] ==> IsPath(next, count, out) && out[0] == start && next(out[|out| - 1]) == Ok(cur) && !IsEoc(cur)
      invariant |out| <= count
      decreases count + 1 - |out|
    {
      if cur < FIRST_DATA_CLUSTER || cur >= max || cur == BAD {
        FailedWalk(next, count, start, out, ChainCorrupt);
        return Err(ChainCorrupt), out;
      }
      out := out + [cur];
      assert IsPath(next, count, out);
      if |out| > count {
        FailedWalk(next, count, start, out, ChainCorrupt);
        return Err(ChainCorrupt), out;
      }
      var link := next(cur);
      if link.Err? {
        FailedWalk(next, count, start, out, link.error);
        return Err(link.error), out;
      }
      if IsEoc(link.value) {
        break;
      }
      cur := link.value;
    }
    ChainIsDistinct(next, count, out);
    assert IsChain(next, count, out) && out[0] == start;
    r := Ok(out);
  }

  // ---- reading through fixed-size clusters ----

  /** The data of the k-th cluster of a file. */
  type Fetch = nat -> Result<seq<Byte>>

  /** Byte `i` of the file, found by dividing by the cluster size. */
  function ByteOf(fetch: Fetch, size: nat, i: nat): Result<Byte>
    requires size > 0
  {
    match fetch(i / size)
    case Err(e) => Err(e)
    case Ok(data) => if i % size < |data| then Ok(data[i % size]) else Err(IoRead)
  }

  ghost predicate Available(fetch: Fetch, size: nat, from: nat, n: nat)
  {
    size > 0 && forall j: nat :: from <= j < from + n ==> ByteOf(fetch, size, j).Ok?
  }

  /** `s` is what the file holds from `from` on. */
  ghost predicate Gathered(fetch: Fetch, size: nat, from: nat, s: seq<Byte>)
  {
    size > 0 && forall j: nat :: from <= j < from + |s| ==> ByteOf(fetch, size, j) == Ok(s[j - from])
  }

  lemma WithinCluster(a: nat, k: nat, b: nat)
    requires b > 0 && a % b + k < b
    ensures (a + k) / b == a / b && (a + k) % b == a % b + k
  {
    Quotient(a + k, b, a / b, a % b + k);
  }

  /** Fill `buf[..want]` with the file's bytes from `cursor`, one cluster's worth at a time. */
  method Gather(fetch: Fetch, size: nat, cursor: nat, buf: array<Byte>, want: nat) returns (r: Result<nat>)
    requires size > 0 && want <= buf.Length
    requires forall k: nat :: fetch(k).Ok? ==> |fetch(k).value| == size
    modifies buf
    ensures r.Ok? <==> Available(fetch, size, cursor, want)
    ensures r.Ok? ==> r.value == want && Gathered(fetch, size, cursor, buf[..want])
    ensures buf[want..] == old(buf[want..])
  {
    var copied := 0;
    while copied < want
      invariant copied <= want
      invariant Gathered(fetch, size, cursor, buf[..copied])
      invariant buf[want..] == old(buf[want..])
    {
      var absOff := cursor + copied;
      var inCluster := absOff % size;
      var data := fetch(absOff / size);
      if data.Err? {
        assert ByteOf(fetch, size, absOff).Err?;
        return Err(data.error);
      }
      var avail := size - inCluster;
      var need := want - copied;
      var n := if avail < need then avail else need;
      CopyInto(buf, copied, data.value, inCluster, n);
      GatheredMore(fetch, size, cursor, buf[..copied], data.value[inCluster..inCluster + n]);
      assert buf[..copied + n] == buf[..copied] + data.value[inCluster..inCluster + n];
      copied := copied + n;
    }
    r := Ok(copied);
  }

  lemma GatheredMore(fetch: Fetch, size: nat, from: nat, s: seq<Byte>, t: seq<Byte>)
    requires size > 0 && Gathered(fetch, size, from, s)
    requires var a := from + |s|;
             && a % size + |t| <= size && fetch(a / size).Ok? && |fetch(a / size).value| == size
             && t == fetch(a / size).value[a % size..a % size + |t|]
    ensures Gathered(fetch, size, from, s + t)
  {
    var a := from + |s|;
    forall j: nat | from <= j < from + |s + t| ensures ByteOf(fetch, size, j) == Ok((s + t)[j - from]) {
      if j >= a {
        WithinCluster(a, j - a, size);
      }
    }
  }

  /** Copy `n` bytes of `src` from `from` to `buf[at..]`. */
  method CopyInto(buf: array<Byte>, at: nat, src: seq<Byte>, from: nat, n: nat)
    requires at + n <= buf.Length && from + n <= |src|
    modifies buf
    ensures buf[..at] == old(buf[..at])
    ensures buf[at..at + n] == src[from..from + n]
    ensures buf[at + n..] == old(buf[at + n..])
  {
    for i := 0 to n
      invariant buf[..at] == old(buf[..at])
      invariant buf[at..at + i] == src[from..from + i]
      invariant buf[at + i..] == old(buf[at + i..])
    {
      buf[at + i] := src[from + i];
    }
  }

  /** The first `m` clusters joined. */
  ghost function Concat(fetch: Fetch, m: nat): seq<Byte>
    requires forall k: nat :: k < m ==> fetch(k).Ok?
  {
    if m == 0 then [] else Concat(fetch, m - 1) + fetch(m - 1).value
  }

  lemma {:induction false} ConcatLength(fetch: Fetch, size: nat, m: nat)
    requires forall k: nat :: k < m ==> fetch(k).Ok? && |fetch(k).value| == size
    ensures |Concat(fetch, m)| == m * size
  {
    if m > 0 {
      ConcatLength(fetch, size, m - 1);
      assert m * size == (m - 1) * size + size;
    }
  }

  /** Lookup by division agrees with the joined clusters. */
  lemma {:induction false} ConcatAt(fetch: Fetch, size: nat, m: nat, i: nat)
    requires size > 0 && i < m * size
    requires forall k: nat :: k < m ==> fetch(k).Ok? && |fetch(k).value| == size
    ensures i < |Concat(fetch, m)| && ByteOf(fetch, size, i) == Ok(Concat(fetch, m)[i])
  {
    ConcatLength(fetch, size, m);
    ConcatLength(fetch, size, m - 1);
    assert m * size == (m - 1) * size + size;
    if i < (m - 1) * size {
      ConcatAt(fetch, size, m - 1, i);
    } else {
      Quotient(i, size, m - 1, i - (m - 1) * size);
    }
  }

  /** Bytes gathered from fully readable clusters are a slice of the joined clusters. */
  lemma GatheredIsSlice(fetch: Fetch, size: nat, m: nat, from: nat, n: nat, s: seq<Byte>)
    requires size > 0 && from + n <= m * size && |s| == n
    requires forall k: nat :: k < m ==> fetch(k).Ok? && |fetch(k).value| == size
    ensures from + n <= |Concat(fetch, m)| && Available(fetch, size, from, n)
    ensures Gathered(fetch, size, from, s) ==> s == Concat(fetch, m)[from..from + n]
  {
    ConcatLength(fetch, size, m);
    forall j: nat | from <= j < from + n ensures ByteOf(fetch, size, j) == Ok(Concat(fetch, m)[j]) {
      ConcatAt(fetch, size, m, j);
    }
    if Gathered(fetch, size, from, s) {
      forall i: nat | i < n ensures s[i] == Concat(fetch, m)[from..from + n][i] {
        assert ByteOf(fetch, size, from + i) == Ok(s[i]);
      }
    }
  }
}
