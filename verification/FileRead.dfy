/** Where a file's blocks are, and reading a file through its runs. */
module FileRead {
  import opened Bytes
  import opened Helix
  import opened Extent
  import opened Prelude

  /** Readable blocks of the data region by block number; other blocks fail to read. */
  type Blocks = map<nat, seq<Byte>>

  ghost predicate WholeBlocks(blocks: Blocks)
  {
    forall b :: b in blocks ==> |blocks[b]| == BLOCK_SIZE
  }

  /** An extent-backed file: a contiguous run from `root`, or a node at `root` listing the runs. */
  datatype File = File(root: nat, size: nat, node: bool)

  // ---- direct lookup ----

  predicate Covers(run: Run, i: nat)
  {
    run.logical <= i < run.logical + run.count
  }

  /** The block that holds logical block `i`: the last run that covers it decides. */
  function Source(runs: seq<Run>, i: nat): Option<nat>
  {
    if runs == [] then None
    else
      var last := runs[|runs| - 1];
      if Covers(last, i) then Some(last.physical + (i - last.logical)) else Source(runs[..|runs| - 1], i)
  }

  /** Byte `p` of a file: from the block that holds it, zero where no run covers it. */
  function FileByte(blocks: Blocks, runs: seq<Run>, p: nat): Byte
    requires WholeBlocks(blocks)
  {
    match Source(runs, p / BLOCK_SIZE)
    case None => 0
    case Some(b) => if b in blocks then blocks[b][p % BLOCK_SIZE] else 0
  }

  /** Block `j` of the run can be read, if the file reaches that far. */
  predicate CellReadable(blocks: Blocks, run: Run, size: nat, j: nat)
  {
    (run.logical + j) * BLOCK_SIZE < size ==> run.physical + j in blocks
  }

  ghost predicate RunReadable(blocks: Blocks, run: Run, size: nat)
  {
    forall j: nat :: j < run.count ==> CellReadable(blocks, run, size, j)
  }

  ghost predicate Readable(blocks: Blocks, runs: seq<Run>, size: nat)
  {
    forall k :: 0 <= k < |runs| ==> RunReadable(blocks, runs[k], size)
  }

  // ---- the code ----

  /** Copy one block of the file into the buffer, cut off at the end of the file. */
  method CopyBlock(blk: seq<Byte>, i: nat, result: array<Byte>)
    requires |blk| == BLOCK_SIZE && i * BLOCK_SIZE < result.Length
    modifies result
    ensures forall p: nat :: p < result.Length ==> result[p] == if p / BLOCK_SIZE == i then blk[p % BLOCK_SIZE] else old(result[p])
  {
    var start := i * BLOCK_SIZE;
    var end := if start + BLOCK_SIZE < result.Length then start + BLOCK_SIZE else result.Length;
    forall p | start <= p < end {
      result[p] := blk[p - start];
    }
  }

  /** Copy one run into the file buffer: what it covers is replaced, the rest is kept. */
  method ReadRun(blocks: Blocks, run: Run, result: array<Byte>) returns (ok: bool)
    requires WholeBlocks(blocks)
    modifies result
    ensures ok <==> RunReadable(blocks, run, result.Length)
    ensures ok ==> forall p: nat :: p < result.Length ==>
                     result[p] == if Covers(run, p / BLOCK_SIZE) then BlockByte(blocks, run, p) else old(result[p])
  {
    var j := 0;
    while j < run.count
      invariant j <= run.count
      invariant forall i: nat :: i < j ==> CellReadable(blocks, run, result.Length, i)
      invariant forall p: nat :: p < result.Length ==>
                  result[p] == if Covers(run.(count := j), p / BLOCK_SIZE) then BlockByte(blocks, run, p) else old(result[p])
    {
      var fileOff := (run.logical + j) * BLOCK_SIZE;
      if fileOff >= result.Length {
        break;
      }
      if run.physical + j !in blocks {
        assert !CellReadable(blocks, run, result.Length, j);
        return false;
      }
      CopyBlock(blocks[run.physical + j], run.logical + j, result);
      j := j + 1;
    }
    ok := true;
  }

  /** The byte a covering run supplies. */
  function BlockByte(blocks: Blocks, run: Run, p: nat): Byte
    requires WholeBlocks(blocks)
  {
    var b := run.physical + p / BLOCK_SIZE - run.logical;
    if b in blocks then blocks[b][p % BLOCK_SIZE] else 0
  }

  /** Reassemble a file from its runs: byte for byte the direct lookup, or an error exactly when a needed block cannot be read. */
  method ReadRuns(blocks: Blocks, runs: seq<Run>, size: nat) returns (r: Result<seq<Byte>>)
    requires WholeBlocks(blocks)
    ensures r.Ok? <==> Readable(blocks, runs, size)
    ensures r.Err? ==> r.error == IoReadFailed
    ensures r.Ok? ==> |r.value| == size && forall p :: 0 <= p < size ==> r.value[p] == FileByte(blocks, runs, p)
  {
    var result := new Byte[size](_ => 0);
    for k := 0 to |runs|
      invariant Readable(blocks, runs[..k], size)
      invariant forall p :: 0 <= p < size ==> result[p] == FileByte(blocks, runs[..k], p)
    {
      var ok := ReadRun(blocks, runs[k], result);
      if !ok {
        return Err(IoReadFailed);
      }
      assert runs[..k + 1][..k] == runs[..k];
      assert runs[..k + 1][k] == runs[k];
    }
    assert runs[..|runs|] == runs;
    r := Ok(result[..]);
  }

  /** Read a contiguous file block by block. */
  method ReadContiguous(blocks: Blocks, root: nat, size: nat) returns (r: Result<seq<Byte>>)
    requires WholeBlocks(blocks)
    ensures r == Err(ExtentCorrupt) <==> root == BLOCK_NULL
    ensures root != BLOCK_NULL ==> (r.Ok? <==> RunReadable(blocks, Whole(root, size), size))
    ensures r.Err? ==> r.error == ExtentCorrupt || r.error == IoReadFailed
    ensures r.Ok? ==> |r.value| == size && forall p: nat :: p < size ==> r.value[p] == FileByte(blocks, [Whole(root, size)], p)
  {
    if root == BLOCK_NULL {
      return Err(ExtentCorrupt);
    }
    ghost var run := Whole(root, size);
    var result: seq<Byte> := [];
    for i := 0 to BlocksFor(size)
      invariant |result| == if i * BLOCK_SIZE < size then i * BLOCK_SIZE else size
      invariant forall j: nat :: j < i ==> CellReadable(blocks, run, size, j)
      invariant forall p: nat :: p < |result| ==> result[p] == BlockByte(blocks, run, p)
    {
      if root + i !in blocks {
        assert !CellReadable(blocks, run, size, i);
        return Err(IoReadFailed);
      }
      var remaining := size - |result|;
      var copyLen := if remaining < BLOCK_SIZE then remaining else BLOCK_SIZE;
      AppendBlock(blocks, run, result, i, copyLen);
      result := result + blocks[root + i][..copyLen];
    }
    forall p: nat | p < size ensures FileByte(blocks, [run], p) == BlockByte(blocks, run, p) {
      assert [run][..0] == [];
    }
    r := Ok(result);
  }

  lemma AppendBlock(blocks: Blocks, run: Run, result: seq<Byte>, i: nat, n: nat)
    requires WholeBlocks(blocks) && run.logical == 0 && run.physical + i in blocks
    requires |result| == i * BLOCK_SIZE && n <= BLOCK_SIZE
    requires forall p: nat :: p < |result| ==> result[p] == BlockByte(blocks, run, p)
    ensures forall p: nat :: p < |result| + n ==> (result + blocks[run.physical + i][..n])[p] == BlockByte(blocks, run, p)
  {
    forall p: nat | |result| <= p < |result| + n ensures p / BLOCK_SIZE == i && p % BLOCK_SIZE == p - |result| {
    }
  }

  /** The single run of a contiguous file. */
  function Whole(root: nat, size: nat): Run
  {
    Run(0, root, BlocksFor(size))
  }

  // ---- layout ----

  /** The runs of a file, or why they cannot be had. */
  function RunsOf(blocks: Blocks, f: File): Result<seq<Run>>
    requires WholeBlocks(blocks)
  {
    if !f.node then Ok([Whole(f.root, f.size)])
    else if f.root in blocks then ParseNode(blocks[f.root])
    else Err(IoReadFailed)
  }

  function Span(start: nat, count: nat): (s: seq<nat>)
    ensures |s| == count && forall k :: 0 <= k < count ==> s[k] == start + k
  {
    seq(count, k requires k >= 0 => start + k)
  }

  /** The blocks of the runs, in order. */
  function Cells(runs: seq<Run>): seq<nat>
  {
    if runs == [] then []
    else
      var last := runs[|runs| - 1];
      Cells(runs[..|runs| - 1]) + Span(last.physical, last.count)
  }

  /** The runs are non-empty and, in order, make up logical blocks 0 to `n`. */
  predicate Tiled(runs: seq<Run>, n: nat)
  {
    if runs == [] then n == 0
    else
      var last := runs[|runs| - 1];
      last.count > 0 && last.logical + last.count == n && Tiled(runs[..|runs| - 1], last.logical)
  }

  lemma {:induction false} TiledCells(runs: seq<Run>, n: nat)
    requires Tiled(runs, n)
    ensures |Cells(runs)| == n
    ensures forall i: nat :: i < n ==> Source(runs, i) == Some(Cells(runs)[i])
  {
    if runs != [] {
      var last := runs[|runs| - 1];
      TiledCells(runs[..|runs| - 1], last.logical);
    }
  }

  /** In a tiled list the cells of run `k` are the cells its logical range names. */
  lemma {:induction false} TiledRun(runs: seq<Run>, n: nat, k: nat, j: nat)
    requires Tiled(runs, n) && k < |runs| && j < runs[k].count
    ensures |Cells(runs)| == n && runs[k].logical + j < n && Cells(runs)[runs[k].logical + j] == runs[k].physical + j
    decreases |runs|
  {
    TiledCells(runs, n);
    var init := runs[..|runs| - 1];
    if k < |runs| - 1 {
      TiledRun(init, runs[|runs| - 1].logical, k, j);
    }
    TiledCells(init, runs[|runs| - 1].logical);
  }

  /** Block `i` of the data, padded with zeros. */
  function Chunk(data: seq<Byte>, i: nat): (s: seq<Byte>)
    ensures |s| == BLOCK_SIZE
  {
    seq(BLOCK_SIZE, k requires 0 <= k < BLOCK_SIZE => if i * BLOCK_SIZE + k < |data| then data[i * BLOCK_SIZE + k] else 0)
  }

  /** The cells hold the data from block `first` on. */
  ghost predicate Stored(blocks: Blocks, cells: seq<nat>, data: seq<Byte>, first: nat)
  {
    forall i: nat :: i < |cells| ==> cells[i] in blocks && blocks[cells[i]] == Chunk(data, first + i)
  }

  ghost predicate AllDifferent(cells: seq<nat>)
  {
    forall i, j :: 0 <= i < j < |cells| ==> cells[i] != cells[j]
  }

  /** The file is laid out on its own blocks and they hold the data. */
  ghost predicate Holds(blocks: Blocks, f: File, data: seq<Byte>)
    requires WholeBlocks(blocks)
  {
    && f.size == |data| && f.root != BLOCK_NULL
    && RunsOf(blocks, f).Ok?
    && var runs := RunsOf(blocks, f).value;
    && Tiled(runs, BlocksFor(|data|)) && AllDifferent(Cells(runs)) && Stored(blocks, Cells(runs), data, 0)
    && (f.node ==> f.root !in Cells(runs))
  }

  lemma ReadBack(blocks: Blocks, f: File, data: seq<Byte>)
    requires WholeBlocks(blocks) && Holds(blocks, f, data)
    ensures Readable(blocks, RunsOf(blocks, f).value, |data|)
    ensures forall p: nat :: p < |data| ==> FileByte(blocks, RunsOf(blocks, f).value, p) == data[p]
  {
    var runs := RunsOf(blocks, f).value;
    var n := BlocksFor(|data|);
    TiledCells(runs, n);
    forall k, j: nat | 0 <= k < |runs| && j < runs[k].count ensures CellReadable(blocks, runs[k], |data|, j) {
      TiledRun(runs, n, k, j);
    }
    forall p: nat | p < |data| ensures FileByte(blocks, runs, p) == data[p] {
      var i := p / BLOCK_SIZE;
      assert i < n;
      assert blocks[Cells(runs)[i]] == Chunk(data, i);
    }
  }

  /** Read a file: a file that holds data reads as that data. */
  method ReadFile(blocks: Blocks, f: File) returns (r: Result<seq<Byte>>)
    requires WholeBlocks(blocks)
    ensures forall data :: Holds(blocks, f, data) ==> r == Ok(data)
    ensures f.node && RunsOf(blocks, f).Err? ==> r == Err(RunsOf(blocks, f).error)
    ensures r.Ok? ==>
              && RunsOf(blocks, f).Ok? && |r.value| == f.size
              && forall p: nat :: p < f.size ==> r.value[p] == FileByte(blocks, RunsOf(blocks, f).value, p)
  {
    if f.node {
      if f.root !in blocks {
        return Err(IoReadFailed);
      }
      var runs := ReadNode(blocks[f.root]);
      if runs.Err? {
        return Err(runs.error);
      }
      r := ReadRuns(blocks, runs.value, f.size);
    } else {
      r := ReadContiguous(blocks, f.root, f.size);
    }
    forall data | Holds(blocks, f, data) ensures r == Ok(data) {
      ReadBack(blocks, f, data);
      if !f.node {
        assert RunReadable(blocks, [Whole(f.root, f.size)][0], f.size);
      }
      assert r.value == data;
    }
  }
}
