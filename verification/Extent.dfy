/** The extent node: a fragmented file's run list in one checksummed block. */
module Extent {
  import opened Bytes
  import opened Helix
  import opened Prelude
  import Crc

  const EXTENT_LEAF: Byte := 1
  const CRC_OFF: nat := 8
  const CRC_END: nat := 12
  const HDR: nat := 16
  const RUN_SIZE: nat := 24
  const MAX_RUNS: nat := 170

  /** `count` blocks of a file from block `logical` on, stored from block `physical` on. */
  datatype Run = Run(logical: nat, physical: nat, count: nat)

  /** The field widths of a stored run. */
  predicate Storable(r: Run)
  {
    Fits(r.logical, 8) && Fits(r.physical, 8) && Fits(r.count, 4)
  }

  function RunBytes(r: Run): (s: seq<Byte>)
    ensures |s| == RUN_SIZE
  {
    ToLe(r.logical, 8) + ToLe(r.physical, 8) + ToLe(r.count, 4) + Zeros(4)
  }

  /** The runs, one after another, and zeros up to `room` bytes. */
  function Body(runs: seq<Run>, room: nat): (s: seq<Byte>)
    requires RUN_SIZE * |runs| <= room
    ensures |s| == room
  {
    if runs == [] then Zeros(room) else RunBytes(runs[0]) + Body(runs[1..], room - RUN_SIZE)
  }

  predicate Writable(runs: seq<Run>)
  {
    0 < |runs| <= MAX_RUNS && forall i :: 0 <= i < |runs| ==> Storable(runs[i])
  }

  /** The bytes before the checksum field. */
  function Start(count: nat): (s: seq<Byte>)
    ensures |s| == CRC_OFF
  {
    [EXTENT_LEAF] + Zeros(3) + ToLe(count, 4)
  }

  /** The bytes after the checksum field. */
  function Rest(runs: seq<Run>): (s: seq<Byte>)
    requires |runs| <= MAX_RUNS
    ensures |s| == BLOCK_SIZE - CRC_END
  {
    Zeros(HDR - CRC_END) + Body(runs, BLOCK_SIZE - HDR)
  }

  /** The node block with the given checksum field. */
  function NodeWith(runs: seq<Run>, crc: seq<Byte>): (s: seq<Byte>)
    requires |runs| <= MAX_RUNS && |crc| == 4
    ensures |s| == BLOCK_SIZE
  {
    Start(|runs|) + crc + Rest(runs)
  }

  /** The block a run list is stored as. */
  function NodeBytes(runs: seq<Run>): (s: seq<Byte>)
    requires |runs| <= MAX_RUNS
    ensures |s| == BLOCK_SIZE
  {
    NodeWith(runs, ToLe(Crc.Checksum(NodeWith(runs, Zeros(4))), 4))
  }

  // ---- reading ----

  function RunAt(s: seq<Byte>): Run
    requires |s| >= RUN_SIZE
  {
    Run(FromLe(s[..8]), FromLe(s[8..16]), FromLe(s[16..20]))
  }

  function RunsAt(s: seq<Byte>, n: nat): (runs: seq<Run>)
    requires |s| >= RUN_SIZE * n
    ensures |runs| == n
  {
    if n == 0 then [] else [RunAt(s)] + RunsAt(s[RUN_SIZE..], n - 1)
  }

  function CountField(s: seq<Byte>): nat
    requires |s| == BLOCK_SIZE
  {
    FromLe(s[4..8])
  }

  /** The block with its checksum field cleared. */
  function Blanked(s: seq<Byte>): (b: seq<Byte>)
    requires |s| == BLOCK_SIZE
    ensures |b| == BLOCK_SIZE
  {
    s[..CRC_OFF] + Zeros(4) + s[CRC_END..]
  }

  predicate CrcHolds(s: seq<Byte>)
    requires |s| == BLOCK_SIZE
  {
    Crc.Checksum(Blanked(s)) == FromLe(s[CRC_OFF..CRC_END])
  }

  function ParseNode(s: seq<Byte>): Result<seq<Run>>
    requires |s| == BLOCK_SIZE
  {
    var n := CountField(s);
    if n == 0 || n > MAX_RUNS || !CrcHolds(s) then Err(ExtentCorrupt) else Ok(RunsAt(s[HDR..], n))
  }

  // ---- the code ----

  /** Build a node block: refused exactly when the list is empty or does not fit. */
  method SerializeNode(runs: seq<Run>) returns (r: Result<seq<Byte>>)
    ensures r == if 0 < |runs| <= MAX_RUNS then Ok(NodeBytes(runs)) else Err(ExtentCorrupt)
  {
    if |runs| == 0 || |runs| > MAX_RUNS {
      return Err(ExtentCorrupt);
    }
    var buf := new Byte[BLOCK_SIZE](_ => 0);
    assert buf[..] == Zeros(BLOCK_SIZE);
    FreshNode();
    Put(buf, 0, [EXTENT_LEAF], [], Zeros(BLOCK_SIZE - 1));
    Put(buf, 4, ToLe(|runs|, 4), [EXTENT_LEAF] + Zeros(3), Zeros(4) + Zeros(4) + Zeros(BLOCK_SIZE - HDR));
    Regroup(Start(|runs|), Zeros(4), Zeros(4), Zeros(BLOCK_SIZE - HDR));
    PutRuns(buf, Start(|runs|) + Zeros(4) + Zeros(4), runs);
    Regroup(Start(|runs|), Zeros(4), Zeros(4), Body(runs, BLOCK_SIZE - HDR));
    var crc := Crc.Crc32c(buf[..]);
    Put(buf, CRC_OFF, ToLe(crc, 4), Start(|runs|), Rest(runs));
    r := Ok(buf[..]);
  }

  lemma Regroup(a: seq<Byte>, b: seq<Byte>, c: seq<Byte>, d: seq<Byte>)
    ensures a + (b + c + d) == a + b + c + d == a + b + (c + d)
  {
  }

  lemma ZerosSplit(m: nat, n: nat)
    ensures Zeros(m + n) == Zeros(m) + Zeros(n)
  {
  }

  lemma FreshNode()
    ensures Zeros(BLOCK_SIZE) == [] + Zeros(1) + Zeros(BLOCK_SIZE - 1)
    ensures [] + [EXTENT_LEAF] + Zeros(BLOCK_SIZE - 1)
         == [EXTENT_LEAF] + Zeros(3) + Zeros(4) + (Zeros(4) + Zeros(4) + Zeros(BLOCK_SIZE - HDR))
  {
    ZerosSplit(1, BLOCK_SIZE - 1);
    ZerosSplit(3, BLOCK_SIZE - 4);
    ZerosSplit(4, BLOCK_SIZE - 8);
    ZerosSplit(4, BLOCK_SIZE - 12);
    ZerosSplit(4, BLOCK_SIZE - HDR);
    Regroup([EXTENT_LEAF], Zeros(3), Zeros(4), Zeros(BLOCK_SIZE - 8));
    assert Zeros(4) + Zeros(4) + Zeros(BLOCK_SIZE - HDR) == Zeros(4) + (Zeros(4) + Zeros(BLOCK_SIZE - HDR));
  }

  /** Copy `s` over zeros at `off`, between `pre` and `post`. */
  method Put(buf: array<Byte>, off: nat, s: seq<Byte>, ghost pre: seq<Byte>, ghost post: seq<Byte>)
    requires off == |pre| && buf[..] == pre + Zeros(|s|) + post
    modifies buf
    ensures buf[..] == pre + s + post
  {
    assert buf.Length == |buf[..]| == |pre| + |s| + |post|;
    forall k | 0 <= k < |s| {
      buf[off + k] := s[k];
    }
    assert forall k :: 0 <= k < |pre| ==> buf[k] == old(buf[..])[k];
    assert forall k :: off + |s| <= k < buf.Length ==> buf[k] == old(buf[..])[k];
  }

  /** The first `i` runs are laid out behind `pre`, with zeros behind them. */
  ghost predicate RunsPut(buf: seq<Byte>, pre: seq<Byte>, runs: seq<Run>, i: nat)
  {
    && i <= |runs| <= MAX_RUNS && |pre| == HDR && |buf| == BLOCK_SIZE
    && exists body :: BodyPut(buf, pre, runs, i, body)
  }

  ghost predicate BodyPut(buf: seq<Byte>, pre: seq<Byte>, runs: seq<Run>, i: nat, body: seq<Byte>)
    requires i <= |runs| <= MAX_RUNS
  {
    var room := BLOCK_SIZE - HDR - RUN_SIZE * i;
    && |body| == RUN_SIZE * i && buf == pre + body + Zeros(room)
    && body + Body(runs[i..], room) == Body(runs, BLOCK_SIZE - HDR)
  }

  lemma NoRunPut(pre: seq<Byte>, runs: seq<Run>)
    requires |runs| <= MAX_RUNS && |pre| == HDR
    ensures RunsPut(pre + Zeros(BLOCK_SIZE - HDR), pre, runs, 0)
  {
    assert runs[0..] == runs && pre + [] == pre;
    assert BodyPut(pre + Zeros(BLOCK_SIZE - HDR), pre, runs, 0, []);
  }

  lemma AllRunsPut(buf: seq<Byte>, pre: seq<Byte>, runs: seq<Run>)
    requires RunsPut(buf, pre, runs, |runs|)
    ensures buf == pre + Body(runs, BLOCK_SIZE - HDR)
  {
    var body :| BodyPut(buf, pre, runs, |runs|, body);
    assert runs[|runs|..] == [];
    var room := BLOCK_SIZE - HDR - RUN_SIZE * |runs|;
    assert pre + body + Zeros(room) == pre + (body + Zeros(room));
  }

  lemma BodyStep(body: seq<Byte>, runs: seq<Run>, i: nat, room: nat)
    requires i < |runs| && room >= RUN_SIZE * |runs[i..]|
    ensures body + Body(runs[i..], room) == (body + RunBytes(runs[i])) + Body(runs[i + 1..], room - RUN_SIZE)
  {
    assert runs[i..][1..] == runs[i + 1..];
    Regroup([], body, RunBytes(runs[i]), Body(runs[i + 1..], room - RUN_SIZE));
  }

  lemma RoomBehind(pre: seq<Byte>, body: seq<Byte>, left: nat)
    ensures pre + body + Zeros(RUN_SIZE + left) == pre + body + Zeros(RUN_SIZE) + Zeros(left)
  {
    ZerosSplit(RUN_SIZE, left);
  }

  lemma Shifted(a: seq<Byte>, b: seq<Byte>, c: seq<Byte>, d: seq<Byte>)
    ensures a + b + c + d == a + (b + c) + d
  {
    assert a + b + c == a + (b + c);
  }

  lemma OneMorePut(buf: seq<Byte>, buf': seq<Byte>, pre: seq<Byte>, runs: seq<Run>, i: nat, body: seq<Byte>)
    requires i < |runs| <= MAX_RUNS && |pre| == HDR && BodyPut(buf, pre, runs, i, body)
    requires buf' == pre + body + RunBytes(runs[i]) + Zeros(BLOCK_SIZE - HDR - RUN_SIZE * i - RUN_SIZE)
    ensures RunsPut(buf', pre, runs, i + 1)
  {
    var body', room := body + RunBytes(runs[i]), BLOCK_SIZE - HDR - RUN_SIZE * (i + 1);
    assert |body'| == RUN_SIZE * (i + 1);
    assert buf' == pre + body' + Zeros(room) by {
      Shifted(pre, body, RunBytes(runs[i]), Zeros(room));
    }
    assert body' + Body(runs[i + 1..], room) == Body(runs, BLOCK_SIZE - HDR) by {
      BodyStep(body, runs, i, room + RUN_SIZE);
    }
    assert BodyPut(buf', pre, runs, i + 1, body');
  }

  /** Lay out run `i` behind the earlier ones. */
  method PutRun(buf: array<Byte>, off: nat, ghost pre: seq<Byte>, runs: seq<Run>, i: nat)
    requires i < |runs| && RunsPut(buf[..], pre, runs, i) && off == HDR + RUN_SIZE * i
    modifies buf
    ensures RunsPut(buf[..], pre, runs, i + 1)
  {
    ghost var was := buf[..];
    ghost var body :| BodyPut(was, pre, runs, i, body);
    ghost var left := BLOCK_SIZE - off - RUN_SIZE;
    RoomBehind(pre, body, left);
    Put(buf, off, RunBytes(runs[i]), pre + body, Zeros(left));
    OneMorePut(was, buf[..], pre, runs, i, body);
  }

  /** Lay the runs out after the header `pre`. */
  method PutRuns(buf: array<Byte>, ghost pre: seq<Byte>, runs: seq<Run>)
    requires |runs| <= MAX_RUNS && |pre| == HDR && buf[..] == pre + Zeros(BLOCK_SIZE - HDR)
    modifies buf
    ensures buf[..] == pre + Body(runs, BLOCK_SIZE - HDR)
  {
    var off := HDR;
    NoRunPut(pre, runs);
    for i := 0 to |runs|
      invariant off == HDR + RUN_SIZE * i && RunsPut(buf[..], pre, runs, i)
    {
      PutRun(buf, off, pre, runs, i);
      off := off + RUN_SIZE;
    }
    AllRunsPut(buf[..], pre, runs);
  }

  method ReadNode(buf: seq<Byte>) returns (r: Result<seq<Run>>)
    requires |buf| == BLOCK_SIZE
    ensures r == ParseNode(buf)
  {
    var count := FromLe(buf[4..8]);
    if count == 0 || count > MAX_RUNS {
      return Err(ExtentCorrupt);
    }
    var stored := FromLe(buf[CRC_OFF..CRC_END]);
    var crc := Crc.Crc32c(buf[..CRC_OFF] + Zeros(4) + buf[CRC_END..]);
    if crc != stored {
      return Err(ExtentCorrupt);
    }
    var runs := ReadRunList(buf, count);
    r := Ok(runs);
  }

  lemma RunsStep(runs: seq<Run>, s: seq<Byte>, n: nat)
    requires n > 0 && |s| >= RUN_SIZE * n
    ensures runs + RunsAt(s, n) == (runs + [RunAt(s)]) + RunsAt(s[RUN_SIZE..], n - 1)
  {
  }

  method ReadRunList(buf: seq<Byte>, count: nat) returns (runs: seq<Run>)
    requires |buf| == BLOCK_SIZE && count <= MAX_RUNS
    ensures runs == RunsAt(buf[HDR..], count)
  {
    runs := [];
    var off := HDR;
    for i := 0 to count
      invariant off == HDR + RUN_SIZE * i
      invariant runs + RunsAt(buf[off..], count - i) == RunsAt(buf[HDR..], count)
    {
      RunsStep(runs, buf[off..], count - i);
      runs := runs + [RunAt(buf[off..])];
      assert buf[off..][RUN_SIZE..] == buf[off + RUN_SIZE..];
      off := off + RUN_SIZE;
    }
    assert runs + RunsAt(buf[off..], 0) == runs;
  }

  // ---- round trip ----

  lemma RunRoundTrip(run: Run, rest: seq<Byte>)
    requires Storable(run)
    ensures RunAt(RunBytes(run) + rest) == run
  {
    var s := RunBytes(run) + rest;
    assert s[..8] == ToLe(run.logical, 8);
    assert s[8..16] == ToLe(run.physical, 8);
    assert s[16..20] == ToLe(run.count, 4);
    LeRoundTrip(run.logical, 8);
    LeRoundTrip(run.physical, 8);
    LeRoundTrip(run.count, 4);
  }

  lemma {:induction false} BodyRoundTrip(runs: seq<Run>, room: nat)
    requires RUN_SIZE * |runs| <= room
    requires forall i :: 0 <= i < |runs| ==> Storable(runs[i])
    ensures RunsAt(Body(runs, room), |runs|) == runs
  {
    if runs != [] {
      BodyRoundTrip(runs[1..], room - RUN_SIZE);
      RunRoundTrip(runs[0], Body(runs[1..], room - RUN_SIZE));
      assert Body(runs, room)[RUN_SIZE..] == Body(runs[1..], room - RUN_SIZE);
    }
  }

  lemma Slices(a: seq<Byte>, b: seq<Byte>, c: seq<Byte>)
    ensures (a + b + c)[..|a|] == a && (a + b + c)[|a|..|a| + |b|] == b && (a + b + c)[|a| + |b|..] == c
  {
  }

  lemma NodeParts(runs: seq<Run>, crc: seq<Byte>)
    requires |runs| <= MAX_RUNS && |crc| == 4
    ensures NodeWith(runs, crc)[4..8] == ToLe(|runs|, 4)
    ensures NodeWith(runs, crc)[CRC_OFF..CRC_END] == crc
    ensures NodeWith(runs, crc)[HDR..] == Body(runs, BLOCK_SIZE - HDR)
    ensures Blanked(NodeWith(runs, crc)) == NodeWith(runs, Zeros(4))
  {
    Slices(Start(|runs|), crc, Rest(runs));
    var s := NodeWith(runs, crc);
    assert s[4..8] == s[..CRC_OFF][4..] == ToLe(|runs|, 4);
    assert s[HDR..] == s[CRC_END..][HDR - CRC_END..];
  }

  lemma CountFits(n: nat)
    requires n <= MAX_RUNS
    ensures Fits(n, 4)
  {
    assert Fits(n / 256, 3);
  }

  lemma ChecksumFits(s: seq<Byte>)
    ensures Fits(Crc.Checksum(s), 4)
  {
    Crc.ChecksumBound(s);
    WordFits(Crc.Checksum(s));
  }

  /** Whatever run list is written reads back. */
  lemma NodeRoundTrip(runs: seq<Run>)
    requires Writable(runs)
    ensures ParseNode(NodeBytes(runs)) == Ok(runs)
  {
    var crc := Crc.Checksum(NodeWith(runs, Zeros(4)));
    NodeParts(runs, ToLe(crc, 4));
    ChecksumFits(NodeWith(runs, Zeros(4)));
    LeRoundTrip(crc, 4);
    CountFits(|runs|);
    LeRoundTrip(|runs|, 4);
    BodyRoundTrip(runs, BLOCK_SIZE - HDR);
  }

  // ---- damage ----

  /** The blocks differ only inside a window of at most four bytes. */
  ghost predicate Window(good: seq<Byte>, bad: seq<Byte>, at: nat, len: nat)
  {
    && |good| == |bad| == BLOCK_SIZE && len <= 4 && at + len <= BLOCK_SIZE
    && good[..at] == bad[..at] && good[at + len..] == bad[at + len..]
  }

  /** The window reaches across the end of the checksum field into the unused header bytes. */
  predicate Straddles(at: nat, len: nat)
  {
    at < CRC_END < at + len
  }

  lemma OutsideWindow(good: seq<Byte>, bad: seq<Byte>, at: nat, len: nat, i: nat, j: nat)
    requires Window(good, bad, at, len) && i <= j <= BLOCK_SIZE && (j <= at || at + len <= i)
    ensures good[i..j] == bad[i..j]
  {
    if j <= at {
      assert good[i..j] == good[..at][i..j] && bad[i..j] == bad[..at][i..j];
    } else {
      var e := at + len;
      assert good[i..j] == good[e..][i - e..j - e] && bad[i..j] == bad[e..][i - e..j - e];
    }
  }

  lemma InsideWindow(good: seq<Byte>, bad: seq<Byte>, at: nat, len: nat)
    requires Window(good, bad, at, len) && good != bad
    ensures good[at..at + len] != bad[at..at + len]
  {
    assert good == good[..at] + good[at..at + len] + good[at + len..];
    assert bad == bad[..at] + bad[at..at + len] + bad[at + len..];
  }

  lemma DamageBeforeCrc(good: seq<Byte>, bad: seq<Byte>, at: nat, len: nat)
    requires Window(good, bad, at, len) && good != bad && CrcHolds(good) && at + len <= CRC_OFF
    ensures !CrcHolds(bad)
  {
    InsideWindow(good, bad, at, len);
    OutsideWindow(good, bad, at, len, at + len, CRC_OFF);
    OutsideWindow(good, bad, at, len, CRC_OFF, CRC_END);
    OutsideWindow(good, bad, at, len, CRC_END, BLOCK_SIZE);
    var post := good[at + len..CRC_OFF] + Zeros(4) + good[CRC_END..];
    assert Blanked(good) == good[..at] + good[at..at + len] + post;
    assert Blanked(bad) == good[..at] + bad[at..at + len] + post;
    Crc.BurstDetected(good[..at], good[at..at + len], bad[at..at + len], post);
  }

  lemma DamageAfterCrc(good: seq<Byte>, bad: seq<Byte>, at: nat, len: nat)
    requires Window(good, bad, at, len) && good != bad && CrcHolds(good) && CRC_END <= at
    ensures !CrcHolds(bad)
  {
    InsideWindow(good, bad, at, len);
    OutsideWindow(good, bad, at, len, 0, CRC_OFF);
    OutsideWindow(good, bad, at, len, CRC_OFF, CRC_END);
    OutsideWindow(good, bad, at, len, CRC_END, at);
    var pre := good[..CRC_OFF] + Zeros(4) + good[CRC_END..at];
    assert Blanked(good) == pre + good[at..at + len] + good[at + len..];
    assert Blanked(bad) == pre + bad[at..at + len] + good[at + len..];
    Crc.BurstDetected(pre, good[at..at + len], bad[at..at + len], good[at + len..]);
  }

  /** Only the checksum field differs. */
  lemma DamageInCrc(good: seq<Byte>, bad: seq<Byte>)
    requires |good| == |bad| == BLOCK_SIZE && good != bad && CrcHolds(good) && Blanked(good) == Blanked(bad)
    ensures !CrcHolds(bad)
  {
    Slices(good[..CRC_OFF], Zeros(4), good[CRC_END..]);
    Slices(bad[..CRC_OFF], Zeros(4), bad[CRC_END..]);
    var w, v := good[CRC_OFF..CRC_END], bad[CRC_OFF..CRC_END];
    assert good == good[..CRC_OFF] + w + good[CRC_END..] && bad == bad[..CRC_OFF] + v + bad[CRC_END..];
    if FromLe(w) == FromLe(v) {
      FromLeInjective(w, v);
    }
  }

  lemma SmallCount(a: Byte, b: Byte, c: Byte, d: Byte)
    ensures Le32(a, b, c, d) <= MAX_RUNS ==> b == 0 && c == 0 && d == 0
  {
  }

  /** With a count in bounds, damage across the start of the checksum field has spared what precedes the field. */
  lemma CountSpared(good: seq<Byte>, bad: seq<Byte>, at: nat, len: nat)
    requires Window(good, bad, at, len) && at < CRC_OFF < at + len
    requires CountField(good) <= MAX_RUNS && CountField(bad) <= MAX_RUNS
    ensures Blanked(good) == Blanked(bad)
  {
    OutsideWindow(good, bad, at, len, 0, at);
    OutsideWindow(good, bad, at, len, CRC_END, BLOCK_SIZE);
    CountOf(good);
    CountOf(bad);
    SmallCount(good[4], good[5], good[6], good[7]);
    SmallCount(bad[4], bad[5], bad[6], bad[7]);
    assert good[at..CRC_OFF] == bad[at..CRC_OFF];
    assert good[..CRC_OFF] == good[..at] + good[at..CRC_OFF];
    assert bad[..CRC_OFF] == bad[..at] + bad[at..CRC_OFF];
  }

  lemma DamageAcrossStart(good: seq<Byte>, bad: seq<Byte>, at: nat, len: nat)
    requires Window(good, bad, at, len) && good != bad && ParseNode(good).Ok? && at < CRC_OFF < at + len
    ensures ParseNode(bad) == Err(ExtentCorrupt)
  {
    if CountField(bad) <= MAX_RUNS {
      CountSpared(good, bad, at, len);
      DamageInCrc(good, bad);
    }
  }

  lemma CountOf(s: seq<Byte>)
    requires |s| == BLOCK_SIZE
    ensures CountField(s) == Le32(s[4], s[5], s[6], s[7])
  {
    var f := s[4..8];
    assert FromLe(f[4..]) == 0;
    assert FromLe(f[3..]) == f[3] + 256 * FromLe(f[3..][1..]) && f[3..][1..] == f[4..];
    assert FromLe(f[2..]) == f[2] + 256 * FromLe(f[2..][1..]) && f[2..][1..] == f[3..];
    assert FromLe(f[1..]) == f[1] + 256 * FromLe(f[1..][1..]) && f[1..][1..] == f[2..];
    assert FromLe(f) == f[0] + 256 * FromLe(f[1..]);
  }

  /**
   Damage to a stored node that stays inside a window of at most four bytes never yields another run
   list: it is reported, except that a window across the end of the checksum field can at worst go
   unnoticed and leave the runs as they were.
   */
  lemma DamageNeverMisreads(good: seq<Byte>, bad: seq<Byte>, at: nat, len: nat)
    requires Window(good, bad, at, len) && good != bad && ParseNode(good).Ok?
    ensures ParseNode(bad) == Err(ExtentCorrupt) || (Straddles(at, len) && ParseNode(bad) == ParseNode(good))
  {
    if at + len <= CRC_OFF {
      DamageBeforeCrc(good, bad, at, len);
    } else if CRC_END <= at {
      DamageAfterCrc(good, bad, at, len);
    } else if at < CRC_OFF {
      DamageAcrossStart(good, bad, at, len);
    } else if at + len <= CRC_END {
      OutsideWindow(good, bad, at, len, 0, CRC_OFF);
      OutsideWindow(good, bad, at, len, CRC_END, BLOCK_SIZE);
      DamageInCrc(good, bad);
    } else {
      OutsideWindow(good, bad, at, len, 4, 8);
      OutsideWindow(good, bad, at, len, HDR, BLOCK_SIZE);
      assert good[HDR..] == good[HDR..BLOCK_SIZE] && bad[HDR..] == bad[HDR..BLOCK_SIZE];
    }
  }
}
