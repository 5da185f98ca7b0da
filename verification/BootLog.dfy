/**
 The boot log: any number of writers reserve ranges of one fixed buffer by compare-exchange on its
 length and then copy their bytes in, interleaved in any way, one byte per step.
 */
module BootLog {
  import opened Bytes

  type Tid = nat

  const SIZE: nat := 65536

  datatype Pc =
    | Idle
    | Load(bytes: seq<Byte>)                                      // about to load the length
    | Cas(bytes: seq<Byte>, current: nat)                         // about to reserve [current, current + n)
    | Copy(bytes: seq<Byte>, current: nat, n: nat, done: nat)     // reserved; `done` of `n` bytes copied

  /** `order` is the history of captured strings, in the order of their reservations. */
  datatype State = State(len: nat, buf: seq<Byte>, pc: map<Tid, Pc>, order: seq<seq<Byte>>)

  function PcOf(s: State, t: Tid): Pc
  {
    if t in s.pc then s.pc[t] else Idle
  }

  function Set(s: State, t: Tid, p: Pc): State
  {
    s.(pc := s.pc[t := p])
  }

  function Min(a: nat, b: nat): nat
  {
    if a < b then a else b
  }

  /** How many bytes fit behind `current`. */
  function ToWrite(bytes: seq<Byte>, current: nat): nat
  {
    Min(|bytes|, if current < SIZE then SIZE - current else 0)
  }

  function Flat(order: seq<seq<Byte>>): seq<Byte>
  {
    if order == [] then [] else Flat(order[..|order| - 1]) + order[|order| - 1]
  }

  ghost predicate Init(s: State)
  {
    s.len == 0 && s.pc == map[] && s.order == [] && |s.buf| == SIZE && forall i :: 0 <= i < SIZE ==> s.buf[i] == 0
  }

  datatype Step = Capture(t: Tid, bytes: seq<Byte>) | Go(t: Tid) | WeakFail(t: Tid)

  ghost predicate Enabled(s: State, step: Step)
  {
    match step
    case Capture(t, bytes) => PcOf(s, t).Idle?
    case Go(t) => !PcOf(s, t).Idle?
    case WeakFail(t) => PcOf(s, t).Cas?
  }

  function Apply(s: State, step: Step): State
  {
    match step
    case Capture(t, bytes) => Set(s, t, if |bytes| == 0 then Idle else Load(bytes))
    case WeakFail(t) => if PcOf(s, t).Cas? then Set(s, t, Load(PcOf(s, t).bytes)) else s
    case Go(t) =>
      match PcOf(s, t)
      case Idle => s
      case Load(bytes) => Set(s, t, if ToWrite(bytes, s.len) == 0 then Idle else Cas(bytes, s.len))
      case Cas(bytes, current) =>
        var n := ToWrite(bytes, current);
        if s.len == current then Set(s.(len := current + n, order := s.order + [bytes]), t, Copy(bytes, current, n, 0))
        else Set(s, t, Load(bytes))
      case Copy(bytes, current, n, done) =>
        if done < n && done < |bytes| && current + done < |s.buf| then
          Set(s.(buf := s.buf[current + done := bytes[done]]), t, if done + 1 == n then Idle else Copy(bytes, current, n, done + 1))
        else Set(s, t, Idle)
  }

  ghost predicate IsRun(run: seq<State>, steps: seq<Step>)
  {
    && |run| == |steps| + 1
    && Init(run[0])
    && (forall i :: 0 <= i < |steps| ==> Enabled(run[i], steps[i]) && run[i + 1] == Apply(run[i], steps[i]))
  }

  // ---- invariant ----

  /** The length is the total reserved, cut off at the buffer size. */
  ghost predicate LengthIsTotal(s: State)
  {
    |s.buf| == SIZE && s.len == Min(SIZE, |Flat(s.order)|)
  }

  /** What one writer holds: a non-empty string, and once reserved, the range of the log where its bytes belong. */
  ghost predicate OwnRange(s: State, p: Pc)
  {
    match p
    case Idle => true
    case Load(bytes) => bytes != []
    case Cas(bytes, current) => bytes != [] && current < SIZE
    case Copy(bytes, current, n, done) =>
      && done < n <= |bytes| && current + n <= s.len && current + n <= |Flat(s.order)|
      && (forall k :: current <= k < current + n ==> Flat(s.order)[k] == bytes[k - current])
  }

  /** Index `i` has been reserved by a copy that has not reached it yet. */
  ghost predicate Missing(p: Pc, i: int)
  {
    p.Copy? && p.current + p.done <= i < p.current + p.n
  }

  predicate Disjoint(p: Pc, q: Pc)
  {
    p.Copy? && q.Copy? ==> p.current + p.n <= q.current || q.current + q.n <= p.current
  }

  ghost predicate RangesDisjoint(s: State)
  {
    forall t, u :: t != u ==> Disjoint(PcOf(s, t), PcOf(s, u))
  }

  /** Some writer has reserved index `i` and not copied it yet. */
  ghost predicate InFlight(s: State, i: int)
  {
    exists t :: Missing(PcOf(s, t), i)
  }

  /** What a byte of the buffer is: zero if nobody has reserved or reached it, else the byte of the log. */
  ghost predicate ByteIs(s: State, i: nat)
  {
    i < |s.buf| && s.buf[i] == if i < s.len && i < |Flat(s.order)| && !InFlight(s, i) then Flat(s.order)[i] else 0
  }

  ghost predicate InPlace(s: State)
  {
    forall i: nat :: i < SIZE ==> ByteIs(s, i)
  }

  ghost predicate AllOwn(s: State)
  {
    forall t :: OwnRange(s, PcOf(s, t))
  }

  ghost predicate Inv(s: State)
  {
    LengthIsTotal(s) && AllOwn(s) && RangesDisjoint(s) && InPlace(s)
  }

  lemma FlatAppend(order: seq<seq<Byte>>, bytes: seq<Byte>)
    ensures Flat(order + [bytes]) == Flat(order) + bytes
  {
    assert (order + [bytes])[..|order|] == order;
  }

  /** The state once `t` has reserved the range behind the length. */
  ghost predicate Reserves(s: State, t: Tid, s': State)
  {
    && PcOf(s, t).Cas? && s.len == PcOf(s, t).current && s' == Apply(s, Go(t))
    && Flat(s'.order) == Flat(s.order) + PcOf(s, t).bytes
  }

  lemma ReserveOwn(s: State, t: Tid, s': State)
    requires LengthIsTotal(s) && AllOwn(s) && Reserves(s, t, s')
    ensures LengthIsTotal(s') && AllOwn(s')
  {
    assert OwnRange(s, PcOf(s, t));
    forall u ensures OwnRange(s', PcOf(s', u)) {
      assert OwnRange(s, PcOf(s, u));
    }
  }

  lemma ReserveDisjoint(s: State, t: Tid, s': State)
    requires AllOwn(s) && RangesDisjoint(s) && Reserves(s, t, s')
    ensures RangesDisjoint(s')
  {
    forall u, v | u != v ensures Disjoint(PcOf(s', u), PcOf(s', v)) {
      assert Disjoint(PcOf(s, u), PcOf(s, v)) && OwnRange(s, PcOf(s, u)) && OwnRange(s, PcOf(s, v));
    }
  }

  lemma ReserveInFlight(s: State, t: Tid, s': State, i: nat)
    requires AllOwn(s) && Reserves(s, t, s')
    ensures InFlight(s', i) <==> InFlight(s, i) || s.len <= i < s'.len
  {
    assert s.len <= i < s'.len ==> Missing(PcOf(s', t), i);
    assert forall u :: u != t ==> (Missing(PcOf(s', u), i) <==> Missing(PcOf(s, u), i));
    assert Missing(PcOf(s', t), i) ==> s.len <= i < s'.len;
  }

  lemma ReserveKeepsInv(s: State, t: Tid)
    requires Inv(s) && PcOf(s, t).Cas? && s.len == PcOf(s, t).current
    ensures Inv(Apply(s, Go(t)))
  {
    var s' := Apply(s, Go(t));
    FlatAppend(s.order, PcOf(s, t).bytes);
    ReserveOwn(s, t, s');
    ReserveDisjoint(s, t, s');
    forall i: nat | i < SIZE ensures ByteIs(s', i) {
      assert ByteIs(s, i);
      ReserveInFlight(s, t, s', i);
    }
  }

  /** One byte copied: it stops being in flight, and nothing else changes. */
  lemma CopyInFlight(s: State, t: Tid, i: nat)
    requires AllOwn(s) && RangesDisjoint(s) && PcOf(s, t).Copy? && |s.buf| == SIZE && s.len <= SIZE
    ensures var p := PcOf(s, t);
            InFlight(Apply(s, Go(t)), i) <==> InFlight(s, i) && i != p.current + p.done
  {
    var s', p := Apply(s, Go(t)), PcOf(s, t);
    assert OwnRange(s, p);
    assert Missing(PcOf(s', t), i) <==> Missing(p, i) && i != p.current + p.done;
    forall u | u != t ensures Missing(PcOf(s', u), i) <==> Missing(PcOf(s, u), i) && i != p.current + p.done {
      assert Disjoint(PcOf(s, u), p);
    }
  }

  lemma CopyKeepsInv(s: State, t: Tid)
    requires Inv(s) && PcOf(s, t).Copy?
    ensures Inv(Apply(s, Go(t)))
  {
    var s' := Apply(s, Go(t));
    var p := PcOf(s, t);
    assert OwnRange(s, p);
    forall u ensures OwnRange(s', PcOf(s', u)) {
      assert OwnRange(s, PcOf(s, u));
    }
    forall u, v | u != v ensures Disjoint(PcOf(s', u), PcOf(s', v)) {
      assert Disjoint(PcOf(s, u), PcOf(s, v));
    }
    forall i: nat | i < SIZE ensures ByteIs(s', i) {
      assert ByteIs(s, i);
      CopyInFlight(s, t, i);
    }
  }

  lemma OtherKeepsInv(s: State, t: Tid, p: Pc)
    requires Inv(s) && !PcOf(s, t).Copy? && !p.Copy? && OwnRange(s, p)
    ensures Inv(Set(s, t, p))
  {
    var s' := Set(s, t, p);
    forall u ensures OwnRange(s', PcOf(s', u)) {
      assert OwnRange(s, PcOf(s, u));
    }
    forall u, v | u != v ensures Disjoint(PcOf(s', u), PcOf(s', v)) {
      assert Disjoint(PcOf(s, u), PcOf(s, v));
    }
    forall i: nat | i < SIZE ensures ByteIs(s', i) {
      assert ByteIs(s, i);
      assert forall u :: Missing(PcOf(s, u), i) <==> Missing(PcOf(s', u), i);
    }
  }

  lemma StepKeepsInv(s: State, step: Step)
    requires Inv(s) && Enabled(s, step)
    ensures Inv(Apply(s, step))
  {
    var t := step.t;
    var p := PcOf(s, t);
    assert OwnRange(s, p);
    if step.Go? && p.Cas? && s.len == p.current {
      ReserveKeepsInv(s, t);
    } else if step.Go? && p.Copy? {
      CopyKeepsInv(s, t);
    } else {
      OtherKeepsInv(s, t, PcOf(Apply(s, step), t));
    }
  }

  lemma {:induction false} RunKeepsInv(run: seq<State>, steps: seq<Step>, i: nat)
    requires IsRun(run, steps) && i < |run|
    ensures Inv(run[i])
  {
    if i > 0 {
      RunKeepsInv(run, steps, i - 1);
      StepKeepsInv(run[i - 1], steps[i - 1]);
    }
  }

  /** The length never shrinks and never passes the buffer size; the history only grows. */
  lemma {:induction false} LengthGrows(run: seq<State>, steps: seq<Step>, i: nat, j: nat)
    requires IsRun(run, steps) && i <= j < |run|
    ensures run[i].len <= run[j].len <= SIZE && run[i].order <= run[j].order
    decreases j - i
  {
    RunKeepsInv(run, steps, j);
    if i < j {
      LengthGrows(run, steps, i, j - 1);
      assert run[j] == Apply(run[j - 1], steps[j - 1]);
    }
  }

  // ---- the reservations ----

  /** Where reservation `k` starts and reservation `k - 1` ends. */
  function Bound(order: seq<seq<Byte>>, k: nat): nat
    requires k <= |order|
  {
    Min(SIZE, |Flat(order[..k])|)
  }

  /** A copy in flight fills reservation `k`: its string, from where it starts to where it ends. */
  ghost predicate Fills(order: seq<seq<Byte>>, p: Pc, k: nat)
  {
    k < |order| && p.Copy? && order[k] == p.bytes && p.current == Bound(order, k) && p.current + p.n == Bound(order, k + 1)
  }

  ghost predicate CopiesFill(s: State)
  {
    forall t :: PcOf(s, t).Copy? ==> exists k :: Fills(s.order, PcOf(s, t), k)
  }

  /** No reservation is empty. */
  ghost predicate BoundsGrow(order: seq<seq<Byte>>)
  {
    forall k: nat :: k < |order| ==> Bound(order, k) < Bound(order, k + 1)
  }

  lemma BoundsStay(order: seq<seq<Byte>>, bytes: seq<Byte>, k: nat)
    requires k <= |order|
    ensures Bound(order + [bytes], k) == Bound(order, k)
  {
    assert (order + [bytes])[..k] == order[..k];
  }

  /** One more reservation leaves the others where they are. */
  lemma BoundsGrowOn(order: seq<seq<Byte>>, bytes: seq<Byte>)
    requires BoundsGrow(order) && Bound(order, |order|) < Bound(order + [bytes], |order| + 1)
    ensures BoundsGrow(order + [bytes])
  {
    var order' := order + [bytes];
    forall k: nat | k < |order'| ensures Bound(order', k) < Bound(order', k + 1) {
      BoundsStay(order, bytes, k);
      if k < |order| {
        BoundsStay(order, bytes, k + 1);
      }
    }
  }

  lemma FillsStill(order: seq<seq<Byte>>, bytes: seq<Byte>, p: Pc, k: nat)
    requires Fills(order, p, k)
    ensures Fills(order + [bytes], p, k)
  {
    BoundsStay(order, bytes, k);
    BoundsStay(order, bytes, k + 1);
  }

  lemma BoundIs(order: seq<seq<Byte>>, k: nat, prefix: seq<seq<Byte>>)
    requires k <= |order| && order[..k] == prefix
    ensures Bound(order, k) == Min(SIZE, |Flat(prefix)|)
  {
  }

  lemma LastBound(order: seq<seq<Byte>>)
    ensures Bound(order, |order|) == Min(SIZE, |Flat(order)|)
  {
    assert order[..|order|] == order;
    BoundIs(order, |order|, order);
  }

  lemma FlatLength(order: seq<seq<Byte>>, bytes: seq<Byte>)
    ensures |Flat(order + [bytes])| == |Flat(order)| + |bytes|
  {
    FlatAppend(order, bytes);
  }

  lemma NewBound(order: seq<seq<Byte>>, bytes: seq<Byte>)
    ensures Bound(order + [bytes], |order| + 1) == Min(SIZE, |Flat(order)| + |bytes|)
  {
    LastBound(order + [bytes]);
    FlatLength(order, bytes);
  }

  lemma ReserveFills(s: State, t: Tid)
    requires LengthIsTotal(s) && OwnRange(s, PcOf(s, t)) && CopiesFill(s) && BoundsGrow(s.order)
    requires PcOf(s, t).Cas? && s.len == PcOf(s, t).current
    ensures CopiesFill(Apply(s, Go(t))) && BoundsGrow(Apply(s, Go(t)).order)
  {
    var s', p, n := Apply(s, Go(t)), PcOf(s, t), |s.order|;
    LastBound(s.order);
    NewBound(s.order, p.bytes);
    BoundsStay(s.order, p.bytes, n);
    BoundsGrowOn(s.order, p.bytes);
    forall u | PcOf(s', u).Copy? ensures exists k :: Fills(s'.order, PcOf(s', u), k) {
      if u == t {
        assert Fills(s'.order, PcOf(s', t), n);
      } else {
        var k: nat :| Fills(s.order, PcOf(s, u), k);
        FillsStill(s.order, p.bytes, PcOf(s, u), k);
      }
    }
  }

  /** A step that reserves nothing moves no copy to another reservation. */
  lemma OtherFills(s: State, step: Step, u: Tid)
    requires CopiesFill(s) && Enabled(s, step) && PcOf(Apply(s, step), u).Copy?
    requires !(step.Go? && PcOf(s, step.t).Cas? && s.len == PcOf(s, step.t).current)
    ensures Apply(s, step).order == s.order && exists k :: Fills(s.order, PcOf(Apply(s, step), u), k)
  {
    var p, p' := PcOf(s, u), PcOf(Apply(s, step), u);
    assert p.Copy? && p'.bytes == p.bytes && p'.current == p.current && p'.n == p.n;
    var k: nat :| Fills(s.order, p, k);
    assert Fills(s.order, p', k);
  }

  lemma StepKeepsFilling(s: State, step: Step)
    requires LengthIsTotal(s) && AllOwn(s) && CopiesFill(s) && BoundsGrow(s.order) && Enabled(s, step)
    ensures CopiesFill(Apply(s, step)) && BoundsGrow(Apply(s, step).order)
  {
    var t, p, s' := step.t, PcOf(s, step.t), Apply(s, step);
    assert OwnRange(s, p);
    if step.Go? && p.Cas? && s.len == p.current {
      ReserveFills(s, t);
    } else {
      forall u | PcOf(s', u).Copy? ensures exists k :: Fills(s'.order, PcOf(s', u), k) {
        OtherFills(s, step, u);
      }
    }
  }

  /** Each copy in flight fills one reservation; the reservations follow one another from zero to the length, none of them empty. */
  lemma {:induction false} ReservationsFollow(run: seq<State>, steps: seq<Step>, i: nat)
    requires IsRun(run, steps) && i < |run|
    ensures CopiesFill(run[i]) && BoundsGrow(run[i].order)
    ensures Bound(run[i].order, 0) == 0 && Bound(run[i].order, |run[i].order|) == run[i].len
  {
    RunKeepsInv(run, steps, i);
    LastBound(run[i].order);
    if i > 0 {
      ReservationsFollow(run, steps, i - 1);
      RunKeepsInv(run, steps, i - 1);
      StepKeepsFilling(run[i - 1], steps[i - 1]);
    }
  }

  /** Index `x` lies in reservation `k`. */
  predicate Within(order: seq<seq<Byte>>, k: nat, x: nat)
  {
    k < |order| && Bound(order, k) <= x < Bound(order, k + 1)
  }

  lemma {:induction false} BoundsOrdered(order: seq<seq<Byte>>, j: nat, k: nat)
    requires BoundsGrow(order) && j <= k <= |order|
    ensures Bound(order, j) <= Bound(order, k)
    decreases k - j
  {
    if j < k {
      BoundsOrdered(order, j, k - 1);
    }
  }

  lemma {:induction false} FindReservation(order: seq<seq<Byte>>, n: nat, x: nat) returns (k: nat)
    requires BoundsGrow(order) && n <= |order| && x < Bound(order, n)
    ensures Within(order, k, x)
  {
    assert n > 0 by {
      assert order[..0] == [] && Bound(order, 0) == 0;
    }
    if Bound(order, n - 1) <= x {
      k := n - 1;
    } else {
      k := FindReservation(order, n - 1, x);
    }
  }

  /** Every byte below the length lies in exactly one reservation, of finished and unfinished copies alike. */
  lemma ReservationsTile(run: seq<State>, steps: seq<Step>, i: nat, x: nat)
    requires IsRun(run, steps) && i < |run|
    ensures x < run[i].len <==> exists k: nat :: Within(run[i].order, k, x)
    ensures forall j: nat, k: nat :: Within(run[i].order, j, x) && Within(run[i].order, k, x) ==> j == k
  {
    ReservationsFollow(run, steps, i);
    var order := run[i].order;
    if x < run[i].len {
      var k := FindReservation(order, |order|, x);
    }
    forall k: nat | Within(order, k, x) ensures x < run[i].len {
      BoundsOrdered(order, k + 1, |order|);
    }
    forall j: nat, k: nat | Within(order, j, x) && Within(order, k, x) ensures j == k {
      if j < k {
        BoundsOrdered(order, j + 1, k);
      } else if k < j {
        BoundsOrdered(order, k + 1, j);
      }
    }
  }

  /** Two copies in flight never fill the same reservation, so their ranges share no byte, copied or not. */
  lemma ReservationsDisjoint(run: seq<State>, steps: seq<Step>, i: nat, t: Tid, u: Tid)
    requires IsRun(run, steps) && i < |run| && t != u && PcOf(run[i], t).Copy? && PcOf(run[i], u).Copy?
    ensures Disjoint(PcOf(run[i], t), PcOf(run[i], u))
    ensures forall k :: !(Fills(run[i].order, PcOf(run[i], t), k) && Fills(run[i].order, PcOf(run[i], u), k))
  {
    RunKeepsInv(run, steps, i);
    assert OwnRange(run[i], PcOf(run[i], t)) && OwnRange(run[i], PcOf(run[i], u));
    assert Disjoint(PcOf(run[i], t), PcOf(run[i], u));
  }

  /** Every byte a reader can see: the byte of the log, or zero while the copy has not reached it. */
  lemma ByteRead(run: seq<State>, steps: seq<Step>, k: nat, i: nat)
    requires IsRun(run, steps) && k < |run| && i < run[k].len
    ensures i < |run[k].buf| && i < |Flat(run[k].order)|
    ensures run[k].buf[i] == if InFlight(run[k], i) then 0 else Flat(run[k].order)[i]
  {
    RunKeepsInv(run, steps, k);
    assert ByteIs(run[k], i);
  }

  /** What a reader is given and what was captured, in reservation order and cut off at 64 KiB. */
  ghost predicate ReadsTrue(s: State)
  {
    s.len <= |s.buf| && s.buf[..s.len] == Flat(s.order)[..Min(SIZE, |Flat(s.order)|)]
  }

  /** A reader is given the captured strings exactly if every byte still in flight is a zero byte. */
  lemma ReadsTrueIff(run: seq<State>, steps: seq<Step>, k: nat)
    requires IsRun(run, steps) && k < |run|
    ensures run[k].len == Min(SIZE, |Flat(run[k].order)|)
    ensures ReadsTrue(run[k]) <==> forall i: nat :: i < run[k].len && InFlight(run[k], i) ==> Flat(run[k].order)[i] == 0
  {
    RunKeepsInv(run, steps, k);
    var s := run[k];
    forall i: nat | i < s.len ensures s.buf[i] == if InFlight(s, i) then 0 else Flat(s.order)[i] {
      ByteRead(run, steps, k, i);
    }
    if ReadsTrue(s) {
      assert forall i: nat :: i < s.len ==> s.buf[..s.len][i] == s.buf[i];
    }
  }

  /** No copy is in flight. */
  ghost predicate Settled(s: State)
  {
    forall t :: !PcOf(s, t).Copy?
  }

  lemma {:induction false} FlatHasNoZero(order: seq<seq<Byte>>, i: nat)
    requires i < |Flat(order)| && forall k :: 0 <= k < |order| ==> 0 !in order[k]
    ensures Flat(order)[i] != 0
  {
    var init, last := order[..|order| - 1], order[|order| - 1];
    if i < |Flat(init)| {
      FlatHasNoZero(init, i);
    } else {
      assert Flat(order)[i] == last[i - |Flat(init)|];
    }
  }

  /** With no zero byte in the strings a reader is given them exactly once no copy is in flight. */
  lemma SettledLog(run: seq<State>, steps: seq<Step>, k: nat)
    requires IsRun(run, steps) && k < |run|
    ensures Settled(run[k]) ==> ReadsTrue(run[k])
    ensures (forall j :: 0 <= j < |run[k].order| ==> 0 !in run[k].order[j]) ==> (ReadsTrue(run[k]) <==> Settled(run[k]))
  {
    RunKeepsInv(run, steps, k);
    ReadsTrueIff(run, steps, k);
    var s := run[k];
    forall t | PcOf(s, t).Copy? && forall j :: 0 <= j < |s.order| ==> 0 !in s.order[j] ensures !ReadsTrue(s) {
      var p := PcOf(s, t);
      assert OwnRange(s, p) && Missing(p, p.current + p.done);
      assert InFlight(s, p.current + p.done);
      FlatHasNoZero(s.order, p.current + p.done);
    }
  }

  ghost predicate Reachable(s: State)
  {
    exists run, steps :: IsRun(run, steps) && run[|steps|] == s
  }

  lemma ReachStep(s: State, step: Step)
    requires Reachable(s) && Enabled(s, step)
    ensures Reachable(Apply(s, step))
  {
    var run, steps :| IsRun(run, steps) && run[|steps|] == s;
    var run', steps' := run + [Apply(s, step)], steps + [step];
    assert IsRun(run', steps') && run'[|steps'|] == Apply(s, step);
  }

  /** While a copy is in flight a reader can see reserved bytes that were never written. */
  lemma EarlyReaderSeesGap(s0: State) returns (s: State)
    requires Init(s0)
    ensures Reachable(s) && s.len == 1 && |s.buf| == SIZE && Flat(s.order) == [65] && s.buf[0] != 65 && !ReadsTrue(s)
  {
    assert IsRun([s0], []) && [s0][0] == s0;
    ReachStep(s0, Capture(0, [65]));
    var s1 := Apply(s0, Capture(0, [65]));
    ReachStep(s1, Go(0));
    var s2 := Apply(s1, Go(0));
    ReachStep(s2, Go(0));
    s := Apply(s2, Go(0));
    FlatAppend([], [65]);
    assert s.buf[..s.len][0] != Flat(s.order)[0];
  }
}
