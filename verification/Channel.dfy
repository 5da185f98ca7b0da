/**
 The channel built from the futex mutex and the sequence-counter condition variable, as a transition
 system: any number of sending threads and handles, one receiving thread, one step per atomic
 operation, the mutex being the full futex protocol. The condition variable's counter does not wrap.
 */
module Channel {
  import M = FutexMutex

  type Tid = M.Tid
  type Handle = nat

  /** Where a thread stands in `send`, in the drop of a sender, in `recv` or in `try_recv`. */
  datatype Loc =
    | Out
    | SendLock(h: Handle, v: int)   // acquiring; push when the guard is held
    | SendHeld(h: Handle)           // pushed, about to drop the guard
    | SendNotify(h: Handle)         // about to bump the counter
    | SendWake(h: Handle)           // about to futex_wake the counter
    | DropNotify | DropWake         // the same two for the drop of the last sender
    | RecvLock                      // acquiring; pop when the guard is held
    | RecvGot | RecvClosed          // about to drop the guard and return a value / None
    | RecvSenders                   // queue was empty: about to load the sender count
    | RecvAgain                     // senders remain: about to drop the first guard
    | RecvMid                       // about to lock a second time
    | RecvLock2                     // acquiring; test for emptiness when the guard is held
    | RecvSenders2 | RecvSeq        // about to load the sender count / the counter
    | RecvPark(q: nat)              // about to drop the guard and wait on value q
    | RecvWait(q: nat)              // about to futex_wait(counter, q)
    | RecvAsleep(q: nat)
    | RecvAwake | RecvRelock        // about to re-acquire / re-acquiring
    | RecvSkip | RecvLoop           // about to drop the guard / back to the top of the loop
    | TryRecvLock | TryRecvHeld

  datatype State = State(
    m: M.State, loc: map<Tid, Loc>, rx: Tid,
    queue: seq<int>, pushed: seq<int>, received: seq<int>,
    tick: nat, handles: set<Handle>, senders: nat,
    closed: bool,   // recv has returned None
    missed: bool)   // the last sender's bump fell between the receiver's two loads

  function LocOf(s: State, t: Tid): Loc
  {
    if t in s.loc then s.loc[t] else Out
  }

  ghost const Init: State := State(M.Init, map[], 0, [], [], [], 0, {0}, 1, false, false)

  /** Steps of a sending thread; a sender handle can be used by several threads at once. */
  datatype SendAct = Begin(h: Handle, v: int) | Push | Unlock | Notify | Wake | Drop(g: Handle) | LastNotify | LastWake

  /** Steps of the receiving thread. */
  datatype RecvAct =
    | BeginRecv | Pop | LoadSenders | ReturnSome | ReturnNone | UnlockAgain
    | Lock2 | CheckEmpty | LoadSenders2 | LoadSeq | ParkUnlock | FutexWait | Spurious
    | Relock | Relocked | SkipUnlock | Loop
    | BeginTryRecv | TryPop | TryUnlock

  datatype Step = Mutex(step: M.Step) | Send(t: Tid, send: SendAct) | Recv(recv: RecvAct) | Clone(from: Handle, to: Handle)

  datatype Guard = Keep | Acquire | Release

  ghost predicate Holds(s: State, t: Tid)
  {
    M.PcOf(s.m, t) == M.Holding
  }

  ghost predicate Free(s: State, t: Tid)
  {
    M.PcOf(s.m, t) == M.Idle
  }

  predicate Uses(l: Loc, h: Handle)
  {
    match l
    case SendLock(g, _) => g == h
    case SendHeld(g) => g == h
    case SendNotify(g) => g == h
    case SendWake(g) => g == h
    case _ => false
  }

  function Guarding(m: M.State, t: Tid, g: Guard): M.State
  {
    match g
    case Keep => m
    case Acquire => M.Apply(m, M.Lock(t))
    case Release => M.Apply(m, M.Unlock(t))
  }

  // ---- the sending side ----

  ghost predicate SendEnabled(s: State, t: Tid, a: SendAct)
  {
    var l := LocOf(s, t);
    match a
    case Begin(h, v) => l == Out && Free(s, t) && h in s.handles
    case Push => l.SendLock? && Holds(s, t)
    case Unlock => l.SendHeld?
    case Notify => l.SendNotify? && Free(s, t)
    case Wake => l.SendWake?
    case Drop(h) => l == Out && Free(s, t) && h in s.handles && forall u :: !Uses(LocOf(s, u), h)
    case LastNotify => l.DropNotify?
    case LastWake => l.DropWake?
  }

  ghost function SendNext(s: State, t: Tid, a: SendAct): Loc
    requires SendEnabled(s, t, a)
  {
    var l := LocOf(s, t);
    match a
    case Begin(h, v) => SendLock(h, v)
    case Push => SendHeld(l.h)
    case Unlock => SendNotify(l.h)
    case Notify => SendWake(l.h)
    case Wake => Out
    case Drop(h) => if s.senders == 1 then DropNotify else Out
    case LastNotify => DropWake
    case LastWake => Out
  }

  function SendGuard(a: SendAct): Guard
  {
    if a.Begin? then Acquire else if a.Unlock? then Release else Keep
  }

  /** A futex_wake on the counter: only the receiver ever sleeps there. */
  function WakeReceiver(loc: map<Tid, Loc>, rx: Tid): map<Tid, Loc>
  {
    if rx in loc && loc[rx].RecvAsleep? then loc[rx := RecvAwake] else loc
  }

  ghost function ApplySend(s: State, t: Tid, a: SendAct): State
    requires SendEnabled(s, t, a)
  {
    var l := LocOf(s, t);
    var moved := s.loc[t := SendNext(s, t, a)];
    s.(m := Guarding(s.m, t, SendGuard(a)),
       loc := if a.Wake? || a.LastWake? then WakeReceiver(moved, s.rx) else moved,
       queue := if a.Push? then s.queue + [l.v] else s.queue,
       pushed := if a.Push? then s.pushed + [l.v] else s.pushed,
       tick := if a.Notify? || a.LastNotify? then s.tick + 1 else s.tick,
       handles := if a.Drop? then s.handles - {a.g} else s.handles,
       senders := if a.Drop? && s.senders > 0 then s.senders - 1 else s.senders,
       missed := s.missed || (a.LastNotify? && LocOf(s, s.rx) == RecvSeq))
  }

  // ---- the receiving side ----

  ghost predicate RecvEnabled(s: State, a: RecvAct)
  {
    var r := LocOf(s, s.rx);
    match a
    case BeginRecv => r == Out && Free(s, s.rx)
    case Pop => r == RecvLock && Holds(s, s.rx)
    case LoadSenders => r == RecvSenders
    case ReturnSome => r == RecvGot
    case ReturnNone => r == RecvClosed
    case UnlockAgain => r == RecvAgain
    case Lock2 => r == RecvMid && Free(s, s.rx)
    case CheckEmpty => r == RecvLock2 && Holds(s, s.rx)
    case LoadSenders2 => r == RecvSenders2
    case LoadSeq => r == RecvSeq
    case ParkUnlock => r.RecvPark?
    case FutexWait => r.RecvWait? && Free(s, s.rx)
    case Spurious => r.RecvAsleep?
    case Relock => r == RecvAwake && Free(s, s.rx)
    case Relocked => r == RecvRelock && Holds(s, s.rx)
    case SkipUnlock => r == RecvSkip
    case Loop => r == RecvLoop && Free(s, s.rx)
    case BeginTryRecv => r == Out && Free(s, s.rx)
    case TryPop => r == TryRecvLock && Holds(s, s.rx)
    case TryUnlock => r == TryRecvHeld
  }

  ghost function RecvNext(s: State, a: RecvAct): Loc
    requires RecvEnabled(s, a)
  {
    var r := LocOf(s, s.rx);
    match a
    case BeginRecv => RecvLock
    case Pop => if s.queue == [] then RecvSenders else RecvGot
    case LoadSenders => if s.senders == 0 then RecvClosed else RecvAgain
    case ReturnSome => Out
    case ReturnNone => Out
    case UnlockAgain => RecvMid
    case Lock2 => RecvLock2
    case CheckEmpty => if s.queue == [] then RecvSenders2 else RecvSkip
    case LoadSenders2 => if s.senders > 0 then RecvSeq else RecvSkip
    case LoadSeq => RecvPark(s.tick)
    case ParkUnlock => RecvWait(r.q)
    case FutexWait => if s.tick == r.q then RecvAsleep(r.q) else RecvAwake
    case Spurious => RecvAwake
    case Relock => RecvRelock
    case Relocked => RecvSkip
    case SkipUnlock => RecvLoop
    case Loop => RecvLock
    case BeginTryRecv => TryRecvLock
    case TryPop => TryRecvHeld
    case TryUnlock => Out
  }

  function RecvGuard(a: RecvAct): Guard
  {
    if a.BeginRecv? || a.Lock2? || a.Relock? || a.Loop? || a.BeginTryRecv? then Acquire
    else if a.ReturnSome? || a.ReturnNone? || a.UnlockAgain? || a.ParkUnlock? || a.SkipUnlock? || a.TryUnlock? then Release
    else Keep
  }

  ghost function ApplyRecv(s: State, a: RecvAct): State
    requires RecvEnabled(s, a)
  {
    var pops := (a.Pop? || a.TryPop?) && s.queue != [];
    s.(m := Guarding(s.m, s.rx, RecvGuard(a)),
       loc := s.loc[s.rx := RecvNext(s, a)],
       queue := if pops then s.queue[1..] else s.queue,
       received := if pops then s.received + [s.queue[0]] else s.received,
       closed := s.closed || a.ReturnNone?,
       missed := s.missed && !a.LoadSenders2?)
  }

  // ---- the whole system ----

  ghost predicate Enabled(s: State, step: Step)
  {
    match step
    case Mutex(ms) => M.Enabled(s.m, ms) && !ms.Lock? && !ms.TryLock? && !ms.Unlock?
    case Send(t, a) => SendEnabled(s, t, a)
    case Recv(a) => RecvEnabled(s, a)
    case Clone(h, g) => h in s.handles && g !in s.handles
  }

  ghost function Apply(s: State, step: Step): State
    requires Enabled(s, step)
  {
    match step
    case Mutex(ms) => s.(m := M.Apply(s.m, ms))
    case Send(t, a) => ApplySend(s, t, a)
    case Recv(a) => ApplyRecv(s, a)
    case Clone(h, g) => s.(handles := s.handles + {g}, senders := s.senders + 1)
  }

  // ---- invariant ----

  datatype Phase = Apart | Acquiring | Guarded

  /** Whether a thread at this place is outside the lock, acquiring it, or holding the guard. */
  function PhaseOf(l: Loc): Phase
  {
    match l
    case SendLock(_, _) => Acquiring
    case RecvLock => Acquiring
    case RecvLock2 => Acquiring
    case RecvRelock => Acquiring
    case TryRecvLock => Acquiring
    case SendHeld(_) => Guarded
    case RecvGot => Guarded
    case RecvClosed => Guarded
    case RecvSenders => Guarded
    case RecvAgain => Guarded
    case RecvSenders2 => Guarded
    case RecvSeq => Guarded
    case RecvPark(_) => Guarded
    case RecvSkip => Guarded
    case TryRecvHeld => Guarded
    case _ => Apart
  }

  predicate Matches(l: Loc, p: M.Pc)
  {
    match PhaseOf(l)
    case Apart => p.Idle? || p.Wake?
    case Acquiring => p.FastCas? || p.Swap? || p.Wait? || p.Asleep? || p.Holding?
    case Guarded => p.Holding?
  }

  ghost predicate LocksMatch(s: State)
  {
    M.Inv(s.m) && forall t :: Matches(LocOf(s, t), M.PcOf(s.m, t))
  }

  ghost predicate Fifo(s: State)
  {
    s.received + s.queue == s.pushed
  }

  ghost predicate HandlesCounted(s: State)
  {
    && s.senders == |s.handles|
    && (forall t, h :: Uses(LocOf(s, t), h) ==> h in s.handles)
  }

  predicate AddPending(l: Loc)
  {
    l.SendHeld? || l.SendNotify?
  }

  predicate WakePending(l: Loc)
  {
    l.SendWake? || l.DropWake?
  }

  /** What the receiver knows about the queue while it holds the guard after finding it empty. */
  ghost predicate SawEmpty(s: State)
  {
    var r := LocOf(s, s.rx);
    && (r.RecvSenders? || r.RecvClosed? || r.RecvSenders2? || r.RecvSeq? || r.RecvPark? ==> s.queue == [])
    && (r.RecvClosed? ==> s.senders == 0)
  }

  ghost predicate Parked(r: Loc)
  {
    r.RecvPark? || r.RecvWait? || r.RecvAsleep?
  }

  /** While the receiver waits on value q: a non-empty queue means a bump has come or is coming. */
  ghost predicate SendsSeen(s: State)
  {
    var r := LocOf(s, s.rx);
    Parked(r) ==> r.q <= s.tick && (s.queue != [] && r.q == s.tick ==> exists t :: AddPending(LocOf(s, t)))
  }

  ghost predicate BumpsWake(s: State)
  {
    var r := LocOf(s, s.rx);
    r.RecvAsleep? && r.q != s.tick ==> exists t :: WakePending(LocOf(s, t))
  }

  ghost predicate ClosedIsFinal(s: State)
  {
    s.closed ==> s.senders == 0 && s.queue == []
  }

  /** While the receiver waits and no sender is left: the last bump is coming, has come, or came between the two loads. */
  ghost predicate LastDropSeen(s: State)
  {
    var r := LocOf(s, s.rx);
    (r.RecvSeq? || (Parked(r) && r.q == s.tick)) && s.senders == 0 ==> s.missed || exists t :: LocOf(s, t).DropNotify?
  }

  /** A drop that is or was the last one leaves no sender. */
  ghost predicate DropIsLast(s: State)
  {
    (s.missed ==> s.senders == 0) && forall t :: LocOf(s, t).DropNotify? ==> s.senders == 0
  }

  ghost predicate Inv(s: State)
  {
    DropIsLast(s) && LocksMatch(s) && Fifo(s) && HandlesCounted(s) && SawEmpty(s) && SendsSeen(s) && BumpsWake(s) && ClosedIsFinal(s) && LastDropSeen(s)
  }

  // ---- the mutex and the places in the code agree ----

  lemma GuardingKeeps(s: State, t: Tid, g: Guard)
    requires LocksMatch(s)
    requires g == Acquire ==> Free(s, t)
    requires g == Release ==> Holds(s, t)
    ensures M.Inv(Guarding(s.m, t, g))
    ensures forall u :: u != t ==> M.PcOf(Guarding(s.m, t, g), u) == M.PcOf(s.m, u)
    ensures g == Acquire ==> M.PcOf(Guarding(s.m, t, g), t) == M.FastCas
    ensures g == Release ==> M.PcOf(Guarding(s.m, t, g), t) in {M.Idle, M.Wake}
  {
    match g
    case Keep =>
    case Acquire => M.StepKeepsInv(s.m, M.Lock(t));
    case Release => M.StepKeepsInv(s.m, M.Unlock(t));
  }

  lemma MutexKeepsMatch(m: M.State, ms: M.Step, t: Tid, l: Loc)
    requires M.Enabled(m, ms) && !ms.Lock? && !ms.TryLock? && !ms.Unlock? && Matches(l, M.PcOf(m, t))
    ensures Matches(l, M.PcOf(M.Apply(m, ms), t))
  {
  }

  lemma SendMatches(s: State, t: Tid, a: SendAct)
    requires LocksMatch(s) && SendEnabled(s, t, a)
    ensures LocksMatch(ApplySend(s, t, a))
  {
    var s' := ApplySend(s, t, a);
    assert Matches(LocOf(s, t), M.PcOf(s.m, t));
    GuardingKeeps(s, t, SendGuard(a));
    assert Matches(SendNext(s, t, a), M.PcOf(s'.m, t));
    forall u ensures Matches(LocOf(s', u), M.PcOf(s'.m, u)) {
      assert Matches(LocOf(s, u), M.PcOf(s.m, u));
    }
  }

  /** A receiver step that touches the guard moves to the matching phase; any other keeps the phase or uses the guard just acquired. */
  lemma RecvPhases(s: State, a: RecvAct)
    requires RecvEnabled(s, a)
    ensures RecvGuard(a) == Acquire ==> Free(s, s.rx) && PhaseOf(RecvNext(s, a)) == Acquiring
    ensures RecvGuard(a) == Release ==> PhaseOf(LocOf(s, s.rx)) == Guarded && PhaseOf(RecvNext(s, a)) == Apart
    ensures RecvGuard(a) == Keep ==>
              PhaseOf(RecvNext(s, a)) == PhaseOf(LocOf(s, s.rx)) || (Holds(s, s.rx) && PhaseOf(RecvNext(s, a)) == Guarded)
  {
  }

  lemma RecvMatches(s: State, a: RecvAct)
    requires LocksMatch(s) && RecvEnabled(s, a)
    ensures LocksMatch(ApplyRecv(s, a))
  {
    var s' := ApplyRecv(s, a);
    assert Matches(LocOf(s, s.rx), M.PcOf(s.m, s.rx));
    RecvPhases(s, a);
    GuardingKeeps(s, s.rx, RecvGuard(a));
    forall u ensures Matches(LocOf(s', u), M.PcOf(s'.m, u)) {
      assert Matches(LocOf(s, u), M.PcOf(s.m, u));
    }
  }

  lemma StepKeepsLocksMatch(s: State, step: Step)
    requires LocksMatch(s) && Enabled(s, step)
    ensures LocksMatch(Apply(s, step))
  {
    match step
    case Mutex(ms) =>
      M.StepKeepsInv(s.m, ms);
      forall t ensures Matches(LocOf(s, t), M.PcOf(Apply(s, step).m, t)) { MutexKeepsMatch(s.m, ms, t, LocOf(s, t)); }
    case Send(t, a) => SendMatches(s, t, a);
    case Recv(a) => RecvMatches(s, a);
    case Clone(h, g) =>
  }

  // ---- values and handles ----

  lemma StepKeepsFifo(s: State, step: Step)
    requires Fifo(s) && Enabled(s, step)
    ensures Fifo(Apply(s, step))
  {
  }

  lemma UsesAfter(s: State, step: Step, t: Tid, h: Handle)
    requires Enabled(s, step) && Uses(LocOf(Apply(s, step), t), h)
    ensures Uses(LocOf(s, t), h) || (h in s.handles && step.Send? && step.send.Begin?)
  {
  }

  lemma StepKeepsHandles(s: State, step: Step)
    requires HandlesCounted(s) && Enabled(s, step)
    ensures HandlesCounted(Apply(s, step))
  {
    var s' := Apply(s, step);
    forall t, h | Uses(LocOf(s', t), h) ensures h in s'.handles {
      UsesAfter(s, step, t, h);
    }
  }

  lemma PusherHasHandle(s: State, t: Tid)
    requires HandlesCounted(s) && SendEnabled(s, t, Push)
    ensures s.senders > 0
  {
    var h := LocOf(s, t).h;
    assert Uses(LocOf(s, t), h);
    assert h in s.handles;
  }

  /** Without senders, no step adds a value or a sender. */
  lemma NoSenders(s: State, step: Step)
    requires HandlesCounted(s) && Enabled(s, step) && s.senders == 0
    ensures Apply(s, step).senders == 0 && Apply(s, step).pushed == s.pushed && !(step.Send? && step.send.Push?)
  {
    if step.Send? && step.send.Push? {
      PusherHasHandle(s, step.t);
    }
  }

  // ---- the receiver's view ----

  /** Nobody pushes while the receiver holds the guard. */
  lemma GuardExcludesPush(s: State, t: Tid)
    requires LocksMatch(s) && SendEnabled(s, t, Push)
    ensures PhaseOf(LocOf(s, s.rx)) != Guarded
  {
    assert Matches(LocOf(s, s.rx), M.PcOf(s.m, s.rx));
  }

  lemma StepKeepsSawEmpty(s: State, step: Step)
    requires LocksMatch(s) && HandlesCounted(s) && SawEmpty(s) && Enabled(s, step)
    ensures SawEmpty(Apply(s, step))
  {
    match step
    case Mutex(_) =>
    case Send(t, a) => SendKeepsSawEmpty(s, t, a);
    case Recv(a) => RecvKeepsSawEmpty(s, a);
    case Clone(_, _) =>
      if s.senders == 0 {
        NoSenders(s, step);
      }
  }

  lemma SendKeepsSawEmpty(s: State, t: Tid, a: SendAct)
    requires LocksMatch(s) && HandlesCounted(s) && SawEmpty(s) && SendEnabled(s, t, a)
    ensures SawEmpty(ApplySend(s, t, a))
  {
    if s.senders == 0 {
      NoSenders(s, Send(t, a));
    }
    if a.Push? {
      GuardExcludesPush(s, t);
    }
  }

  lemma RecvKeepsSawEmpty(s: State, a: RecvAct)
    requires SawEmpty(s) && RecvEnabled(s, a)
    ensures SawEmpty(ApplyRecv(s, a))
  {
  }

  /** A thread inside send or drop moves only by its own steps. */
  predicate Sends(l: Loc)
  {
    Unfinished(l) || l.DropNotify? || l.DropWake?
  }

  lemma SenderStays(s: State, step: Step, w: Tid)
    requires Enabled(s, step) && Sends(LocOf(s, w)) && !(step.Send? && step.t == w)
    ensures LocOf(Apply(s, step), w) == LocOf(s, w)
  {
  }

  lemma StepKeepsSendsSeen(s: State, step: Step)
    requires SawEmpty(s) && SendsSeen(s) && Enabled(s, step)
    ensures SendsSeen(Apply(s, step))
  {
    var s' := Apply(s, step);
    var r, r' := LocOf(s, s.rx), LocOf(s', s.rx);
    if Parked(r') && s'.queue != [] && r'.q == s'.tick {
      if step.Send? && step.send.Push? {
        assert AddPending(LocOf(s', step.t));
      } else {
        var w :| AddPending(LocOf(s, w));
        if !(step.Send? && step.t == w) {
          SenderStays(s, step, w);
        }
        assert AddPending(LocOf(s', w));
      }
    }
  }

  lemma StepKeepsBumpsWake(s: State, step: Step)
    requires SendsSeen(s) && BumpsWake(s) && Enabled(s, step)
    ensures BumpsWake(Apply(s, step))
  {
    var s' := Apply(s, step);
    var r, r' := LocOf(s, s.rx), LocOf(s', s.rx);
    if r'.RecvAsleep? && r'.q != s'.tick {
      if step.Send? && (step.send.Notify? || step.send.LastNotify?) {
        assert WakePending(LocOf(s', step.t));
      } else {
        var w :| WakePending(LocOf(s, w));
        if !(step.Send? && step.t == w) {
          SenderStays(s, step, w);
        }
        assert WakePending(LocOf(s', w));
      }
    }
  }

  lemma StepKeepsClosed(s: State, step: Step)
    requires Inv(s) && Enabled(s, step)
    ensures ClosedIsFinal(Apply(s, step))
  {
    if s.senders == 0 {
      NoSenders(s, step);
    }
  }

  lemma StepKeepsLastDrop(s: State, step: Step)
    requires HandlesCounted(s) && SendsSeen(s) && LastDropSeen(s) && Enabled(s, step)
    ensures LastDropSeen(Apply(s, step))
  {
    var s' := Apply(s, step);
    var r, r' := LocOf(s, s.rx), LocOf(s', s.rx);
    if (r'.RecvSeq? || (Parked(r') && r'.q == s'.tick)) && s'.senders == 0 && !s'.missed {
      if step.Send? && step.send.Drop? {
        assert LocOf(s', step.t).DropNotify?;
      } else {
        var w :| LocOf(s, w).DropNotify?;
        if !(step.Send? && step.t == w) {
          SenderStays(s, step, w);
        }
        assert LocOf(s', w).DropNotify?;
      }
    }
  }

  lemma StepKeepsDropIsLast(s: State, step: Step)
    requires DropIsLast(s) && HandlesCounted(s) && Enabled(s, step)
    ensures DropIsLast(Apply(s, step))
  {
    if s.senders == 0 {
      NoSenders(s, step);
    }
    var s' := Apply(s, step);
    forall t | LocOf(s', t).DropNotify? ensures s'.senders == 0 {
      assert LocOf(s, t).DropNotify? || (step == Send(t, Drop(step.send.g)) && s.senders == 1);
    }
  }

  lemma StepKeepsInv(s: State, step: Step)
    requires Inv(s) && Enabled(s, step)
    ensures Inv(Apply(s, step))
  {
    StepKeepsDropIsLast(s, step);
    StepKeepsLocksMatch(s, step);
    StepKeepsFifo(s, step);
    StepKeepsHandles(s, step);
    StepKeepsSawEmpty(s, step);
    StepKeepsSendsSeen(s, step);
    StepKeepsBumpsWake(s, step);
    StepKeepsClosed(s, step);
    StepKeepsLastDrop(s, step);
  }

  // ---- theorems over runs ----

  ghost predicate IsRun(run: seq<State>, steps: seq<Step>)
  {
    && |run| == |steps| + 1
    && run[0] == Init
    && (forall i :: 0 <= i < |steps| ==> Enabled(run[i], steps[i]) && run[i + 1] == Apply(run[i], steps[i]))
  }

  lemma {:induction false} RunKeepsInv(run: seq<State>, steps: seq<Step>, i: nat)
    requires IsRun(run, steps) && i < |run|
    ensures Inv(run[i])
  {
    if i > 0 {
      RunKeepsInv(run, steps, i - 1);
      StepKeepsInv(run[i - 1], steps[i - 1]);
    }
  }

  lemma OnlyGrows(run: seq<State>, steps: seq<Step>, i: nat)
    requires IsRun(run, steps) && i < |steps|
    ensures run[i].received <= run[i + 1].received <= run[i + 1].pushed && run[i].pushed <= run[i + 1].pushed
  {
    RunKeepsInv(run, steps, i + 1);
    var s, step := run[i], steps[i];
    assert run[i + 1] == Apply(s, step);
  }

  /** Values come out in the order they were pushed, none lost, none twice; what was received only grows. */
  lemma {:induction false} DeliveredInOrder(run: seq<State>, steps: seq<Step>, i: nat, j: nat)
    requires IsRun(run, steps) && i <= j < |run|
    ensures run[i].received <= run[j].received <= run[j].pushed
    ensures run[i].pushed <= run[j].pushed
    decreases j - i
  {
    if i < j {
      DeliveredInOrder(run, steps, i, j - 1);
      OnlyGrows(run, steps, j - 1);
    } else {
      RunKeepsInv(run, steps, i);
    }
  }

  lemma ClosedStep(s: State, step: Step)
    requires Inv(s) && Enabled(s, step) && s.closed
    ensures Apply(s, step).closed && Apply(s, step).pushed == s.pushed
  {
    NoSenders(s, step);
  }

  lemma {:induction false} ClosedStays(run: seq<State>, steps: seq<Step>, i: nat, j: nat)
    requires IsRun(run, steps) && i <= j < |run| && run[i].closed
    ensures run[j].closed && run[j].pushed == run[i].pushed
    decreases j - i
  {
    if i < j {
      ClosedStays(run, steps, i, j - 1);
      RunKeepsInv(run, steps, j - 1);
      ClosedStep(run[j - 1], steps[j - 1]);
    }
  }

  /** Once `recv` has returned None, every value ever pushed had been received, and nothing is sent any more. */
  lemma NoneIsFinal(run: seq<State>, steps: seq<Step>, i: nat, j: nat)
    requires IsRun(run, steps) && i <= j < |run| && run[i].closed
    ensures run[j].senders == 0 && run[j].received == run[j].pushed == run[i].pushed
  {
    ClosedStays(run, steps, i, j);
    RunKeepsInv(run, steps, j);
  }

  /** A send that has pushed and not yet woken the receiver. */
  predicate Unfinished(l: Loc)
  {
    l.SendHeld? || l.SendNotify? || l.SendWake?
  }

  /** A receiver asleep on a non-empty queue has a send on its way to wake it. */
  ghost predicate SendComing(s: State)
  {
    LocOf(s, s.rx).RecvAsleep? && s.queue != [] ==> exists t :: Unfinished(LocOf(s, t))
  }

  lemma StepKeepsSendComing(s: State, step: Step)
    requires SendsSeen(s) && SendComing(s) && Enabled(s, step)
    ensures SendComing(Apply(s, step))
  {
    var s' := Apply(s, step);
    if LocOf(s', s.rx).RecvAsleep? && s'.queue != [] {
      if step.Send? && step.send.Push? {
        assert Unfinished(LocOf(s', step.t));
      } else {
        var w :| Unfinished(LocOf(s, w));
        if !(step.Send? && step.t == w) {
          SenderStays(s, step, w);
        }
        assert Unfinished(LocOf(s', w));
      }
    }
  }

  /** The receiver never sleeps on a non-empty queue unless a send has still to notify it. */
  lemma {:induction false} NoLostSend(run: seq<State>, steps: seq<Step>, i: nat)
    requires IsRun(run, steps) && i < |run|
    ensures LocOf(run[i], run[i].rx).RecvAsleep? && run[i].queue != [] ==> exists t :: Unfinished(LocOf(run[i], t))
  {
    if i > 0 {
      NoLostSend(run, steps, i - 1);
      RunKeepsInv(run, steps, i - 1);
      StepKeepsSendComing(run[i - 1], steps[i - 1]);
    }
  }

  // ---- the wake-up that can be missed ----

  /** No bump and no wake is on its way to the receiver. */
  ghost predicate NothingPending(s: State)
  {
    forall t :: !LocOf(s, t).DropNotify? && !WakePending(LocOf(s, t))
  }

  /** The receiver sleeps, no sender is left and no notification is on its way. */
  ghost predicate Stranded(s: State)
  {
    LocOf(s, s.rx).RecvAsleep? && s.senders == 0 && NothingPending(s)
  }

  /** A sleeping receiver with nothing pending has been deserted exactly if the last bump fell between its two loads. */
  lemma StrandedIffMissed(run: seq<State>, steps: seq<Step>, i: nat)
    requires IsRun(run, steps) && i < |run|
    requires LocOf(run[i], run[i].rx).RecvAsleep? && NothingPending(run[i])
    ensures Stranded(run[i]) <==> run[i].missed
  {
    RunKeepsInv(run, steps, i);
  }

  /** A stranded receiver stays stranded: only a spurious wake-up could free it. */
  lemma StrandedStays(s: State, step: Step)
    requires HandlesCounted(s) && Stranded(s) && Enabled(s, step) && step != Recv(Spurious)
    ensures Stranded(Apply(s, step))
  {
    NoSenders(s, step);
    assert s.handles == {};
    var s' := Apply(s, step);
    forall t ensures !LocOf(s', t).DropNotify? && !WakePending(LocOf(s', t)) {
      NoSender(s, t);
      assert !LocOf(s, t).DropNotify? && !WakePending(LocOf(s, t));
    }
  }

  predicate Sending(l: Loc)
  {
    l.SendLock? || l.SendHeld? || l.SendNotify? || l.SendWake?
  }

  function HandleOf(l: Loc): Handle
  {
    if Sending(l) then l.h else 0
  }

  /** Without senders nobody is in the middle of a send. */
  lemma NoSender(s: State, t: Tid)
    requires HandlesCounted(s) && s.handles == {}
    ensures !Sending(LocOf(s, t))
  {
    var h := HandleOf(LocOf(s, t));
    assert Sending(LocOf(s, t)) ==> Uses(LocOf(s, t), h);
    assert Uses(LocOf(s, t), h) ==> h in s.handles;
  }

  ghost predicate Reachable(s: State)
  {
    exists run, steps :: IsRun(run, steps) && run[|steps|] == s
  }

  lemma ReachStep(s: State, step: Step)
    requires Reachable(s) && Enabled(s, step)
    ensures Reachable(Apply(s, step))
  {
    var run, steps :| IsRun(run, steps) && run[|steps|] == s;
    var run', steps' := run + [Apply(s, step)], steps + [step];
    assert IsRun(run', steps') && run'[|steps'|] == Apply(s, step);
  }

  /** Nothing sent; the receiver, thread 0, is at `r` with mutex state `p`, and the other threads as in `others`. */
  ghost function Quiet(word: nat, p: M.Pc, r: Loc, others: map<Tid, Loc>, tick: nat, handles: set<Handle>, missed: bool): State
  {
    State(M.State(word, map[0 := p]), others[0 := r], 0, [], [], [], tick, handles, |handles|, false, missed)
  }

  lemma QuietStep(word: nat, p: M.Pc, r: Loc, others: map<Tid, Loc>, tick: nat, handles: set<Handle>, missed: bool, a: RecvAct)
    requires var s := Quiet(word, p, r, others, tick, handles, missed);
             Reachable(s) && RecvEnabled(s, a)
    requires !a.ReturnNone? && !a.LoadSenders2?
    requires (RecvGuard(a) == Acquire ==> p == M.Idle) && (RecvGuard(a) == Release ==> word == M.LOCKED && p == M.Holding)
    ensures var next := RecvNext(Quiet(word, p, r, others, tick, handles, missed), a);
            match RecvGuard(a)
            case Keep => Reachable(Quiet(word, p, next, others, tick, handles, missed))
            case Acquire => Reachable(Quiet(word, M.FastCas, next, others, tick, handles, missed))
            case Release => Reachable(Quiet(M.UNLOCKED, M.Idle, next, others, tick, handles, missed))
  {
    var s := Quiet(word, p, r, others, tick, handles, missed);
    var next := RecvNext(s, a);
    ReachStep(s, Recv(a));
    assert others[0 := r][0 := next] == others[0 := next];
    assert map[0 := p][0 := M.FastCas] == map[0 := M.FastCas];
    assert map[0 := p][0 := M.Idle] == map[0 := M.Idle];
  }

  /** The receiver with one live sender that has done nothing yet. */
  ghost function Alone(word: nat, p: M.Pc, r: Loc): State
  {
    Quiet(word, p, r, map[], 0, {0}, false)
  }

  lemma AloneCas(r: Loc)
    requires Reachable(Alone(M.UNLOCKED, M.FastCas, r))
    ensures Reachable(Alone(M.LOCKED, M.Holding, r))
  {
    var s := Alone(M.UNLOCKED, M.FastCas, r);
    ReachStep(s, Mutex(M.DoFastCas(0)));
    assert map[0 := M.FastCas][0 := M.Holding] == map[0 := M.Holding];
  }

  lemma ReceiverStarts()
    ensures Reachable(Alone(M.UNLOCKED, M.FastCas, RecvLock))
  {
    assert IsRun([Init], []) && [Init][0] == Init;
    ReachStep(Init, Recv(BeginRecv));
    assert Apply(Init, Recv(BeginRecv)) == Alone(M.UNLOCKED, M.FastCas, RecvLock);
  }

  lemma ReceiverPops()
    ensures Reachable(Alone(M.LOCKED, M.Holding, RecvSenders))
  {
    ReceiverStarts();
    AloneCas(RecvLock);
    QuietStep(M.LOCKED, M.Holding, RecvLock, map[], 0, {0}, false, Pop);
  }

  lemma ReceiverFindsNothing()
    ensures Reachable(Alone(M.UNLOCKED, M.Idle, RecvMid))
  {
    ReceiverPops();
    QuietStep(M.LOCKED, M.Holding, RecvSenders, map[], 0, {0}, false, LoadSenders);
    QuietStep(M.LOCKED, M.Holding, RecvAgain, map[], 0, {0}, false, UnlockAgain);
  }

  lemma ReceiverLocksAgain()
    ensures Reachable(Alone(M.UNLOCKED, M.FastCas, RecvLock2))
  {
    ReceiverFindsNothing();
    QuietStep(M.UNLOCKED, M.Idle, RecvMid, map[], 0, {0}, false, Lock2);
  }

  lemma ReceiverLooksAgain()
    ensures Reachable(Alone(M.LOCKED, M.Holding, RecvSenders2))
  {
    ReceiverLocksAgain();
    AloneCas(RecvLock2);
    QuietStep(M.LOCKED, M.Holding, RecvLock2, map[], 0, {0}, false, CheckEmpty);
  }

  lemma ReceiverCountsOneSender()
    ensures Reachable(Alone(M.LOCKED, M.Holding, RecvSeq))
  {
    ReceiverLooksAgain();
    var s := Alone(M.LOCKED, M.Holding, RecvSenders2);
    ReachStep(s, Recv(LoadSenders2));
    assert Apply(s, Recv(LoadSenders2)) == Alone(M.LOCKED, M.Holding, RecvSeq);
  }

  /** The receiver once thread 1 has dropped the last sender. */
  ghost function Deserted(word: nat, p: M.Pc, r: Loc, l: Loc, tick: nat, missed: bool): State
  {
    Quiet(word, p, r, map[1 := l], tick, {}, missed)
  }

  lemma LastSenderDrops()
    ensures Reachable(Deserted(M.LOCKED, M.Holding, RecvSeq, DropNotify, 0, false))
  {
    ReceiverCountsOneSender();
    var s := Alone(M.LOCKED, M.Holding, RecvSeq);
    ReachStep(s, Send(1, Drop(0)));
    assert Apply(s, Send(1, Drop(0))) == Deserted(M.LOCKED, M.Holding, RecvSeq, DropNotify, 0, false);
  }

  lemma LastSenderNotifies()
    ensures Reachable(Deserted(M.LOCKED, M.Holding, RecvSeq, DropWake, 1, true))
  {
    LastSenderDrops();
    var s := Deserted(M.LOCKED, M.Holding, RecvSeq, DropNotify, 0, false);
    ReachStep(s, Send(1, LastNotify));
    assert Apply(s, Send(1, LastNotify)) == Deserted(M.LOCKED, M.Holding, RecvSeq, DropWake, 1, true);
  }

  lemma LastSenderLeaves()
    ensures Reachable(Deserted(M.LOCKED, M.Holding, RecvSeq, Out, 1, true))
  {
    LastSenderNotifies();
    var s := Deserted(M.LOCKED, M.Holding, RecvSeq, DropWake, 1, true);
    ReachStep(s, Send(1, LastWake));
    assert Apply(s, Send(1, LastWake)) == Deserted(M.LOCKED, M.Holding, RecvSeq, Out, 1, true);
  }

  lemma ReceiverParks()
    ensures Reachable(Deserted(M.UNLOCKED, M.Idle, RecvWait(1), Out, 1, true))
  {
    LastSenderLeaves();
    QuietStep(M.LOCKED, M.Holding, RecvSeq, map[1 := Out], 1, {}, true, LoadSeq);
    QuietStep(M.LOCKED, M.Holding, RecvPark(1), map[1 := Out], 1, {}, true, ParkUnlock);
  }

  /** The last sender goes away right after the receiver has counted one sender, and the receiver sleeps for good. */
  lemma LastDropCanBeMissed() returns (s: State)
    ensures Reachable(s) && Stranded(s)
  {
    ReceiverParks();
    QuietStep(M.UNLOCKED, M.Idle, RecvWait(1), map[1 := Out], 1, {}, true, FutexWait);
    s := Deserted(M.UNLOCKED, M.Idle, RecvAsleep(1), Out, 1, true);
  }
}
