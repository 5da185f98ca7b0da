/**
 The three-state futex mutex as a transition system over any number of threads, one step per
 atomic operation. The futex call is an atomic compare-and-sleep; wake-ups may also be spurious.
 */
module FutexMutex {
  type Tid = nat

  const UNLOCKED: nat := 0
  const LOCKED: nat := 1
  const CONTENDED: nat := 2

  /** Where a thread stands: the atomic operation it is about to perform. */
  datatype Pc =
    | Idle      // holds nothing, wants nothing
    | FastCas   // lock: compare-exchange 0 -> 1
    | TryCas    // try_lock: compare-exchange 0 -> 1
    | Swap      // lock, slow path: swap in 2
    | Wait      // lock, slow path: futex_wait(state, 2)
    | Asleep    // sleeping in the kernel on the word
    | Holding   // owns a guard
    | Wake      // unlock saw 2: futex_wake(state, 1) is owed

  datatype State = State(word: nat, pc: map<Tid, Pc>)

  function PcOf(s: State, t: Tid): Pc
  {
    if t in s.pc then s.pc[t] else Idle
  }

  function Set(s: State, t: Tid, p: Pc): State
  {
    s.(pc := s.pc[t := p])
  }

  ghost predicate Some(s: State, p: Pc)
  {
    exists t :: PcOf(s, t) == p
  }

  ghost const Init: State := State(UNLOCKED, map[])

  datatype Step =
    | Lock(t: Tid) | TryLock(t: Tid)
    | DoFastCas(t: Tid) | DoTryCas(t: Tid) | DoSwap(t: Tid) | DoWait(t: Tid)
    | Unlock(t: Tid)
    | WakeOne(t: Tid, sleeper: Tid) | WakeNone(t: Tid)
    | Spurious(t: Tid)

  ghost predicate Enabled(s: State, step: Step)
  {
    match step
    case Lock(t) => PcOf(s, t) == Idle
    case TryLock(t) => PcOf(s, t) == Idle
    case DoFastCas(t) => PcOf(s, t) == FastCas
    case DoTryCas(t) => PcOf(s, t) == TryCas
    case DoSwap(t) => PcOf(s, t) == Swap
    case DoWait(t) => PcOf(s, t) == Wait
    case Unlock(t) => PcOf(s, t) == Holding
    case WakeOne(t, u) => PcOf(s, t) == Wake && PcOf(s, u) == Asleep
    case WakeNone(t) => PcOf(s, t) == Wake && !Some(s, Asleep)
    case Spurious(t) => PcOf(s, t) == Asleep
  }

  function Apply(s: State, step: Step): State
  {
    match step
    case Lock(t) => Set(s, t, FastCas)
    case TryLock(t) => Set(s, t, TryCas)
    case DoFastCas(t) =>
      if s.word == UNLOCKED then Set(s.(word := LOCKED), t, Holding) else Set(s, t, Swap)
    case DoTryCas(t) =>
      if s.word == UNLOCKED then Set(s.(word := LOCKED), t, Holding) else Set(s, t, Idle)
    case DoSwap(t) =>
      Set(s.(word := CONTENDED), t, if s.word == UNLOCKED then Holding else Wait)
    case DoWait(t) =>
      Set(s, t, if s.word == CONTENDED then Asleep else Swap)
    case Unlock(t) =>
      Set(s.(word := UNLOCKED), t, if s.word == CONTENDED then Wake else Idle)
    case WakeOne(t, u) => Set(Set(s, u, Swap), t, Idle)
    case WakeNone(t) => Set(s, t, Idle)
    case Spurious(t) => Set(s, t, Swap)
  }

  /** A run: each state follows from the one before by an enabled step. */
  ghost predicate IsRun(run: seq<State>, steps: seq<Step>)
  {
    && |run| == |steps| + 1
    && run[0] == Init
    && (forall i :: 0 <= i < |steps| ==> Enabled(run[i], steps[i]) && run[i + 1] == Apply(run[i], steps[i]))
  }

  // ---- invariant ----

  ghost predicate OneHolder(s: State)
  {
    forall t, u :: PcOf(s, t) == Holding && PcOf(s, u) == Holding ==> t == u
  }

  ghost predicate WordTellsHeld(s: State)
  {
    s.word <= CONTENDED && (s.word == UNLOCKED <==> !Some(s, Holding))
  }

  /** While someone sleeps, the word says so, or a wake is owed, or a thread awake is about to mark the word. */
  ghost predicate SleepersRemembered(s: State)
  {
    Some(s, Asleep) ==> s.word == CONTENDED || Some(s, Wake) || Some(s, Swap)
  }

  ghost predicate Inv(s: State)
  {
    OneHolder(s) && WordTellsHeld(s) && SleepersRemembered(s)
  }

  lemma StepKeepsInv(s: State, step: Step)
    requires Inv(s) && Enabled(s, step)
    ensures Inv(Apply(s, step))
  {
    var s' := Apply(s, step);
    if step.WakeOne? {
      assert PcOf(s', step.sleeper) == Swap;
    }
    assert PcOf(s', step.t) == s'.pc[step.t];
    assert forall u :: u != step.t && !(step.WakeOne? && u == step.sleeper) ==> PcOf(s', u) == PcOf(s, u);
  }

  lemma {:induction false} RunKeepsInv(run: seq<State>, steps: seq<Step>, i: nat)
    requires IsRun(run, steps) && i < |run|
    ensures Inv(run[i])
  {
    if i > 0 {
      RunKeepsInv(run, steps, i - 1);
      StepKeepsInv(run[i - 1], steps[i - 1]);
    }
  }

  /** At most one guard exists at any moment of any run. */
  lemma MutualExclusion(run: seq<State>, steps: seq<Step>, i: nat, t: Tid, u: Tid)
    requires IsRun(run, steps) && i < |run|
    requires PcOf(run[i], t) == Holding && PcOf(run[i], u) == Holding
    ensures t == u && run[i].word != UNLOCKED
  {
    RunKeepsInv(run, steps, i);
  }

  /** A thread that is inside `lock` and does not own the guard yet. */
  predicate Locking(p: Pc)
  {
    p.FastCas? || p.Swap? || p.Wait? || p.Asleep?
  }

  /** A step inside an operation already begun, other than giving the guard back. */
  predicate Internal(step: Step)
  {
    !step.Lock? && !step.TryLock? && !step.Unlock? && !step.Spurious?
  }

  /** The lock is never free with only sleepers left: some thread inside an operation can move. */
  lemma FreeLockIsNotStuck(s: State, t: Tid) returns (step: Step)
    requires Inv(s) && s.word == UNLOCKED && Locking(PcOf(s, t))
    ensures Internal(step) && Enabled(s, step)
  {
    if PcOf(s, t) == Asleep {
      assert Some(s, Asleep);
      if Some(s, Swap) {
        var u :| PcOf(s, u) == Swap;
        step := DoSwap(u);
      } else {
        var u :| PcOf(s, u) == Wake;
        step := WakeOne(u, t);
      }
    } else {
      step := match PcOf(s, t) case FastCas => DoFastCas(t) case Swap => DoSwap(t) case _ => DoWait(t);
    }
  }

  /** Threads that may still make a step without taking the free lock. */
  ghost function Detours(s: State): set<Tid>
  {
    set t | t in s.pc && (s.pc[t] == Wait || s.pc[t] == Wake)
  }

  /** On a free lock every internal step either takes the lock or uses up one detour. */
  lemma FreeLockProgress(s: State, step: Step)
    requires Inv(s) && s.word == UNLOCKED && Enabled(s, step) && Internal(step)
    ensures var s' := Apply(s, step);
            PcOf(s', step.t) == Holding || (s'.word == UNLOCKED && |Detours(s')| < |Detours(s)|)
  {
    var s' := Apply(s, step);
    if PcOf(s', step.t) != Holding {
      assert step.t in Detours(s) && Detours(s') == Detours(s) - {step.t};
    }
  }

  /** Internal steps alone hand a free lock over within `|Detours| + 1` steps, in whatever order they come. */
  lemma {:induction false} FreeLockIsTaken(run: seq<State>, steps: seq<Step>) returns (i: nat)
    requires |run| == |steps| + 1 && Inv(run[0]) && run[0].word == UNLOCKED
    requires forall i :: 0 <= i < |steps| ==> Internal(steps[i]) && Enabled(run[i], steps[i]) && run[i + 1] == Apply(run[i], steps[i])
    requires |steps| > |Detours(run[0])|
    ensures i < |run| && Some(run[i], Holding)
    decreases |steps|
  {
    FreeLockProgress(run[0], steps[0]);
    if PcOf(run[1], steps[0].t) == Holding {
      i := 1;
    } else {
      StepKeepsInv(run[0], steps[0]);
      var j := FreeLockIsTaken(run[1..], steps[1..]);
      i := j + 1;
    }
  }

  // ---- refinement of an abstract lock ----

  datatype Owner = Nobody | Of(t: Tid)

  /** The abstract lock: who owns it, if anyone. */
  ghost function OwnerOf(s: State): Owner
  {
    if Some(s, Holding) then (var t :| PcOf(s, t) == Holding; Of(t)) else Nobody
  }

  lemma OwnerIs(s: State, t: Tid)
    requires Inv(s)
    ensures PcOf(s, t) == Holding <==> OwnerOf(s) == Of(t)
  {
    assert PcOf(s, t) == Holding ==> Some(s, Holding);
  }

  /** Each step is an acquire by the stepping thread of a lock nobody owned, a release by its owner, or no change of ownership. */
  lemma RefinesLock(s: State, step: Step)
    requires Inv(s) && Enabled(s, step)
    ensures var o, o' := OwnerOf(s), OwnerOf(Apply(s, step));
            if step.Unlock? then o == Of(step.t) && o' == Nobody
            else o' == o || (o == Nobody && o' == Of(step.t))
  {
    var s' := Apply(s, step);
    StepKeepsInv(s, step);
    OwnerIs(s, step.t);
    OwnerIs(s', step.t);
    if step.Unlock? {
      assert s'.word == UNLOCKED;
    } else if PcOf(s', step.t) != Holding {
      forall u ensures PcOf(s', u) == Holding <==> PcOf(s, u) == Holding {
        assert step.WakeOne? ==> PcOf(s', step.sleeper) == Swap;
      }
      SameOwner(s, s');
    } else {
      assert s.word == UNLOCKED;
    }
  }

  lemma SameOwner(s: State, s': State)
    requires Inv(s) && Inv(s') && forall u :: PcOf(s', u) == Holding <==> PcOf(s, u) == Holding
    ensures OwnerOf(s) == OwnerOf(s')
  {
    if Some(s, Holding) {
      var t :| PcOf(s, t) == Holding;
      OwnerIs(s, t);
      OwnerIs(s', t);
    }
  }
}
