/** The one-shot initialiser as a transition system over any number of threads, one step per atomic operation. */
module FutexOnce {
  type Tid = nat

  const EMPTY: nat := 0
  const RUNNING: nat := 1
  const READY: nat := 2

  datatype Data = Unset | Value(v: int)

  datatype Pc =
    | Idle
    | Peek            // get_or_init: first load
    | Claim           // compare-exchange 0 -> 1
    | Run(v: int)     // won: f() will produce v
    | Publish         // store 2
    | WakeAll         // futex_wake(state, all)
    | Check           // lost: load in the loop condition
    | Wait            // futex_wait(state, 1)
    | Asleep
    | Read            // unwrap the data
    | Get             // get: load
    | Got(v: int)     // returned a reference to v

  datatype State = State(word: nat, data: Data, pc: map<Tid, Pc>, calls: nat)

  function PcOf(s: State, t: Tid): Pc
  {
    if t in s.pc then s.pc[t] else Idle
  }

  function Set(s: State, t: Tid, p: Pc): State
  {
    s.(pc := s.pc[t := p])
  }

  ghost const Init: State := State(EMPTY, Unset, map[], 0)

  /** `go` moves one thread by one operation; `v` is what its initialiser would return. */
  datatype Step = Call(t: Tid) | CallGet(t: Tid) | Go(t: Tid, v: int) | Spurious(t: Tid)

  ghost predicate Enabled(s: State, step: Step)
  {
    match step
    case Call(t) => PcOf(s, t).Idle? || PcOf(s, t).Got?
    case CallGet(t) => PcOf(s, t).Idle? || PcOf(s, t).Got?
    case Go(t, _) => !PcOf(s, t).Idle? && !PcOf(s, t).Got? && !PcOf(s, t).Asleep?
    case Spurious(t) => PcOf(s, t).Asleep?
  }

  function Woken(pc: map<Tid, Pc>): map<Tid, Pc>
  {
    map t | t in pc :: if pc[t].Asleep? then Check else pc[t]
  }

  function Apply(s: State, step: Step): State
  {
    match step
    case Call(t) => Set(s, t, Peek)
    case CallGet(t) => Set(s, t, Get)
    case Spurious(t) => Set(s, t, Check)
    case Go(t, v) =>
      match PcOf(s, t)
      case Peek => Set(s, t, if s.word == READY then Read else Claim)
      case Claim => if s.word == EMPTY then Set(s.(word := RUNNING), t, Run(v)) else Set(s, t, Check)
      case Run(w) => Set(s.(data := Value(w), calls := s.calls + 1), t, Publish)
      case Publish => Set(s.(word := READY), t, WakeAll)
      case WakeAll => Set(s.(pc := Woken(s.pc)), t, Read)
      case Check => Set(s, t, if s.word == READY then Read else Wait)
      case Wait => Set(s, t, if s.word == RUNNING then Asleep else Check)
      case Read => Set(s, t, Got(if s.data.Value? then s.data.v else 0))
      case Get => Set(s, t, if s.word == READY then Read else Idle)
      case _ => s
  }

  ghost predicate IsRun(run: seq<State>, steps: seq<Step>)
  {
    && |run| == |steps| + 1
    && run[0] == Init
    && (forall i :: 0 <= i < |steps| ==> Enabled(run[i], steps[i]) && run[i + 1] == Apply(run[i], steps[i]))
  }

  // ---- invariant ----

  predicate Initialising(p: Pc)
  {
    p.Run? || p.Publish?
  }

  /** The word says how far initialisation is, and at most one thread is doing it. */
  ghost predicate WordTellsProgress(s: State)
  {
    && s.word <= READY
    && (s.word == RUNNING <==> exists t :: Initialising(PcOf(s, t)))
    && (forall t, u :: Initialising(PcOf(s, t)) && Initialising(PcOf(s, u)) ==> t == u)
  }

  ghost predicate DataSetOnce(s: State)
  {
    && s.calls == (if s.data.Value? then 1 else 0)
    && (s.word == READY ==> s.data.Value?)
    && (s.word == EMPTY ==> s.data.Unset?)
    && (forall t :: PcOf(s, t).Run? ==> s.data.Unset?)
    && (forall t :: PcOf(s, t).Publish? ==> s.data.Value?)
  }

  ghost predicate ReadersSeeIt(s: State)
  {
    forall t ::
      && (PcOf(s, t).Read? || PcOf(s, t).WakeAll? ==> s.word == READY)
      && (PcOf(s, t).Got? ==> s.data == Value(PcOf(s, t).v))
      && (PcOf(s, t).Asleep? || PcOf(s, t).Wait? || PcOf(s, t).Check? ==> s.word != EMPTY)
  }

  /** Nobody sleeps once the value is ready unless the wake-all is still to come. */
  ghost predicate SleepersWoken(s: State)
  {
    (exists t :: PcOf(s, t).Asleep?) && s.word == READY ==> exists t :: PcOf(s, t).WakeAll?
  }

  ghost predicate Inv(s: State)
  {
    WordTellsProgress(s) && DataSetOnce(s) && ReadersSeeIt(s) && SleepersWoken(s)
  }

  lemma StepKeepsInv(s: State, step: Step)
    requires Inv(s) && Enabled(s, step)
    ensures Inv(Apply(s, step))
  {
    if step.Go? && PcOf(s, step.t).WakeAll? {
      WakeKeepsInv(s, step.t, step.v);
    } else {
      OtherKeepsInv(s, step);
    }
  }

  lemma WakeKeepsInv(s: State, t: Tid, v: int)
    requires Inv(s) && PcOf(s, t).WakeAll?
    ensures Inv(Apply(s, Go(t, v)))
  {
    var s' := Apply(s, Go(t, v));
    assert PcOf(s', t) == s'.pc[t];
    assert forall u :: u != t ==> PcOf(s', u) == (if PcOf(s, u).Asleep? then Check else PcOf(s, u));
    assert forall u :: Initialising(PcOf(s', u)) ==> Initialising(PcOf(s, u));
  }

  lemma OtherKeepsInv(s: State, step: Step)
    requires Inv(s) && Enabled(s, step) && !(step.Go? && PcOf(s, step.t).WakeAll?)
    ensures Inv(Apply(s, step))
  {
    var s' := Apply(s, step);
    var t := step.t;
    assert PcOf(s', t) == s'.pc[t];
    assert forall u :: u != t ==> PcOf(s', u) == PcOf(s, u);
    if exists u :: PcOf(s, u).WakeAll? {
      var u :| PcOf(s, u).WakeAll?;
      assert PcOf(s', u).WakeAll?;
    }
    if exists u :: Initialising(PcOf(s, u)) {
      var u :| Initialising(PcOf(s, u));
      assert u == t || Initialising(PcOf(s', u));
    }
  }

  lemma {:induction false} RunKeepsInv(run: seq<State>, steps: seq<Step>, i: nat)
    requires IsRun(run, steps) && i < |run|
    ensures Inv(run[i])
  {
    if i > 0 {
      RunKeepsInv(run, steps, i - 1);
      StepKeepsInv(run[i - 1], steps[i - 1]);
    }
  }

  /** The initialiser runs at most once, and every caller of either operation is given its one value. */
  lemma EveryCallerSeesTheOneValue(run: seq<State>, steps: seq<Step>, i: nat, j: nat, t: Tid, u: Tid)
    requires IsRun(run, steps) && i <= j < |run|
    requires PcOf(run[i], t).Got? && PcOf(run[j], u).Got?
    ensures run[i].calls == run[j].calls == 1 && PcOf(run[i], t).v == PcOf(run[j], u).v
  {
    RunKeepsInv(run, steps, i);
    RunKeepsInv(run, steps, j);
    ValueStays(run, steps, i, j);
  }

  lemma {:induction false} ValueStays(run: seq<State>, steps: seq<Step>, i: nat, j: nat)
    requires IsRun(run, steps) && i <= j < |run| && run[i].data.Value?
    ensures run[j].data == run[i].data
    decreases j - i
  {
    if i < j {
      ValueStays(run, steps, i, j - 1);
      RunKeepsInv(run, steps, j - 1);
      var s, step := run[j - 1], steps[j - 1];
      assert run[j] == Apply(s, step);
      assert !PcOf(s, step.t).Run?;
    }
  }

  /** Reading the data never finds it missing, so the unchecked unwrap is sound. */
  lemma UnwrapIsSound(run: seq<State>, steps: seq<Step>, i: nat, t: Tid)
    requires IsRun(run, steps) && i < |run| && PcOf(run[i], t).Read?
    ensures run[i].data.Value? && PcOf(Apply(run[i], Go(t, 0)), t) == Got(run[i].data.v)
  {
    RunKeepsInv(run, steps, i);
  }

  /** After readiness a sleeper implies a wake-all still owed. */
  lemma NoSleeperLeftBehind(run: seq<State>, steps: seq<Step>, i: nat, t: Tid)
    requires IsRun(run, steps) && i < |run| && PcOf(run[i], t).Asleep?
    ensures exists u :: Initialising(PcOf(run[i], u)) || PcOf(run[i], u).WakeAll?
  {
    RunKeepsInv(run, steps, i);
  }
}
