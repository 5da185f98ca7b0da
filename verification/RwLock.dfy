/**
 The reader-writer lock as a transition system over any number of threads, one step per atomic
 operation. The word is a 32-bit counter of readers, with the all-ones value standing for a writer.
 */
module FutexRwLock {
  type Tid = nat

  const UNLOCKED: nat := 0
  const WRITER: nat := 0xFFFF_FFFF

  datatype Pc =
    | Idle
    | ReadLoad | ReadCas(seen: nat) | ReadWait | TryReadLoad | TryReadCas(seen: nat)
    | WriteCas | WriteLoad | WriteWait(seen: nat) | TryWriteCas
    | Asleep(writer: bool, on: nat)
    | Reading | Writing
    | WakeOne          // the last reader owes one wake
    | WakeAll          // the writer owes a wake to everybody

  datatype State = State(word: nat, pc: map<Tid, Pc>)

  function PcOf(s: State, t: Tid): Pc
  {
    if t in s.pc then s.pc[t] else Idle
  }

  function Set(s: State, t: Tid, p: Pc): State
  {
    s.(pc := s.pc[t := p])
  }

  ghost const Init: State := State(UNLOCKED, map[])

  datatype Step =
    | Read(t: Tid) | TryRead(t: Tid) | Write(t: Tid) | TryWrite(t: Tid)
    | Go(t: Tid)                   // the next operation of a thread awake and not holding a guard
    | WeakFail(t: Tid)             // the weak compare-exchange of `read` fails for no reason
    | Drop(t: Tid)                 // a guard is dropped
    | Wake(t: Tid, sleeper: Tid)   // the one wake owed goes to `sleeper`
    | WakeNone(t: Tid)             // nobody sleeps
    | Spurious(t: Tid)

  ghost predicate Enabled(s: State, step: Step)
  {
    match step
    case Read(t) => PcOf(s, t).Idle?
    case TryRead(t) => PcOf(s, t).Idle?
    case Write(t) => PcOf(s, t).Idle?
    case TryWrite(t) => PcOf(s, t).Idle?
    case Go(t) => !PcOf(s, t).Idle? && !PcOf(s, t).Asleep? && !PcOf(s, t).Reading? && !PcOf(s, t).Writing? && !PcOf(s, t).WakeOne?
    case WeakFail(t) => PcOf(s, t).ReadCas?
    case Drop(t) => PcOf(s, t).Reading? || PcOf(s, t).Writing?
    case Wake(t, u) => PcOf(s, t).WakeOne? && PcOf(s, u).Asleep?
    case WakeNone(t) => PcOf(s, t).WakeOne? && forall u :: !PcOf(s, u).Asleep?
    case Spurious(t) => PcOf(s, t).Asleep?
  }

  /** Where a sleeper resumes: the top of its loop. */
  function Resume(p: Pc): Pc
  {
    if p.Asleep? then (if p.writer then WriteCas else ReadLoad) else p
  }

  function Woken(pc: map<Tid, Pc>): map<Tid, Pc>
  {
    map t | t in pc :: Resume(pc[t])
  }

  function ApplyGo(s: State, t: Tid): State
  {
    match PcOf(s, t)
    case ReadLoad => Set(s, t, if s.word != WRITER then ReadCas(s.word) else ReadWait)
    case ReadCas(seen) => if s.word == seen then Set(s.(word := seen + 1), t, Reading) else Set(s, t, ReadLoad)
    case ReadWait => Set(s, t, if s.word == WRITER then Asleep(false, WRITER) else ReadLoad)
    case TryReadLoad => Set(s, t, if s.word != WRITER then TryReadCas(s.word) else Idle)
    case TryReadCas(seen) => if s.word == seen then Set(s.(word := seen + 1), t, Reading) else Set(s, t, Idle)
    case WriteCas => if s.word == UNLOCKED then Set(s.(word := WRITER), t, Writing) else Set(s, t, WriteLoad)
    case WriteLoad => Set(s, t, WriteWait(s.word))
    case WriteWait(seen) => Set(s, t, if s.word == seen then Asleep(true, seen) else WriteCas)
    case TryWriteCas => if s.word == UNLOCKED then Set(s.(word := WRITER), t, Writing) else Set(s, t, Idle)
    case WakeAll => Set(s.(pc := Woken(s.pc)), t, Idle)
    case _ => s
  }

  function Apply(s: State, step: Step): State
  {
    match step
    case Read(t) => Set(s, t, ReadLoad)
    case TryRead(t) => Set(s, t, TryReadLoad)
    case Write(t) => Set(s, t, WriteCas)
    case TryWrite(t) => Set(s, t, TryWriteCas)
    case Go(t) => ApplyGo(s, t)
    case WeakFail(t) => Set(s, t, ReadLoad)
    case Drop(t) =>
      if PcOf(s, t).Reading? then Set(s.(word := if s.word == 0 then WRITER else s.word - 1), t, if s.word == 1 then WakeOne else Idle)
      else Set(s.(word := UNLOCKED), t, WakeAll)
    case Wake(t, u) => Set(Set(s, u, Resume(PcOf(s, u))), t, Idle)
    case WakeNone(t) => Set(s, t, Idle)
    case Spurious(t) => Set(s, t, Resume(PcOf(s, t)))
  }

  ghost predicate IsRun(run: seq<State>, steps: seq<Step>)
  {
    && |run| == |steps| + 1
    && run[0] == Init
    && (forall i :: 0 <= i < |steps| ==> Enabled(run[i], steps[i]) && run[i + 1] == Apply(run[i], steps[i]))
  }

  // ---- exclusion ----

  ghost function Readers(s: State): set<Tid>
  {
    set t | t in s.pc && s.pc[t].Reading?
  }

  ghost function Writers(s: State): set<Tid>
  {
    set t | t in s.pc && s.pc[t].Writing?
  }

  /** Either one writer alone, or the word counts the readers. A counted reader was seen below the writer value. */
  ghost predicate Counted(s: State)
  {
    && (if Writers(s) == {} then s.word == |Readers(s)| else |Writers(s)| == 1 && Readers(s) == {} && s.word == WRITER)
    && s.word <= WRITER
    && (forall t :: SeenOk(PcOf(s, t)))
  }

  lemma SetGuards(s: State, t: Tid, p: Pc)
    ensures Readers(Set(s, t, p)) == (if p.Reading? then Readers(s) + {t} else Readers(s) - {t})
    ensures Writers(Set(s, t, p)) == (if p.Writing? then Writers(s) + {t} else Writers(s) - {t})
  {
  }

  lemma WokenGuards(s: State)
    ensures Readers(s.(pc := Woken(s.pc))) == Readers(s) && Writers(s.(pc := Woken(s.pc))) == Writers(s)
  {
  }

  predicate Guard(p: Pc)
  {
    p.Reading? || p.Writing?
  }

  /** `seen` values stay below the writer value. */
  predicate SeenOk(p: Pc)
  {
    p.ReadCas? || p.TryReadCas? ==> p.seen < WRITER
  }

  /** How one thread's move may change the word. */
  ghost predicate Accounted(s: State, p: Pc, word': nat, p': Pc)
  {
    || (!Guard(p) && !Guard(p') && word' == s.word && SeenOk(p'))
    || (!Guard(p) && p'.Reading? && s.word < WRITER && word' == s.word + 1)
    || (!Guard(p) && p'.Writing? && s.word == UNLOCKED && word' == WRITER)
    || (p.Reading? && !Guard(p') && SeenOk(p') && word' == (if s.word == 0 then WRITER else s.word - 1))
    || (p.Writing? && !Guard(p') && SeenOk(p') && word' == UNLOCKED)
  }

  lemma Single(w: set<Tid>, t: Tid)
    requires |w| == 1 && t in w
    ensures w == {t}
  {
    assert |w - {t}| == 0;
    assert w == (w - {t}) + {t};
  }

  lemma AccountedKeepsCounted(s: State, t: Tid, word': nat, p': Pc)
    requires Counted(s) && Accounted(s, PcOf(s, t), word', p')
    ensures Counted(Set(s.(word := word'), t, p'))
  {
    var s' := Set(s.(word := word'), t, p');
    forall u ensures SeenOk(PcOf(s', u)) {
      assert SeenOk(PcOf(s, u));
    }
    SetGuards(s.(word := word'), t, p');
    assert t in Readers(s) <==> PcOf(s, t).Reading?;
    assert t in Writers(s) <==> PcOf(s, t).Writing?;
    assert Readers(s.(word := word')) == Readers(s) && Writers(s.(word := word')) == Writers(s);
    if PcOf(s, t).Writing? {
      Single(Writers(s), t);
    }
  }

  lemma MoveIsAccounted(s: State, step: Step)
    requires Counted(s) && Enabled(s, step) && !step.Wake? && !(step.Go? && PcOf(s, step.t).WakeAll?)
    ensures var s' := Apply(s, step);
            s'.pc == s.pc[step.t := PcOf(s', step.t)] && Accounted(s, PcOf(s, step.t), s'.word, PcOf(s', step.t))
  {
    assert SeenOk(PcOf(s, step.t));
  }

  lemma StepKeepsCounted(s: State, step: Step)
    requires Counted(s) && Enabled(s, step)
    ensures Counted(Apply(s, step))
  {
    var t := step.t;
    var s' := Apply(s, step);
    if step.Go? && PcOf(s, t).WakeAll? {
      WokenGuards(s);
      forall u ensures SeenOk(PcOf(s.(pc := Woken(s.pc)), u)) {
        assert SeenOk(PcOf(s, u));
      }
      AccountedKeepsCounted(s.(pc := Woken(s.pc)), t, s.word, Idle);
    } else if step.Wake? {
      var u := step.sleeper;
      AccountedKeepsCounted(s, u, s.word, Resume(PcOf(s, u)));
      AccountedKeepsCounted(Set(s, u, Resume(PcOf(s, u))), t, s.word, Idle);
    } else {
      MoveIsAccounted(s, step);
      AccountedKeepsCounted(s, t, s'.word, PcOf(s', t));
      assert s' == Set(s.(word := s'.word), t, PcOf(s', t));
    }
  }

  lemma {:induction false} RunKeepsCounted(run: seq<State>, steps: seq<Step>, i: nat)
    requires IsRun(run, steps) && i < |run|
    ensures Counted(run[i])
  {
    if i > 0 {
      RunKeepsCounted(run, steps, i - 1);
      StepKeepsCounted(run[i - 1], steps[i - 1]);
    } else {
      assert Readers(Init) == {} && Writers(Init) == {};
    }
  }

  /** A writer excludes every other guard, with no bound on the number of threads. */
  lemma WriterExcludesAll(run: seq<State>, steps: seq<Step>, i: nat, t: Tid, u: Tid)
    requires IsRun(run, steps) && i < |run|
    requires PcOf(run[i], t).Writing? && Guard(PcOf(run[i], u))
    ensures t == u
  {
    RunKeepsCounted(run, steps, i);
    var s := run[i];
    assert t in Writers(s) && (u in Writers(s) || u in Readers(s));
    Single(Writers(s), t);
  }

  /** The word decodes to the guards that exist exactly while fewer than 2^32 - 1 readers share the lock. */
  lemma WordDecodes(run: seq<State>, steps: seq<Step>, i: nat)
    requires IsRun(run, steps) && i < |run|
    ensures var s := run[i];
            && (Writers(s) == {} ==> s.word == |Readers(s)|)
            && ((s.word == WRITER <==> Writers(s) != {}) <==> |Readers(s)| < WRITER)
  {
    RunKeepsCounted(run, steps, i);
  }

  /** Any number of readers up to the writer mark can share the lock. */
  lemma {:induction false} ReadersShare(n: nat) returns (s: State)
    requires n <= WRITER
    ensures Reachable(s) && s.word == n && forall t :: t in s.pc ==> t < n && s.pc[t].Reading?
  {
    if n == 0 {
      s := Init;
      assert IsRun([Init], []) && [Init][0] == Init;
    } else {
      var before := ReadersShare(n - 1);
      s := OneMoreReads(before, n - 1);
    }
  }

  lemma OneMoreReads(before: State, t: Tid) returns (s: State)
    requires Reachable(before) && before.word < WRITER && t !in before.pc
    ensures Reachable(s) && s == State(before.word + 1, before.pc[t := Reading])
  {
    var loading, swapping := Set(before, t, ReadLoad), Set(before, t, ReadCas(before.word));
    s := State(before.word + 1, before.pc[t := Reading]);
    ReachStep(before, Read(t), loading);
    assert loading.pc[t := ReadCas(before.word)] == swapping.pc;
    ReachStep(loading, Go(t), swapping);
    assert swapping.pc[t := Reading] == s.pc;
    ReachStep(swapping, Go(t), s);
  }

  /** With 2^32 - 1 readers the word reads as if a writer held the lock. */
  lemma ReadersCanLookLikeWriter() returns (s: State)
    ensures Reachable(s) && s.word == WRITER && Writers(s) == {} && |Readers(s)| == WRITER
  {
    s := ReadersShare(WRITER);
    var run, steps :| IsRun(run, steps) && run[|steps|] == s;
    RunKeepsCounted(run, steps, |steps|);
    assert Writers(s) == {};
  }

  // ---- wake-ups ----

  /** A thread awake inside `read` or `write`, which will either take the lock or look at the word again. */
  predicate Trying(p: Pc)
  {
    p.ReadLoad? || p.ReadCas? || p.ReadWait? || p.WriteCas? || p.WriteLoad? || p.WriteWait?
  }

  /** A thread that owes a wake or is still trying. */
  predicate Hopeful(p: Pc)
  {
    p.WakeOne? || p.WakeAll? || Trying(p)
  }

  /** A writer that went to sleep on the unlocked word. */
  predicate Blind(p: Pc)
  {
    p == Asleep(true, UNLOCKED)
  }

  /** On a free lock a sleeper is owed a wake, or some thread is still trying, or a writer sleeps on the unlocked word. */
  ghost predicate Remembered(s: State)
  {
    s.word == UNLOCKED && (exists t :: PcOf(s, t).Asleep?) ==> exists t :: Hopeful(PcOf(s, t)) || Blind(PcOf(s, t))
  }

  lemma StepKeepsRemembered(s: State, step: Step)
    requires Counted(s) && Remembered(s) && Enabled(s, step)
    ensures Remembered(Apply(s, step))
  {
    var s' := Apply(s, step);
    if step.Wake? {
      assert Trying(PcOf(s', step.sleeper));
    } else if step.Go? && PcOf(s, step.t).WakeAll? {
      assert forall u :: !PcOf(s', u).Asleep?;
    } else if exists u :: u != step.t && (Hopeful(PcOf(s, u)) || Blind(PcOf(s, u))) {
      var u :| u != step.t && (Hopeful(PcOf(s, u)) || Blind(PcOf(s, u)));
      assert PcOf(s', u) == PcOf(s, u);
    } else {
      LastHopeMoves(s, step);
    }
  }

  /** A step of the only thread that can remember the sleepers. */
  lemma LastHopeMoves(s: State, step: Step)
    requires Counted(s) && Remembered(s) && Enabled(s, step) && !step.Wake? && !(step.Go? && PcOf(s, step.t).WakeAll?)
    requires forall u :: u != step.t ==> !Hopeful(PcOf(s, u)) && !Blind(PcOf(s, u))
    ensures Remembered(Apply(s, step))
  {
    var s' := Apply(s, step);
    assert PcOf(s, step.t).Reading? ==> step.t in Readers(s);
    assert forall u :: u != step.t ==> PcOf(s', u) == PcOf(s, u);
    assert Hopeful(PcOf(s', step.t)) || Blind(PcOf(s', step.t)) || s'.word != UNLOCKED || forall u :: !PcOf(s', u).Asleep?;
  }

  lemma {:induction false} RunKeepsRemembered(run: seq<State>, steps: seq<Step>, i: nat)
    requires IsRun(run, steps) && i < |run|
    ensures Remembered(run[i])
  {
    if i > 0 {
      RunKeepsRemembered(run, steps, i - 1);
      RunKeepsCounted(run, steps, i - 1);
      StepKeepsRemembered(run[i - 1], steps[i - 1]);
    }
  }

  /** A free lock that nobody is about to take or pass on leaves sleepers behind exactly if a writer sleeps on the unlocked word. */
  lemma SleepersLeftIffBlind(run: seq<State>, steps: seq<Step>, i: nat)
    requires IsRun(run, steps) && i < |run|
    requires run[i].word == UNLOCKED && forall t :: !Hopeful(PcOf(run[i], t))
    ensures (exists t :: PcOf(run[i], t).Asleep?) <==> (exists t :: Blind(PcOf(run[i], t)))
  {
    RunKeepsRemembered(run, steps, i);
  }

  // ---- the wake-up that can be missed ----

  /** Thread `w` sleeps on a free lock and nobody else is inside an operation. */
  ghost predicate Abandoned(s: State, w: Tid)
  {
    s.word == UNLOCKED && PcOf(s, w).Asleep? && forall t :: t != w ==> PcOf(s, t).Idle?
  }

  /** Nothing but a new call or a spurious wake-up can follow. */
  lemma NobodyWillWake(s: State, w: Tid, step: Step)
    requires Abandoned(s, w) && Enabled(s, step)
    ensures step.Read? || step.TryRead? || step.Write? || step.TryWrite? || step == Spurious(w)
  {
    assert step.t == w || PcOf(s, step.t).Idle?;
  }

  ghost predicate Reachable(s: State)
  {
    exists run, steps :: IsRun(run, steps) && run[|steps|] == s
  }

  lemma ReachStep(s: State, step: Step, s': State)
    requires Reachable(s) && Enabled(s, step) && Apply(s, step) == s'
    ensures Reachable(s')
  {
    var run, steps :| IsRun(run, steps) && run[|steps|] == s;
    var run', steps' := run + [s'], steps + [step];
    assert IsRun(run', steps') && run'[|steps'|] == s';
  }

  ghost function Two(word: nat, p: Pc, q: Pc): State
  {
    State(word, map[0 := p, 1 := q])
  }

  /** A move of one of two threads. */
  lemma TwoStep(word: nat, p: Pc, q: Pc, step: Step, word': nat, p': Pc, q': Pc)
    requires Reachable(Two(word, p, q)) && Enabled(Two(word, p, q), step)
    requires Apply(Two(word, p, q), step) == Set(Two(word', p, q), step.t, if step.t == 0 then p' else q')
    requires (step.t == 0 && q' == q) || (step.t == 1 && p' == p)
    ensures Reachable(Two(word', p', q'))
  {
    assert map[0 := p, 1 := q][step.t := if step.t == 0 then p' else q'] == map[0 := p', 1 := q'];
    ReachStep(Two(word, p, q), step, Two(word', p', q'));
  }

  lemma BothBegin()
    ensures Reachable(Two(UNLOCKED, ReadLoad, WriteCas))
  {
    assert IsRun([Init], []) && [Init][0] == Init;
    ReachStep(Init, Read(0), State(UNLOCKED, map[0 := ReadLoad]));
    ReachStep(State(UNLOCKED, map[0 := ReadLoad]), Write(1), Two(UNLOCKED, ReadLoad, WriteCas));
  }

  lemma ReaderHoldsWriterTries()
    ensures Reachable(Two(1, Reading, WriteLoad))
  {
    BothBegin();
    TwoStep(UNLOCKED, ReadLoad, WriteCas, Go(0), UNLOCKED, ReadCas(0), WriteCas);
    TwoStep(UNLOCKED, ReadCas(0), WriteCas, Go(0), 1, Reading, WriteCas);
    TwoStep(1, Reading, WriteCas, Go(1), 1, Reading, WriteLoad);
  }

  lemma ReaderLeaves()
    ensures Reachable(Two(UNLOCKED, Idle, WriteLoad))
  {
    ReaderHoldsWriterTries();
    TwoStep(1, Reading, WriteLoad, Drop(0), UNLOCKED, WakeOne, WriteLoad);
    assert forall u :: !PcOf(Two(UNLOCKED, WakeOne, WriteLoad), u).Asleep?;
    TwoStep(UNLOCKED, WakeOne, WriteLoad, WakeNone(0), UNLOCKED, Idle, WriteLoad);
  }

  lemma WriterReloads()
    ensures Reachable(Two(UNLOCKED, Idle, WriteWait(UNLOCKED)))
  {
    ReaderLeaves();
    TwoStep(UNLOCKED, Idle, WriteLoad, Go(1), UNLOCKED, Idle, WriteWait(UNLOCKED));
  }

  /** The last reader leaves between the writer's failed exchange and its reload: the writer sleeps on the free lock. */
  lemma WriterCanSleepOnFreeLock() returns (s: State)
    ensures Reachable(s) && Abandoned(s, 1)
  {
    WriterReloads();
    TwoStep(UNLOCKED, Idle, WriteWait(UNLOCKED), Go(1), UNLOCKED, Idle, Asleep(true, UNLOCKED));
    s := Two(UNLOCKED, Idle, Asleep(true, UNLOCKED));
  }
}
