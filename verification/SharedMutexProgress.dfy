/**
Progress of the readers/writers lock.

As long as the permit of `r` is not lost, the lock is free of deadlock exactly when there are at
most 2^32 threads: with more, 2^32 readers wrap `reader_count` around to zero.
*/
module SharedMutexProgress {
  import opened Common
  import opened SharedMutex
  import opened SharedMutexSafety

  predicate Active(p: PC) { !p.Idle? }

  predicate InCriticalSection(p: PC) { p.Reading? || p.Writing? }

  /** Thread `t` is in an operation and is inside its critical section or has an enabled step. */
  predicate CanMove(s: State, t: Tid) {
    t in s.pc && Active(s.pc[t]) && (InCriticalSection(s.pc[t]) || Enabled(s, t, Proceed))
  }

  /** Some thread is in an entry or exit section, none is inside, and none of them can move. */
  ghost predicate Deadlocked(s: State) {
    (exists t :: t in s.pc && Active(s.pc[t])) && forall t :: !CanMove(s, t)
  }

  // ----- at most 2^32 threads: no deadlock -----

  lemma SmallerThan<K, V>(xs: set<K>, m: map<K, V>, k: K)
    requires xs <= m.Keys && k in m && k !in xs
    ensures |xs| < |m|
  {
    var rest := m.Keys - {k};
    assert xs <= rest && |rest| == |m| - 1;
    SubsetSize(xs, rest);
  }

  lemma {:induction false} SubsetSize<T>(xs: set<T>, ys: set<T>)
    requires xs <= ys
    ensures |xs| <= |ys|
    decreases xs
  {
    if xs != {} {
      var x :| x in xs;
      SubsetSize(xs - {x}, ys - {x});
    }
  }

  /** The owner of `m1` waits at most for `w`, and then a writer has it. */
  lemma M1OwnerLeadsOut(s: State) returns (t: Tid)
    requires Inv(s) && |s.pc| <= UINT_RANGE && s.m1.Some?
    ensures CanMove(s, t)
  {
    t := s.m1.value;
    if s.pc[t].RdAcqW? && s.w == 0 {
      assert t !in CountedReaders(s);
      SmallerThan(CountedReaders(s), s.pc, t);
      assert |At(s, OwnsW)| == 1;
      t :| t in At(s, OwnsW);
    }
  }

  lemma HolderOfWLeadsOut(s: State) returns (t: Tid)
    requires Inv(s) && s.m1.None? && s.w == 0
    ensures CanMove(s, t)
  {
    if |At(s, OwnsW)| > 0 {
      t :| t in At(s, OwnsW);
    } else {
      t :| t in CountedReaders(s);
    }
  }

  lemma HolderOfRLeadsOut(s: State) returns (t: Tid)
    requires Inv(s) && PermitsOfR(s) == 1 && s.m1.None? && s.m2.None? && s.w > 0 && s.r == 0
    ensures CanMove(s, t)
  {
    if |At(s, OwnsR)| > 0 {
      t :| t in At(s, OwnsR);
    } else {
      t :| t in CountedWriters(s);
    }
  }

  /** A writer waiting for `r` is not counted, and it is the first: a reader has `r`. */
  lemma ReaderHasR(s: State, t: Tid)
    requires WriterSide(s) && PermitsOfR(s) == 1 && |s.pc| <= UINT_RANGE
    requires t in s.pc && s.m2 == Some(t) && s.pc[t].WrAcqR? && s.r == 0
    ensures |At(s, OwnsR)| == 1
  {
    assert t !in CountedWriters(s);
    SmallerThan(CountedWriters(s), s.pc, t);
  }

  lemma OwnerOfRCanMove(s: State, t: Tid)
    requires t in s.pc && OwnsR(s.pc[t]) && s.m1.None? && s.w > 0
    ensures CanMove(s, t)
  {
  }

  lemma HolderOfM2CanMove(s: State, t: Tid)
    requires t in s.pc && HoldsM2(s.pc[t]) && (s.pc[t].WrAcqR? ==> s.r > 0)
    ensures CanMove(s, t)
  {
  }

  lemma SomeReaderOwnsR(s: State, t: Tid) returns (u: Tid)
    requires WriterSide(s) && PermitsOfR(s) == 1 && |s.pc| <= UINT_RANGE
    requires t in s.pc && s.m2 == Some(t) && s.pc[t].WrAcqR? && s.r == 0
    ensures u in s.pc && OwnsR(s.pc[u])
  {
    ReaderHasR(s, t);
    u :| u in At(s, OwnsR);
  }

  /** The owner of `m2` waits at most for `r`, and then a reader has it. */
  lemma M2OwnerLeadsOut(s: State) returns (t: Tid)
    requires Owned(s.pc, s.m2, HoldsM2) && WriterSide(s) && PermitsOfR(s) == 1 && |s.pc| <= UINT_RANGE
    requires s.m1.None? && s.w > 0 && s.m2.Some?
    ensures CanMove(s, t)
  {
    t := s.m2.value;
    if s.pc[t].WrAcqR? && s.r == 0 {
      t := SomeReaderOwnsR(s, t);
      OwnerOfRCanMove(s, t);
    } else {
      HolderOfM2CanMove(s, t);
    }
  }

  /** Following who waits for whom always ends at a thread that can move. */
  lemma SomeThreadCanMove(s: State, active: Tid) returns (t: Tid)
    requires Inv(s) && PermitsOfR(s) == 1 && |s.pc| <= UINT_RANGE
    requires active in s.pc && Active(s.pc[active])
    ensures CanMove(s, t)
  {
    if s.m1.Some? {
      t := M1OwnerLeadsOut(s);
    } else if s.w == 0 {
      t := HolderOfWLeadsOut(s);
    } else if s.m2.Some? {
      t := M2OwnerLeadsOut(s);
    } else if s.r == 0 {
      t := HolderOfRLeadsOut(s);
    } else if s.m3.Some? {
      t := s.m3.value;
    } else {
      t := active;
    }
  }

  predicate InHandler(p: PC) { p.CatchAcqM2? || p.CatchDec? }

  ghost predicate NoneInHandler(s: State) { forall t :: t in s.pc ==> !InHandler(s.pc[t]) }

  /** Without exceptions the handler of `wrlock` is not entered and no permit of `r` is lost. */
  ghost predicate Clean(s: State) { Inv(s) && PermitsOfR(s) == 1 && NoneInHandler(s) }

  lemma HandlerNotEntered(s: State, t: Tid, a: Action)
    requires NoneInHandler(s) && a != ThrowFromWLock && Enabled(s, t, a)
    ensures NoneInHandler(Next(s, t, a))
  {
    assert !InHandler(Successor(s, s.pc[t], a));
  }

  lemma PermitKept(s: State, t: Tid, a: Action)
    requires Inv(s) && PermitsOfR(s) == 1 && Enabled(s, t, a) && !InHandler(s.pc[t])
    ensures PermitsOfR(Next(s, t, a)) == 1
  {
    PermitsOfRAfterStep(s, t, a);
  }

  lemma CleanAfter(s: State, t: Tid, a: Action)
    requires Clean(s) && a != ThrowFromWLock && Enabled(s, t, a)
    ensures Clean(Next(s, t, a))
  {
    StepKeepsInv(s, t, a);
    PermitKept(s, t, a);
    HandlerNotEntered(s, t, a);
  }

  lemma CleanStepKeepsPermits(s: State, s': State)
    requires Clean(s) && CleanStep(s, s')
    ensures Clean(s') && s'.pc.Keys == s.pc.Keys
  {
    var t, a :| a != ThrowFromWLock && Enabled(s, t, a) && s' == Next(s, t, a);
    CleanAfter(s, t, a);
  }

  lemma InitClean(threads: set<Tid>)
    ensures Clean(Init(threads)) && Init(threads).pc.Keys == threads
  {
    InitInv(threads);
    assert CountedWriters(Init(threads)) == {} && At(Init(threads), OwnsR) == {};
  }

  lemma StepKeepsThreads(s: State, s': State)
    requires Step(s, s')
    ensures s'.pc.Keys == s.pc.Keys
  {
    var t, a :| Enabled(s, t, a) && s' == Next(s, t, a);
  }

  lemma {:induction false} ThreadsStay(threads: set<Tid>, run: seq<State>, i: nat)
    requires IsRun(run) && run[0] == Init(threads) && i < |run|
    ensures run[i].pc.Keys == threads
  {
    if i == 0 {
      assert Init(threads).pc.Keys == threads;
    } else {
      ThreadsStay(threads, run, i - 1);
      assert Step(run[i - 1], run[i]);
      StepKeepsThreads(run[i - 1], run[i]);
    }
  }

  /** No run of at most 2^32 threads deadlocks, throws included, as long as the permit of `r` is not lost. */
  lemma DeadlockFree(threads: set<Tid>, run: seq<State>, i: nat)
    requires |threads| <= UINT_RANGE
    requires IsRun(run) && run[0] == Init(threads) && i < |run| && !LostBefore(run, i)
    ensures !Deadlocked(run[i])
  {
    ThreadsStay(threads, run, i);
    assert |run[i].pc| == |run[i].pc.Keys|;
    InvAt(threads, run, i);
    PermitLostIff(threads, run, i);
    if active :| active in run[i].pc && Active(run[i].pc[active]) {
      var t := SomeThreadCanMove(run[i], active);
    }
  }

  /** The condition on the permit is needed: after a throw lost it, the next reader is stuck. */
  lemma DeadlockAfterThrow(threads: set<Tid>, t: Tid) returns (run: seq<State>)
    requires t in threads
    ensures IsRun(run) && run[0] == Init(threads) && Deadlocked(run[|run| - 1])
  {
    run := ThrowLosesThePermit(threads, t);
    ghost var s := run[|run| - 1];
    run := ExtendRun(run, t, CallRdLock);
    run := ExtendRun(run, t, Proceed);
    ghost var stuck := run[|run| - 1];
    assert stuck == s.(m3 := Some(t), pc := s.pc[t := RdAcqR]);
    assert t in stuck.pc && Active(stuck.pc[t]);
    assert forall u: Tid :: !CanMove(stuck, u);
  }

  lemma CleanIsRun(run: seq<State>)
    requires IsCleanRun(run)
    ensures IsRun(run)
  {
    forall i | 0 <= i < |run| - 1
      ensures Step(run[i], run[i + 1])
    {
      assert CleanStep(run[i], run[i + 1]);
    }
  }

  lemma {:induction false} CleanAt(threads: set<Tid>, run: seq<State>, i: nat)
    requires IsCleanRun(run) && run[0] == Init(threads) && i < |run|
    ensures Clean(run[i])
  {
    if i == 0 {
      InitClean(threads);
    } else {
      CleanAt(threads, run, i - 1);
      assert CleanStep(run[i - 1], run[i]);
      CleanStepKeepsPermits(run[i - 1], run[i]);
    }
  }

  /** A run in which `w.lock()` never throws does not lose the permit. */
  lemma CleanRunKeepsPermit(threads: set<Tid>, run: seq<State>, i: nat)
    requires IsCleanRun(run) && run[0] == Init(threads) && i < |run|
    ensures IsRun(run) && !LostBefore(run, i)
  {
    CleanIsRun(run);
    CleanAt(threads, run, i);
    PermitLostIff(threads, run, i);
  }

  // ----- more than 2^32 threads: a run that deadlocks -----

  /** `inside` are reading, everything else is idle and unlocked. */
  ghost predicate ReadersInside(s: State, inside: set<Tid>) {
    && s.m1.None? && s.m2.None? && s.m3.None? && s.r == 1 && s.writerCount == 0
    && inside <= s.pc.Keys && |inside| <= UINT_RANGE
    && s.readerCount == (if |inside| == UINT_RANGE then 0 else |inside|)
    && s.w == (if inside == {} then 1 else 0)
    && (forall t :: t in s.pc ==> s.pc[t] == if t in inside then Reading else Idle)
  }

  /** Appends one step of thread `t` to a run. */
  lemma Extend(run: seq<State>, t: Tid, a: Action) returns (longer: seq<State>)
    requires IsCleanRun(run) && a != ThrowFromWLock && Enabled(run[|run| - 1], t, a)
    ensures IsCleanRun(longer) && longer[0] == run[0]
    ensures longer[|longer| - 1] == Next(run[|run| - 1], t, a)
  {
    var s' := Next(run[|run| - 1], t, a);
    longer := run + [s'];
    forall i | 0 <= i < |longer| - 1
      ensures CleanStep(longer[i], longer[i + 1])
    {
      if i < |run| - 1 {
        assert CleanStep(run[i], run[i + 1]);
      }
    }
  }

  /** Thread `t` runs `rdlock` up to and including the test of `reader_count`. */
  lemma RunToTest(run: seq<State>, t: Tid, inside: set<Tid>) returns (longer: seq<State>)
    requires IsCleanRun(run) && ReadersInside(run[|run| - 1], inside) && t in run[|run| - 1].pc && t !in inside
    ensures IsCleanRun(longer) && longer[0] == run[0]
    ensures var s := run[|run| - 1];
      longer[|longer| - 1] == s.(m1 := Some(t), m3 := Some(t), r := 0,
                                 pc := s.pc[t := if s.readerCount == 0 then RdAcqW else RdInc])
  {
    ghost var s := run[|run| - 1];
    longer := Extend(run, t, CallRdLock);
    longer := Extend(longer, t, Proceed);
    longer := Extend(longer, t, Proceed);
    longer := Extend(longer, t, Proceed);
    assert longer[|longer| - 1].pc == s.pc[t := RdTest];
    longer := Extend(longer, t, Proceed);
  }

  /** From the increment on, thread `t` runs `rdlock` to its end. */
  lemma RunFromIncrement(run: seq<State>, t: Tid) returns (longer: seq<State>)
    requires IsCleanRun(run) && t in run[|run| - 1].pc && run[|run| - 1].pc[t] == RdInc
    requires run[|run| - 1].m1 == Some(t) && run[|run| - 1].m3 == Some(t) && run[|run| - 1].r == 0
    ensures IsCleanRun(longer) && longer[0] == run[0]
    ensures var s := run[|run| - 1];
      longer[|longer| - 1] == s.(m1 := None, m3 := None, r := 1, readerCount := Inc(s.readerCount), pc := s.pc[t := Reading])
  {
    ghost var s := run[|run| - 1];
    longer := Extend(run, t, Proceed);
    longer := Extend(longer, t, Proceed);
    longer := Extend(longer, t, Proceed);
    longer := Extend(longer, t, Proceed);
    assert longer[|longer| - 1].pc == s.pc[t := Reading];
  }

  /** With fewer than 2^32 readers inside, one more thread gets in. */
  lemma OneMoreReader(run: seq<State>, t: Tid, inside: set<Tid>) returns (longer: seq<State>)
    requires IsCleanRun(run) && ReadersInside(run[|run| - 1], inside) && t in run[|run| - 1].pc && t !in inside
    requires |inside| < UINT_RANGE
    ensures IsCleanRun(longer) && longer[0] == run[0] && ReadersInside(longer[|longer| - 1], inside + {t})
    ensures longer[|longer| - 1].pc.Keys == run[|run| - 1].pc.Keys
  {
    ghost var s := run[|run| - 1];
    longer := RunToTest(run, t, inside);
    if s.readerCount == 0 {
      longer := Extend(longer, t, Proceed);
    }
    ghost var mid := s.(m1 := Some(t), m3 := Some(t), r := 0, w := 0, pc := s.pc[t := RdInc]);
    assert longer[|longer| - 1] == mid;
    longer := RunFromIncrement(longer, t);
    assert mid.pc[t := Reading] == s.pc[t := Reading];
  }

  lemma FillWithReaders(threads: set<Tid>, chosen: set<Tid>) returns (run: seq<State>)
    requires chosen <= threads && |chosen| <= UINT_RANGE
    ensures IsCleanRun(run) && run[0] == Init(threads) && ReadersInside(run[|run| - 1], chosen)
    ensures run[|run| - 1].pc.Keys == threads
  {
    run := [Init(threads)];
    var inside: set<Tid> := {};
    while inside != chosen
      invariant inside <= chosen
      invariant IsCleanRun(run) && run[0] == Init(threads) && ReadersInside(run[|run| - 1], inside)
      invariant run[|run| - 1].pc.Keys == threads
      decreases chosen - inside
    {
      assert !(chosen <= inside);
      var t :| t in chosen && t !in inside;
      SubsetSize(inside + {t}, chosen);
      run := OneMoreReader(run, t, inside);
      inside := inside + {t};
    }
  }

  /** All readers inside start `rdunlock` and queue up for `m1`. */
  lemma AllLeave(run: seq<State>, inside: set<Tid>) returns (longer: seq<State>)
    requires IsCleanRun(run) && var s := run[|run| - 1]; forall t :: t in inside ==> t in s.pc && s.pc[t] == Reading
    ensures IsCleanRun(longer) && longer[0] == run[0]
    ensures var s, s' := run[|run| - 1], longer[|longer| - 1];
      s' == s.(pc := s'.pc) && s'.pc.Keys == s.pc.Keys
      && forall t :: t in s.pc ==> s'.pc[t] == if t in inside then RuAcqM1 else s.pc[t]
    decreases inside
  {
    longer := run;
    if inside != {} {
      var t :| t in inside;
      longer := Extend(run, t, Proceed);
      longer := AllLeave(longer, inside - {t});
    }
  }

  lemma {:induction false} Choose(threads: set<Tid>, n: nat) returns (chosen: set<Tid>)
    requires n <= |threads|
    ensures chosen <= threads && |chosen| == n
  {
    if n == |threads| {
      chosen := threads;
    } else {
      var t :| t in threads;
      chosen := Choose(threads - {t}, n);
    }
  }

  /** The 2^32 readers inside wrapped the counter to zero, so the next one waits for `w` while it owns `m1`. */
  lemma WrappedCounterBlocks(run: seq<State>, t: Tid, inside: set<Tid>) returns (longer: seq<State>)
    requires IsCleanRun(run) && ReadersInside(run[|run| - 1], inside) && |inside| == UINT_RANGE
    requires t in run[|run| - 1].pc && t !in inside
    ensures IsCleanRun(longer) && longer[0] == run[0] && Deadlocked(longer[|longer| - 1])
  {
    ghost var s := run[|run| - 1];
    longer := RunToTest(run, t, inside);
    longer := AllLeave(longer, inside);
    ghost var s' := longer[|longer| - 1];
    assert s'.pc[t] == RdAcqW && s'.w == 0 && s'.m1 == Some(t);
    forall u
      ensures !CanMove(s', u)
    {
      if u in s'.pc && u != t {
        assert s'.pc[u] == RuAcqM1 || s'.pc[u] == Idle;
      }
    }
  }

  /** For every set of more than 2^32 threads there is a run that deadlocks. */
  lemma DeadlockWithMoreThreads(threads: set<Tid>) returns (run: seq<State>)
    requires |threads| > UINT_RANGE
    ensures IsCleanRun(run) && run[0] == Init(threads) && Deadlocked(run[|run| - 1])
  {
    var inside := Choose(threads, UINT_RANGE);
    run := FillWithReaders(threads, inside);
    assert !(threads <= inside) by {
      if threads <= inside { SubsetSize(threads, inside); }
    }
    var t :| t in threads && t !in inside;
    run := WrappedCounterBlocks(run, t, inside);
  }

  /**
  Deadlock-freedom of all runs that did not lose the permit of `r`, as a condition on the number
  of threads.  With more threads even a run without any throw deadlocks.
  */
  lemma DeadlockFreeIff(threads: set<Tid>)
    ensures |threads| <= UINT_RANGE <==>
      forall run, i :: IsRun(run) && run[0] == Init(threads) && 0 <= i < |run| && !LostBefore(run, i) ==> !Deadlocked(run[i])
  {
    if |threads| <= UINT_RANGE {
      forall run, i | IsRun(run) && run[0] == Init(threads) && 0 <= i < |run| && !LostBefore(run, i)
        ensures !Deadlocked(run[i])
      {
        DeadlockFree(threads, run, i);
      }
    } else {
      var run := DeadlockWithMoreThreads(threads);
      CleanRunKeepsPermit(threads, run, |run| - 1);
      assert Deadlocked(run[|run| - 1]);
    }
  }
}
