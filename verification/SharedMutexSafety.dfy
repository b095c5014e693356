/** Safety of the readers/writers lock over whole runs, exceptions from `w.lock()` included. */
module SharedMutexSafety {
  import opened Common
  import opened SharedMutex

  // ----- mutual exclusion, counters, releases -----

  /** A writer is alone: no second writer and no reader is inside with it. */
  ghost predicate Exclusive(s: State) {
    forall t, u :: t in s.pc && u in s.pc && s.pc[t] == Writing && (s.pc[u] == Writing || s.pc[u] == Reading) ==> t == u
  }

  /** The counters count the threads between their increment and their decrement. */
  ghost predicate CountersExact(s: State) {
    && |CountedReaders(s)| <= UINT_RANGE && s.readerCount == |CountedReaders(s)| % UINT_RANGE
    && |CountedWriters(s)| <= UINT_RANGE && s.writerCount == |CountedWriters(s)| % UINT_RANGE
  }

  /** The semaphores have at most one permit and are released only when they have none. */
  ghost predicate NeverOverReleased(s: State) {
    && s.w <= 1 && s.r <= 1
    && (forall t :: t in s.pc && (s.pc[t].RuRelW? || s.pc[t].WuRelW?) ==> s.w == 0)
    && (forall t :: t in s.pc && (s.pc[t].RdRelR? || s.pc[t].WuRelR?) ==> s.r == 0)
  }

  /** `m3` lets at most one reader wait for `r`. */
  ghost predicate OneReaderQueued(s: State) {
    forall t, u :: t in s.pc && u in s.pc && s.pc[t] == RdAcqR && s.pc[u] == RdAcqR ==> t == u
  }

  lemma InitInv(threads: set<Tid>)
    ensures Inv(Init(threads))
  {
    var s := Init(threads);
    assert At(s, CountedReader) == {} && At(s, CountedWriter) == {} && At(s, OwnsW) == {} && At(s, OwnsR) == {};
  }

  lemma StepInv(s: State, s': State)
    requires Inv(s) && Step(s, s')
    ensures Inv(s')
  {
    var t, a :| Enabled(s, t, a) && s' == Next(s, t, a);
    StepKeepsInv(s, t, a);
  }

  /** The invariant is inductive: it holds throughout a run that starts in it. */
  lemma RunKeepsInv(run: seq<State>)
    requires IsRun(run) && Inv(run[0])
    ensures forall i :: 0 <= i < |run| ==> Inv(run[i])
  {
    for k := 1 to |run|
      invariant forall i :: 0 <= i < k ==> Inv(run[i])
    {
      StepInv(run[k - 1], run[k]);
    }
  }

  lemma InvAt(threads: set<Tid>, run: seq<State>, i: nat)
    requires IsRun(run) && run[0] == Init(threads) && i < |run|
    ensures Inv(run[i])
  {
    InitInv(threads);
    RunKeepsInv(run);
  }

  lemma TwoMembers<T>(xs: set<T>, x: T, y: T)
    requires x in xs && y in xs && x != y
    ensures |xs| >= 2
  {
    assert |{x, y}| == 2 && {x, y} <= xs;
    var rest := xs - {x};
    assert y in rest && |rest| == |xs| - 1;
  }

  lemma ReadingHoldsW(s: State, t: Tid)
    requires Inv(s) && t in s.pc && CountedReader(s.pc[t]) && !(s.pc[t].RuDec?)
    ensures ReadersHoldW(s)
  {
    assert t in CountedReaders(s);
    if PcOf(s, s.m1).RuDec? {
      assert s.m1.value in CountedReaders(s);
      TwoMembers(CountedReaders(s), t, s.m1.value);
    }
  }

  lemma CountedWriterHoldsR(s: State, t: Tid)
    requires Inv(s) && t in s.pc && CountedWriter(s.pc[t]) && !(s.pc[t].WuDec?)
    ensures WritersHoldR(s)
  {
    assert t in CountedWriters(s);
    if PcOf(s, s.m2).WuDec? {
      assert s.m2.value in CountedWriters(s);
      TwoMembers(CountedWriters(s), t, s.m2.value);
    }
  }

  lemma InvExclusive(s: State)
    requires Inv(s)
    ensures Exclusive(s)
  {
    forall t, u | t in s.pc && u in s.pc && s.pc[t] == Writing && (s.pc[u] == Writing || s.pc[u] == Reading)
      ensures t == u
    {
      assert t in At(s, OwnsW);
      if s.pc[u] == Reading {
        ReadingHoldsW(s, u);
      } else if t != u {
        assert u in At(s, OwnsW);
        TwoMembers(At(s, OwnsW), t, u);
      }
    }
  }

  lemma OnePermitOfW(s: State)
    requires ReaderSide(s)
    ensures s.w + Unit(ReadersHoldW(s)) + |At(s, OwnsW)| == 1
  {
  }

  lemma OwnerFound(s: State, t: Tid, q: PC -> bool)
    requires t in s.pc && q(s.pc[t])
    ensures |At(s, q)| >= 1
  {
    assert t in At(s, q);
  }

  lemma ReleasingW(s: State, t: Tid)
    requires Inv(s) && t in s.pc && (s.pc[t].RuRelW? || s.pc[t].WuRelW?)
    ensures s.w == 0
  {
    assert ReadersHoldW(s) || |At(s, OwnsW)| >= 1 by {
      if s.pc[t].RuRelW? {
        ReadingHoldsW(s, t);
      } else {
        OwnerFound(s, t, OwnsW);
      }
    }
    OnePermitOfW(s);
  }

  lemma ReleasingR(s: State, t: Tid)
    requires Inv(s) && t in s.pc && (s.pc[t].RdRelR? || s.pc[t].WuRelR?)
    ensures s.r == 0
  {
    if s.pc[t].WuRelR? {
      CountedWriterHoldsR(s, t);
    } else {
      assert t in At(s, OwnsR);
    }
  }

  lemma InvNeverOverReleased(s: State)
    requires Inv(s)
    ensures NeverOverReleased(s)
  {
    forall t | t in s.pc && (s.pc[t].RuRelW? || s.pc[t].WuRelW?)
      ensures s.w == 0
    {
      ReleasingW(s, t);
    }
    forall t | t in s.pc && (s.pc[t].RdRelR? || s.pc[t].WuRelR?)
      ensures s.r == 0
    {
      ReleasingR(s, t);
    }
  }

  lemma WrappedCount(n: nat, count: nat)
    requires n <= UINT_RANGE && count == if n == UINT_RANGE then 0 else n
    ensures count == n % UINT_RANGE
  {
  }

  lemma InvCountersExact(s: State)
    requires ReaderSide(s) && WriterSide(s)
    ensures CountersExact(s)
  {
    WrappedCount(|CountedReaders(s)|, s.readerCount);
    WrappedCount(|CountedWriters(s)|, s.writerCount);
  }

  /** Every state of every run of any number of threads is safe. */
  lemma Safety(threads: set<Tid>, run: seq<State>, i: nat)
    requires IsRun(run) && run[0] == Init(threads) && i < |run|
    ensures Exclusive(run[i])
    ensures CountersExact(run[i])
    ensures NeverOverReleased(run[i])
    ensures OneReaderQueued(run[i])
  {
    InitInv(threads);
    RunKeepsInv(run);
    InvExclusive(run[i]);
    InvCountersExact(run[i]);
    InvNeverOverReleased(run[i]);
  }

  // ----- writer preference -----

  /** The readers that got past the acquisition of `r` and have not finished `rdunlock`. */
  predicate PastR(p: PC) {
    || p.RdAcqM1? || p.RdTest? || p.RdAcqW? || p.RdInc? || p.RdRelM1? || p.RdRelR? || p.RdRelM3?
    || p.Reading? || p.RuAcqM1? || p.RuTest? || p.RuRelW? || p.RuDec? || p.RuRelM1?
  }

  lemma ClosedStep(s: State, t: Tid, a: Action)
    requires Enabled(s, t, a) && s.r == 0
    ensures At(Next(s, t, a), PastR) <= At(s, PastR)
  {
    assert PastR(Next(s, t, a).pc[t]) ==> PastR(s.pc[t]);
  }

  lemma ClosedPair(s: State, s': State)
    requires Step(s, s') && s.r == 0
    ensures At(s', PastR) <= At(s, PastR)
  {
    var t, a :| Enabled(s, t, a) && s' == Next(s, t, a);
    ClosedStep(s, t, a);
  }

  /** While `r` is not available the readers inside only become fewer. */
  lemma {:induction false} ClosedRun(run: seq<State>, a: nat, b: nat)
    requires IsRun(run) && a <= b < |run| && forall i :: a <= i < b ==> run[i].r == 0
    ensures At(run[b], PastR) <= At(run[a], PastR)
    decreases b
  {
    if a < b {
      ClosedRun(run, a, b - 1);
      assert Step(run[b - 1], run[b]);
      ClosedPair(run[b - 1], run[b]);
    }
  }

  /** While the writers hold `r`, no reader is between taking and releasing it. */
  lemma WritersHoldingRShutReadersOut(s: State)
    requires Inv(s) && WritersHoldR(s)
    ensures s.r == 0
    ensures forall t :: t in s.pc ==> !OwnsR(s.pc[t])
  {
    forall t | t in s.pc
      ensures !OwnsR(s.pc[t])
    {
      assert OwnsR(s.pc[t]) ==> t in At(s, OwnsR);
    }
  }

  /** In every run, as long as the writers hold `r`, no reader gets in: the readers inside only become fewer. */
  lemma WriterPreference(threads: set<Tid>, run: seq<State>, a: nat, b: nat)
    requires IsRun(run) && run[0] == Init(threads) && a <= b < |run|
    requires forall i :: a <= i <= b ==> WritersHoldR(run[i])
    ensures At(run[b], PastR) <= At(run[a], PastR)
    ensures forall i, t :: a <= i <= b && t in run[i].pc ==> !OwnsR(run[i].pc[t])
  {
    forall i | a <= i <= b
      ensures run[i].r == 0 && forall t :: t in run[i].pc ==> !OwnsR(run[i].pc[t])
    {
      InvAt(threads, run, i);
      WritersHoldingRShutReadersOut(run[i]);
    }
    ClosedRun(run, a, b);
  }

  /**
  The writers give `r` up only when their last member runs `r.unlock()` in `wrunlock` or
  takes the exception path, and they take it only in `wrlock` when there are none of them.
  */
  lemma WriterGroupBoundaries(s: State, t: Tid, a: Action)
    requires Inv(s) && Enabled(s, t, a)
    ensures WritersHoldR(s) && !WritersHoldR(Next(s, t, a)) ==>
      CountedWriters(s) == {t} && (s.pc[t].WuRelR? || s.pc[t].CatchDec?)
    ensures !WritersHoldR(s) && WritersHoldR(Next(s, t, a)) ==>
      CountedWriters(s) == {} && s.pc[t].WrAcqR? && s.r == 1
  {
    var s' := Next(s, t, a);
    StepKeepsM2(s, t, a);
    CountAfterMove(s, s', t, s'.pc[t], CountedWriter);
    CountAfterMove(s, s', t, s'.pc[t], OwnsR);
    OnlyMember(CountedWriters(s), t);
    assert t in CountedWriters(s) <==> CountedWriter(s.pc[t]);
    GroupBoundary(s, t, a, PcOf(s, s.m2), |CountedWriters(s)|, |At(s, OwnsR)|,
                  PcOf(s', s'.m2), |CountedWriters(s')|, |At(s', OwnsR)|);
  }

  lemma GroupBoundary(s: State, t: Tid, a: Action, p: PC, n: nat, owners: nat, p': PC, n': nat, owners': nat)
    requires Enabled(s, t, a) && WritersOk(p, n, owners, s.writerCount, s.r)
    requires Moves(s.pc[t], Successor(s, s.pc[t], a), HoldsM2, CountedWriter, OwnsR, p, n, owners, p', n', owners')
    ensures GroupHoldsR(p, n) && !GroupHoldsR(p', n') ==> n == 1 && (s.pc[t].WuRelR? || s.pc[t].CatchDec?)
    ensures !GroupHoldsR(p, n) && GroupHoldsR(p', n') ==> n == 0 && s.pc[t].WrAcqR? && s.r == 1
  {
    if !HoldsM2(s.pc[t]) {
      WritersOkOutsideM2(s, t, a, p, n, owners, p', n', owners');
    }
  }

  lemma OnlyMember<T>(xs: set<T>, x: T)
    ensures x in xs && |xs| == 1 ==> xs == {x}
  {
    if x in xs && |xs| == 1 {
      assert |xs - {x}| == 0;
    }
  }

  // ----- the exception path of wrlock -----

  /** The permit of `r`: free, with the writers, or with a reader.  Zero means it is lost. */
  function PermitsOfR(s: State): nat { s.r + Unit(WritersHoldR(s)) + |At(s, OwnsR)| }

  lemma PermitsOfRArithmetic(s: State, t: Tid, a: Action, p: PC, n: nat, owners: nat, p': PC, n': nat, owners': nat)
    requires Enabled(s, t, a) && WritersOk(p, n, owners, s.writerCount, s.r)
    requires Moves(s.pc[t], Successor(s, s.pc[t], a), HoldsM2, CountedWriter, OwnsR, p, n, owners, p', n', owners')
    ensures Next(s, t, a).r + Unit(GroupHoldsR(p', n')) + owners'
         == s.r + Unit(GroupHoldsR(p, n)) + owners - Unit(s.pc[t].CatchDec? && n == 1)
  {
    if HoldsM2(s.pc[t]) {
      WritersOkInsideM2(s, t, p, n, owners, p', n', owners');
    } else {
      WritersOkOutsideM2(s, t, a, p, n, owners, p', n', owners');
    }
  }

  /** The permit of `r` is lost by exactly one step: the handler of the only counted writer. */
  lemma PermitsOfRAfterStep(s: State, t: Tid, a: Action)
    requires Inv(s) && Enabled(s, t, a)
    ensures PermitsOfR(Next(s, t, a)) == PermitsOfR(s) - Unit(s.pc[t].CatchDec? && CountedWriters(s) == {t})
  {
    var s' := Next(s, t, a);
    StepKeepsM2(s, t, a);
    CountAfterMove(s, s', t, s'.pc[t], CountedWriter);
    CountAfterMove(s, s', t, s'.pc[t], OwnsR);
    OnlyMember(CountedWriters(s), t);
    assert t in CountedWriters(s) <==> CountedWriter(s.pc[t]);
    PermitsOfRArithmetic(s, t, a, PcOf(s, s.m2), |CountedWriters(s)|, |At(s, OwnsR)|,
                         PcOf(s', s'.m2), |CountedWriters(s')|, |At(s', OwnsR)|);
  }

  /** Thread `t`, the only counted writer, runs the handler of `wrlock`. */
  ghost predicate HandlerAlone(s: State, t: Tid, s': State) {
    Enabled(s, t, Proceed) && s' == Next(s, t, Proceed) && s.pc[t].CatchDec? && CountedWriters(s) == {t}
  }

  ghost predicate LosesThePermit(s: State, s': State) { exists t: Tid :: HandlerAlone(s, t, s') }

  lemma PermitAfterStep(s: State, t: Tid, a: Action, s': State)
    requires Inv(s) && Enabled(s, t, a) && s' == Next(s, t, a)
    ensures PermitsOfR(s') == PermitsOfR(s) - Unit(HandlerAlone(s, t, s'))
  {
    PermitsOfRAfterStep(s, t, a);
  }

  /** Whichever thread made the step. */
  lemma PermitAfterAnyStep(s: State, s': State)
    requires Inv(s) && Step(s, s')
    ensures LosesThePermit(s, s') ==> PermitsOfR(s') + 1 == PermitsOfR(s)
    ensures !LosesThePermit(s, s') ==> PermitsOfR(s') == PermitsOfR(s)
  {
    if t: Tid :| HandlerAlone(s, t, s') {
      PermitAfterStep(s, t, Proceed, s');
    } else {
      var t, a :| Enabled(s, t, a) && s' == Next(s, t, a);
      PermitAfterStep(s, t, a, s');
    }
  }

  lemma PermitAfterRunStep(threads: set<Tid>, run: seq<State>, k: nat)
    requires IsRun(run) && run[0] == Init(threads) && k + 1 < |run|
    ensures LosesThePermit(run[k], run[k + 1]) ==> PermitsOfR(run[k + 1]) + 1 == PermitsOfR(run[k])
    ensures !LosesThePermit(run[k], run[k + 1]) ==> PermitsOfR(run[k + 1]) == PermitsOfR(run[k])
  {
    assert Step(run[k], run[k + 1]);
    InvAt(threads, run, k);
    PermitAfterAnyStep(run[k], run[k + 1]);
  }

  lemma OnePermitAtFirst(threads: set<Tid>)
    ensures PermitsOfR(Init(threads)) == 1
  {
    assert CountedWriters(Init(threads)) == {} && At(Init(threads), OwnsR) == {};
  }

  /** The permit is lost before state `i` of the run. */
  ghost predicate LostBefore(run: seq<State>, i: nat)
    requires i < |run|
  {
    exists j :: 0 <= j < i && LosesThePermit(run[j], run[j + 1])
  }

  /** In every run the permit of `r` is lost exactly if the only counted writer has run the handler. */
  lemma {:induction false} PermitLostIff(threads: set<Tid>, run: seq<State>, i: nat)
    requires IsRun(run) && run[0] == Init(threads) && i < |run|
    ensures PermitsOfR(run[i]) == if LostBefore(run, i) then 0 else 1
  {
    if i == 0 {
      OnePermitAtFirst(threads);
    } else {
      PermitLostIff(threads, run, i - 1);
      PermitAfterRunStep(threads, run, i - 1);
      assert LostBefore(run, i) <==> LostBefore(run, i - 1) || LosesThePermit(run[i - 1], run[i]);
    }
  }

  lemma WithoutPermit(s: State)
    requires Inv(s) && PermitsOfR(s) == 0
    ensures s.r == 0 && forall t :: t in s.pc ==> s.pc[t] != Writing
  {
    forall t | t in s.pc
      ensures s.pc[t] != Writing
    {
      if s.pc[t] == Writing {
        CountedWriterHoldsR(s, t);
      }
    }
  }

  lemma {:induction false} StaysLost(threads: set<Tid>, run: seq<State>, a: nat, b: nat)
    requires IsRun(run) && run[0] == Init(threads) && a <= b < |run| && PermitsOfR(run[a]) == 0
    ensures PermitsOfR(run[b]) == 0
    decreases b
  {
    if a < b {
      StaysLost(threads, run, a, b - 1);
      PermitAfterRunStep(threads, run, b - 1);
    }
  }

  lemma ShutAt(threads: set<Tid>, run: seq<State>, i: nat)
    requires IsRun(run) && run[0] == Init(threads) && i < |run| && PermitsOfR(run[i]) == 0
    ensures run[i].r == 0 && forall t :: t in run[i].pc ==> run[i].pc[t] != Writing
  {
    InvAt(threads, run, i);
    WithoutPermit(run[i]);
  }

  /** Once the permit is lost it stays lost: no reader and no writer ever gets in again. */
  lemma LostPermitShutsTheLock(threads: set<Tid>, run: seq<State>, a: nat, b: nat)
    requires IsRun(run) && run[0] == Init(threads) && a <= b < |run| && PermitsOfR(run[a]) == 0
    ensures PermitsOfR(run[b]) == 0 && At(run[b], PastR) <= At(run[a], PastR)
    ensures forall t :: t in run[b].pc ==> run[b].pc[t] != Writing
  {
    forall i | a <= i <= b
      ensures PermitsOfR(run[i]) == 0 && run[i].r == 0
    {
      StaysLost(threads, run, a, i);
      ShutAt(threads, run, i);
    }
    ShutAt(threads, run, b);
    ClosedRun(run, a, b);
  }

  lemma ExtendRun(run: seq<State>, t: Tid, a: Action) returns (longer: seq<State>)
    requires IsRun(run) && Enabled(run[|run| - 1], t, a)
    ensures IsRun(longer) && longer[0] == run[0] && longer[|longer| - 1] == Next(run[|run| - 1], t, a)
  {
    longer := run + [Next(run[|run| - 1], t, a)];
    forall i | 0 <= i < |longer| - 1
      ensures Step(longer[i], longer[i + 1])
    {
      if i < |run| - 1 {
        assert Step(run[i], run[i + 1]);
      }
    }
  }

  /** The first writer runs `wrlock` up to `w.lock()`. */
  lemma FirstWriterReachesW(threads: set<Tid>, t: Tid) returns (run: seq<State>)
    requires t in threads
    ensures IsRun(run) && run[0] == Init(threads)
    ensures run[|run| - 1] == Init(threads).(r := 0, writerCount := 1, pc := Init(threads).pc[t := WrAcqW])
  {
    ghost var s := Init(threads);
    run := [s];
    run := ExtendRun(run, t, CallWrLock);
    run := ExtendRun(run, t, Proceed);
    run := ExtendRun(run, t, Proceed);
    run := ExtendRun(run, t, Proceed);
    assert run[|run| - 1] == s.(m2 := Some(t), r := 0, pc := s.pc[t := WrInc]);
    run := ExtendRun(run, t, Proceed);
    run := ExtendRun(run, t, Proceed);
  }

  /** A single `wrlock` whose `w.lock()` throws loses the permit and leaves the caller idle. */
  lemma ThrowLosesThePermit(threads: set<Tid>, t: Tid) returns (run: seq<State>)
    requires t in threads
    ensures IsRun(run) && run[0] == Init(threads)
    ensures run[|run| - 1] == Init(threads).(r := 0) && PermitsOfR(run[|run| - 1]) == 0
  {
    ghost var s := Init(threads);
    run := FirstWriterReachesW(threads, t);
    run := ExtendRun(run, t, ThrowFromWLock);
    run := ExtendRun(run, t, Proceed);
    run := ExtendRun(run, t, Proceed);
    assert run[|run| - 1] == s.(m2 := Some(t), r := 0, pc := s.pc[t := CatchRelM2]);
    run := ExtendRun(run, t, Proceed);
    assert s.pc[t := Idle] == s.pc;
    NobodyInside(threads);
  }

  lemma NobodyInside(threads: set<Tid>)
    ensures PermitsOfR(Init(threads).(r := 0)) == 0
  {
    var s := Init(threads).(r := 0);
    assert CountedWriters(s) == {} && At(s, OwnsR) == {};
  }
}
