/** The four operations of the readers/writers lock from the caller's side: they let it in, and out again. */
module SharedMutexOperations {
  import opened Common
  import opened SharedMutex
  import opened SharedMutexSafety
  import opened SharedMutexProgress

  // ----- whoever returns from a locking call was let in -----

  predicate InRdLock(p: PC) {
    || p.RdAcqM3? || p.RdAcqR? || p.RdAcqM1? || p.RdTest? || p.RdAcqW? || p.RdInc? || p.RdRelM1? || p.RdRelR?
    || p.RdRelM3?
  }

  predicate InWrLock(p: PC) { p.WrAcqM2? || p.WrTest? || p.WrAcqR? || p.WrInc? || p.WrRelM2? || p.WrAcqW? }

  lemma RdLockLeadsInside(s: State, s': State, t: Tid)
    requires Step(s, s') && t in s.pc && InRdLock(s.pc[t])
    ensures t in s'.pc && (InRdLock(s'.pc[t]) || s'.pc[t] == Reading)
  {
  }

  lemma WrLockLeadsInside(s: State, s': State, t: Tid)
    requires Step(s, s') && t in s.pc && InWrLock(s.pc[t])
    ensures t in s'.pc && (InWrLock(s'.pc[t]) || s'.pc[t] == Writing || s'.pc[t] == CatchAcqM2)
  {
  }

  /** A thread that called `rdlock` and is idle again was reading in between. */
  lemma ReaderGetsIn(run: seq<State>, t: Tid, i: nat, j: nat) returns (k: nat)
    requires IsRun(run) && i < j < |run| && t in run[i].pc && run[i].pc[t] == RdAcqM3
    requires t in run[j].pc && run[j].pc[t] == Idle
    ensures i < k < j && t in run[k].pc && run[k].pc[t] == Reading
  {
    k := i;
    while run[k].pc[t] != Reading
      invariant i <= k < j && t in run[k].pc && (InRdLock(run[k].pc[t]) || (i < k && run[k].pc[t] == Reading))
      decreases j - k
    {
      assert Step(run[k], run[k + 1]);
      RdLockLeadsInside(run[k], run[k + 1], t);
      k := k + 1;
    }
  }

  /** A thread that called `wrlock` and is idle again was writing in between, unless `w.lock()` threw. */
  lemma WriterGetsIn(run: seq<State>, t: Tid, i: nat, j: nat) returns (k: nat)
    requires IsRun(run) && i < j < |run| && t in run[i].pc && run[i].pc[t] == WrAcqM2
    requires t in run[j].pc && run[j].pc[t] == Idle
    requires forall m :: i < m < j && t in run[m].pc ==> run[m].pc[t] != CatchAcqM2
    ensures i < k < j && t in run[k].pc && run[k].pc[t] == Writing
  {
    k := i;
    while run[k].pc[t] != Writing
      invariant i <= k < j && t in run[k].pc && (InWrLock(run[k].pc[t]) || (i < k && run[k].pc[t] == Writing))
      decreases j - k
    {
      assert Step(run[k], run[k + 1]);
      WrLockLeadsInside(run[k], run[k + 1], t);
      k := k + 1;
    }
  }

  // ----- the guards -----

  /** Inside and outside its critical section a thread owns no mutex. */
  lemma NothingOwnedInside(threads: set<Tid>, run: seq<State>, i: nat, t: Tid)
    requires IsRun(run) && run[0] == Init(threads) && i < |run| && t in run[i].pc
    requires run[i].pc[t] == Idle || run[i].pc[t] == Reading || run[i].pc[t] == Writing
    ensures run[i].m1 != Some(t) && run[i].m2 != Some(t) && run[i].m3 != Some(t)
  {
    InvAt(threads, run, i);
  }

  /** `rdlock` releases its guards in reverse order: whoever owns `m1` there has `r`, and whoever has `r` owns `m3`. */
  lemma GuardsNest(threads: set<Tid>, run: seq<State>, i: nat, t: Tid)
    requires IsRun(run) && run[0] == Init(threads) && i < |run| && t in run[i].pc && InRdLock(run[i].pc[t])
    ensures run[i].m1 == Some(t) ==> run[i].r == 0
    ensures run[i].m1 == Some(t) ==> run[i].m3 == Some(t)
    ensures run[i].pc[t].RdRelR? ==> run[i].r == 0 && run[i].m3 == Some(t) && run[i].m1 != Some(t)
    ensures run[i].pc[t].RdRelM3? ==> run[i].m3 == Some(t) && run[i].m1 != Some(t)
  {
    InvAt(threads, run, i);
    if OwnsR(run[i].pc[t]) {
      OwnerOfRHasIt(run[i], t);
    }
  }

  lemma OwnerOfRHasIt(s: State, t: Tid)
    requires WriterSide(s) && t in s.pc && OwnsR(s.pc[t])
    ensures s.r == 0
  {
    assert t in At(s, OwnsR);
  }

  // ----- the operations of a single thread -----

  /** Without contention `wrlock` takes `w` and `r` and lets its caller in, and `wrunlock` gives everything back. */
  lemma WriterAlone(threads: set<Tid>, t: Tid) returns (run: seq<State>, n: nat)
    requires t in threads
    ensures IsRun(run) && run[0] == Init(threads) && n < |run|
    ensures run[n] == Init(threads).(w := 0, r := 0, writerCount := 1, pc := Init(threads).pc[t := Writing])
    ensures run[|run| - 1] == Init(threads)
  {
    ghost var s := Init(threads);
    run := FirstWriterReachesW(threads, t);
    run := ExtendRun(run, t, Proceed);
    n := |run| - 1;
    ghost var inside := run;
    assert run[n] == s.(w := 0, r := 0, writerCount := 1, pc := s.pc[t := Writing]);
    var out := WriterLeaves(run[n], t);
    run := Join(run, out);
    assert s.pc[t := Writing][t := Idle] == s.pc;
  }

  /** `wrunlock` up to the test of `writer_count`. */
  lemma WriterGivesWBack(s: State, t: Tid) returns (run: seq<State>)
    requires t in s.pc && s.pc[t] == Writing && s.m2.None? && s.w == 0 && s.writerCount == 1
    ensures IsRun(run) && run[0] == s && run[|run| - 1] == s.(w := 1, m2 := Some(t), pc := s.pc[t := WuRelR])
  {
    run := [s];
    run := ExtendRun(run, t, Proceed);
    run := ExtendRun(run, t, Proceed);
    run := ExtendRun(run, t, Proceed);
    run := ExtendRun(run, t, Proceed);
    assert run[|run| - 1].pc == s.pc[t := WuRelR];
  }

  lemma WriterGivesRBack(s: State, t: Tid) returns (run: seq<State>)
    requires t in s.pc && s.pc[t] == WuRelR && s.m2 == Some(t) && s.r == 0 && s.writerCount == 1
    ensures IsRun(run) && run[0] == s
    ensures run[|run| - 1] == s.(r := 1, m2 := None, writerCount := 0, pc := s.pc[t := Idle])
  {
    run := [s];
    run := ExtendRun(run, t, Proceed);
    run := ExtendRun(run, t, Proceed);
    run := ExtendRun(run, t, Proceed);
    assert run[|run| - 1].pc == s.pc[t := Idle];
  }

  lemma WriterLeaves(s: State, t: Tid) returns (run: seq<State>)
    requires t in s.pc && s.pc[t] == Writing && s.m2.None? && s.w == 0 && s.r == 0 && s.writerCount == 1
    ensures IsRun(run) && run[0] == s && run[|run| - 1] == s.(w := 1, r := 1, writerCount := 0, pc := s.pc[t := Idle])
  {
    var first := WriterGivesWBack(s, t);
    var second := WriterGivesRBack(first[|first| - 1], t);
    run := Join(first, second);
    assert s.pc[t := WuRelR][t := Idle] == s.pc[t := Idle];
  }

  /** Without contention `rdlock` takes `w`, gives `r` back and lets its caller in, and `rdunlock` gives everything back. */
  lemma ReaderAlone(threads: set<Tid>, t: Tid) returns (run: seq<State>, n: nat)
    requires t in threads
    ensures IsRun(run) && run[0] == Init(threads) && n < |run|
    ensures run[n] == Init(threads).(w := 0, readerCount := 1, pc := Init(threads).pc[t := Reading])
    ensures run[|run| - 1] == Init(threads)
  {
    ghost var s := Init(threads);
    run := OneMoreReader([s], t, {});
    CleanIsRun(run);
    n := |run| - 1;
    assert run[n].pc == s.pc[t := Reading];
    assert run[n] == s.(w := 0, readerCount := 1, pc := s.pc[t := Reading]);
    var out := ReaderLeaves(run[n], t);
    run := Join(run, out);
    assert s.pc[t := Reading][t := Idle] == s.pc;
  }

  lemma ReaderLeaves(s: State, t: Tid) returns (run: seq<State>)
    requires t in s.pc && s.pc[t] == Reading && s.m1.None? && s.w == 0 && s.readerCount == 1
    ensures IsRun(run) && run[0] == s && run[|run| - 1] == s.(w := 1, readerCount := 0, pc := s.pc[t := Idle])
  {
    run := [s];
    run := ExtendRun(run, t, Proceed);
    run := ExtendRun(run, t, Proceed);
    run := ExtendRun(run, t, Proceed);
    assert run[|run| - 1] == s.(m1 := Some(t), pc := s.pc[t := RuRelW]);
    run := ExtendRun(run, t, Proceed);
    run := ExtendRun(run, t, Proceed);
    run := ExtendRun(run, t, Proceed);
    assert run[|run| - 1].pc == s.pc[t := Idle];
  }

  /** Two runs, the second of which starts where the first ends. */
  lemma Join(first: seq<State>, second: seq<State>) returns (run: seq<State>)
    requires IsRun(first) && IsRun(second) && second[0] == first[|first| - 1]
    ensures IsRun(run) && first <= run && run[|run| - 1] == second[|second| - 1]
  {
    run := first + second[1..];
    forall i | 0 <= i < |run| - 1
      ensures Step(run[i], run[i + 1])
    {
      if i < |first| - 1 {
        assert Step(first[i], first[i + 1]);
      } else {
        var k := i - (|first| - 1);
        assert run[i] == second[k] && run[i + 1] == second[k + 1];
        assert Step(second[k], second[k + 1]);
      }
    }
  }
}
