/**
The pthreads manual-reset event.

A run is the sequence in which threads pass through the event's mutex.  A blocked thread may
wake at any time, with or without a broadcast.  `sigcount` is a 32-bit `unsigned`.
*/
module ManualResetEvent {
  import opened Common

  type Tid = nat

  /** `Enter` is the first half of `wait` or `timed_wait`, `Wake` a return of the condition variable's wait. */
  datatype Event = Signal | Reset | Enter(t: Tid) | Wake(t: Tid) | TimeOut(t: Tid)

  /** `waiting` maps a blocked thread to its `prev_count`. */
  datatype State = State(signaled: bool, sigcount: nat, waiting: map<Tid, nat>)

  /** What a call returns, when this event ends one. */
  datatype Outcome = Continues | Returns(value: bool)

  function Init(signaled: bool): State { State(signaled, 0, map[]) }

  /** `sigcount += 1` on a 32-bit `unsigned`. */
  function Inc(n: nat): nat { if n + 1 == UINT_RANGE then 0 else n + 1 }

  function Next(s: State, e: Event): State {
    match e
    case Signal => s.(signaled := true, sigcount := Inc(s.sigcount))
    case Reset => s.(signaled := false)
    case Enter(t) => if s.signaled then s else s.(waiting := s.waiting[t := s.sigcount])
    case Wake(t) => if Result(s, e).Returns? then s.(waiting := s.waiting - {t}) else s
    case TimeOut(t) => s.(waiting := s.waiting - {t})
  }

  function Result(s: State, e: Event): Outcome {
    match e
    case Enter(t) => if s.signaled then Returns(true) else Continues
    case Wake(t) => if t in s.waiting && s.waiting[t] != s.sigcount then Returns(true) else Continues
    case TimeOut(t) => Returns(false)
    case _ => Continues
  }

  /** Only a blocked thread wakes or times out, and it does not start another wait. */
  predicate Possible(s: State, e: Event) {
    match e
    case Enter(t) => t !in s.waiting
    case Wake(t) => t in s.waiting
    case TimeOut(t) => t in s.waiting
    case _ => true
  }

  function After(s: State, run: seq<Event>): State {
    if run == [] then s else Next(After(s, run[..|run| - 1]), run[|run| - 1])
  }

  predicate IsRun(s: State, run: seq<Event>) {
    run == [] || (IsRun(s, run[..|run| - 1]) && Possible(After(s, run[..|run| - 1]), run[|run| - 1]))
  }

  function Signals(run: seq<Event>): nat {
    if run == [] then 0 else Signals(run[..|run| - 1]) + if run[|run| - 1].Signal? then 1 else 0
  }

  /** Thread `t` is blocked before event `k`. */
  predicate Waits(s: State, run: seq<Event>, t: Tid, k: nat)
    requires k <= |run|
  {
    t in After(s, run[..k]).waiting
  }

  /** Thread `t` starts to wait at `i` and is still blocked before event `j`. */
  ghost predicate BlockedSince(s: State, run: seq<Event>, t: Tid, i: nat, j: nat) {
    && i < j <= |run| && run[i] == Enter(t)
    && forall k :: i < k <= j ==> Waits(s, run, t, k)
  }

  /** A new event is signaled as its constructor was told, with no signal counted and nobody blocked. */
  lemma NewEvent(sig: bool, t: Tid)
    ensures Init(sig).signaled == sig && Init(sig).sigcount == 0 && Init(sig).waiting == map[]
    ensures After(Init(sig), [Enter(t)]).waiting == if sig then map[] else map[t := 0]
  {
    assert [Enter(t)][..0] == [];
  }

  lemma IncWraps(n: nat)
    ensures Inc(n % UINT_RANGE) == (n + 1) % UINT_RANGE
  {
  }

  lemma WrapsBack(a: nat, n: nat)
    ensures a % UINT_RANGE == (a + n) % UINT_RANGE <==> n % UINT_RANGE == 0
  {
  }

  /** `sigcount` counts the signals modulo 2^32. */
  lemma {:induction false} SigcountCounts(s: State, run: seq<Event>)
    requires s.sigcount < UINT_RANGE
    ensures After(s, run).sigcount == (s.sigcount + Signals(run)) % UINT_RANGE
  {
    if run != [] {
      SigcountCounts(s, run[..|run| - 1]);
      IncWraps(s.sigcount + Signals(run[..|run| - 1]));
    }
  }

  lemma {:induction false} SignalsAppend(first: seq<Event>, second: seq<Event>)
    ensures Signals(first + second) == Signals(first) + Signals(second)
  {
    if second == [] {
      assert first + second == first;
    } else {
      assert (first + second)[..|first + second| - 1] == first + second[..|second| - 1];
      SignalsAppend(first, second[..|second| - 1]);
    }
  }

  lemma {:induction false} StepAt(s: State, run: seq<Event>, n: nat)
    requires IsRun(s, run) && n < |run|
    ensures After(s, run[..n + 1]) == Next(After(s, run[..n]), run[n]) && Possible(After(s, run[..n]), run[n])
  {
    PrefixIsRun(s, run, n + 1);
    assert run[..n + 1][..n] == run[..n];
  }

  /** While a thread is blocked its `prev_count` stays what `sigcount` was when its wait began. */
  lemma {:induction false} SnapshotIsKept(s: State, run: seq<Event>, t: Tid, i: nat, j: nat)
    requires IsRun(s, run) && BlockedSince(s, run, t, i, j)
    ensures t in After(s, run[..j]).waiting && After(s, run[..j]).waiting[t] == After(s, run[..i]).sigcount
    decreases j
  {
    StepAt(s, run, j - 1);
    assert Waits(s, run, t, j);
    if j > i + 1 {
      SnapshotIsKept(s, run, t, i, j - 1);
    }
  }

  lemma {:induction false} PrefixIsRun(s: State, run: seq<Event>, j: nat)
    requires IsRun(s, run) && j <= |run|
    ensures IsRun(s, run[..j])
    decreases |run|
  {
    if j < |run| {
      PrefixIsRun(s, run[..|run| - 1], j);
      assert run[..|run| - 1][..j] == run[..j];
    } else {
      assert run[..j] == run;
    }
  }

  /** A blocked thread that wakes leaves exactly when the signals since it began to wait are not a multiple of 2^32. */
  lemma WakeLeavesIff(s: State, run: seq<Event>, t: Tid, i: nat, j: nat)
    requires s.sigcount < UINT_RANGE && IsRun(s, run) && BlockedSince(s, run, t, i, j)
    ensures Result(After(s, run[..j]), Wake(t)) == (if Signals(run[i..j]) % UINT_RANGE != 0 then Returns(true) else Continues)
  {
    SnapshotIsKept(s, run, t, i, j);
    SigcountCounts(s, run[..i]);
    SigcountCounts(s, run[..j]);
    assert run[..j] == run[..i] + run[i..j];
    SignalsAppend(run[..i], run[i..j]);
    WrapsBack(s.sigcount + Signals(run[..i]), Signals(run[i..j]));
  }

  lemma {:induction false} SomeSignal(run: seq<Event>) returns (k: nat)
    requires Signals(run) > 0
    ensures k < |run| && run[k] == Signal
  {
    if run[|run| - 1].Signal? {
      k := |run| - 1;
    } else {
      k := SomeSignal(run[..|run| - 1]);
    }
  }

  lemma {:induction false} SignalCounts(run: seq<Event>, k: nat)
    requires k < |run| && run[k] == Signal
    ensures Signals(run) > 0
  {
    if k < |run| - 1 {
      SignalCounts(run[..|run| - 1], k);
    }
  }

  /** `wait` returns only if the event was signaled at entry or a `signal` happened since. */
  lemma ReturnsOnlyAfterSignal(s: State, run: seq<Event>, t: Tid, i: nat, j: nat) returns (k: nat)
    requires s.sigcount < UINT_RANGE && IsRun(s, run) && BlockedSince(s, run, t, i, j)
    requires Result(After(s, run[..j]), Wake(t)) == Returns(true)
    ensures i < k < j && run[k] == Signal
  {
    WakeLeavesIff(s, run, t, i, j);
    var m := SomeSignal(run[i..j]);
    k := i + m;
  }

  /** A signal is not lost: whatever resets follow, the next wake leaves, unless 2^32 signals went by. */
  lemma ResetDoesNotSwallowSignal(s: State, run: seq<Event>, t: Tid, i: nat, k: nat, j: nat)
    requires s.sigcount < UINT_RANGE && IsRun(s, run) && BlockedSince(s, run, t, i, j)
    requires i < k < j && run[k] == Signal && Signals(run[i..j]) < UINT_RANGE
    ensures Result(After(s, run[..j]), Wake(t)) == Returns(true)
    ensures t !in After(s, run[..j] + [Wake(t)]).waiting
  {
    assert run[i..j][k - i] == Signal;
    SignalCounts(run[i..j], k - i);
    WakeLeavesIff(s, run, t, i, j);
    assert (run[..j] + [Wake(t)])[..j] == run[..j];
  }

  /** The bound is tight: after exactly 2^32 signals the thread stays blocked. */
  lemma WrappedSignalsAreLost(t: Tid)
    ensures var run := [Enter(t)] + seq(UINT_RANGE, _ => Signal);
      IsRun(Init(false), run) && Signals(run) == UINT_RANGE && Result(After(Init(false), run), Wake(t)) == Continues
  {
    var run := [Enter(t)] + seq(UINT_RANGE, _ => Signal);
    ManySignals(t, UINT_RANGE);
    assert run[..|run|] == run && run[0..|run|] == run;
    assert BlockedSince(Init(false), run, t, 0, |run|) by {
      forall k | 0 < k <= |run|
        ensures Waits(Init(false), run, t, k)
      {
        ManySignals(t, k - 1);
        assert run[..k] == [Enter(t)] + seq(k - 1, _ => Signal);
      }
    }
    WakeLeavesIff(Init(false), run, t, 0, |run|);
  }

  lemma {:induction false} ManySignals(t: Tid, n: nat)
    ensures var run := [Enter(t)] + seq(n, _ => Signal);
      IsRun(Init(false), run) && Signals(run) == n && t in After(Init(false), run).waiting
  {
    var run := [Enter(t)] + seq(n, _ => Signal);
    if n == 0 {
      assert run == [Enter(t)] && run[..0] == [];
      assert After(Init(false), run) == Next(Init(false), Enter(t));
    } else {
      ManySignals(t, n - 1);
      assert run[..n] == [Enter(t)] + seq(n - 1, _ => Signal);
      assert run[n] == Signal;
    }
  }

  /** `wait` does not block exactly when the last `signal` or `reset`, or else the constructor, signaled. */
  lemma {:induction false} SignaledIffLastChange(s: State, run: seq<Event>)
    ensures After(s, run).signaled <==>
      || (exists k :: 0 <= k < |run| && run[k] == Signal && Reset !in run[k..])
      || (s.signaled && Reset !in run)
  {
    if run != [] {
      var n := |run| - 1;
      var prefix := run[..n];
      SignaledIffLastChange(s, prefix);
      assert forall k :: 0 <= k <= n ==> run[k..] == prefix[k..] + [run[n]];
      if run[n].Signal? {
        assert run[n..] == [Signal];
      }
    }
  }

  /** A call that begins returns at once exactly if the last change signaled the event; otherwise its thread is blocked. */
  lemma EnterReturnsIff(s: State, run: seq<Event>, t: Tid)
    ensures Result(After(s, run), Enter(t)) == Returns(true) <==>
      || (exists k :: 0 <= k < |run| && run[k] == Signal && Reset !in run[k..])
      || (s.signaled && Reset !in run)
    ensures Result(After(s, run), Enter(t)) == Continues ==> t in Next(After(s, run), Enter(t)).waiting
    ensures Result(After(s, run), Enter(t)) == Returns(true) ==> Next(After(s, run), Enter(t)) == After(s, run)
  {
    SignaledIffLastChange(s, run);
  }

  // ----- timed_wait -----

  lemma SignalsOfPart(run: seq<Event>, i: nat, m: nat, j: nat)
    requires i <= m <= j <= |run|
    ensures Signals(run[i..m]) <= Signals(run[i..j])
  {
    assert run[i..j] == run[i..m] + run[m..j];
    SignalsAppend(run[i..m], run[m..j]);
  }

  /** While the thread is blocked after a signal it has neither woken nor timed out. */
  lemma NotEndedWhileBlocked(s: State, run: seq<Event>, t: Tid, i: nat, k: nat, m: nat, j: nat)
    requires s.sigcount < UINT_RANGE && IsRun(s, run) && BlockedSince(s, run, t, i, j)
    requires i < k < m < j && run[k] == Signal && Signals(run[i..j]) < UINT_RANGE
    ensures run[m] != Wake(t) && run[m] != TimeOut(t)
  {
    StepAt(s, run, m);
    assert Waits(s, run, t, m + 1);
    SignalsOfPart(run, i, m, j);
    ResetDoesNotSwallowSignal(s, run, t, i, k, m);
  }

  /** A thread stays blocked through every event but its own wake-up or timeout. */
  lemma StaysBlocked(s: State, run: seq<Event>, t: Tid, n: nat)
    requires IsRun(s, run) && n < |run| && Waits(s, run, t, n) && run[n] != Wake(t) && run[n] != TimeOut(t)
    ensures Waits(s, run, t, n + 1)
  {
    StepAt(s, run, n);
  }

  /**
  A thread that is blocked when `signal` runs at `k` is still blocked before event `j`, where a
  timeout makes `timed_wait` return false in spite of the signal, exactly if it did not wake and
  did not time out in between.
  */
  lemma SignalMissedIff(s: State, run: seq<Event>, t: Tid, i: nat, k: nat, j: nat)
    requires s.sigcount < UINT_RANGE && IsRun(s, run) && BlockedSince(s, run, t, i, k) && k < j <= |run|
    requires run[k] == Signal && Signals(run[i..j]) < UINT_RANGE
    ensures BlockedSince(s, run, t, i, j) <==> forall m :: k < m < j ==> run[m] != Wake(t) && run[m] != TimeOut(t)
  {
    if BlockedSince(s, run, t, i, j) {
      forall m | k < m < j
        ensures run[m] != Wake(t) && run[m] != TimeOut(t)
      {
        NotEndedWhileBlocked(s, run, t, i, k, m, j);
      }
    }
    if forall m :: k < m < j ==> run[m] != Wake(t) && run[m] != TimeOut(t) {
      for n := k to j
        invariant forall m :: i < m <= n ==> Waits(s, run, t, m)
      {
        StaysBlocked(s, run, t, n);
      }
    }
  }

  /**
  The event that ends a `timed_wait` decides its result: after a signal any wake-up ends it, with
  true, and a timeout ends it with false.
  */
  lemma TimedWaitResult(s: State, run: seq<Event>, t: Tid, i: nat, k: nat, j: nat)
    requires s.sigcount < UINT_RANGE && IsRun(s, run) && BlockedSince(s, run, t, i, j) && j < |run|
    requires i < k < j && run[k] == Signal && Signals(run[i..j]) < UINT_RANGE
    requires run[j] == Wake(t) || run[j] == TimeOut(t)
    ensures Result(After(s, run[..j]), run[j]) == Returns(run[j] == Wake(t))
    ensures !Waits(s, run, t, j + 1)
  {
    StepAt(s, run, j);
    ResetDoesNotSwallowSignal(s, run, t, i, k, j);
  }

  /** A run in which `timed_wait` returns false although the event was signaled after it began and still is. */
  lemma TimedWaitMissesASignal(t: Tid)
    ensures var run := [Enter(t), Signal, TimeOut(t)];
      IsRun(Init(false), run) && BlockedSince(Init(false), run, t, 0, 2)
      && Result(After(Init(false), run[..2]), run[2]) == Returns(false) && After(Init(false), run).signaled
  {
    var s, run := Init(false), [Enter(t), Signal, TimeOut(t)];
    AppendEvent(s, [], Enter(t));
    assert [] + [Enter(t)] == [Enter(t)] && run[..1] == [Enter(t)];
    AppendEvent(s, [Enter(t)], Signal);
    assert [Enter(t)] + [Signal] == run[..2];
    AppendEvent(s, run[..2], TimeOut(t));
    assert run[..2] + [TimeOut(t)] == run;
  }

  lemma AppendEvent(s: State, run: seq<Event>, e: Event)
    requires IsRun(s, run) && Possible(After(s, run), e)
    ensures IsRun(s, run + [e]) && After(s, run + [e]) == Next(After(s, run), e)
  {
    assert (run + [e])[..|run|] == run;
  }

  // ----- the object -----

  class EventObject {
    var signaled: bool
    var sigcount: nat
    ghost var history: seq<Event>
    ghost const initially: bool
    var waiting: map<Tid, nat>

    ghost predicate Valid()
      reads this
    {
      sigcount < UINT_RANGE && IsRun(Init(initially), history) && State(signaled, sigcount, waiting) == After(Init(initially), history)
    }

    constructor (sig: bool)
      ensures Valid() && history == [] && initially == sig && signaled == sig && sigcount == 0 && waiting == map[]
    {
      signaled, sigcount, waiting := sig, 0, map[];
      history, initially := [], sig;
    }

    method DoSignal()
      requires Valid()
      modifies this
      ensures Valid() && history == old(history) + [Signal]
      ensures sigcount == Inc(old(sigcount)) && waiting == old(waiting) && signaled
    {
      AppendEvent(Init(initially), history, Signal);
      signaled := true;
      sigcount := Inc(sigcount);
      history := history + [Signal];
    }

    method DoReset()
      requires Valid()
      modifies this
      ensures Valid() && history == old(history) + [Reset]
      ensures sigcount == old(sigcount) && waiting == old(waiting) && !signaled
    {
      AppendEvent(Init(initially), history, Reset);
      signaled := false;
      history := history + [Reset];
    }

    /**
    `wait` of thread `t`: other threads do `meanwhile[k]` before its wake-up number `k`.  It is
    done at the first wake-up at which the signals so far are not a multiple of 2^32.
    */
    method Wait(t: Tid, meanwhile: seq<seq<bool>>) returns (done: bool, wakeups: nat)
      requires Valid() && t !in waiting
      modifies this
      ensures Valid() && wakeups <= |meanwhile|
      ensures old(signaled) ==> done && wakeups == 0
      ensures !old(signaled) ==> forall m :: 1 <= m < wakeups ==> SignalsIn(meanwhile, m) % UINT_RANGE == 0
      ensures !old(signaled) && done ==> wakeups > 0 && SignalsIn(meanwhile, wakeups) % UINT_RANGE != 0
      ensures !done ==> wakeups == |meanwhile| && (wakeups > 0 ==> SignalsIn(meanwhile, wakeups) % UINT_RANGE == 0)
      ensures t in waiting <==> !done
    {
      var prev;
      done, prev := BeginWait(t);
      wakeups := 0;
      if !done {
        done, wakeups := WaitLoop(t, prev, meanwhile);
      }
    }

    /** The part of `wait` before it blocks. */
    method BeginWait(t: Tid) returns (done: bool, prev: nat)
      requires Valid() && t !in waiting
      modifies this
      ensures Valid() && done == old(signaled) && sigcount == old(sigcount) == prev < UINT_RANGE
      ensures waiting == if done then old(waiting) else old(waiting)[t := prev]
    {
      AppendEvent(Init(initially), history, Enter(t));
      history := history + [Enter(t)];
      done, prev := signaled, sigcount;
      if !signaled {
        waiting := waiting[t := prev];
      }
    }

    /** The do-while loop of `wait`. */
    method WaitLoop(t: Tid, prev: nat, meanwhile: seq<seq<bool>>) returns (done: bool, wakeups: nat)
      requires Valid() && t in waiting && waiting[t] == prev == sigcount < UINT_RANGE
      modifies this
      ensures Valid() && wakeups <= |meanwhile| && (t in waiting <==> !done)
      ensures forall m :: 1 <= m < wakeups ==> SignalsIn(meanwhile, m) % UINT_RANGE == 0
      ensures done ==> wakeups > 0 && SignalsIn(meanwhile, wakeups) % UINT_RANGE != 0
      ensures !done ==> wakeups == |meanwhile| && (wakeups > 0 ==> SignalsIn(meanwhile, wakeups) % UINT_RANGE == 0)
    {
      wakeups, done := 0, false;
      while !done && wakeups < |meanwhile|
        invariant Valid() && wakeups <= |meanwhile| && (t in waiting <==> !done)
        invariant !done ==> waiting[t] == prev
        invariant sigcount == (prev + SignalsIn(meanwhile, wakeups)) % UINT_RANGE
        invariant forall m :: 1 <= m < wakeups ==> SignalsIn(meanwhile, m) % UINT_RANGE == 0
        invariant if done then wakeups > 0 && SignalsIn(meanwhile, wakeups) % UINT_RANGE != 0
                  else wakeups > 0 ==> SignalsIn(meanwhile, wakeups) % UINT_RANGE == 0
        decreases |meanwhile| - wakeups
      {
        Others(meanwhile[wakeups], prev + SignalsIn(meanwhile, wakeups));
        wakeups := wakeups + 1;
        WrapsBack(prev, SignalsIn(meanwhile, wakeups));
        done := WakeUp(t, prev);
      }
    }

    /** One return of the condition variable's wait and the test of the loop. */
    method WakeUp(t: Tid, prev: nat) returns (leaves: bool)
      requires Valid() && t in waiting && waiting[t] == prev
      modifies this`history, this`waiting
      ensures Valid() && leaves == (prev != sigcount) && sigcount == old(sigcount)
      ensures waiting == if leaves then old(waiting) - {t} else old(waiting)
    {
      AppendEvent(Init(initially), history, Wake(t));
      history := history + [Wake(t)];
      leaves := prev != sigcount;
      if leaves {
        waiting := waiting - {t};
      }
    }

    /** Other threads signal (true) or reset (false) the event; `total` are the signals so far. */
    method Others(changes: seq<bool>, ghost total: nat)
      requires Valid() && sigcount == total % UINT_RANGE
      modifies this
      ensures Valid() && waiting == old(waiting)
      ensures sigcount == (total + Trues(changes)) % UINT_RANGE
    {
      for i := 0 to |changes|
        invariant Valid() && waiting == old(waiting)
        invariant sigcount == (total + Trues(changes[..i])) % UINT_RANGE
      {
        assert changes[..i + 1][..i] == changes[..i];
        if changes[i] {
          IncWraps(total + Trues(changes[..i]));
          DoSignal();
        } else {
          DoReset();
        }
      }
      assert changes[..|changes|] == changes;
    }
  }

  function Trues(changes: seq<bool>): nat {
    if changes == [] then 0 else Trues(changes[..|changes| - 1]) + if changes[|changes| - 1] then 1 else 0
  }

  /** The signals before wake-up number `n`. */
  function SignalsIn(meanwhile: seq<seq<bool>>, n: nat): nat
    requires n <= |meanwhile|
  {
    if n == 0 then 0 else SignalsIn(meanwhile, n - 1) + Trues(meanwhile[n - 1])
  }
}
