/**
The readers/writers lock as a transition system.

A state holds the lock's fields and one program counter per thread.  A thread executes
one statement (or one guard destructor) per step, so every interleaving of any number of
threads is a run.  The two counters are 32-bit `unsigned` and wrap around.
*/
module SharedMutex {
  import opened Common

  type Tid = nat

  /** The statement a thread executes next.  `Catch...` is the handler of `wrlock`. */
  datatype PC =
    | Idle
    | RdAcqM3 | RdAcqR | RdAcqM1 | RdTest | RdAcqW | RdInc | RdRelM1 | RdRelR | RdRelM3
    | Reading
    | RuAcqM1 | RuTest | RuRelW | RuDec | RuRelM1
    | WrAcqM2 | WrTest | WrAcqR | WrInc | WrRelM2 | WrAcqW
    | Writing
    | CatchAcqM2 | CatchDec | CatchRelM2
    | WuRelW | WuAcqM2 | WuTest | WuRelR | WuDec | WuRelM2

  datatype State = State(
    m1: Option<Tid>, m2: Option<Tid>, m3: Option<Tid>,
    w: nat, writerCount: nat, r: nat, readerCount: nat,
    pc: map<Tid, PC>)

  /** What the scheduler lets a thread do: start a call, go on, or have `w.lock()` throw. */
  datatype Action = CallRdLock | CallWrLock | Proceed | ThrowFromWLock

  const SEM_VALUE_MAX: nat := 0x7fff_ffff

  /** The pthreads constructor: create the semaphore full, then take permits down to `initial`. */
  method NewSemaphore(max: nat, initial: nat) returns (permits: nat)
    ensures permits <= max && permits <= initial && permits <= SEM_VALUE_MAX
    ensures permits == max || permits == initial || permits == SEM_VALUE_MAX
  {
    var limitedMax := if max < SEM_VALUE_MAX then max else SEM_VALUE_MAX;
    var limitedInitial := if initial < limitedMax then initial else limitedMax;
    permits := limitedMax;
    for i := limitedInitial to limitedMax
      invariant permits == limitedMax - (i - limitedInitial)
    {
      assert permits > 0;  // the constructor never blocks
      permits := permits - 1;
    }
  }

  function Init(threads: set<Tid>): State {
    State(None, None, None, 1, 0, 1, 0, map t | t in threads :: Idle)
  }

  /** `unsigned` arithmetic: adding or subtracting one wraps around. */
  function Inc(n: nat): nat { if n + 1 == UINT_RANGE then 0 else n + 1 }

  function Dec(n: nat): nat { if n == 0 then UINT_RANGE - 1 else n - 1 }

  /** Taking a semaphore that is available. */
  function Down(n: nat): nat { if n > 0 then n - 1 else 0 }

  /** Whether thread `t` may take action `a`: only lock operations can block. */
  predicate Enabled(s: State, t: Tid, a: Action) {
    t in s.pc &&
    match a
    case CallRdLock => s.pc[t] == Idle
    case CallWrLock => s.pc[t] == Idle
    case ThrowFromWLock => s.pc[t] == WrAcqW
    case Proceed =>
      match s.pc[t]
      case Idle => false
      case RdAcqM3 => s.m3.None?
      case RdAcqR => s.r > 0
      case RdAcqM1 => s.m1.None?
      case RdAcqW => s.w > 0
      case RuAcqM1 => s.m1.None?
      case WrAcqM2 => s.m2.None?
      case WrAcqR => s.r > 0
      case WrAcqW => s.w > 0
      case CatchAcqM2 => s.m2.None?
      case WuAcqM2 => s.m2.None?
      case _ => true
  }

  /** Control flow: the statement that follows `p`. */
  function Successor(s: State, p: PC, a: Action): PC {
    match a
    case CallRdLock => RdAcqM3
    case CallWrLock => WrAcqM2
    case ThrowFromWLock => CatchAcqM2
    case Proceed =>
      match p
      case Idle => Idle
      // rdlock; the guards are destroyed in reverse order
      case RdAcqM3 => RdAcqR
      case RdAcqR => RdAcqM1
      case RdAcqM1 => RdTest
      case RdTest => if Inc(s.readerCount) == 1 then RdAcqW else RdInc
      case RdAcqW => RdInc
      case RdInc => RdRelM1
      case RdRelM1 => RdRelR
      case RdRelR => RdRelM3
      case RdRelM3 => Reading
      // rdunlock
      case Reading => RuAcqM1
      case RuAcqM1 => RuTest
      case RuTest => if Dec(s.readerCount) == 0 then RuRelW else RuDec
      case RuRelW => RuDec
      case RuDec => RuRelM1
      case RuRelM1 => Idle
      // wrlock
      case WrAcqM2 => WrTest
      case WrTest => if Inc(s.writerCount) == 1 then WrAcqR else WrInc
      case WrAcqR => WrInc
      case WrInc => WrRelM2
      case WrRelM2 => WrAcqW
      case WrAcqW => Writing
      case CatchAcqM2 => CatchDec
      case CatchDec => CatchRelM2
      case CatchRelM2 => Idle
      // wrunlock
      case Writing => WuRelW
      case WuRelW => WuAcqM2
      case WuAcqM2 => WuTest
      case WuTest => if Dec(s.writerCount) == 0 then WuRelR else WuDec
      case WuRelR => WuDec
      case WuDec => WuRelM2
      case WuRelM2 => Idle
  }

  /** Data flow: what statement `p` of thread `t` does to the fields of the lock. */
  function Effect(s: State, t: Tid, p: PC): State {
    match p
    case RdAcqM1 => s.(m1 := Some(t))
    case RuAcqM1 => s.(m1 := Some(t))
    case RdRelM1 => s.(m1 := None)
    case RuRelM1 => s.(m1 := None)
    case WrAcqM2 => s.(m2 := Some(t))
    case WuAcqM2 => s.(m2 := Some(t))
    case CatchAcqM2 => s.(m2 := Some(t))
    case WrRelM2 => s.(m2 := None)
    case WuRelM2 => s.(m2 := None)
    case CatchRelM2 => s.(m2 := None)
    case RdAcqM3 => s.(m3 := Some(t))
    case RdRelM3 => s.(m3 := None)
    case RdAcqR => s.(r := Down(s.r))
    case WrAcqR => s.(r := Down(s.r))
    case RdRelR => s.(r := s.r + 1)
    case WuRelR => s.(r := s.r + 1)
    case RdAcqW => s.(w := Down(s.w))
    case WrAcqW => s.(w := Down(s.w))
    case RuRelW => s.(w := s.w + 1)
    case WuRelW => s.(w := s.w + 1)
    case RdInc => s.(readerCount := Inc(s.readerCount))
    case RuDec => s.(readerCount := Dec(s.readerCount))
    case WrInc => s.(writerCount := Inc(s.writerCount))
    case WuDec => s.(writerCount := Dec(s.writerCount))
    case CatchDec => s.(writerCount := Dec(s.writerCount))
    case _ => s
  }

  /** The state after thread `t` took action `a`. */
  function Next(s: State, t: Tid, a: Action): State
    requires Enabled(s, t, a)
  {
    var e := if a.Proceed? then Effect(s, t, s.pc[t]) else s;
    e.(pc := s.pc[t := Successor(s, s.pc[t], a)])
  }

  ghost predicate Step(s: State, s': State) {
    exists t, a :: Enabled(s, t, a) && s' == Next(s, t, a)
  }

  /** A step in which `w.lock()` does not throw. */
  ghost predicate CleanStep(s: State, s': State) {
    exists t, a :: a != ThrowFromWLock && Enabled(s, t, a) && s' == Next(s, t, a)
  }

  /** A run: consecutive states are related by a step of some thread. */
  ghost predicate IsRun(run: seq<State>) {
    |run| > 0 && forall i :: 0 <= i < |run| - 1 ==> Step(run[i], run[i + 1])
  }

  ghost predicate IsCleanRun(run: seq<State>) {
    |run| > 0 && forall i :: 0 <= i < |run| - 1 ==> CleanStep(run[i], run[i + 1])
  }

  // ----- the sections of the four operations -----

  predicate HoldsM1(p: PC) {
    p.RdTest? || p.RdAcqW? || p.RdInc? || p.RdRelM1? || p.RuTest? || p.RuRelW? || p.RuDec? || p.RuRelM1?
  }

  predicate HoldsM2(p: PC) {
    p.WrTest? || p.WrAcqR? || p.WrInc? || p.WrRelM2? || p.CatchDec? || p.CatchRelM2? || p.WuTest? || p.WuRelR? || p.WuDec? || p.WuRelM2?
  }

  predicate HoldsM3(p: PC) {
    p.RdAcqR? || p.RdAcqM1? || p.RdTest? || p.RdAcqW? || p.RdInc? || p.RdRelM1? || p.RdRelR? || p.RdRelM3?
  }

  /** Between a reader's increment and its decrement of `reader_count`. */
  predicate CountedReader(p: PC) {
    p.RdRelM1? || p.RdRelR? || p.RdRelM3? || p.Reading? || p.RuAcqM1? || p.RuTest? || p.RuRelW? || p.RuDec?
  }

  /** Between a writer's increment and its decrement of `writer_count`. */
  predicate CountedWriter(p: PC) {
    p.WrRelM2? || p.WrAcqW? || p.Writing? || p.CatchAcqM2? || p.CatchDec? || p.WuRelW? || p.WuAcqM2? || p.WuTest? || p.WuRelR? || p.WuDec?
  }

  /** Between taking `w` in `wrlock` and releasing it in `wrunlock`. */
  predicate OwnsW(p: PC) { p.Writing? || p.WuRelW? }

  /** Between taking and releasing `r` in `rdlock`. */
  predicate OwnsR(p: PC) { p.RdAcqM1? || p.RdTest? || p.RdAcqW? || p.RdInc? || p.RdRelM1? || p.RdRelR? }

  function At(s: State, p: PC -> bool): set<Tid> { set t | t in s.pc && p(s.pc[t]) }

  function CountedReaders(s: State): set<Tid> { At(s, CountedReader) }

  function CountedWriters(s: State): set<Tid> { At(s, CountedWriter) }

  function PcOf(s: State, owner: Option<Tid>): PC {
    if owner.Some? && owner.value in s.pc then s.pc[owner.value] else Idle
  }

  /** The readers, as a group, hold `w`: `p` is what the owner of `m1` does next, `n` counts them. */
  predicate GroupHoldsW(p: PC, n: nat) { p.RdInc? || (n > 0 && !(p.RuDec? && n == 1)) }

  /** The writers, as a group, hold `r`: `p` is what the owner of `m2` does next, `n` counts them. */
  predicate GroupHoldsR(p: PC, n: nat) { p.WrInc? || (n > 0 && !(p.WuDec? && n == 1)) }

  predicate ReadersHoldW(s: State) { GroupHoldsW(PcOf(s, s.m1), |CountedReaders(s)|) }

  predicate WritersHoldR(s: State) { GroupHoldsR(PcOf(s, s.m2), |CountedWriters(s)|) }

  function Unit(b: bool): nat { if b then 1 else 0 }

  // ----- the inductive invariant -----

  /** The mutex is owned by exactly the threads whose statement lies in its critical section. */
  ghost predicate Owned(pc: map<Tid, PC>, m: Option<Tid>, holds: PC -> bool) {
    && (m.Some? ==> m.value in pc && holds(pc[m.value]))
    && (forall t :: t in pc && holds(pc[t]) ==> m == Some(t))
  }

  ghost predicate MutexesOwned(s: State) {
    Owned(s.pc, s.m1, HoldsM1) && Owned(s.pc, s.m2, HoldsM2) && Owned(s.pc, s.m3, HoldsM3)
  }

  /** `n` counted readers, `owners` writers owning `w`, the owner of `m1` at `p`. */
  predicate ReadersOk(p: PC, n: nat, owners: nat, count: nat, w: nat) {
    && n <= UINT_RANGE
    && count == (if n == UINT_RANGE then 0 else n)
    && (p.RdAcqW? ==> count == 0)
    && (p.RdInc? ==> n < UINT_RANGE)
    && (p.RuRelW? ==> n == 1)
    && w + Unit(GroupHoldsW(p, n)) + owners == 1
  }

  /** `n` counted writers, `owners` readers owning `r`, the owner of `m2` at `p`. */
  predicate WritersOk(p: PC, n: nat, owners: nat, count: nat, r: nat) {
    && n <= UINT_RANGE
    && count == (if n == UINT_RANGE then 0 else n)
    && (p.WrAcqR? ==> count == 0)
    && (p.WrInc? ==> n < UINT_RANGE)
    && (p.WuRelR? ==> n == 1)
    && r + Unit(GroupHoldsR(p, n)) + owners <= 1
  }

  predicate ReaderSide(s: State) {
    ReadersOk(PcOf(s, s.m1), |CountedReaders(s)|, |At(s, OwnsW)|, s.readerCount, s.w)
  }

  predicate WriterSide(s: State) {
    WritersOk(PcOf(s, s.m2), |CountedWriters(s)|, |At(s, OwnsR)|, s.writerCount, s.r)
  }

  ghost predicate Inv(s: State) {
    MutexesOwned(s) && ReaderSide(s) && WriterSide(s)
  }

  // ----- every step keeps the invariant -----

  lemma CountAfterMove(s: State, s': State, t: Tid, p: PC, q: PC -> bool)
    requires t in s.pc && s'.pc == s.pc[t := p]
    ensures |At(s', q)| == |At(s, q)| + Unit(q(p)) - Unit(q(s.pc[t]))
  {
    var before, after := At(s, q), At(s', q);
    assert after == if q(p) then before + {t} else before - {t};
    assert q(s.pc[t]) <==> t in before;
  }

  /** Thread `t` moves to `p`: into, out of, or not across the critical section of a mutex. */
  lemma MutexAfterMove(s: State, s': State, m: Option<Tid>, m': Option<Tid>, t: Tid, p: PC, holds: PC -> bool)
    requires t in s.pc && s'.pc == s.pc[t := p] && Owned(s.pc, m, holds)
    requires
      || (m' == m && holds(p) == holds(s.pc[t]))
      || (m.None? && m' == Some(t) && holds(p))
      || (m'.None? && holds(s.pc[t]) && !holds(p))
    ensures Owned(s'.pc, m', holds)
    ensures holds(s.pc[t]) ==> PcOf(s, m) == s.pc[t]
    ensures holds(p) && !holds(s.pc[t]) ==> PcOf(s, m) == Idle
    ensures PcOf(s', m') == if holds(p) then p else if holds(s.pc[t]) then Idle else PcOf(s, m)
  {
  }

  /** How thread `t` moving to `q` changes the owner's statement `p`, the count `n` and the `owners`. */
  predicate Moves(from: PC, q: PC, holds: PC -> bool, counted: PC -> bool, owns: PC -> bool,
                  p: PC, n: nat, owners: nat, p': PC, n': nat, owners': nat)
  {
    && (holds(from) ==> p == from)
    && (holds(q) && !holds(from) ==> p == Idle)
    && p' == (if holds(q) then q else if holds(from) then Idle else p)
    && n' == n + Unit(counted(q)) - Unit(counted(from))
    && owners' == owners + Unit(owns(q)) - Unit(owns(from))
  }

  lemma ReadersOkInsideM1(s: State, t: Tid, p: PC, n: nat, owners: nat, p': PC, n': nat, owners': nat)
    requires Enabled(s, t, Proceed) && HoldsM1(s.pc[t]) && ReadersOk(p, n, owners, s.readerCount, s.w)
    requires Moves(s.pc[t], Successor(s, s.pc[t], Proceed), HoldsM1, CountedReader, OwnsW, p, n, owners, p', n', owners')
    ensures ReadersOk(p', n', owners', Effect(s, t, s.pc[t]).readerCount, Effect(s, t, s.pc[t]).w)
  {
  }

  lemma ReadersOkOutsideM1(s: State, t: Tid, a: Action, p: PC, n: nat, owners: nat, p': PC, n': nat, owners': nat)
    requires Enabled(s, t, a) && !HoldsM1(s.pc[t]) && ReadersOk(p, n, owners, s.readerCount, s.w)
    requires Moves(s.pc[t], Successor(s, s.pc[t], a), HoldsM1, CountedReader, OwnsW, p, n, owners, p', n', owners')
    ensures ReadersOk(p', n', owners', Next(s, t, a).readerCount, Next(s, t, a).w)
  {
  }

  lemma WritersOkInsideM2(s: State, t: Tid, p: PC, n: nat, owners: nat, p': PC, n': nat, owners': nat)
    requires Enabled(s, t, Proceed) && HoldsM2(s.pc[t]) && WritersOk(p, n, owners, s.writerCount, s.r)
    requires Moves(s.pc[t], Successor(s, s.pc[t], Proceed), HoldsM2, CountedWriter, OwnsR, p, n, owners, p', n', owners')
    ensures WritersOk(p', n', owners', Effect(s, t, s.pc[t]).writerCount, Effect(s, t, s.pc[t]).r)
    ensures Effect(s, t, s.pc[t]).r + Unit(GroupHoldsR(p', n')) + owners'
         == s.r + Unit(GroupHoldsR(p, n)) + owners - Unit(s.pc[t].CatchDec? && n == 1)
  {
  }

  lemma WritersOkOutsideM2(s: State, t: Tid, a: Action, p: PC, n: nat, owners: nat, p': PC, n': nat, owners': nat)
    requires Enabled(s, t, a) && !HoldsM2(s.pc[t]) && WritersOk(p, n, owners, s.writerCount, s.r)
    requires Moves(s.pc[t], Successor(s, s.pc[t], a), HoldsM2, CountedWriter, OwnsR, p, n, owners, p', n', owners')
    ensures WritersOk(p', n', owners', Next(s, t, a).writerCount, Next(s, t, a).r)
    ensures GroupHoldsR(p', n') == GroupHoldsR(p, n)
    ensures Next(s, t, a).r + owners' == s.r + owners
  {
  }

  lemma StepKeepsM1(s: State, t: Tid, a: Action)
    requires Owned(s.pc, s.m1, HoldsM1) && Enabled(s, t, a)
    ensures var s' := Next(s, t, a); var q := s'.pc[t];
      && Owned(s'.pc, s'.m1, HoldsM1)
      && (HoldsM1(s.pc[t]) ==> PcOf(s, s.m1) == s.pc[t])
      && (HoldsM1(q) && !HoldsM1(s.pc[t]) ==> PcOf(s, s.m1) == Idle)
      && PcOf(s', s'.m1) == if HoldsM1(q) then q else if HoldsM1(s.pc[t]) then Idle else PcOf(s, s.m1)
  {
    var s' := Next(s, t, a);
    MutexAfterMove(s, s', s.m1, s'.m1, t, s'.pc[t], HoldsM1);
  }

  lemma StepKeepsM2(s: State, t: Tid, a: Action)
    requires Owned(s.pc, s.m2, HoldsM2) && Enabled(s, t, a)
    ensures var s' := Next(s, t, a); var q := s'.pc[t];
      && Owned(s'.pc, s'.m2, HoldsM2)
      && (HoldsM2(s.pc[t]) ==> PcOf(s, s.m2) == s.pc[t])
      && (HoldsM2(q) && !HoldsM2(s.pc[t]) ==> PcOf(s, s.m2) == Idle)
      && PcOf(s', s'.m2) == if HoldsM2(q) then q else if HoldsM2(s.pc[t]) then Idle else PcOf(s, s.m2)
  {
    var s' := Next(s, t, a);
    MutexAfterMove(s, s', s.m2, s'.m2, t, s'.pc[t], HoldsM2);
  }

  lemma StepKeepsM3(s: State, t: Tid, a: Action)
    requires Owned(s.pc, s.m3, HoldsM3) && Enabled(s, t, a)
    ensures var s' := Next(s, t, a); var q := s'.pc[t];
      && Owned(s'.pc, s'.m3, HoldsM3)
      && (HoldsM3(s.pc[t]) ==> PcOf(s, s.m3) == s.pc[t])
      && (HoldsM3(q) && !HoldsM3(s.pc[t]) ==> PcOf(s, s.m3) == Idle)
      && PcOf(s', s'.m3) == if HoldsM3(q) then q else if HoldsM3(s.pc[t]) then Idle else PcOf(s, s.m3)
  {
    var s' := Next(s, t, a);
    MutexAfterMove(s, s', s.m3, s'.m3, t, s'.pc[t], HoldsM3);
  }

  lemma ReadersOkAfterStep(s: State, t: Tid, a: Action, p: PC, n: nat, owners: nat, p': PC, n': nat, owners': nat)
    requires Enabled(s, t, a) && ReadersOk(p, n, owners, s.readerCount, s.w)
    requires Moves(s.pc[t], Successor(s, s.pc[t], a), HoldsM1, CountedReader, OwnsW, p, n, owners, p', n', owners')
    ensures ReadersOk(p', n', owners', Next(s, t, a).readerCount, Next(s, t, a).w)
  {
    if HoldsM1(s.pc[t]) {
      ReadersOkInsideM1(s, t, p, n, owners, p', n', owners');
    } else {
      ReadersOkOutsideM1(s, t, a, p, n, owners, p', n', owners');
    }
  }

  lemma WritersOkAfterStep(s: State, t: Tid, a: Action, p: PC, n: nat, owners: nat, p': PC, n': nat, owners': nat)
    requires Enabled(s, t, a) && WritersOk(p, n, owners, s.writerCount, s.r)
    requires Moves(s.pc[t], Successor(s, s.pc[t], a), HoldsM2, CountedWriter, OwnsR, p, n, owners, p', n', owners')
    ensures WritersOk(p', n', owners', Next(s, t, a).writerCount, Next(s, t, a).r)
  {
    if HoldsM2(s.pc[t]) {
      WritersOkInsideM2(s, t, p, n, owners, p', n', owners');
    } else {
      WritersOkOutsideM2(s, t, a, p, n, owners, p', n', owners');
    }
  }

  lemma StepKeepsReaderSide(s: State, t: Tid, a: Action)
    requires Owned(s.pc, s.m1, HoldsM1) && ReaderSide(s) && Enabled(s, t, a)
    ensures ReaderSide(Next(s, t, a))
  {
    var s' := Next(s, t, a);
    var q := s'.pc[t];
    StepKeepsM1(s, t, a);
    CountAfterMove(s, s', t, q, CountedReader);
    CountAfterMove(s, s', t, q, OwnsW);
    var p, n, owners := PcOf(s, s.m1), |CountedReaders(s)|, |At(s, OwnsW)|;
    var p', n', owners' := PcOf(s', s'.m1), |CountedReaders(s')|, |At(s', OwnsW)|;
    ReadersOkAfterStep(s, t, a, p, n, owners, p', n', owners');
  }

  lemma StepKeepsWriterSide(s: State, t: Tid, a: Action)
    requires Owned(s.pc, s.m2, HoldsM2) && WriterSide(s) && Enabled(s, t, a)
    ensures WriterSide(Next(s, t, a))
  {
    var s' := Next(s, t, a);
    var q := s'.pc[t];
    StepKeepsM2(s, t, a);
    CountAfterMove(s, s', t, q, CountedWriter);
    CountAfterMove(s, s', t, q, OwnsR);
    var p, n, owners := PcOf(s, s.m2), |CountedWriters(s)|, |At(s, OwnsR)|;
    var p', n', owners' := PcOf(s', s'.m2), |CountedWriters(s')|, |At(s', OwnsR)|;
    WritersOkAfterStep(s, t, a, p, n, owners, p', n', owners');
  }

  lemma StepKeepsInv(s: State, t: Tid, a: Action)
    requires Inv(s) && Enabled(s, t, a)
    ensures Inv(Next(s, t, a))
  {
    StepKeepsM1(s, t, a);
    StepKeepsM2(s, t, a);
    StepKeepsM3(s, t, a);
    StepKeepsReaderSide(s, t, a);
    StepKeepsWriterSide(s, t, a);
  }
}
