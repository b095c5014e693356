/**
The lock as an object that its threads update in place, one statement at a time.

`Advance` is the body of the four operations; `Interleave` lets an arbitrary scheduler drive
any number of threads through it.
*/
module SharedMutexObject {
  import opened Common
  import opened SharedMutex
  import opened SharedMutexSafety

  class Lock {
    var m1: Option<Tid>
    var m2: Option<Tid>
    var m3: Option<Tid>
    var w: nat
    var writerCount: nat
    var r: nat
    var readerCount: nat
    var pc: map<Tid, PC>

    function Now(): State
      reads this
    {
      State(m1, m2, m3, w, writerCount, r, readerCount, pc)
    }

    constructor (threads: set<Tid>)
      ensures Now() == Init(threads)
    {
      var wPermits := NewSemaphore(1, 1);
      var rPermits := NewSemaphore(1, 1);
      m1, m2, m3 := None, None, None;
      w, writerCount := wPermits, 0;
      r, readerCount := rPermits, 0;
      pc := map t | t in threads :: Idle;
    }

    /** One statement of `rdlock` or `rdunlock`. */
    method ReaderStatement(t: Tid)
      requires Enabled(Now(), t, Proceed)
      requires PastR(pc[t]) || pc[t].RdAcqM3? || pc[t].RdAcqR?
      modifies this
      ensures Now() == Next(old(Now()), t, Proceed)
    {
      var next := Idle;
      match pc[t] {
        case RdAcqM3 => m3, next := Some(t), RdAcqR;
        case RdAcqR => r, next := r - 1, RdAcqM1;
        case RdAcqM1 => m1, next := Some(t), RdTest;
        case RdTest => next := if Inc(readerCount) == 1 then RdAcqW else RdInc;
        case RdAcqW => w, next := w - 1, RdInc;
        case RdInc => readerCount, next := Inc(readerCount), RdRelM1;
        case RdRelM1 => m1, next := None, RdRelR;
        case RdRelR => r, next := r + 1, RdRelM3;
        case RdRelM3 => m3, next := None, Reading;
        case Reading => next := RuAcqM1;
        case RuAcqM1 => m1, next := Some(t), RuTest;
        case RuTest => next := if Dec(readerCount) == 0 then RuRelW else RuDec;
        case RuRelW => w, next := w + 1, RuDec;
        case RuDec => readerCount, next := Dec(readerCount), RuRelM1;
        case RuRelM1 => m1 := None;
        case _ =>
      }
      pc := pc[t := next];
    }

    /** One statement of `wrlock`, of its handler, or of `wrunlock`. */
    method WriterStatement(t: Tid)
      requires Enabled(Now(), t, Proceed)
      requires !PastR(pc[t]) && !pc[t].RdAcqM3? && !pc[t].RdAcqR?
      modifies this
      ensures Now() == Next(old(Now()), t, Proceed)
    {
      var next := Idle;
      match pc[t] {
        case WrAcqM2 => m2, next := Some(t), WrTest;
        case WrTest => next := if Inc(writerCount) == 1 then WrAcqR else WrInc;
        case WrAcqR => r, next := r - 1, WrInc;
        case WrInc => writerCount, next := Inc(writerCount), WrRelM2;
        case WrRelM2 => m2, next := None, WrAcqW;
        case WrAcqW => w, next := w - 1, Writing;
        case CatchAcqM2 => m2, next := Some(t), CatchDec;
        case CatchDec => writerCount, next := Dec(writerCount), CatchRelM2;
        case CatchRelM2 => m2 := None;
        case Writing => next := WuRelW;
        case WuRelW => w, next := w + 1, WuAcqM2;
        case WuAcqM2 => m2, next := Some(t), WuTest;
        case WuTest => next := if Dec(writerCount) == 0 then WuRelR else WuDec;
        case WuRelR => r, next := r + 1, WuDec;
        case WuDec => writerCount, next := Dec(writerCount), WuRelM2;
        case WuRelM2 => m2 := None;
        case _ =>
      }
      pc := pc[t := next];
    }

    /** Lets thread `t` take action `a`; a thread that is blocked changes nothing. */
    method Advance(t: Tid, a: Action) returns (moved: bool)
      modifies this
      ensures moved == old(Enabled(Now(), t, a))
      ensures Now() == if moved then Next(old(Now()), t, a) else old(Now())
    {
      moved := Enabled(Now(), t, a);
      if moved {
        match a
        case CallRdLock => pc := pc[t := RdAcqM3];
        case CallWrLock => pc := pc[t := WrAcqM2];
        case ThrowFromWLock => pc := pc[t := CatchAcqM2];
        case Proceed =>
          if PastR(pc[t]) || pc[t].RdAcqM3? || pc[t].RdAcqR? {
            ReaderStatement(t);
          } else {
            WriterStatement(t);
          }
      }
    }

    /** Any scheduler, from any safe state: every state it goes through is safe. */
    method Interleave(schedule: seq<(Tid, Action)>) returns (ghost run: seq<State>)
      requires Inv(Now())
      modifies this
      ensures IsRun(run) && run[0] == old(Now()) && run[|run| - 1] == Now()
      ensures forall i :: 0 <= i < |run| ==> Exclusive(run[i]) && NeverOverReleased(run[i])
    {
      run := [Now()];
      for k := 0 to |schedule|
        invariant IsRun(run) && run[0] == old(Now()) && run[|run| - 1] == Now()
      {
        var (t, a) := schedule[k];
        var moved := Advance(t, a);
        if moved {
          run := ExtendRun(run, t, a);
        }
      }
      RunKeepsInv(run);
      forall i | 0 <= i < |run|
        ensures Exclusive(run[i]) && NeverOverReleased(run[i])
      {
        InvExclusive(run[i]);
        InvNeverOverReleased(run[i]);
      }
    }
  }
}
