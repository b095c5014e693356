/** What the scheduler and its processors guarantee in every run. */
module SchedulerTheorems {
  import opened Common
  import opened Scheduler

  /** Before event `i` some `Schedule` call with ticket `t` found its key in the map. */
  ghost predicate FoundItsKey(run: seq<State>, events: seq<Event>, i: nat, t: nat)
    requires |run| == |events| + 1 && i <= |events|
  {
    exists k :: 0 <= k < i && events[k].Schedule? && |run[k].calls| == t && events[k].key in run[k].jobMap
  }

  /**
  Every `Schedule` call is pending, handed over or refused, and only one of these; nothing is handed
  over twice; and a call is refused exactly if it found its key in the map.
  */
  lemma Conservation(run: seq<State>, events: seq<Event>, i: nat)
    requires IsRun(run, events) && i < |run|
    ensures Conserved(run[i])
    ensures forall t: nat :: t in run[i].refused <==> FoundItsKey(run, events, i, t)
  {
    RunKeepsInv(run, events);
    RefusedFoundTheirKeys(run, events, i);
  }

  lemma {:induction false} RefusedFoundTheirKeys(run: seq<State>, events: seq<Event>, i: nat)
    requires IsRun(run, events) && i < |run|
    ensures forall t: nat :: t in run[i].refused <==> FoundItsKey(run, events, i, t)
  {
    if i > 0 {
      RefusedFoundTheirKeys(run, events, i - 1);
      var s, e := run[i - 1], events[i - 1];
      RefusedAfter(s, e, run[i]);
      forall t: nat
        ensures FoundItsKey(run, events, i, t) <==>
          FoundItsKey(run, events, i - 1, t) || (e.Schedule? && |s.calls| == t && e.key in s.jobMap)
      {
      }
    }
  }

  lemma RefusedAfter(s: State, e: Event, s': State)
    requires Next(s, e, s')
    ensures forall t: nat :: t in s'.refused <==> t in s.refused || (e.Schedule? && t == |s.calls| && e.key in s.jobMap)
    ensures |s.calls| <= |s'.calls| && (e.Schedule? ==> |s.calls| < |s'.calls|)
  {
  }

  /** A call is refused exactly if its key was in the map when it came; then its job is never handed over. */
  lemma RefusedIffKeyPresent(run: seq<State>, events: seq<Event>, i: nat, j: nat)
    requires IsRun(run, events) && i < |events| && events[i].Schedule? && i < j < |run|
    ensures |run[i].calls| < |run[j].calls|
    ensures |run[i].calls| in run[j].refused <==> events[i].key in run[i].jobMap
    ensures |run[i].calls| in run[j].refused ==> !Handed(run[j], |run[i].calls|)
  {
    var t := |run[i].calls|;
    Conservation(run, events, i);
    RefusedAfter(run[i], events[i], run[i + 1]);
    for k := i + 1 to j
      invariant t < |run[k].calls| && (t in run[k].refused <==> events[i].key in run[i].jobMap)
    {
      RefusedAfter(run[k], events[k], run[k + 1]);
    }
    Conservation(run, events, j);
  }

  /** Executed, in hand and queued jobs of each processor are what was enqueued there, in that order. */
  lemma QueuesKeepOrder(run: seq<State>, events: seq<Event>, i: nat, p: Proc)
    requires IsRun(run, events) && i < |run|
    ensures Line(run[i], p) == Project(run[i].log, p)
  {
    RunKeepsInv(run, events);
    assert FirstInFirstOut(run[i]);
  }

  lemma NowAfter(s: State, e: Event, s': State)
    requires Next(s, e, s')
    ensures s'.now == if e.Clock? then Some(e.time) else if e.Dispatch? then None else s.now
  {
  }

  /** What the worker compares with is its clock reading of this turn. */
  lemma {:induction false} ReadingOfThisTurn(run: seq<State>, events: seq<Event>, i: nat) returns (k: nat)
    requires IsRun(run, events) && i < |run| && run[i].now.Some?
    ensures k < i && events[k] == Clock(run[i].now.value)
    ensures forall j :: k < j < i ==> !events[j].Clock? && !events[j].Dispatch?
  {
    assert i > 0;
    NowAfter(run[i - 1], events[i - 1], run[i]);
    if events[i - 1].Clock? {
      k := i - 1;
    } else {
      k := ReadingOfThisTurn(run, events, i - 1);
    }
  }

  /**
  A scheduled job enters a queue only by a dispatch, as the least pending key, and the dispatch
  follows a reading `k` of the clock, in the same turn, that had reached the key.
  */
  lemma HandedOverWhenDue(run: seq<State>, events: seq<Event>, i: nat, e: Element) returns (k: nat)
    requires IsRun(run, events) && i < |events|
    requires e.job.Scheduled? && e in run[i + 1].log && e !in run[i].log
    ensures events[i] == Dispatch && IsLeast(e.job.key, run[i].jobMap)
    ensures k < i && events[k].Clock? && events[k].time >= e.job.key
    ensures forall j :: k < j < i ==> !events[j].Clock? && !events[j].Dispatch?
    ensures run[i + 1].log == run[i].log + [e] && e.job.key !in run[i + 1].jobMap
    ensures e.job.ticket < |run[i].calls| && run[i].calls[e.job.ticket] == e
  {
    Conservation(run, events, i);
    EntersByDispatch(run[i], events[i], run[i + 1], e);
    k := ReadingOfThisTurn(run, events, i);
  }

  lemma EntersByDispatch(s: State, event: Event, s': State, e: Element)
    requires Conserved(s) && Next(s, event, s') && e.job.Scheduled? && e in s'.log && e !in s.log
    ensures event == Dispatch && Due(e.job.key, s) && s.jobMap[e.job.key] == e && s' == HandOver(s, e.job.key)
  {
  }

  /** A pending job that is due and least is handed over by the next dispatch. */
  lemma DueIsHandedOver(s: State, k: Time, s': State)
    requires Due(k, s) && Next(s, Dispatch, s')
    ensures s'.log == s.log + [s.jobMap[k]] && s'.jobMap == s.jobMap - {k}
    ensures Get(s'.queue, s.jobMap[k].proc) == Get(s.queue, s.jobMap[k].proc) + [s.jobMap[k].job]
    ensures forall q :: q != s.jobMap[k].proc ==> Get(s'.queue, q) == Get(s.queue, q)
  {
    var j :| Due(j, s) && s' == HandOver(s, j);
    assert j == k;
  }

  // ----- order -----

  lemma LateIsNotIncreasing(log: seq<Element>, j: nat)
    requires LateInLog(log) && j < |log| && log[j].job.Scheduled? && log[j].job.late
    ensures !Increasing(Jobs(log))
  {
    var before :| before in log[..j] && before.job.Scheduled? && before.job.key >= log[j].job.key;
    var m :| 0 <= m < j && log[m] == before;
    assert Jobs(log)[m] == log[m].job && Jobs(log)[j] == log[j].job;
  }

  lemma NotLateComesLater(log: seq<Element>, m: nat, j: nat)
    requires LateInLog(log) && m < j < |log| && log[m].job.Scheduled? && log[j].job.Scheduled? && !log[j].job.late
    ensures log[m].job.key < log[j].job.key
  {
    assert log[m] == log[..j][m];
  }

  /** Hand-overs are in strictly increasing due time exactly when no late job is handed over. */
  lemma IncreasingIffNoneLate(run: seq<State>, events: seq<Event>, i: nat)
    requires IsRun(run, events) && i < |run|
    ensures Increasing(Jobs(run[i].log)) <==> forall e :: e in run[i].log && e.job.Scheduled? ==> !e.job.late
  {
    var log := run[i].log;
    assert LateInLog(log) by { RunKeepsInv(run, events); }
    if e :| e in log && e.job.Scheduled? && e.job.late {
      var j :| 0 <= j < |log| && log[j] == e;
      LateIsNotIncreasing(log, j);
    } else {
      forall m, j | 0 <= m < j < |log| && log[m].job.Scheduled? && log[j].job.Scheduled?
        ensures log[m].job.key < log[j].job.key
      {
        NotLateComesLater(log, m, j);
      }
    }
  }

  lemma {:induction false} ProjectMembers(log: seq<Element>, p: Proc)
    ensures forall job :: job in Project(log, p) ==> exists i :: 0 <= i < |log| && log[i].job == job
  {
    if log != [] {
      var prefix, last := log[..|log| - 1], log[|log| - 1];
      ProjectMembers(prefix, p);
      forall job | job in Project(log, p)
        ensures exists i :: 0 <= i < |log| && log[i].job == job
      {
        if job in Project(prefix, p) {
          var i :| 0 <= i < |prefix| && prefix[i].job == job;
          assert log[i].job == job;
        } else {
          assert log[|log| - 1].job == job;
        }
      }
    }
  }

  /** A processor's share of an increasing log is increasing. */
  lemma {:induction false} ProjectIncreasing(log: seq<Element>, p: Proc)
    requires Increasing(Jobs(log))
    ensures Increasing(Project(log, p))
  {
    if log != [] {
      var prefix, last := log[..|log| - 1], log[|log| - 1];
      var js := Jobs(log);
      assert forall i :: 0 <= i < |log| ==> js[i] == log[i].job;
      assert Jobs(prefix) == js[..|prefix|];
      ProjectIncreasing(prefix, p);
      ProjectMembers(prefix, p);
      var mine := Project(prefix, p);
      forall i | 0 <= i < |mine| && mine[i].Scheduled? && last.job.Scheduled?
        ensures mine[i].key < last.job.key
      {
        assert mine[i] in mine;
        var m :| 0 <= m < |prefix| && prefix[m].job == mine[i];
        assert js[m] == mine[i] && js[|prefix|] == last.job;
      }
    }
  }

  lemma IncreasingPrefix(a: seq<Job>, b: seq<Job>)
    requires Increasing(a + b)
    ensures Increasing(a)
  {
    assert forall i :: 0 <= i < |a| ==> (a + b)[i] == a[i];
  }

  /** No late hand-over, then every processor executes its scheduled jobs in strictly increasing due time. */
  lemma ExecutedInOrder(run: seq<State>, events: seq<Event>, i: nat, p: Proc)
    requires IsRun(run, events) && i < |run|
    requires forall e :: e in run[i].log && e.job.Scheduled? ==> !e.job.late
    ensures Increasing(Get(run[i].done, p))
  {
    IncreasingIffNoneLate(run, events, i);
    ProjectIncreasing(run[i].log, p);
    QueuesKeepOrder(run, events, i, p);
    var done := Get(run[i].done, p);
    var rest := InHand(run[i], p) + NonNull(Get(run[i].queue, p));
    assert Line(run[i], p) == done + rest;
    IncreasingPrefix(done, rest);
  }

  ghost predicate NoLateCall(s: State) {
    forall t :: 0 <= t < |s.calls| ==> s.calls[t].job.Scheduled? && !s.calls[t].job.late
  }

  ghost predicate NoneHanded(s: State) { forall e :: e in s.log ==> !e.job.Scheduled? }

  lemma NoLateCallAfter(s: State, e: Event, s': State)
    requires Next(s, e, s') && NoLateCall(s) && (e.Schedule? ==> NoneHanded(s))
    ensures NoLateCall(s')
    ensures NoneHanded(s) && !e.Dispatch? ==> NoneHanded(s')
  {
  }

  lemma HandedNotLate(s: State)
    requires Conserved(s) && NoLateCall(s)
    ensures forall e :: e in s.log && e.job.Scheduled? ==> !e.job.late
  {
  }

  /** If every `Schedule` call precedes the first dispatch, nothing is ever late. */
  lemma AllScheduledFirst(run: seq<State>, events: seq<Event>, n: nat, i: nat)
    requires IsRun(run, events) && n <= |events| && i < |run|
    requires forall k :: 0 <= k < n ==> events[k] != Dispatch
    requires forall k :: n <= k < |events| ==> !events[k].Schedule?
    ensures forall e :: e in run[i].log && e.job.Scheduled? ==> !e.job.late
  {
    for k := 0 to i
      invariant NoLateCall(run[k]) && (k <= n ==> NoneHanded(run[k]))
    {
      NoLateCallAfter(run[k], events[k], run[k + 1]);
    }
    Conservation(run, events, i);
    HandedNotLate(run[i]);
  }

  /** End to end: jobs scheduled before the first dispatch are executed by each processor in due order. */
  lemma EndToEnd(run: seq<State>, events: seq<Event>, n: nat, i: nat, p: Proc)
    requires IsRun(run, events) && n <= |events| && i < |run|
    requires forall k :: 0 <= k < n ==> events[k] != Dispatch
    requires forall k :: n <= k < |events| ==> !events[k].Schedule?
    ensures Increasing(Get(run[i].done, p))
  {
    AllScheduledFirst(run, events, n, i);
    ExecutedInOrder(run, events, i, p);
  }

  // ----- every job runs on its own processor -----

  lemma CallsOnlyGrow(s: State, e: Event, s': State)
    requires Next(s, e, s')
    ensures s.calls <= s'.calls
  {
  }

  /** A call is recorded with the processor and the key that its caller named, and stays so. */
  lemma CallStays(run: seq<State>, events: seq<Event>, i: nat, j: nat)
    requires IsRun(run, events) && i < |events| && events[i].Schedule? && i < j < |run|
    ensures var t := |run[i].calls|;
      && t < |run[j].calls| && run[j].calls[t].proc == events[i].proc
      && run[j].calls[t].job.Scheduled? && run[j].calls[t].job.key == events[i].key && run[j].calls[t].job.ticket == t
  {
    assert Next(run[i], events[i], run[i + 1]);
    var t := |run[i].calls|;
    for k := i + 1 to j
      invariant t < |run[k].calls| && run[k].calls[t] == run[i + 1].calls[t]
    {
      CallsOnlyGrow(run[k], events[k], run[k + 1]);
    }
  }

  /** The jobs of a processor are those of the elements that name it. */
  lemma {:induction false} ProjectContains(log: seq<Element>, p: Proc, job: Job)
    ensures job in Project(log, p) <==> !job.Null? && Element(p, job) in log
  {
    if log != [] {
      var prefix, last := log[..|log| - 1], log[|log| - 1];
      ProjectContains(prefix, p, job);
      assert log == prefix + [last];
    }
  }

  /** A scheduled job that is handed over goes to the processor its caller named, and to no other. */
  lemma OwnProcessor(run: seq<State>, events: seq<Event>, i: nat, j: nat)
    requires IsRun(run, events) && i < |events| && events[i].Schedule? && i < j < |run|
    requires |run[i].calls| < |run[j].calls| && Handed(run[j], |run[i].calls|)
    ensures var job := run[j].calls[|run[i].calls|].job;
      job in Project(run[j].log, events[i].proc) && forall q :: q != events[i].proc ==> job !in Project(run[j].log, q)
  {
    CallStays(run, events, i, j);
    Conservation(run, events, j);
    var call := run[j].calls[|run[i].calls|];
    ProjectContains(run[j].log, call.proc, call.job);
    forall q | q != call.proc
      ensures call.job !in Project(run[j].log, q)
    {
      ProjectContains(run[j].log, q, call.job);
      NotElsewhere(run[j], call, q);
    }
  }

  lemma NotElsewhere(s: State, call: Element, q: Proc)
    requires Conserved(s) && Genuine(s.calls, call) && q != call.proc
    ensures Element(q, call.job) !in s.log
  {
    forall n | 0 <= n < |s.log|
      ensures s.log[n] != Element(q, call.job)
    {
      if s.log[n].job == call.job {
        assert Genuine(s.calls, s.log[n]);
      }
    }
  }

  /** What a processor has executed, it was named for: the job's call names this processor. */
  lemma ExecutedOnOwnProcessor(run: seq<State>, events: seq<Event>, j: nat, p: Proc, job: Job)
    requires IsRun(run, events) && j < |run| && job.Scheduled? && job in Get(run[j].done, p)
    ensures job.ticket < |run[j].calls| && run[j].calls[job.ticket] == Element(p, job)
  {
    QueuesKeepOrder(run, events, j, p);
    assert job in Line(run[j], p);
    ProjectContains(run[j].log, p, job);
    Conservation(run, events, j);
    var n :| 0 <= n < |run[j].log| && run[j].log[n] == Element(p, job);
    assert Genuine(run[j].calls, run[j].log[n]);
  }

  // ----- single steps of the queues -----

  /** A direct enqueue appends to the queue of its processor and touches no other. */
  lemma EnqueueAppends(s: State, p: Proc, job: Job, s': State)
    requires Next(s, EnqueueDirectly(p, job), s')
    ensures Get(s'.queue, p) == Get(s.queue, p) + [job] && forall q :: q != p ==> Get(s'.queue, q) == Get(s.queue, q)
    ensures s'.done == s.done && s'.current == s.current && s'.jobMap == s.jobMap
  {
  }

  /** A fetch takes the front of the queue in hand; an empty pointer is thrown away; an empty queue changes nothing. */
  lemma FetchTakesFront(s: State, p: Proc, s': State)
    requires Next(s, Fetch(p), s')
    ensures Get(s.queue, p) == [] ==> s' == s
    ensures Get(s.queue, p) != [] ==>
      && Get(s.queue, p) == [Get(s.queue, p)[0]] + Get(s'.queue, p)
      && InHand(s', p) == (if Get(s.queue, p)[0].Null? then [] else [Get(s.queue, p)[0]])
    ensures s'.done == s.done && forall q :: q != p ==> Get(s'.queue, q) == Get(s.queue, q) && InHand(s', q) == InHand(s, q)
  {
  }

  /** Executing finishes the job in hand. */
  lemma ExecuteFinishes(s: State, p: Proc, s': State)
    requires Next(s, Execute(p), s')
    ensures Get(s'.done, p) == Get(s.done, p) + InHand(s, p) && InHand(s', p) == [] && s'.queue == s.queue
    ensures forall q :: q != p ==> Get(s'.done, q) == Get(s.done, q) && InHand(s', q) == InHand(s, q)
  {
  }

  // ----- what goes wrong, at real inputs -----

  const EMPTY := State(map[], None, map[], map[], map[], [], {}, [])

  /** Two jobs scheduled with the same key: the second is dropped. */
  lemma SecondJobIsDropped() returns (run: seq<State>, events: seq<Event>)
    ensures events == [Schedule(0, 5), Schedule(1, 5)] && IsRun(run, events)
    ensures run[2].refused == {1} && run[2].jobMap == map[5 := Element(0, Scheduled(0, 5, false))]
  {
    var first, second := Element(0, Scheduled(0, 5, false)), Element(1, Scheduled(1, 5, false));
    var s1 := EMPTY.(calls := [first], jobMap := map[5 := first]);
    var s2 := s1.(calls := [first, second], refused := {1});
    events := [Schedule(0, 5), Schedule(1, 5)];
    run := [EMPTY, s1, s2];
    assert Next(EMPTY, events[0], s1) && Next(s1, events[1], s2);
  }

  lemma OnlyJobIsHandedOver(s: State, k: Time, e: Element)
    requires s.jobMap == map[k := e] && s.now.Some? && s.now.value >= k
    ensures Next(s, Dispatch, HandOver(s, k)) && HandOver(s, k).jobMap == map[] && HandOver(s, k).now == None
  {
    assert Due(k, s);
  }

  /** The first half of the next run: a job with key 5 is scheduled and handed over. */
  lemma FirstJobIsHandedOver() returns (run: seq<State>, events: seq<Event>)
    ensures events == [Schedule(0, 5), Clock(7), Dispatch] && IsRun(run, events)
    ensures run[3].jobMap == map[] && run[3].now == None && |run[3].calls| == 1
    ensures run[3].log == [Element(0, Scheduled(0, 5, false))]
  {
    var first := Element(0, Scheduled(0, 5, false));
    var s1 := EMPTY.(calls := [first], jobMap := map[5 := first]);
    var s2 := s1.(now := Some(7));
    OnlyJobIsHandedOver(s2, 5, first);
    events := [Schedule(0, 5), Clock(7), Dispatch];
    run := [EMPTY, s1, s2, HandOver(s2, 5)];
    assert Next(EMPTY, events[0], s1) && Next(s1, events[1], s2);
  }

  /** A job scheduled after a later one was handed over: the order of hand-over is not that of the keys. */
  lemma LateJobIsOvertaken() returns (run: seq<State>, events: seq<Event>)
    ensures events == [Schedule(0, 5), Clock(7), Dispatch, Schedule(0, 3), Clock(7), Dispatch] && IsRun(run, events)
    ensures run[6].log == [Element(0, Scheduled(0, 5, false)), Element(0, Scheduled(1, 3, true))]
    ensures !Increasing(Jobs(run[6].log))
  {
    run, events := FirstJobIsHandedOver();
    var first, second := Element(0, Scheduled(0, 5, false)), Element(0, Scheduled(1, 3, true));
    var s3 := run[3];
    var s4 := s3.(calls := s3.calls + [second], jobMap := map[3 := second]);
    var s5 := s4.(now := Some(7));
    OnlyJobIsHandedOver(s5, 3, second);
    assert first in s3.log;
    assert Next(s3, Schedule(0, 3), s4);
    run, events := run + [s4, s5, HandOver(s5, 3)], events + [Schedule(0, 3), Clock(7), Dispatch];
    assert Jobs(run[6].log)[0] == first.job && Jobs(run[6].log)[1] == second.job;
  }
}
