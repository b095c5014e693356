/**
The timer scheduler and the job processors it feeds.

An event is one critical section or one local step of some thread.  Each turn of the scheduler's
worker is two events, `Clock`, which reads the clock with any result, and `Dispatch`, its critical
section; other threads may come in between.  `calls` and `log` record the history: every
`Schedule` call by its ticket, and every job that was put into some processor's queue.
*/
module Scheduler {
  import opened Common

  type Time = int
  type Proc = nat

  /**
  `Null` is an empty pointer; other jobs come from `Schedule` or directly from `Enqueue`.  A
  scheduled job is `late` if, when it was scheduled, one with the same or a later key had
  already been handed over.
  */
  datatype Job = Null | Direct(id: nat) | Scheduled(ticket: nat, key: Time, late: bool)

  datatype Element = Element(proc: Proc, job: Job)

  datatype State = State(
    jobMap: map<Time, Element>, now: Option<Time>,
    queue: map<Proc, seq<Job>>, current: map<Proc, Job>, done: map<Proc, seq<Job>>,
    calls: seq<Element>, refused: set<nat>, log: seq<Element>)

  datatype Event =
    | Schedule(proc: Proc, key: Time)
    | Clock(time: Time)
    | Dispatch
    | EnqueueDirectly(proc: Proc, job: Job)
    | Fetch(proc: Proc)
    | Execute(proc: Proc)

  /** No job anywhere, and the worker has not read the clock. */
  ghost predicate Initial(s: State) {
    && s.jobMap == map[] && s.now == None && s.current == map[] && s.calls == [] && s.refused == {} && s.log == []
    && (forall p :: p in s.queue ==> s.queue[p] == [])
    && (forall p :: p in s.done ==> s.done[p] == [])
  }

  function Get<T>(m: map<Proc, seq<T>>, p: Proc): seq<T> { if p in m then m[p] else [] }

  ghost predicate IsLeast(k: Time, m: map<Time, Element>) { k in m && forall j :: j in m ==> k <= j }

  function Enqueue(s: State, e: Element): State {
    s.(queue := s.queue[e.proc := Get(s.queue, e.proc) + [e.job]], log := s.log + [e])
  }

  /** The least key, and the worker's clock reading has reached it. */
  ghost predicate Due(k: Time, s: State) { IsLeast(k, s.jobMap) && s.now.Some? && s.now.value >= k }

  function HandOver(s: State, k: Time): State
    requires k in s.jobMap
  {
    Enqueue(s, s.jobMap[k]).(jobMap := s.jobMap - {k}, now := None)
  }

  predicate HandedFrom(log: seq<Element>, key: Time) {
    exists e :: e in log && e.job.Scheduled? && e.job.key >= key
  }

  /** One event.  `map::insert` keeps the entry that is there. */
  ghost predicate Next(s: State, e: Event, s': State) {
    match e
    case Schedule(p, key) =>
      var call := Element(p, Scheduled(|s.calls|, key, HandedFrom(s.log, key)));
      s' == if key in s.jobMap
            then s.(calls := s.calls + [call], refused := s.refused + {|s.calls|})
            else s.(calls := s.calls + [call], jobMap := s.jobMap[key := call])
    case Clock(time) => s.now.None? && s' == s.(now := Some(time))
    case Dispatch =>
      s.now.Some? &&
      (if exists k :: Due(k, s)
       then exists k :: Due(k, s) && s' == HandOver(s, k)
       else s' == s.(now := None))
    case EnqueueDirectly(p, job) => !job.Scheduled? && s' == Enqueue(s, Element(p, job))
    case Fetch(p) =>
      p !in s.current &&
      (if Get(s.queue, p) == [] then s' == s
       else
         var job := s.queue[p][0];
         s' == s.(queue := s.queue[p := s.queue[p][1..]], current := if job.Null? then s.current else s.current[p := job]))
    case Execute(p) =>
      p in s.current && s' == s.(done := s.done[p := Get(s.done, p) + [s.current[p]]], current := s.current - {p})
  }

  ghost predicate IsRun(run: seq<State>, events: seq<Event>) {
    |run| == |events| + 1 && Initial(run[0]) && forall i :: 0 <= i < |events| ==> Next(run[i], events[i], run[i + 1])
  }

  // ----- conservation: pending, handed over, or refused -----

  predicate Pending(s: State, t: nat)
    requires t < |s.calls| && s.calls[t].job.Scheduled?
  {
    var key := s.calls[t].job.key;
    key in s.jobMap && s.jobMap[key] == s.calls[t]
  }

  predicate Handed(s: State, t: nat)
    requires t < |s.calls|
  {
    s.calls[t] in s.log
  }

  predicate OnlyOne(a: bool, b: bool, c: bool) { (a && !b && !c) || (!a && b && !c) || (!a && !b && c) }

  /** A scheduled element is the call with its ticket. */
  predicate Genuine(calls: seq<Element>, e: Element) {
    e.job.Scheduled? && e.job.ticket < |calls| && calls[e.job.ticket] == e
  }

  /** Every call is accounted for exactly once, and handed over at most once. */
  ghost predicate Conserved(s: State) {
    && (forall t :: 0 <= t < |s.calls| ==> s.calls[t].job.Scheduled? && s.calls[t].job.ticket == t)
    && (forall k :: k in s.jobMap ==> Genuine(s.calls, s.jobMap[k]) && s.jobMap[k].job.key == k)
    && (forall i :: 0 <= i < |s.log| && s.log[i].job.Scheduled? ==> Genuine(s.calls, s.log[i]))
    && (forall i, j :: 0 <= i < j < |s.log| && s.log[i].job.Scheduled? ==> s.log[i] != s.log[j])
    && (forall t :: t in s.refused ==> t < |s.calls|)
    && (forall t :: 0 <= t < |s.calls| ==> OnlyOne(Pending(s, t), Handed(s, t), t in s.refused))
  }

  // ----- order of hand-over -----

  /** Scheduled jobs follow each other in strictly increasing due time. */
  ghost predicate Increasing(jobs: seq<Job>) {
    forall i, j :: 0 <= i < j < |jobs| && jobs[i].Scheduled? && jobs[j].Scheduled? ==> jobs[i].key < jobs[j].key
  }

  function Jobs(log: seq<Element>): seq<Job> { seq(|log|, i requires 0 <= i < |log| => log[i].job) }

  ghost predicate LateInLog(log: seq<Element>) {
    forall j :: 0 <= j < |log| && log[j].job.Scheduled? ==> (log[j].job.late <==> HandedFrom(log[..j], log[j].job.key))
  }

  /** `late` says of a pending or handed-over job that one with the same or a later key went before it. */
  ghost predicate LateMeansOvertaken(s: State) {
    && (forall k :: k in s.jobMap && s.jobMap[k].job.Scheduled? ==> (s.jobMap[k].job.late <==> HandedFrom(s.log, k)))
    && LateInLog(s.log)
  }

  // ----- queues are first in, first out -----

  function Project(log: seq<Element>, p: Proc): seq<Job> {
    if log == [] then []
    else
      var last := log[|log| - 1];
      Project(log[..|log| - 1], p) + if last.proc == p && !last.job.Null? then [last.job] else []
  }

  function NonNull(jobs: seq<Job>): seq<Job> {
    if jobs == [] then [] else (if jobs[0].Null? then [] else [jobs[0]]) + NonNull(jobs[1..])
  }

  function InHand(s: State, p: Proc): seq<Job> { if p in s.current then [s.current[p]] else [] }

  /** What a processor executed, has in hand and has queued. */
  function Line(s: State, p: Proc): seq<Job> { Get(s.done, p) + InHand(s, p) + NonNull(Get(s.queue, p)) }

  /** Executed, in hand and queued jobs of a processor are its enqueued jobs, in order. */
  ghost predicate FirstInFirstOut(s: State) { forall p :: Line(s, p) == Project(s.log, p) }

  ghost predicate Inv(s: State) { Conserved(s) && LateMeansOvertaken(s) && FirstInFirstOut(s) }

  // ----- every event keeps the invariant -----

  /** Calls made earlier are pending or handed over as before. */
  lemma EarlierCallsUnaffected(s: State, p: Proc, key: Time, s': State)
    requires Conserved(s) && Next(s, Schedule(p, key), s')
    ensures forall t :: 0 <= t < |s.calls| ==> s'.calls[t] == s.calls[t]
    ensures forall t :: 0 <= t < |s.calls| ==> Pending(s', t) == Pending(s, t) && Handed(s', t) == Handed(s, t)
  {
  }

  lemma ScheduleKeepsConserved(s: State, p: Proc, key: Time, s': State)
    requires Conserved(s) && Next(s, Schedule(p, key), s')
    ensures Conserved(s')
  {
    EarlierCallsUnaffected(s, p, key, s');
    var n := |s.calls|;
    assert !Handed(s', n);
    assert Pending(s', n) <==> key !in s.jobMap;
    assert n in s'.refused <==> key in s.jobMap;
  }

  lemma DispatchKeepsConserved(s: State, k: Time, s': State)
    requires Conserved(s) && IsLeast(k, s.jobMap) && s' == HandOver(s, k)
    ensures Conserved(s')
  {
    var e := s.jobMap[k];
    assert Pending(s, e.job.ticket);
    forall t: nat | t < |s.calls|
      ensures Pending(s', t) == (Pending(s, t) && t != e.job.ticket)
      ensures Handed(s', t) == (Handed(s, t) || t == e.job.ticket)
    {
    }
  }

  lemma OtherKeepsConserved(s: State, e: Event, s': State)
    requires Conserved(s) && Next(s, e, s') && (e.Clock? || e.EnqueueDirectly? || e.Fetch? || e.Execute?)
    ensures Conserved(s')
  {
    forall t: nat | t < |s.calls|
      ensures Pending(s', t) == Pending(s, t) && Handed(s', t) == Handed(s, t)
    {
    }
  }

  lemma HandedFromGrows(log: seq<Element>, e: Element, key: Time)
    ensures HandedFrom(log + [e], key) <==> HandedFrom(log, key) || (e.job.Scheduled? && e.job.key >= key)
  {
    if e.job.Scheduled? && e.job.key >= key {
      assert e in log + [e];
    }
    if x :| x in log && x.job.Scheduled? && x.job.key >= key {
      assert x in log + [e];
    }
  }

  lemma EnqueueKeepsLate(s: State, e: Element)
    requires LateMeansOvertaken(s) && (e.job.Scheduled? ==> (e.job.late <==> HandedFrom(s.log, e.job.key)))
    requires forall k :: k in s.jobMap && e.job.Scheduled? ==> e.job.key < k
    ensures LateMeansOvertaken(Enqueue(s, e))
  {
    forall k | k in s.jobMap && s.jobMap[k].job.Scheduled?
      ensures s.jobMap[k].job.late <==> HandedFrom(s.log + [e], k)
    {
      HandedFromGrows(s.log, e, k);
    }
    var log' := s.log + [e];
    assert forall j :: 0 <= j <= |s.log| ==> log'[..j] == s.log[..j];
    assert s.log[..|s.log|] == s.log;
  }

  lemma DispatchKeepsLate(s: State, k: Time, s': State)
    requires Conserved(s) && LateMeansOvertaken(s) && IsLeast(k, s.jobMap)
    requires s' == HandOver(s, k)
    ensures LateMeansOvertaken(s')
  {
    EnqueueKeepsLate(s.(jobMap := s.jobMap - {k}), s.jobMap[k]);
  }

  lemma {:induction false} NonNullAppend(a: seq<Job>, b: seq<Job>)
    ensures NonNull(a + b) == NonNull(a) + NonNull(b)
  {
    if a == [] {
      assert a + b == b;
    } else {
      assert (a + b)[1..] == a[1..] + b;
      NonNullAppend(a[1..], b);
    }
  }

  lemma LineAfterEnqueue(s: State, e: Element, p: Proc)
    ensures Line(Enqueue(s, e), p) == Line(s, p) + if e.proc == p && !e.job.Null? then [e.job] else []
  {
    if p == e.proc {
      var front, q := Get(s.done, p) + InHand(s, p), Get(s.queue, p);
      NonNullAppend(q, [e.job]);
      assert NonNull([e.job]) == if e.job.Null? then [] else [e.job];
      assert front + (NonNull(q) + NonNull([e.job])) == (front + NonNull(q)) + NonNull([e.job]);
    }
  }

  lemma EnqueueKeepsOrder(s: State, e: Element)
    requires FirstInFirstOut(s)
    ensures FirstInFirstOut(Enqueue(s, e))
  {
    forall p
      ensures Line(Enqueue(s, e), p) == Project(s.log + [e], p)
    {
      LineAfterEnqueue(s, e, p);
      assert (s.log + [e])[..|s.log|] == s.log;
      assert Line(s, p) == Project(s.log, p);
    }
  }

  /** Fetching and executing only move the processor's own jobs along the line. */
  lemma LineAfterFetch(s: State, p: Proc, s': State, q: Proc)
    requires Next(s, Fetch(p), s')
    ensures Line(s', q) == Line(s, q)
  {
    if q == p && Get(s.queue, p) != [] {
      var done, queue := Get(s.done, p), s.queue[p];
      var first := if queue[0].Null? then [] else [queue[0]];
      assert NonNull(queue) == first + NonNull(queue[1..]);
      assert InHand(s, p) == [] && InHand(s', p) == first && Get(s'.queue, p) == queue[1..];
      assert (done + []) + (first + NonNull(queue[1..])) == (done + first) + NonNull(queue[1..]);
    }
  }

  lemma LineAfterExecute(s: State, p: Proc, s': State, q: Proc)
    requires Next(s, Execute(p), s')
    ensures Line(s', q) == Line(s, q)
  {
    if q == p {
      assert InHand(s, p) == [s.current[p]] && InHand(s', p) == [];
    } else {
      assert InHand(s', q) == InHand(s, q) && Get(s'.done, q) == Get(s.done, q);
    }
  }

  lemma NextKeepsOrder(s: State, e: Event, s': State)
    requires FirstInFirstOut(s) && Next(s, e, s') && (e.Schedule? || e.Clock? || e.Fetch? || e.Execute?)
    ensures FirstInFirstOut(s')
  {
    forall q
      ensures Line(s', q) == Project(s'.log, q)
    {
      assert Line(s, q) == Project(s.log, q);
      match e
      case Fetch(p) => LineAfterFetch(s, p, s', q);
      case Execute(p) => LineAfterExecute(s, p, s', q);
      case _ =>
    }
  }

  lemma DispatchKeepsInv(s: State, s': State)
    requires Inv(s) && Next(s, Dispatch, s')
    ensures Inv(s')
  {
    if exists k :: Due(k, s) {
      var k :| Due(k, s) && s' == HandOver(s, k);
      DispatchKeepsConserved(s, k, s');
      DispatchKeepsLate(s, k, s');
      EnqueueKeepsOrder(s, s.jobMap[k]);
      assert forall p :: Line(s', p) == Line(Enqueue(s, s.jobMap[k]), p);
    } else {
      assert forall p :: Line(s', p) == Line(s, p);
      assert forall t: nat :: t < |s.calls| ==> Pending(s', t) == Pending(s, t) && Handed(s', t) == Handed(s, t);
    }
  }

  lemma ScheduleKeepsLate(s: State, p: Proc, key: Time, s': State)
    requires LateMeansOvertaken(s) && Next(s, Schedule(p, key), s')
    ensures LateMeansOvertaken(s')
  {
  }

  lemma NextKeepsInv(s: State, e: Event, s': State)
    requires Inv(s) && Next(s, e, s')
    ensures Inv(s')
  {
    match e
    case Dispatch => DispatchKeepsInv(s, s');
    case EnqueueDirectly(p, job) =>
      OtherKeepsConserved(s, e, s');
      EnqueueKeepsLate(s, Element(p, job));
      EnqueueKeepsOrder(s, Element(p, job));
    case Schedule(p, key) =>
      ScheduleKeepsConserved(s, p, key, s');
      ScheduleKeepsLate(s, p, key, s');
      NextKeepsOrder(s, e, s');
    case _ =>
      OtherKeepsConserved(s, e, s');
      NextKeepsOrder(s, e, s');
  }

  lemma RunKeepsInv(run: seq<State>, events: seq<Event>)
    requires IsRun(run, events)
    ensures forall i :: 0 <= i < |run| ==> Inv(run[i])
  {
    for k := 1 to |run|
      invariant forall i :: 0 <= i < k ==> Inv(run[i])
    {
      NextKeepsInv(run[k - 1], events[k - 1], run[k]);
    }
  }
}
