/** The scheduler and the job processors as objects updated in place; each step is an event of the model. */
module SchedulerObjects {
  import opened Common
  import opened Scheduler

  class JobProcessor {
    const id: Proc
    var queue: seq<Job>
    /** The worker's local variable; it is `running` from the dequeue to the end of `Do`. */
    var job: Job
    var running: bool
    ghost var executed: seq<Job>

    constructor (id: Proc)
      ensures this.id == id && queue == [] && !running && executed == []
    {
      this.id := id;
      queue, job, running, executed := [], Null, false, [];
    }

    method Enqueue(j: Job)
      modifies this`queue
      ensures queue == old(queue) + [j]
    {
      queue := queue + [j];
    }

    /** `try_pop` into an empty pointer. */
    method Dequeue() returns (j: Job)
      modifies this`queue
      ensures if old(queue) == [] then j == Null && queue == [] else [j] + queue == old(queue)
    {
      j := Null;
      if queue != [] {
        j, queue := queue[0], queue[1..];
      }
    }

    method Fetch()
      requires !running
      modifies this`queue, this`job, this`running
      ensures if old(queue) == [] then job == Null && queue == [] else [job] + queue == old(queue)
      ensures running == !job.Null?
    {
      job := Dequeue();
      running := !job.Null?;
    }

    method Execute()
      requires running
      modifies this`running, this`executed
      ensures !running && executed == old(executed) + [job]
    {
      running, executed := false, executed + [job];
    }

    /** One turn of the worker's loop; the guard of its sleep is never true. */
    method WorkerIteration()
      requires !running
      modifies this
      ensures !running && (old(queue) == [] ==> queue == [] && executed == old(executed))
      ensures old(queue) != [] ==> queue == old(queue)[1..] && executed == old(executed) + NonNull(old(queue)[..1])
    {
      Fetch();
      if !job.Null? {
        Execute();
      }
    }

    /** Turns until the queue is empty execute what was queued, in order, and skip only empty pointers. */
    method Drain()
      requires !running
      modifies this
      ensures !running && queue == [] && executed == old(executed) + NonNull(old(queue))
    {
      while queue != []
        invariant !running && executed + NonNull(queue) == old(executed) + NonNull(old(queue))
        decreases |queue|
      {
        NonNullAppend(queue[..1], queue[1..]);
        assert queue == queue[..1] + queue[1..];
        WorkerIteration();
      }
    }
  }

  datatype Entry = Entry(job: Job, processor: JobProcessor)

  ghost function PendingView(jobMap: map<Time, Entry>): map<Time, Element> {
    map k | k in jobMap :: Element(jobMap[k].processor.id, jobMap[k].job)
  }

  lemma PendingViewUpdates(jobMap: map<Time, Entry>, k: Time, entry: Entry)
    ensures PendingView(jobMap[k := entry]) == PendingView(jobMap)[k := Element(entry.processor.id, entry.job)]
    ensures PendingView(jobMap - {k}) == PendingView(jobMap) - {k}
  {
  }

  ghost function QueueView(processors: seq<JobProcessor>): map<Proc, seq<Job>>
    reads processors
  {
    map p: Proc | p < |processors| :: processors[p].queue
  }

  ghost function CurrentView(processors: seq<JobProcessor>): map<Proc, Job>
    reads processors
  {
    map p: Proc | p < |processors| && processors[p].running :: processors[p].job
  }

  ghost function DoneView(processors: seq<JobProcessor>): map<Proc, seq<Job>>
    reads processors
  {
    map p: Proc | p < |processors| :: processors[p].executed
  }

  ghost predicate Numbered(processors: seq<JobProcessor>) {
    forall p :: 0 <= p < |processors| ==> processors[p].id == p
  }

  /** The processor's own `Enqueue`, seen from the scheduler. */
  method EnqueueOn(ghost processors: seq<JobProcessor>, processor: JobProcessor, job: Job)
    requires Numbered(processors) && processor in processors
    modifies processor
    ensures processors[processor.id] == processor
    ensures QueueView(processors) == old(QueueView(processors))[processor.id := Get(old(QueueView(processors)), processor.id) + [job]]
    ensures CurrentView(processors) == old(CurrentView(processors)) && DoneView(processors) == old(DoneView(processors))
  {
    assert processors[processor.id] == processor;
    processor.Enqueue(job);
  }

  /** The scheduler; `calls` and `log` name the jobs and record what happened to them. */
  class Timer {
    var jobMap: map<Time, Entry>
    var now: Option<Time>
    const processors: seq<JobProcessor>
    var calls: seq<Element>
    var log: seq<Element>
    ghost var refused: set<nat>

    ghost predicate Valid()
      reads this
    {
      && Numbered(processors)
      && (forall k :: k in jobMap ==> jobMap[k].processor in processors)
    }

    /** The state of the model these objects are in. */
    ghost function View(): State
      reads this, processors
    {
      State(PendingView(jobMap), now, QueueView(processors), CurrentView(processors), DoneView(processors),
            calls, refused, log)
    }

    constructor (processors: seq<JobProcessor>)
      requires forall p :: 0 <= p < |processors| ==> processors[p].id == p && !processors[p].running
      requires forall p :: 0 <= p < |processors| ==> processors[p].queue == [] && processors[p].executed == []
      ensures Valid() && this.processors == processors && Initial(View())
    {
      jobMap, now, calls, log := map[], None, [], [];
      this.processors, refused := processors, {};
    }

    /** `key` is a clock reading plus the time span; `map::insert` keeps an entry that is there. */
    method Schedule(processor: JobProcessor, key: Time)
      requires Valid() && processor in processors
      modifies this`jobMap, this`calls, this`refused
      ensures Valid() && Next(old(View()), Event.Schedule(processor.id, key), View())
      ensures calls == old(calls) + [Element(processor.id, Job.Scheduled(|old(calls)|, key, HandedFrom(log, key)))]
      ensures jobMap == if key in old(jobMap) then old(jobMap)
                        else old(jobMap)[key := Entry(calls[|old(calls)|].job, processor)]
    {
      var job := Job.Scheduled(|calls|, key, HandedFrom(log, key));
      PendingViewUpdates(jobMap, key, Entry(job, processor));
      if key in jobMap {
        refused := refused + {|calls|};
      } else {
        jobMap := jobMap[key := Entry(job, processor)];
      }
      calls := calls + [Element(processor.id, job)];
    }

    /** The first statement of the worker's turn. */
    method ReadClock(time: Time)
      requires Valid() && now.None?
      modifies this`now
      ensures Valid() && Next(old(View()), Clock(time), View())
    {
      now := Some(time);
    }

    /** `job_map_.begin()`. */
    method Begin() returns (k: Time)
      requires jobMap != map[]
      ensures k in jobMap && forall j :: j in jobMap ==> k <= j
    {
      assert (forall j :: j !in jobMap) ==> jobMap == map[];
      k :| k in jobMap;
      var rest := jobMap.Keys - {k};
      while rest != {}
        invariant k in jobMap && rest <= jobMap.Keys
        invariant forall j :: j in jobMap && j !in rest ==> k <= j
        decreases rest
      {
        assert (forall j :: j !in rest) ==> rest == {};
        var j :| j in rest;
        if j < k {
          k := j;
        }
        rest := rest - {j};
      }
    }

    method HandOver(k: Time)
      requires Valid() && k in jobMap
      modifies this`jobMap, this`log, this`now, processors
      ensures Valid() && now == None && PendingView(jobMap) == old(PendingView(jobMap)) - {k}
      ensures log == old(log) + [old(PendingView(jobMap)[k])]
      ensures var e := old(PendingView(jobMap)[k]); var q := old(QueueView(processors));
              QueueView(processors) == q[e.proc := Get(q, e.proc) + [e.job]]
      ensures CurrentView(processors) == old(CurrentView(processors)) && DoneView(processors) == old(DoneView(processors))
    {
      var element := jobMap[k];
      PendingViewUpdates(jobMap, k, element);
      jobMap, log, now := jobMap - {k}, log + [Element(element.processor.id, element.job)], None;
      EnqueueOn(processors, element.processor, element.job);
    }

    /** The critical section of the worker's turn. */
    method WorkerIteration()
      requires Valid() && now.Some?
      modifies this`jobMap, this`log, this`now, processors
      ensures Valid() && Next(old(View()), Dispatch, View())
    {
      if jobMap != map[] {
        var k := Begin();
        assert IsLeast(k, View().jobMap);
        if now.value >= k {
          assert Due(k, View());
          HandOver(k);
          return;
        }
        assert forall j :: IsLeast(j, View().jobMap) ==> j == k;
      }
      now := None;
    }

    method EnqueueDirectly(processor: JobProcessor, job: Job)
      requires Valid() && processor in processors && !job.Scheduled?
      modifies this`log, processor
      ensures Valid() && Next(old(View()), Event.EnqueueDirectly(processor.id, job), View())
    {
      EnqueueOn(processors, processor, job);
      log := log + [Element(processor.id, job)];
    }

    /** A processor's own steps are events of the model too. */
    method FetchOn(processor: JobProcessor)
      requires Valid() && processor in processors && !processor.running
      modifies processor
      ensures Valid() && Next(old(View()), Event.Fetch(processor.id), View())
    {
      processor.Fetch();
    }

    method ExecuteOn(processor: JobProcessor)
      requires Valid() && processor in processors && processor.running
      modifies processor
      ensures Valid() && Next(old(View()), Event.Execute(processor.id), View())
    {
      processor.Execute();
    }

    /** Lets one thread make one step, if it can be made now. */
    method Step(e: Event) returns (moved: bool)
      requires Valid()
      modifies this, processors
      ensures Valid() && moved == Possible(old(View()), e, |processors|)
      ensures if moved then Next(old(View()), e, View()) else View() == old(View())
    {
      moved := false;
      match e {
        case Schedule(p, key) => if p < |processors| { Schedule(processors[p], key); moved := true; }
        case Clock(time) => if now.None? { ReadClock(time); moved := true; }
        case Dispatch => if now.Some? { WorkerIteration(); moved := true; }
        case EnqueueDirectly(p, job) =>
          if p < |processors| && !job.Scheduled? { EnqueueDirectly(processors[p], job); moved := true; }
        case Fetch(p) => if p < |processors| && !processors[p].running { FetchOn(processors[p]); moved := true; }
        case Execute(p) => if p < |processors| && processors[p].running { ExecuteOn(processors[p]); moved := true; }
      }
    }

    /** Any schedule, from the start: a run of the model, with everything that holds in one. */
    method Interleave(schedule: seq<Event>) returns (ghost run: seq<State>, ghost events: seq<Event>)
      requires Valid() && Initial(View())
      modifies this, processors
      ensures Valid() && IsRun(run, events) && run[|events|] == View()
      ensures Conserved(View()) && FirstInFirstOut(View())
    {
      run, events := [View()], [];
      for i := 0 to |schedule|
        invariant Valid() && IsRun(run, events) && run[|events|] == View()
      {
        var moved := Step(schedule[i]);
        if moved {
          ExtendRun(run, events, schedule[i], View());
          run, events := run + [View()], events + [schedule[i]];
        }
      }
      RunKeepsInv(run, events);
    }
  }

  /** Whether the event can happen with `n` processors. */
  ghost predicate Possible(s: State, e: Event, n: nat) {
    match e
    case Schedule(p, key) => p < n
    case Clock(time) => s.now.None?
    case Dispatch => s.now.Some?
    case EnqueueDirectly(p, job) => p < n && !job.Scheduled?
    case Fetch(p) => p < n && p !in s.current
    case Execute(p) => p in s.current
  }

  lemma ExtendRun(run: seq<State>, events: seq<Event>, e: Event, s': State)
    requires IsRun(run, events) && Next(run[|events|], e, s')
    ensures IsRun(run + [s'], events + [e])
  {
  }
}
