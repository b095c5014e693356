/** The pool of waiting sessions: it grows by whole blocks, under a lock its methods enter again and again. */
module SessionPool {
  import opened Common

  /** The address of one client: its block, in order of allocation, and its place there. */
  datatype Pointer = Pointer(block: nat, index: nat)

  function Block(b: nat, batch: nat): (r: seq<Pointer>)
    ensures |r| == batch && forall i :: 0 <= i < batch ==> r[i] == Pointer(b, i)
  {
    seq(batch, i requires 0 <= i < batch => Pointer(b, i))
  }

  /** All clients of the first `n` blocks. */
  function Clients(n: nat, batch: nat): seq<Pointer> {
    if n == 0 then [] else Clients(n - 1, batch) + Block(n - 1, batch)
  }

  lemma {:induction false} ClientsSize(n: nat, batch: nat)
    ensures |Clients(n, batch)| == n * batch
  {
    if n > 0 {
      ClientsSize(n - 1, batch);
      assert n * batch == (n - 1) * batch + batch;
    }
  }

  lemma BlockOccurrences(b: nat, batch: nat, k: nat, c: Pointer)
    requires k <= batch
    ensures multiset(Block(b, batch)[..k])[c] == if c.block == b && c.index < k then 1 else 0
  {
    var block := Block(b, batch);
    for i := 0 to k
      invariant multiset(block[..i])[c] == if c.block == b && c.index < i then 1 else 0
    {
      assert block[..i + 1] == block[..i] + [Pointer(b, i)];
    }
  }

  /** Each address inside the allocated blocks occurs exactly once, and no other address occurs. */
  lemma {:induction false} ClientsOccurrences(n: nat, batch: nat, c: Pointer)
    ensures multiset(Clients(n, batch))[c] == if c.block < n && c.index < batch then 1 else 0
  {
    if n > 0 {
      ClientsOccurrences(n - 1, batch, c);
      BlockOccurrences(n - 1, batch, batch, c);
      assert Block(n - 1, batch)[..batch] == Block(n - 1, batch);
    }
  }

  // ----- runs of callers -----

  /** `held` has the clients that were popped and not pushed back. */
  datatype State = State(queue: seq<Pointer>, blocks: nat, held: multiset<Pointer>)

  datatype Call = Push(client: Pointer) | Pop | Grow

  function Grown(s: State, batch: nat): State {
    s.(queue := s.queue + Block(s.blocks, batch), blocks := s.blocks + 1)
  }

  /** The state in which `front` is read. */
  function Refilled(s: State, batch: nat): State { if s.queue == [] then Grown(s, batch) else s }

  /** None if a call reads the front of an empty queue. */
  function Apply(s: State, call: Call, batch: nat): Option<State> {
    match call
    case Push(c) => Some(s.(queue := s.queue + [c], held := s.held - multiset{c}))
    case Grow => Some(Grown(s, batch))
    case Pop =>
      var t := Refilled(s, batch);
      if t.queue == [] then None else Some(t.(queue := t.queue[1..], held := t.held + multiset{t.queue[0]}))
  }

  /** Queued and held clients are the clients of the allocated blocks, each once. */
  ghost predicate Conserved(s: State, batch: nat) { multiset(s.queue) + s.held == multiset(Clients(s.blocks, batch)) }

  /** Holders push back only what they hold. */
  ghost predicate Disciplined(s: State, call: Call) { call.Push? ==> call.client in s.held }

  /** A pop allocates one block if the queue was empty and none otherwise, and takes one client from the front. */
  lemma PopMeaning(s: State, batch: nat)
    requires Apply(s, Pop, batch).Some?
    ensures var s' := Apply(s, Pop, batch).value;
      && s'.blocks == s.blocks + (if s.queue == [] then 1 else 0)
      && |s'.queue| == (if s.queue == [] then batch else |s.queue|) - 1
      && (s.queue != [] ==> s.queue == [s.queue[0]] + s'.queue && s'.held == s.held + multiset{s.queue[0]})
      && (s.queue == [] ==> s'.held == s.held + multiset{Pointer(s.blocks, 0)}
                            && forall i :: 0 <= i < batch - 1 ==> s'.queue[i] == Pointer(s.blocks, i + 1))
  {
    if s.queue == [] {
      assert Grown(s, batch).queue == Block(s.blocks, batch);
    }
  }

  lemma GrownKeepsConserved(s: State, batch: nat)
    requires Conserved(s, batch)
    ensures Conserved(Grown(s, batch), batch)
  {
    var block := Block(s.blocks, batch);
    assert multiset(s.queue + block) == multiset(s.queue) + multiset(block);
    assert (multiset(s.queue) + multiset(block)) + s.held == (multiset(s.queue) + s.held) + multiset(block);
    assert Clients(s.blocks + 1, batch) == Clients(s.blocks, batch) + block;
  }

  lemma PopKeepsConserved(s: State, batch: nat)
    requires Conserved(s, batch) && Apply(s, Pop, batch).Some?
    ensures Conserved(Apply(s, Pop, batch).value, batch)
  {
    GrownKeepsConserved(s, batch);
    var t := Refilled(s, batch);
    assert t.queue == [t.queue[0]] + t.queue[1..];
    assert multiset(t.queue) == multiset{t.queue[0]} + multiset(t.queue[1..]);
  }

  /** A push keeps the pool conserved exactly when the pushed client was held. */
  lemma PushConservesIffHeld(s: State, c: Pointer, batch: nat)
    requires Conserved(s, batch)
    ensures Conserved(Apply(s, Push(c), batch).value, batch) <==> c in s.held
  {
    var s' := Apply(s, Push(c), batch).value;
    assert multiset(s'.queue) == multiset(s.queue) + multiset{c};
    if c !in s.held {
      assert s'.held == s.held;
      assert (multiset(s'.queue) + s'.held)[c] == (multiset(s.queue) + s.held)[c] + 1;
    } else {
      assert multiset{c} + s'.held == s.held;
      assert multiset(s'.queue) + s'.held == multiset(s.queue) + s.held;
    }
  }

  ghost predicate IsRun(run: seq<State>, calls: seq<Call>, batch: nat) {
    && |run| == |calls| + 1 && run[0] == State([], 0, multiset{})
    && forall i :: 0 <= i < |calls| ==> Disciplined(run[i], calls[i]) && Apply(run[i], calls[i], batch) == Some(run[i + 1])
  }

  lemma RunKeepsConserved(run: seq<State>, calls: seq<Call>, batch: nat, i: nat)
    requires IsRun(run, calls, batch) && i < |run|
    ensures Conserved(run[i], batch)
  {
    for k := 0 to i
      invariant Conserved(run[k], batch)
    {
      assert Apply(run[k], calls[k], batch) == Some(run[k + 1]);
      match calls[k]
      case Push(c) => PushConservesIffHeld(run[k], c, batch);
      case Pop => PopKeepsConserved(run[k], batch);
      case Grow => GrownKeepsConserved(run[k], batch);
    }
  }

  /**
  Blocks times batch size is queued plus handed-out clients; an address is queued or handed out,
  once, exactly if it lies in an allocated block.
  */
  lemma Conservation(run: seq<State>, calls: seq<Call>, batch: nat, i: nat, c: Pointer)
    requires IsRun(run, calls, batch) && i < |run|
    ensures run[i].blocks * batch == |run[i].queue| + |run[i].held|
    ensures multiset(run[i].queue)[c] + run[i].held[c] == if c.block < run[i].blocks && c.index < batch then 1 else 0
  {
    RunKeepsConserved(run, calls, batch, i);
    var s := run[i];
    ClientsSize(s.blocks, batch);
    ClientsOccurrences(s.blocks, batch, c);
    assert |multiset(s.queue) + s.held| == |multiset(Clients(s.blocks, batch))|;
    assert (multiset(s.queue) + s.held)[c] == multiset(Clients(s.blocks, batch))[c];
  }

  /** No two holders have the same client, and a popped client was not handed out. */
  lemma PoppedIsNobodys(run: seq<State>, calls: seq<Call>, batch: nat, i: nat)
    requires IsRun(run, calls, batch) && i < |calls| && calls[i] == Pop
    ensures Refilled(run[i], batch).queue != []
    ensures var c := Refilled(run[i], batch).queue[0];
            c !in run[i].held && run[i + 1].held == run[i].held + multiset{c} && run[i + 1].held[c] == 1
  {
    var s := run[i];
    var t := Refilled(s, batch);
    assert Apply(s, Pop, batch) == Some(run[i + 1]);
    var c := t.queue[0];
    Conservation(run, calls, batch, i + 1, c);
  }

  /** Whatever the state, a pop reads an empty queue exactly when the queue is empty and blocks are. */
  lemma PopFailsIff(s: State, batch: nat)
    ensures Apply(s, Pop, batch).None? <==> s.queue == [] && batch == 0
  {
    assert |Grown(s, batch).queue| == |s.queue| + batch;
  }

  // ----- the objects -----

  /** A re-entrant lock, seen by the thread that uses it; `peak` is the deepest nesting so far. */
  class ReentrantLock {
    var depth: nat
    ghost var peak: nat

    constructor ()
      ensures depth == 0 && peak == 0
    {
      depth, peak := 0, 0;
    }

    method Enter()
      modifies this
      ensures depth == old(depth) + 1 && peak == Max(old(peak), depth)
    {
      depth := depth + 1;
      peak := Max(peak, depth);
    }

    method Leave()
      requires depth > 0
      modifies this
      ensures depth == old(depth) - 1 && peak == old(peak)
    {
      depth := depth - 1;
    }
  }

  function Max(a: nat, b: nat): nat { if a < b then b else a }

  class TcpSessionPool {
    const numInitCcu: nat
    const lock: ReentrantLock?
    var waitClients: seq<Pointer>
    var dataPool: seq<nat>

    /** Blocks are named in the order they are allocated. */
    ghost predicate Valid()
      reads this
    {
      forall b :: 0 <= b < |dataPool| ==> dataPool[b] == b
    }

    ghost function View(held: multiset<Pointer>): State
      reads this
    {
      State(waitClients, |dataPool|, held)
    }

    /** The lock, if there is one, is as deep as before and was `levels` deeper in between. */
    twostate predicate Nested(levels: nat)
      reads this, lock
    {
      lock != null ==> lock.depth == old(lock.depth) && lock.peak == Max(old(lock.peak), old(lock.depth) + levels)
    }

    constructor (lock: ReentrantLock?, batch: nat)
      ensures Valid() && this.lock == lock && numInitCcu == batch && View(multiset{}) == State([], 0, multiset{})
    {
      this.lock, numInitCcu := lock, batch;
      waitClients, dataPool := [], [];
    }

    method Lock()
      modifies lock
      ensures lock != null ==> lock.depth == old(lock.depth) + 1 && lock.peak == Max(old(lock.peak), lock.depth)
    {
      if lock != null {
        lock.Enter();
      }
    }

    method Unlock()
      requires lock != null ==> lock.depth > 0
      modifies lock
      ensures lock != null ==> lock.depth == old(lock.depth) - 1 && lock.peak == old(lock.peak)
    {
      if lock != null {
        lock.Leave();
      }
    }

    method PushWaitQueue(client: Pointer)
      modifies this`waitClients, lock
      ensures waitClients == old(waitClients) + [client]
      ensures forall held :: Some(View(held - multiset{client})) == Apply(old(View(held)), Push(client), numInitCcu)
      ensures Nested(1)
    {
      Lock();
      waitClients := waitClients + [client];
      Unlock();
    }

    method GrowWaitPoolSize() returns (r: bool)
      requires Valid()
      modifies this, lock
      ensures Valid() && r
      ensures waitClients == old(waitClients) + Block(|old(dataPool)|, numInitCcu)
      ensures dataPool == old(dataPool) + [|old(dataPool)|]
      ensures forall held :: Some(View(held)) == Apply(old(View(held)), Grow, numInitCcu)
      ensures Nested(if numInitCcu == 0 then 1 else 2)
    {
      Lock();
      var alloc := |dataPool|;
      dataPool := dataPool + [alloc];
      ghost var block := Block(alloc, numInitCcu);
      for i := 0 to numInitCcu
        invariant waitClients == old(waitClients) + block[..i] && dataPool == old(dataPool) + [alloc]
        invariant lock != null ==> lock.depth == old(lock.depth) + 1
        invariant lock != null ==> lock.peak == Max(old(lock.peak), lock.depth + if i == 0 then 0 else 1)
      {
        PushWaitQueue(Pointer(alloc, i));
        assert block[..i + 1] == block[..i] + [Pointer(alloc, i)];
      }
      Unlock();
      r := true;
    }

    /** None stands for the undefined read of an empty queue's front. */
    method PopFromWaitQueue() returns (client: Option<Pointer>)
      requires Valid()
      modifies this, lock
      ensures Valid() && (client.None? <==> old(waitClients) == [] && numInitCcu == 0)
      ensures old(waitClients) != [] ==>
                client == Some(old(waitClients)[0]) && waitClients == old(waitClients)[1..] && dataPool == old(dataPool)
      ensures old(waitClients) == [] ==> dataPool == old(dataPool) + [|old(dataPool)|]
      ensures old(waitClients) == [] && numInitCcu > 0 ==>
                client == Some(Pointer(|old(dataPool)|, 0)) && waitClients == Block(|old(dataPool)|, numInitCcu)[1..]
      ensures client.Some? ==> forall held ::
                Some(View(held + multiset{client.value})) == Apply(old(View(held)), Pop, numInitCcu)
      ensures Nested(if old(waitClients) != [] then 1 else if numInitCcu == 0 then 2 else 3)
    {
      Lock();
      if |waitClients| <= 0 {
        var _ := GrowWaitPoolSize();
      }
      client := None;
      if waitClients != [] {
        client, waitClients := Some(waitClients[0]), waitClients[1..];
      }
      Unlock();
    }

    method CheckWaitPoolSize() returns (small: bool)
      modifies lock
      ensures small <==> |waitClients| < numInitCcu
      ensures Nested(1)
    {
      Lock();
      small := |waitClients| < numInitCcu;
      Unlock();
    }
  }
}
