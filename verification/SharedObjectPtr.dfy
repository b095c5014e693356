/**
Intrusive reference counting: handles that share an object through a count kept inside it.

The first part is the meaning of each handle operation on a record of all live handles and
objects, and what every sequence of operations keeps; the classes at the end update the fields
in place and are tied to it.
*/
module SharedObjectPtr {
  import opened Common

  /**
  `count` has the objects that are still alive; `handled` those some handle ever held, and
  `destroyed` those whose count dropped to 0.  `fault` is raised by touching an object that is
  not alive.
  */
  datatype State<H, O> = State(
    pointee: map<H, Option<O>>, count: map<O, int>, handled: set<O>, destroyed: set<O>, fault: bool)

  ghost predicate Alive<H, O>(s: State<H, O>, p: Option<O>) { p.Some? ==> p.value in s.count }

  ghost function AddReference<H, O>(s: State<H, O>, p: Option<O>): State<H, O> {
    if p.None? then s
    else if p.value !in s.count then s.(fault := true)
    else s.(count := s.count[p.value := s.count[p.value] + 1], handled := s.handled + {p.value})
  }

  /** The object deletes itself when its count becomes 0. */
  ghost function RemoveReference<H, O>(s: State<H, O>, p: Option<O>): State<H, O> {
    if p.None? then s
    else if p.value !in s.count then s.(fault := true)
    else if s.count[p.value] - 1 == 0 then s.(count := s.count - {p.value}, destroyed := s.destroyed + {p.value})
    else s.(count := s.count[p.value := s.count[p.value] - 1])
  }

  ghost function Construct<H, O>(s: State<H, O>, h: H, p: Option<O>): State<H, O> {
    AddReference(s.(pointee := s.pointee[h := p]), p)
  }

  /** The new handle takes what `r` pointed to and leaves it empty; no count changes. */
  ghost function MoveConstruct<H, O>(s: State<H, O>, h: H, r: H): State<H, O>
    requires r in s.pointee
  {
    s.(pointee := s.pointee[h := s.pointee[r]][r := None])
  }

  ghost function Destroy<H, O>(s: State<H, O>, h: H): State<H, O>
    requires h in s.pointee
  {
    RemoveReference(s.(pointee := s.pointee - {h}), s.pointee[h])
  }

  ghost function Swap<H, O>(s: State<H, O>, h: H, r: H): State<H, O>
    requires h in s.pointee && r in s.pointee
  {
    s.(pointee := s.pointee[h := s.pointee[r]][r := s.pointee[h]])
  }

  datatype Op<H, O> =
    | NewObject(created: O)
    | FromRaw(h: H, raw: Option<O>)
    | Copy(h: H, rhs: H)
    | Move(h: H, rhs: H)
    | Drop(h: H)
    | AssignRaw(h: H, raw: Option<O>, temp: H)
    | AssignCopy(h: H, rhs: H, temp: H)
    | AssignMove(h: H, rhs: H)
    | SwapWith(h: H, rhs: H)

  /** New handles and objects are new; operands exist.  `rhs` may be `h` itself. */
  ghost predicate Enabled<H, O>(s: State<H, O>, op: Op<H, O>) {
    match op
    case NewObject(o) => o !in s.count && o !in s.handled && o !in s.destroyed
    case FromRaw(h, raw) => h !in s.pointee && Alive(s, raw)
    case Copy(h, r) => h !in s.pointee && r in s.pointee
    case Move(h, r) => h !in s.pointee && r in s.pointee
    case Drop(h) => h in s.pointee
    case AssignRaw(h, raw, t) => h in s.pointee && t !in s.pointee && Alive(s, raw)
    case AssignCopy(h, r, t) => h in s.pointee && r in s.pointee && t !in s.pointee
    case AssignMove(h, r) => h in s.pointee && r in s.pointee
    case SwapWith(h, r) => h in s.pointee && r in s.pointee
  }

  /** The handles that point to `o`. */
  ghost function Holders<H, O>(s: State<H, O>, o: O): set<H> { set h | h in s.pointee && s.pointee[h] == Some(o) }

  /** Counts are exact and live handles point only to live objects. */
  ghost predicate Exact<H, O>(s: State<H, O>) {
    && (forall o :: o in s.count ==> s.count[o] == |Holders(s, o)|)
    && (forall h :: h in s.pointee && s.pointee[h].Some? ==>
          s.pointee[h].value in s.count && s.pointee[h].value in s.handled)
  }

  /** A handled object is either alive and held, or destroyed; only handled objects are destroyed. */
  ghost predicate Settled<H, O>(s: State<H, O>) {
    && (forall o :: o in s.handled ==> if o in s.count then s.count[o] > 0 && o !in s.destroyed else o in s.destroyed)
    && (forall o :: o in s.destroyed ==> o in s.handled)
  }

  ghost predicate Inv<H, O>(s: State<H, O>) { !s.fault && Exact(s) && Settled(s) }

  /** The states an operation passes through; assignment makes a temporary, swaps and destroys it. */
  ghost function Trace<H, O>(s: State<H, O>, op: Op<H, O>): (t: seq<State<H, O>>)
    requires Enabled(s, op)
    ensures t != []
  {
    match op
    case NewObject(o) => [s.(count := s.count[o := 0])]
    case FromRaw(h, raw) => [Construct(s, h, raw)]
    case Copy(h, r) => [Construct(s, h, s.pointee[r])]
    case Move(h, r) => [MoveConstruct(s, h, r)]
    case Drop(h) => [Destroy(s, h)]
    case AssignRaw(h, raw, t) => AssignTrace(s, h, raw, t)
    case AssignCopy(h, r, t) => AssignTrace(s, h, s.pointee[r], t)
    case AssignMove(h, r) => [Swap(s, r, h)]
    case SwapWith(h, r) => [Swap(s, h, r)]
  }

  ghost function AssignTrace<H, O>(s: State<H, O>, h: H, raw: Option<O>, t: H): (r: seq<State<H, O>>)
    requires h in s.pointee && t !in s.pointee
    ensures r != []
  {
    var a := Construct(s, t, raw);
    var b := Swap(a, t, h);
    [a, b, Destroy(b, t)]
  }

  // ----- every primitive keeps the invariant -----

  lemma HoldersAfterConstruct<H, O>(s: State<H, O>, h: H, p: Option<O>, o: O)
    requires h !in s.pointee
    ensures |Holders(Construct(s, h, p), o)| == |Holders(s, o)| + if p == Some(o) then 1 else 0
  {
    assert Holders(Construct(s, h, p), o) == if p == Some(o) then Holders(s, o) + {h} else Holders(s, o);
  }

  lemma ConstructKeepsInv<H, O>(s: State<H, O>, h: H, p: Option<O>)
    requires Inv(s) && h !in s.pointee && Alive(s, p)
    ensures Inv(Construct(s, h, p))
  {
    forall o | o in s.count
      ensures |Holders(Construct(s, h, p), o)| == |Holders(s, o)| + if p == Some(o) then 1 else 0
    {
      HoldersAfterConstruct(s, h, p, o);
    }
  }

  lemma HoldersAfterDestroy<H, O>(s: State<H, O>, h: H, o: O)
    requires h in s.pointee
    ensures |Holders(Destroy(s, h), o)| == |Holders(s, o)| - if s.pointee[h] == Some(o) then 1 else 0
    ensures Holders(Destroy(s, h), o) == Holders(s, o) - {h}
  {
    assert Holders(Destroy(s, h), o) == Holders(s, o) - {h};
    assert s.pointee[h] == Some(o) <==> h in Holders(s, o);
  }

  /** An object that is destroyed has no holder left. */
  lemma NoHolderLeft<H, O>(s: State<H, O>, h: H)
    requires Inv(s) && h in s.pointee && s.pointee[h].Some? && s.count[s.pointee[h].value] == 1
    ensures forall g :: g in s.pointee && s.pointee[g] == s.pointee[h] ==> g == h
  {
    var o := s.pointee[h].value;
    HoldersAfterDestroy(s, h, o);
    assert Holders(Destroy(s, h), o) == {};
    forall g | g in s.pointee && s.pointee[g] == s.pointee[h]
      ensures g == h
    {
      assert g in Holders(s, o);
    }
  }

  lemma DestroyKeepsInv<H, O>(s: State<H, O>, h: H)
    requires Inv(s) && h in s.pointee
    ensures Inv(Destroy(s, h))
  {
    forall o | o in s.count
      ensures |Holders(Destroy(s, h), o)| == |Holders(s, o)| - if s.pointee[h] == Some(o) then 1 else 0
    {
      HoldersAfterDestroy(s, h, o);
    }
    if s.pointee[h].Some? && s.count[s.pointee[h].value] == 1 {
      NoHolderLeft(s, h);
    }
  }

  /** `q` holds in `after` what `h` held in `before`. */
  lemma HoldersMove<H, O>(before: State<H, O>, after: State<H, O>, h: H, q: H, o: O)
    requires h in Holders(before, o) && q !in Holders(before, o)
    requires Holders(after, o) == Holders(before, o) - {h} + {q}
    ensures |Holders(after, o)| == |Holders(before, o)|
  {
  }

  lemma MoveKeepsInv<H, O>(s: State<H, O>, h: H, r: H)
    requires Inv(s) && h !in s.pointee && r in s.pointee
    ensures Inv(MoveConstruct(s, h, r))
  {
    var s' := MoveConstruct(s, h, r);
    forall o | o in s.count
      ensures |Holders(s', o)| == |Holders(s, o)|
    {
      if s.pointee[r] == Some(o) {
        assert Holders(s', o) == Holders(s, o) - {r} + {h};
        HoldersMove(s, s', r, h, o);
      } else {
        assert Holders(s', o) == Holders(s, o);
      }
    }
  }

  lemma SwapKeepsInv<H, O>(s: State<H, O>, h: H, r: H)
    requires Inv(s) && h in s.pointee && r in s.pointee
    ensures Inv(Swap(s, h, r))
  {
    var s' := Swap(s, h, r);
    forall o | o in s.count
      ensures |Holders(s', o)| == |Holders(s, o)|
    {
      if (s.pointee[h] == Some(o)) == (s.pointee[r] == Some(o)) {
        assert Holders(s', o) == Holders(s, o);
      } else {
        var giver, taker := if s.pointee[h] == Some(o) then h else r, if s.pointee[h] == Some(o) then r else h;
        assert Holders(s', o) == Holders(s, o) - {giver} + {taker};
        HoldersMove(s, s', giver, taker, o);
      }
    }
  }

  lemma NewObjectKeepsInv<H, O>(s: State<H, O>, o: O)
    requires Inv(s) && Enabled(s, NewObject(o))
    ensures Inv(s.(count := s.count[o := 0]))
  {
    var s' := s.(count := s.count[o := 0]);
    assert forall q :: q in s'.count ==> Holders(s', q) == Holders(s, q);
    assert Holders(s', o) == {};
  }

  lemma AssignKeepsInv<H, O>(s: State<H, O>, h: H, raw: Option<O>, t: H)
    requires Inv(s) && h in s.pointee && t !in s.pointee && Alive(s, raw)
    ensures forall i :: 0 <= i < |AssignTrace(s, h, raw, t)| ==> Inv(AssignTrace(s, h, raw, t)[i])
  {
    var a := Construct(s, t, raw);
    var b := Swap(a, t, h);
    ConstructKeepsInv(s, t, raw);
    SwapKeepsInv(a, t, h);
    DestroyKeepsInv(b, t);
    assert AssignTrace(s, h, raw, t) == [a, b, Destroy(b, t)];
  }

  /** Every state an operation passes through keeps the invariant, also inside an assignment to itself. */
  lemma OpKeepsInv<H, O>(s: State<H, O>, op: Op<H, O>)
    requires Inv(s) && Enabled(s, op)
    ensures forall i :: 0 <= i < |Trace(s, op)| ==> Inv(Trace(s, op)[i])
  {
    match op
    case NewObject(o) => NewObjectKeepsInv(s, o);
    case FromRaw(h, raw) => ConstructKeepsInv(s, h, raw);
    case Copy(h, r) => ConstructKeepsInv(s, h, s.pointee[r]);
    case Move(h, r) => MoveKeepsInv(s, h, r);
    case Drop(h) => DestroyKeepsInv(s, h);
    case AssignRaw(h, raw, t) => AssignKeepsInv(s, h, raw, t);
    case AssignCopy(h, r, t) => AssignKeepsInv(s, h, s.pointee[r], t);
    case AssignMove(h, r) => SwapKeepsInv(s, r, h);
    case SwapWith(h, r) => SwapKeepsInv(s, h, r);
  }

  ghost function Apply<H, O>(s: State<H, O>, op: Op<H, O>): State<H, O>
    requires Enabled(s, op)
  {
    Trace(s, op)[|Trace(s, op)| - 1]
  }

  // ----- whole runs -----

  ghost predicate IsRun<H, O>(run: seq<State<H, O>>, ops: seq<Op<H, O>>) {
    && |run| == |ops| + 1 && run[0] == State(map[], map[], {}, {}, false)
    && forall i :: 0 <= i < |ops| ==> Enabled(run[i], ops[i]) && run[i + 1] == Apply(run[i], ops[i])
  }

  lemma RunKeepsInv<H, O>(run: seq<State<H, O>>, ops: seq<Op<H, O>>, i: nat)
    requires IsRun(run, ops) && i < |run|
    ensures Inv(run[i])
  {
    for k := 0 to i
      invariant Inv(run[k])
    {
      OpKeepsInv(run[k], ops[k]);
    }
  }

  /**
  At every moment of every run, also in the middle of an assignment, each live object's count is
  the number of handles to it, no live handle dangles and no destroyed object was touched.
  */
  lemma CountsAreExact<H, O>(run: seq<State<H, O>>, ops: seq<Op<H, O>>, i: nat, j: nat)
    requires IsRun(run, ops) && i < |ops| && j < |Trace(run[i], ops[i])|
    ensures var s := Trace(run[i], ops[i])[j];
            && !s.fault
            && (forall o :: o in s.count ==> s.count[o] == |Holders(s, o)|)
            && (forall h :: h in s.pointee && s.pointee[h].Some? ==>
                  s.pointee[h].value in s.count && s.pointee[h].value !in s.destroyed)
  {
    RunKeepsInv(run, ops, i);
    OpKeepsInv(run[i], ops[i]);
    assert Inv(Trace(run[i], ops[i])[j]);
  }

  /** An object some handle has held is destroyed exactly when no handle holds it. */
  lemma DestroyedIffUnheld<H, O>(run: seq<State<H, O>>, ops: seq<Op<H, O>>, i: nat, o: O)
    requires IsRun(run, ops) && i < |run|
    ensures o in run[i].destroyed <==> o in run[i].handled && Holders(run[i], o) == {}
  {
    RunKeepsInv(run, ops, i);
    var s := run[i];
    if o in s.destroyed {
      assert forall h :: h in s.pointee ==> s.pointee[h] != Some(o);
    }
  }

  // ----- what the operations do -----

  /** What every handle points to afterwards; moving and swapping change no count and destroy nothing. */
  lemma OperationMeaning<H, O>(s: State<H, O>, op: Op<H, O>)
    requires Inv(s) && Enabled(s, op)
    ensures Apply(s, op).pointee ==
      match op
      case NewObject(o) => s.pointee
      case FromRaw(h, raw) => s.pointee[h := raw]
      case Copy(h, r) => s.pointee[h := s.pointee[r]]
      case Move(h, r) => s.pointee[h := s.pointee[r]][r := None]
      case Drop(h) => s.pointee - {h}
      case AssignRaw(h, raw, t) => s.pointee[h := raw]
      case AssignCopy(h, r, t) => s.pointee[h := s.pointee[r]]
      case AssignMove(h, r) => s.pointee[h := s.pointee[r]][r := s.pointee[h]]
      case SwapWith(h, r) => s.pointee[h := s.pointee[r]][r := s.pointee[h]]
    ensures op.Move? || op.AssignMove? || op.SwapWith? ==> Apply(s, op) == s.(pointee := Apply(s, op).pointee)
    ensures op.NewObject? ==> Apply(s, op) == s.(count := s.count[op.created := 0])
  {
    match op
    case AssignRaw(h, raw, t) => AssignMeaning(s, h, raw, t);
    case AssignCopy(h, r, t) => AssignMeaning(s, h, s.pointee[r], t);
    case _ =>
  }

  /** A moved-from handle is empty, the new one has what it had, and every other handle keeps its own. */
  lemma MoveMeaning<H, O>(s: State<H, O>, h: H, r: H, other: H)
    requires Inv(s) && Enabled(s, Move(h, r)) && other in s.pointee && other != r
    ensures var s' := Apply(s, Move(h, r));
      s'.pointee[h] == s.pointee[r] && s'.pointee[r] == None && s'.pointee[other] == s.pointee[other] && s'.count == s.count
  {
  }

  /** The target points to the new object and every other handle keeps its own; the temporary is gone. */
  lemma AssignMeaning<H, O>(s: State<H, O>, h: H, raw: Option<O>, t: H)
    requires Inv(s) && h in s.pointee && t !in s.pointee && Alive(s, raw)
    ensures Apply(s, AssignRaw(h, raw, t)).pointee == s.pointee[h := raw]
  {
  }

  /** Assigning a handle to itself, or what it already points to, changes nothing. */
  lemma SelfAssignment<H, O>(s: State<H, O>, h: H, t: H)
    requires Inv(s) && h in s.pointee && t !in s.pointee
    ensures Apply(s, AssignCopy(h, h, t)) == s && Apply(s, AssignRaw(h, s.pointee[h], t)) == s
    ensures Apply(s, AssignMove(h, h)) == s
  {
    var s' := Apply(s, AssignRaw(h, s.pointee[h], t));
    AssignMeaning(s, h, s.pointee[h], t);
    if s.pointee[h].Some? {
      var o := s.pointee[h].value;
      assert h in Holders(s, o);
      assert s'.count == s.count;
    }
  }

  /** Copying a handle and dropping the copy changes nothing. */
  lemma CopyThenDrop<H, O>(s: State<H, O>, h: H, r: H)
    requires Inv(s) && h !in s.pointee && r in s.pointee
    ensures Inv(Apply(s, Copy(h, r))) && Apply(Apply(s, Copy(h, r)), Drop(h)) == s
  {
    OpKeepsInv(s, Copy(h, r));
    var s' := Apply(s, Copy(h, r));
    assert s'.pointee - {h} == s.pointee;
    if s.pointee[r].Some? {
      assert r in Holders(s, s.pointee[r].value);
      assert Apply(s', Drop(h)).count == s.count;
    }
  }

  /** Assigning a handle is assigning what it points to. */
  lemma CopyIsRaw<H, O>(s: State<H, O>, h: H, r: H, t: H)
    requires Inv(s) && Enabled(s, AssignCopy(h, r, t))
    ensures Enabled(s, AssignRaw(h, s.pointee[r], t)) && Apply(s, AssignCopy(h, r, t)) == Apply(s, AssignRaw(h, s.pointee[r], t))
    ensures Inv(Apply(s, AssignCopy(h, r, t)))
  {
    OpKeepsInv(s, AssignCopy(h, r, t));
  }

  // ----- the objects -----

  class SharedObject {
    var count: int
    ghost var handled: bool
    ghost var destroyed: bool

    constructor ()
      ensures count == 0 && !handled && !destroyed
    {
      count, handled, destroyed := 0, false, false;
    }

    method Increment()
      modifies this
      ensures count == old(count) + 1 && handled && destroyed == old(destroyed)
    {
      count, handled := count + 1, true;
    }

    method Decrement()
      modifies this
      ensures count == old(count) - 1 && handled == old(handled) && destroyed == (old(destroyed) || count == 0)
    {
      count := count - 1;
      if count == 0 {
        destroyed := true;
      }
    }
  }

  ghost function ToOption(p: SharedObject?): Option<SharedObject> { if p == null then None else Some(p) }

  /** The record of the given handles and objects. */
  ghost function View(handles: set<Handle>, objects: set<SharedObject>): State<Handle, SharedObject>
    reads handles, objects
  {
    State(map h | h in handles :: ToOption(h.pointee), map o | o in objects && !o.destroyed :: o.count,
          set o | o in objects && o.handled, set o | o in objects && o.destroyed, false)
  }

  /** A null pointer, or one to an object that is alive. */
  ghost predicate Usable(p: SharedObject?, objects: set<SharedObject>)
    reads p
  {
    p != null ==> p in objects && !p.destroyed
  }

  /** The invariant makes every live handle usable. */
  lemma LiveHandlesAreUsable(handles: set<Handle>, objects: set<SharedObject>)
    requires Inv(View(handles, objects))
    ensures forall h :: h in handles ==> Usable(h.pointee, objects)
  {
    forall h | h in handles
      ensures Usable(h.pointee, objects)
    {
      assert View(handles, objects).pointee[h] == ToOption(h.pointee);
    }
  }

  /** `handles` and `objects` name all live handles and all objects; they exist only in the proof. */
  class Handle {
    var pointee: SharedObject?

    constructor (p: SharedObject?, ghost handles: set<Handle>, ghost objects: set<SharedObject>)
      requires Usable(p, objects)
      modifies p
      ensures pointee == p && Usable(p, objects) && (p != null ==> p.count == old(p.count) + 1)
      ensures View(handles + {this}, objects) == Construct(old(View(handles, objects)), this, ToOption(p))
    {
      pointee := p;
      new;
      if pointee != null {
        pointee.Increment();
      }
    }

    constructor Copy(rhs: Handle, ghost handles: set<Handle>, ghost objects: set<SharedObject>)
      requires rhs in handles && Usable(rhs.pointee, objects)
      modifies rhs.pointee
      ensures pointee == rhs.pointee == old(rhs.pointee) && (pointee != null ==> pointee.count == old(rhs.pointee.count) + 1)
      ensures this !in handles
      ensures View(handles + {this}, objects) == Apply(old(View(handles, objects)), Op.Copy(this, rhs))
    {
      pointee := rhs.pointee;
      new;
      if pointee != null {
        pointee.Increment();
      }
    }

    constructor Move(rhs: Handle, ghost handles: set<Handle>, ghost objects: set<SharedObject>)
      requires rhs in handles
      modifies rhs
      ensures pointee == old(rhs.pointee) && rhs.pointee == null
      ensures this !in handles
      ensures View(handles + {this}, objects) == Apply(old(View(handles, objects)), Op.Move(this, rhs))
    {
      pointee := rhs.pointee;
      new;
      rhs.pointee := null;
    }

    /** The destructor; afterwards the handle is no longer one of the live ones. */
    method Release(ghost handles: set<Handle>, ghost objects: set<SharedObject>)
      requires this in handles && Usable(pointee, objects)
      modifies pointee
      ensures old(pointee) != null ==> var o := old(pointee);
                o.count == old(pointee.count) - 1 && (o.destroyed <==> o.count == 0)
      ensures View(handles - {this}, objects) == Destroy(old(View(handles, objects)), this)
    {
      if pointee != null {
        pointee.Decrement();
      }
    }

    method SwapPointees(other: Handle, ghost handles: set<Handle>, ghost objects: set<SharedObject>)
      requires this in handles && other in handles
      modifies this, other
      ensures pointee == old(other.pointee) && other.pointee == old(pointee)
      ensures View(handles, objects) == Swap(old(View(handles, objects)), this, other)
    {
      pointee, other.pointee := other.pointee, pointee;
    }

    /** Assignment from a raw pointer, which may be the handle's own. */
    method Assign(p: SharedObject?, ghost handles: set<Handle>, ghost objects: set<SharedObject>) returns (ghost temp: Handle)
      requires this in handles && Usable(p, objects) && Usable(pointee, objects)
      modifies this, p, pointee
      ensures pointee == p && fresh(temp)
      ensures View(handles, objects) == Apply(old(View(handles, objects)), AssignRaw(this, ToOption(p), temp))
    {
      var t := new Handle(p, handles, objects);
      t.SwapPointees(this, handles + {t}, objects);
      t.Release(handles + {t}, objects);
      temp := t;
      assert handles + {t} - {t} == handles;
    }

    /** Assignment from another handle, which may be this one; the invariant is all it needs. */
    method AssignFrom(rhs: Handle, ghost handles: set<Handle>, ghost objects: set<SharedObject>) returns (ghost temp: Handle)
      requires this in handles && rhs in handles && Inv(View(handles, objects))
      modifies this, rhs.pointee, pointee
      ensures pointee == old(rhs.pointee) && fresh(temp)
      ensures View(handles, objects) == Apply(old(View(handles, objects)), AssignCopy(this, rhs, temp))
      ensures Inv(View(handles, objects))
    {
      assert Usable(pointee, objects) && Usable(rhs.pointee, objects) by { LiveHandlesAreUsable(handles, objects); }
      ghost var before := View(handles, objects);
      assert before.pointee[rhs] == ToOption(rhs.pointee);
      temp := Assign(rhs.pointee, handles, objects);
      CopyIsRaw(before, this, rhs, temp);
    }

    /** Move assignment exchanges the two. */
    method AssignMoved(rhs: Handle, ghost handles: set<Handle>, ghost objects: set<SharedObject>)
      requires this in handles && rhs in handles
      modifies this, rhs
      ensures pointee == old(rhs.pointee) && rhs.pointee == old(pointee)
      ensures View(handles, objects) == Apply(old(View(handles, objects)), AssignMove(this, rhs))
    {
      rhs.SwapPointees(this, handles, objects);
    }
  }
}
