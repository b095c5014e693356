/**
`_NestingState` as it is in memory: stacks of mutable block objects, and checkpoints that
hold deep copies of whole stacks.

Every block object belongs to one list, numbered when the list is copied.  The invariant says
that the stack and the checkpoints are different lists, so updating the block on top of the
stack never changes what a later #else or #endif restores.
*/
module NestingState {
  import opened Common
  import opened Preprocessor
  import opened NestingBlocks

  /** A list of blocks: how many #if were open when it was copied, and a serial number. */
  datatype ListId = ListId(depth: nat, serial: nat)

  class BlockInfo {
    ghost const list: ListId
    ghost const position: nat
    const kind: Kind
    var seenOpenBrace: bool
    var openParentheses: int
    var inlineAsm: Asm
    var access: Access
    var derived: bool

    constructor (b: Block, ghost list: ListId, ghost position: nat)
      ensures Value() == b && this.list == list && this.position == position
    {
      this.list, this.position := list, position;
      kind, seenOpenBrace, openParentheses := b.kind, b.seenOpenBrace, b.openParentheses;
      inlineAsm, access, derived := b.inlineAsm, b.access, b.derived;
    }

    function Value(): Block
      reads this
    {
      Block(kind, seenOpenBrace, openParentheses, inlineAsm, access, derived)
    }

    method CountLine(p: Parsed)
      modifies this`openParentheses, this`inlineAsm
      ensures Value() == CountParentheses(old(Value()), p)
    {
      openParentheses := openParentheses + p.depthChange;
      if inlineAsm.NoAsm? || inlineAsm.EndAsm? {
        inlineAsm := if p.depthChange != 0 && openParentheses == 1 && p.asmStart then InsideAsm else NoAsm;
      } else if inlineAsm.InsideAsm? && openParentheses == 0 {
        inlineAsm := EndAsm;
      }
    }
  }

  /** `blocks` are the blocks of list `id`, each at its own position, with the values `values`. */
  ghost predicate Represents(blocks: seq<BlockInfo>, values: seq<Block>, id: ListId)
    reads blocks
  {
    && |blocks| == |values|
    && forall i :: 0 <= i < |blocks| ==>
        blocks[i].list == id && blocks[i].position == i && blocks[i].Value() == values[i]
  }

  /** `copy.deepcopy` of a stack: new objects with the same values. */
  method DeepCopy(blocks: seq<BlockInfo>, ghost values: seq<Block>, ghost from: ListId, ghost id: ListId)
    returns (copies: seq<BlockInfo>)
    requires Represents(blocks, values, from)
    ensures Represents(copies, values, id)
    ensures forall i :: 0 <= i < |copies| ==> fresh(copies[i])
  {
    copies := [];
    for i := 0 to |blocks|
      invariant |copies| == i && Represents(copies, values[..i], id)
      invariant forall j :: 0 <= j < i ==> fresh(copies[j])
    {
      var b := new BlockInfo(blocks[i].Value(), id, i);
      copies := copies + [b];
    }
  }

  ghost function Objects(blocks: seq<BlockInfo>): set<object> { set b | b in blocks }

  ghost predicate NoDuplicates(blocks: seq<BlockInfo>) { forall i, j :: 0 <= i < j < |blocks| ==> blocks[i] != blocks[j] }

  class PreprocessorInfo {
    /** How many #if enclose this one; the lists are numbered `serial` and `serial + 1`. */
    ghost const depth: nat
    ghost const serial: nat
    const stackBeforeIf: seq<BlockInfo>
    var stackBeforeElse: seq<BlockInfo>
    var seenElse: bool

    constructor (stackBeforeIf: seq<BlockInfo>, ghost depth: nat, ghost serial: nat)
      ensures this.stackBeforeIf == stackBeforeIf && stackBeforeElse == [] && !seenElse
      ensures this.depth == depth && this.serial == serial
    {
      this.depth, this.serial := depth, serial;
      this.stackBeforeIf := stackBeforeIf;
      stackBeforeElse := [];
      seenElse := false;
    }

    ghost function IfList(): ListId { ListId(depth, serial) }

    ghost function ElseList(): ListId { ListId(depth, serial + 1) }

    ghost predicate Holds(c: Checkpoint<Block>)
      reads this, stackBeforeIf, stackBeforeElse
    {
      && seenElse == c.seenElse
      && Represents(stackBeforeIf, c.beforeIf, IfList())
      && Represents(stackBeforeElse, c.beforeElse, ElseList())
    }

    ghost predicate Within(repr: set<object>)
      reads this
    {
      && (forall i :: 0 <= i < |stackBeforeIf| ==> stackBeforeIf[i] in repr)
      && (forall i :: 0 <= i < |stackBeforeElse| ==> stackBeforeElse[i] in repr)
    }

    /** The `i`-th open #if has two lists of its own; `list` is that of the stack. */
    ghost predicate Apart(i: nat, list: ListId, serials: nat) {
      depth == i && serial + 1 < serials && list != IfList() && list != ElseList()
    }

    method Remember(saved: seq<BlockInfo>, ghost values: seq<Block>, ghost c: Checkpoint<Block>)
      requires Holds(c) && Represents(saved, values, ElseList())
      modifies this
      ensures Holds(c.(seenElse := true, beforeElse := values)) && stackBeforeElse == saved
    {
      seenElse := true;
      stackBeforeElse := saved;
    }
  }

  class NestingState {
    var stack: seq<BlockInfo>
    var ppStack: seq<PreprocessorInfo>

    /** The stack and the checkpoints as values. */
    ghost var now: State<Block>
    /** Which list `stack` is, and how many serial numbers were given out. */
    ghost var list: ListId
    ghost var serials: nat
    /** Every object this one has used so far. */
    ghost var repr: set<object>

    ghost function CheckpointBlocks(): set<BlockInfo>
      reads this, ppStack
    {
      (set i: nat, b | i < |ppStack| && b in ppStack[i].stackBeforeIf :: b) +
      (set i: nat, b | i < |ppStack| && b in ppStack[i].stackBeforeElse :: b)
    }

    ghost predicate Valid()
      reads this, repr
    {
      && this in repr && list.serial < serials
      && (forall i :: 0 <= i < |stack| ==> stack[i] in repr)
      && Represents(stack, now.stack, list)
      && |ppStack| == |now.pp|
      && forall i :: 0 <= i < |ppStack| ==>
          ppStack[i] in repr && ppStack[i].Within(repr) && ppStack[i].Holds(now.pp[i]) && ppStack[i].Apart(i, list, serials)
    }

    constructor ()
      ensures Valid() && now == State([], []) && fresh(repr)
    {
      stack, ppStack, now := [], [], State([], []);
      list, serials := ListId(0, 0), 1;
      repr := {this};
    }

    /** No block object is on the stack and in a checkpoint, in two checkpoints, or twice in one list. */
    lemma NothingShared()
      requires Valid()
      ensures forall b :: b in stack ==> b !in CheckpointBlocks()
      ensures forall i, j, b :: 0 <= i < j < |ppStack| && b in ppStack[i].stackBeforeIf + ppStack[i].stackBeforeElse ==>
        b !in ppStack[j].stackBeforeIf + ppStack[j].stackBeforeElse
      ensures forall i, b :: 0 <= i < |ppStack| && b in ppStack[i].stackBeforeIf ==> b !in ppStack[i].stackBeforeElse
      ensures NoDuplicates(stack)
      ensures forall i :: 0 <= i < |ppStack| ==> NoDuplicates(ppStack[i].stackBeforeIf) && NoDuplicates(ppStack[i].stackBeforeElse)
    {
      assert forall b :: b in stack ==> b.list == list;
      assert forall i, b :: 0 <= i < |ppStack| && b in ppStack[i].stackBeforeIf ==> b.list == ppStack[i].IfList();
      assert forall i, b :: 0 <= i < |ppStack| && b in ppStack[i].stackBeforeElse ==> b.list == ppStack[i].ElseList();
    }

    method CopyStack(ghost id: ListId) returns (copies: seq<BlockInfo>)
      requires Valid()
      ensures Represents(copies, now.stack, id) && forall i :: 0 <= i < |copies| ==> fresh(copies[i])
    {
      copies := DeepCopy(stack, now.stack, list, id);
    }

    method CopyStackBeforeIf(ghost id: ListId) returns (copies: seq<BlockInfo>)
      requires Valid() && ppStack != []
      ensures Represents(copies, Last(now.pp).beforeIf, id) && forall i :: 0 <= i < |copies| ==> fresh(copies[i])
    {
      copies := DeepCopy(Last(ppStack).stackBeforeIf, Last(now.pp).beforeIf, Last(ppStack).IfList(), id);
    }

    /** A checkpoint with a copy of the stack. */
    method SaveStack() returns (info: PreprocessorInfo)
      requires Valid()
      ensures fresh(info) && info.depth == |ppStack| && info.serial == serials && info.Holds(Checkpoint(now.stack, [], false))
      ensures info.stackBeforeElse == [] && forall i :: 0 <= i < |info.stackBeforeIf| ==> fresh(info.stackBeforeIf[i])
    {
      var saved := CopyStack(ListId(|ppStack|, serials));
      info := new PreprocessorInfo(saved, |ppStack|, serials);
    }

    method BeginIf()
      requires Valid()
      modifies this
      ensures Valid() && now == Preprocess(old(now), If) && stack == old(stack) && fresh(repr - old(repr))
    {
      var info := SaveStack();
      serials, ppStack := serials + 2, ppStack + [info];
      repr := repr + {info} + Objects(info.stackBeforeIf);
      now := Preprocess(now, If);
    }

    method MarkElse(saved: seq<BlockInfo>)
      requires Valid() && ppStack != [] && Represents(saved, now.stack, Last(ppStack).ElseList())
      modifies this`now, this`repr, Last(ppStack)
      ensures Valid() && repr == old(repr) + Objects(saved)
      ensures now == old(now).(pp := AllButLast(old(now).pp) +
                                     [Last(old(now).pp).(seenElse := true, beforeElse := old(now).stack)])
    {
      ghost var top, values := Last(now.pp), now.stack;
      assert forall i :: 0 <= i < |ppStack| - 1 ==> ppStack[i] != Last(ppStack);
      now, repr := now.(pp := AllButLast(now.pp) + [top.(seenElse := true, beforeElse := values)]), repr + Objects(saved);
      Last(ppStack).Remember(saved, values, top);
    }

    /** The first #else or #elif of a block remembers the stack for the #endif. */
    method RememberElse()
      requires Valid() && ppStack != [] && !Last(ppStack).seenElse
      modifies this`now, this`repr, Last(ppStack)
      ensures Valid() && fresh(repr - old(repr))
      ensures now == old(now).(pp := AllButLast(old(now).pp) +
                                     [Last(old(now).pp).(seenElse := true, beforeElse := old(now).stack)])
    {
      var saved := CopyStack(Last(ppStack).ElseList());
      MarkElse(saved);
    }

    method Adopt(restored: seq<BlockInfo>)
      requires Valid() && ppStack != [] && Represents(restored, Last(now.pp).beforeIf, ListId(0, serials))
      modifies this`stack, this`now, this`list, this`serials, this`repr
      ensures Valid() && now == old(now).(stack := Last(old(now).pp).beforeIf)
      ensures stack == restored && repr == old(repr) + Objects(restored)
    {
      stack, repr := restored, repr + Objects(restored);
      list, serials := ListId(0, serials), serials + 1;
      now := now.(stack := Last(now.pp).beforeIf);
    }

    /** Back to how the stack was before the #if, as a copy of the checkpoint. */
    method RestoreBeforeIf()
      requires Valid() && ppStack != []
      modifies this`stack, this`now, this`list, this`serials, this`repr
      ensures Valid() && fresh(repr - old(repr)) && now == old(now).(stack := Last(old(now).pp).beforeIf)
      ensures forall i :: 0 <= i < |stack| ==> fresh(stack[i])
    {
      var restored := CopyStackBeforeIf(ListId(0, serials));
      Adopt(restored);
    }

    method BeginElse()
      requires Valid() && ppStack != []
      modifies this, Last(ppStack)
      ensures Valid() && now == Preprocess(old(now), Else) && fresh(repr - old(repr))
      ensures forall i :: 0 <= i < |stack| ==> fresh(stack[i])
    {
      if !Last(ppStack).seenElse {
        RememberElse();
      }
      RestoreBeforeIf();
    }

    method EndBlock()
      requires Valid() && ppStack != []
      modifies this
      ensures Valid() && now == Preprocess(old(now), EndIf) && repr == old(repr)
      ensures stack == if old(Last(ppStack).seenElse) then old(Last(ppStack).stackBeforeElse) else old(stack)
    {
      var top := Last(ppStack);
      if top.seenElse {
        stack := top.stackBeforeElse;
        list := top.ElseList();
      }
      ppStack := AllButLast(ppStack);
      now := Preprocess(now, EndIf);
    }

    method UpdatePreprocessor(d: Directive)
      requires Valid()
      modifies this, ppStack
      ensures Valid() && now == Preprocess(old(now), d) && fresh(repr - old(repr))
      ensures forall i :: 0 <= i < |stack| ==> stack[i] in old(stack) || stack[i] in old(CheckpointBlocks()) || fresh(stack[i])
    {
      match d {
        case NoDirective =>
        case If => BeginIf();
        case Else => if ppStack != [] { BeginElse(); }
        case EndIf =>
          if ppStack != [] {
            assert forall b :: b in ppStack[|ppStack| - 1].stackBeforeElse ==> b in CheckpointBlocks();
            EndBlock();
          }
      }
    }

    // ----- the rest of the line works on the block on top of the stack, in place -----

    method CountParenthesesOnTop(p: Parsed)
      requires Valid() && stack != []
      modifies this`now, Last(stack)
      ensures Valid() && now == old(now).(stack := OnTop(old(now).stack, CountParentheses(Last(old(now).stack), p)))
    {
      Last(stack).CountLine(p);
      now := now.(stack := OnTop(now.stack, CountParentheses(Last(now.stack), p)));
    }

    method MarkTopSeen()
      requires Valid() && stack != []
      modifies this`now, Last(stack)
      ensures Valid() && now == old(now).(stack := OnTop(old(now).stack, Last(old(now).stack).(seenOpenBrace := true)))
    {
      Last(stack).seenOpenBrace := true;
      now := now.(stack := OnTop(now.stack, Last(now.stack).(seenOpenBrace := true)));
    }

    method Push(b: Block)
      requires Valid()
      modifies this`now, this`stack, this`repr
      ensures Valid() && now == old(now).(stack := old(now).stack + [b]) && fresh(repr - old(repr))
      ensures stack[..|stack| - 1] == old(stack) && fresh(Last(stack))
    {
      var block := new BlockInfo(b, list, |stack|);
      stack, repr := stack + [block], repr + {block};
      now := now.(stack := now.stack + [b]);
    }

    method Pop()
      requires Valid() && stack != []
      modifies this`now, this`stack
      ensures Valid() && now == old(now).(stack := AllButLast(old(now).stack)) && stack == AllButLast(old(stack))
    {
      stack := AllButLast(stack);
      now := now.(stack := AllButLast(now.stack));
    }

    method CheckBeginOfTop(bareColon: bool)
      requires Valid()
      modifies this`now, stack
      ensures Valid() && now == old(now).(stack := CheckBegin(old(now).stack, bareColon))
    {
      if stack != [] && !Last(stack).seenOpenBrace && Last(stack).kind.ClassBlock? && bareColon {
        Last(stack).derived := true;
        now := now.(stack := OnTop(now.stack, Last(now.stack).(derived := true)));
      }
    }

    method SetAccessOfTop(access: Option<Access>)
      requires Valid()
      modifies this`now, stack
      ensures Valid() && now == old(now).(stack := SetAccess(old(now).stack, access))
    {
      if stack != [] && Last(stack).kind.ClassBlock? && access.Some? {
        Last(stack).access := access.value;
        now := now.(stack := OnTop(now.stack, Last(now.stack).(access := access.value)));
      }
    }

    /** The objects on the stack were on it before or are new. */
    twostate predicate FromOldStack()
      reads this
    {
      forall i :: 0 <= i < |stack| ==> stack[i] in old(stack) || fresh(stack[i])
    }

    method ConsumeToken(t: Token)
      requires Valid()
      modifies this`now, this`stack, this`repr, stack
      ensures Valid() && now == old(now).(stack := OnToken(old(now).stack, t))
      ensures FromOldStack() && fresh(repr - old(repr))
    {
      var seen := stack == [] || Last(stack).seenOpenBrace;
      match t {
        case OpenBrace(asm) =>
          if !seen {
            MarkTopSeen();
          } else {
            Push(NewBlock(asm));
          }
        case CloseBrace =>
          if stack != [] {
            Pop();
          }
        case _ =>
          if !seen {
            Pop();
          }
      }
    }

    method ConsumeTokens(tokens: seq<Token>)
      requires Valid()
      modifies this`now, this`stack, this`repr, stack
      ensures Valid() && now == old(now).(stack := OnTokens(old(now).stack, tokens))
      ensures FromOldStack() && fresh(repr - old(repr))
    {
      for i := 0 to |tokens|
        invariant Valid() && now == old(now).(stack := OnTokens(old(now).stack, tokens[..i]))
        invariant FromOldStack() && fresh(repr - old(repr))
      {
        assert AllButLast(tokens[..i + 1]) == tokens[..i];
        ConsumeToken(tokens[i]);
      }
      assert tokens[..|tokens|] == tokens;
    }

    method ConsumeNamespaces(namespaces: seq<bool>)
      requires Valid()
      modifies this`now, this`stack, this`repr
      ensures Valid() && now == old(now).(stack := PushNamespaces(old(now).stack, namespaces))
      ensures FromOldStack() && fresh(repr - old(repr))
    {
      for i := 0 to |namespaces|
        invariant Valid() && now == old(now).(stack := PushNamespaces(old(now).stack, namespaces[..i]))
        invariant FromOldStack() && fresh(repr - old(repr))
      {
        assert AllButLast(namespaces[..i + 1]) == namespaces[..i];
        Push(NewNamespace(namespaces[i]));
      }
      assert namespaces[..|namespaces|] == namespaces;
    }

    method ConsumeDeclarations(p: Parsed) returns (rest: Rest)
      requires Valid()
      modifies this`now, this`stack, this`repr
      ensures Valid() && (now.stack, rest) == Declared(old(now).stack, p) && now.pp == old(now).pp
      ensures FromOldStack() && fresh(repr - old(repr))
    {
      ConsumeNamespaces(p.namespaces);
      rest := p.rest;
      if p.classDecl.Some? && (stack == [] || Last(stack).openParentheses == 0) {
        Push(NewClass(p.classDecl.value.isStruct));
        rest := p.classDecl.value.rest;
      }
    }

    method CountLine(p: Parsed)
      requires Valid()
      modifies this`now, stack
      ensures Valid() && now == old(now).(stack := Counted(old(now).stack, p))
    {
      if stack != [] {
        CountParenthesesOnTop(p);
      }
    }

    method BeginLine(p: Parsed) returns (rest: Rest)
      requires Valid()
      modifies this`now, this`stack, this`repr, stack
      ensures Valid() && (now.stack, rest) == Declared(Counted(old(now).stack, p), p) && now.pp == old(now).pp
      ensures FromOldStack() && fresh(repr - old(repr))
    {
      CountLine(p);
      rest := ConsumeDeclarations(p);
    }

    method ApplyLine(p: Parsed)
      requires Valid()
      modifies this`now, this`stack, this`repr, stack
      ensures Valid() && now == old(now).(stack := LineEffect(old(now).stack, p))
      ensures FromOldStack() && fresh(repr - old(repr))
    {
      var rest := BeginLine(p);
      CheckBeginOfTop(p.bareColon);
      SetAccessOfTop(rest.access);
      ConsumeTokens(rest.tokens);
    }

    /** One line: the checkpoints first, then the block on top of the stack. */
    method Update(p: Parsed)
      requires Valid()
      modifies repr
      ensures Valid() && now == Preprocessor.Update(old(now), AsLine(p)) && fresh(repr - old(repr))
    {
      UpdatePreprocessor(p.directive);
      ApplyLine(p);
    }

    method UpdateLines(ps: seq<Parsed>)
      requires Valid()
      modifies repr
      ensures Valid() && now == Run(old(now), AsLines(ps)) && fresh(repr - old(repr))
    {
      ghost var before := now;
      for i := 0 to |ps|
        invariant Valid() && now == Run(before, AsLines(ps[..i])) && fresh(repr - old(repr))
      {
        RunOneMore(before, ps, i);
        Update(ps[i]);
      }
      assert ps[..|ps|] == ps;
    }

    /**
    All lines of a file.  A well-nested stretch restores the checkpoints and leaves the fold over
    the lines outside of #else parts; so does any live one that starts without open blocks.
    */
    method UpdateAll(ps: seq<Parsed>)
      requires Valid()
      modifies repr
      ensures Valid() && now == Run(old(now), AsLines(ps)) && fresh(repr - old(repr))
      ensures WellNested(AsLines(ps)) ==> now == State(Fold(old(now).stack, Kept(AsLines(ps))), old(now).pp)
      ensures old(now).pp == [] && Live(Passed(AsLines(ps))) ==> now.stack == Fold(old(now).stack, Kept(AsLines(ps)))
    {
      FileProjection(now, ps);
      UpdateLines(ps);
    }
  }

  lemma RunOneMore(s: State<Block>, ps: seq<Parsed>, i: nat)
    requires i < |ps|
    ensures Run(s, AsLines(ps[..i + 1])) == Preprocessor.Update(Run(s, AsLines(ps[..i])), AsLine(ps[i]))
  {
    assert AllButLast(ps[..i + 1]) == ps[..i];
    assert AllButLast(AsLines(ps[..i + 1])) == AsLines(ps[..i]);
  }

  lemma FileProjection(s: State<Block>, ps: seq<Parsed>)
    ensures WellNested(AsLines(ps)) ==> Run(s, AsLines(ps)) == State(Fold(s.stack, Kept(AsLines(ps))), s.pp)
    ensures s.pp == [] && Live(Passed(AsLines(ps))) ==> Run(s, AsLines(ps)).stack == Fold(s.stack, Kept(AsLines(ps)))
  {
    if WellNested(AsLines(ps)) {
      WellNestedProjection(s, AsLines(ps));
    }
    if s.pp == [] && Live(Passed(AsLines(ps))) {
      LiveProjection(s.stack, AsLines(ps));
    }
  }
}
