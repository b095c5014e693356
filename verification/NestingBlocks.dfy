/**
The nesting stack of cpplint on values: what one line does to the stack of open blocks.

Regular-expression matches are inputs; `Parsed` holds what they found on a line.
*/
module NestingBlocks {
  import opened Common
  import opened Preprocessor

  datatype Asm = NoAsm | InsideAsm | EndAsm | BlockAsm

  datatype Access = Public | Private | Protected | Signals

  datatype Kind = PlainBlock | NamespaceBlock | ClassBlock

  datatype Block = Block(kind: Kind, seenOpenBrace: bool, openParentheses: int, inlineAsm: Asm, access: Access, derived: bool)

  /** A brace, semicolon or closing parenthesis; `asm` tells whether assembly starts at the brace. */
  datatype Token = OpenBrace(asm: bool) | CloseBrace | Semicolon | CloseParenthesis

  /** What is left of a line after its declarations. */
  datatype Rest = Rest(access: Option<Access>, tokens: seq<Token>)

  datatype ClassDecl = ClassDecl(isStruct: bool, rest: Rest)

  /**
  A line: its directive, opening minus closing parentheses, whether it starts assembly, the
  namespaces declared at its start (true if the brace follows), the class declaration after
  them if any, whether it has a bare colon, and its rest when no class is pushed.
  */
  datatype Parsed = Parsed(directive: Directive, depthChange: int, asmStart: bool, namespaces: seq<bool>,
                           classDecl: Option<ClassDecl>, bareColon: bool, rest: Rest)

  predicate SeenOpenBrace(stack: seq<Block>) { stack == [] || Last(stack).seenOpenBrace }

  function OnTop(stack: seq<Block>, top: Block): seq<Block>
    requires stack != []
  {
    AllButLast(stack) + [top]
  }

  function CountParentheses(b: Block, p: Parsed): Block {
    var n := b.openParentheses + p.depthChange;
    b.(openParentheses := n,
       inlineAsm :=
         if b.inlineAsm.NoAsm? || b.inlineAsm.EndAsm? then
           if p.depthChange != 0 && n == 1 && p.asmStart then InsideAsm else NoAsm
         else if b.inlineAsm.InsideAsm? && n == 0 then EndAsm
         else b.inlineAsm)
  }

  function NewNamespace(brace: bool): Block { Block(NamespaceBlock, brace, 0, NoAsm, Private, false) }

  function NewClass(isStruct: bool): Block {
    Block(ClassBlock, false, 0, NoAsm, if isStruct then Public else Private, false)
  }

  function NewBlock(asm: bool): Block { Block(PlainBlock, true, 0, if asm then BlockAsm else NoAsm, Private, false) }

  function PushNamespaces(stack: seq<Block>, namespaces: seq<bool>): seq<Block> {
    if namespaces == [] then stack
    else PushNamespaces(stack, AllButLast(namespaces)) + [NewNamespace(Last(namespaces))]
  }

  predicate PushesClass(stack: seq<Block>, p: Parsed) {
    p.classDecl.Some? && (stack == [] || Last(stack).openParentheses == 0)
  }

  /** A class head that has not seen its brace learns whether the class is derived. */
  function CheckBegin(stack: seq<Block>, bareColon: bool): seq<Block> {
    if !SeenOpenBrace(stack) && Last(stack).kind.ClassBlock? && bareColon
    then OnTop(stack, Last(stack).(derived := true)) else stack
  }

  function SetAccess(stack: seq<Block>, access: Option<Access>): seq<Block> {
    if stack != [] && Last(stack).kind.ClassBlock? && access.Some?
    then OnTop(stack, Last(stack).(access := access.value)) else stack
  }

  function OnToken(stack: seq<Block>, t: Token): seq<Block> {
    match t
    case OpenBrace(asm) =>
      if !SeenOpenBrace(stack) then OnTop(stack, Last(stack).(seenOpenBrace := true)) else stack + [NewBlock(asm)]
    case CloseBrace => if stack != [] then AllButLast(stack) else stack
    case _ => if !SeenOpenBrace(stack) then AllButLast(stack) else stack
  }

  function OnTokens(stack: seq<Block>, tokens: seq<Token>): seq<Block> {
    if tokens == [] then stack else OnToken(OnTokens(stack, AllButLast(tokens)), Last(tokens))
  }

  function Counted(stack: seq<Block>, p: Parsed): seq<Block> {
    if stack == [] then stack else OnTop(stack, CountParentheses(Last(stack), p))
  }

  /** The stack after the declarations of a line, and what is left of the line. */
  function Declared(stack: seq<Block>, p: Parsed): (seq<Block>, Rest) {
    var named := PushNamespaces(stack, p.namespaces);
    if PushesClass(named, p)
    then (named + [NewClass(p.classDecl.value.isStruct)], p.classDecl.value.rest)
    else (named, p.rest)
  }

  /** Everything after the preprocessor update. */
  function LineEffect(stack: seq<Block>, p: Parsed): seq<Block> {
    var (declared, rest) := Declared(Counted(stack, p), p);
    OnTokens(SetAccess(CheckBegin(declared, p.bareColon), rest.access), rest.tokens)
  }

  function AsLine(p: Parsed): Line<Block> { Line(p.directive, (stack: seq<Block>) => LineEffect(stack, p)) }

  function AsLines(ps: seq<Parsed>): (lines: seq<Line<Block>>)
    ensures |lines| == |ps|
  {
    if ps == [] then [] else AsLines(AllButLast(ps)) + [AsLine(Last(ps))]
  }

  // ----- braces nest -----

  function BraceDepth(tokens: seq<Token>): int {
    if tokens == [] then 0
    else BraceDepth(AllButLast(tokens)) + (match Last(tokens) case OpenBrace(_) => 1 case CloseBrace => -1 case _ => 0)
  }

  /** No closing brace without an opening one before it. */
  predicate NeverUnder(tokens: seq<Token>) {
    tokens == [] || (NeverUnder(AllButLast(tokens)) && BraceDepth(tokens) >= 0)
  }

  predicate AllSeen(blocks: seq<Block>) { forall i :: 0 <= i < |blocks| ==> blocks[i].seenOpenBrace }

  /** Inside a block, braces push and pop only blocks above it, one per open brace. */
  lemma {:induction false} BracesStayAbove(stack: seq<Block>, tokens: seq<Token>) returns (above: seq<Block>)
    requires SeenOpenBrace(stack) && NeverUnder(tokens)
    ensures OnTokens(stack, tokens) == stack + above && |above| == BraceDepth(tokens) && AllSeen(above)
  {
    if tokens == [] {
      above := [];
    } else {
      var before := BracesStayAbove(stack, AllButLast(tokens));
      match Last(tokens)
      case OpenBrace(asm) => above := before + [NewBlock(asm)];
      case CloseBrace => above := AllButLast(before);
      case _ => above := before;
    }
  }

  /** A body with matching braces leaves the stack as it was. */
  lemma BalancedBody(stack: seq<Block>, tokens: seq<Token>)
    requires SeenOpenBrace(stack) && NeverUnder(tokens) && BraceDepth(tokens) == 0
    ensures OnTokens(stack, tokens) == stack
  {
    var above := BracesStayAbove(stack, tokens);
  }

  lemma {:induction false} OnTokensAppend(stack: seq<Block>, first: seq<Token>, second: seq<Token>)
    ensures OnTokens(stack, first + second) == OnTokens(OnTokens(stack, first), second)
  {
    if second == [] {
      assert first + second == first;
    } else {
      assert AllButLast(first + second) == first + AllButLast(second);
      OnTokensAppend(stack, first, AllButLast(second));
    }
  }

  /** A namespace or class head followed by `{`, a body with matching braces and `}` is gone again. */
  lemma HeadWithBody(stack: seq<Block>, asm: bool, body: seq<Token>)
    requires !SeenOpenBrace(stack) && NeverUnder(body) && BraceDepth(body) == 0
    ensures OnTokens(stack, [OpenBrace(asm)] + body + [CloseBrace]) == AllButLast(stack)
  {
    var entered := OnTop(stack, Last(stack).(seenOpenBrace := true));
    assert OnTokens(stack, [OpenBrace(asm)]) == entered by {
      assert AllButLast([OpenBrace(asm)]) == [];
    }
    OnTokensAppend(stack, [OpenBrace(asm)], body);
    BalancedBody(entered, body);
    OnTokensAppend(stack, [OpenBrace(asm)] + body, [CloseBrace]);
    assert AllButLast([CloseBrace]) == [];
  }

  /** A forward declaration, or a `class` keyword inside parameters, is dropped at `;` or `)`. */
  lemma HeadDropped(stack: seq<Block>, t: Token, tokens: seq<Token>)
    requires !SeenOpenBrace(stack) && (t.Semicolon? || t.CloseParenthesis?)
    ensures OnTokens(stack, [t] + tokens) == OnTokens(AllButLast(stack), tokens)
  {
    OnTokensAppend(stack, [t], tokens);
    assert AllButLast([t]) == [];
  }
}
