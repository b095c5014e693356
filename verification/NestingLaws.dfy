/**
What single lines and stretches of lines do to the nesting stack, said on the blocks themselves.

Each law is about `Update`, the whole step of a line, and describes the resulting blocks field by
field.
*/
module NestingLaws {
  import opened Common
  import opened Preprocessor
  import opened NestingBlocks

  type Stack = State<Block>

  /** A line without directive and declarations. */
  predicate Plain(p: Parsed) { p.directive.NoDirective? && p.namespaces == [] && p.classDecl.None? }

  /** A plain line without braces, semicolons and closing parentheses. */
  predicate Bare(p: Parsed) { Plain(p) && p.rest.tokens == [] }

  /** A plain line that only has semicolons and closing parentheses. */
  predicate NoBraces(p: Parsed) {
    Plain(p) && forall i :: 0 <= i < |p.rest.tokens| ==> p.rest.tokens[i].Semicolon? || p.rest.tokens[i].CloseParenthesis?
  }

  function AfterLine(s: Stack, p: Parsed): Stack { Preprocessor.Update(s, AsLine(p)) }

  function AfterLines(s: Stack, ps: seq<Parsed>): Stack {
    if ps == [] then s else AfterLine(AfterLines(s, AllButLast(ps)), Last(ps))
  }

  /** The run of the lines, as `UpdateAll` makes it. */
  lemma {:induction false} AfterLinesIsRun(s: Stack, ps: seq<Parsed>)
    ensures AfterLines(s, ps) == Run(s, AsLines(ps))
  {
    if ps != [] {
      AfterLinesIsRun(s, AllButLast(ps));
      assert AllButLast(AsLines(ps)) == AsLines(AllButLast(ps));
    }
  }

  lemma NoDirectiveLine(s: Stack, p: Parsed)
    requires p.directive.NoDirective?
    ensures AfterLine(s, p) == State(LineEffect(s.stack, p), s.pp)
  {
  }

  lemma OneToken(stack: seq<Block>, t: Token)
    ensures OnTokens(stack, []) == stack && OnTokens(stack, [t]) == OnToken(stack, t)
  {
    assert AllButLast([t]) == [];
  }

  /** What a plain line does before its tokens. */
  function BeforeTokens(stack: seq<Block>, p: Parsed): seq<Block> {
    SetAccess(CheckBegin(Counted(stack, p), p.bareColon), p.rest.access)
  }

  lemma PlainLine(s: Stack, p: Parsed)
    requires Plain(p)
    ensures AfterLine(s, p) == State(OnTokens(BeforeTokens(s.stack, p), p.rest.tokens), s.pp)
  {
    NoDirectiveLine(s, p);
  }

  // ----- declarations -----

  /** The heads of namespaces, each of which has seen its brace exactly if the brace was on the line. */
  function Heads(braces: seq<bool>): seq<Block> {
    seq(|braces|, i requires 0 <= i < |braces| => Block(NamespaceBlock, braces[i], 0, NoAsm, Private, false))
  }

  /** The blocks that were there stay; the line's parentheses are counted in the innermost one. */
  predicate Below(was: seq<Block>, now: seq<Block>, change: int) {
    && |now| >= |was| && (forall i :: 0 <= i < |was| - 1 ==> now[i] == was[i])
    && (|was| > 0 ==>
          var a, b := was[|was| - 1], now[|was| - 1];
          b == a.(openParentheses := a.openParentheses + change, inlineAsm := b.inlineAsm))
  }

  lemma {:induction false} NamespacesPushed(stack: seq<Block>, braces: seq<bool>)
    ensures PushNamespaces(stack, braces) == stack + Heads(braces)
  {
    if braces != [] {
      NamespacesPushed(stack, AllButLast(braces));
      assert Heads(braces) == Heads(AllButLast(braces)) + [NewNamespace(Last(braces))];
    } else {
      assert stack + Heads(braces) == stack;
    }
  }

  lemma ClassPushed(named: seq<Block>, isStruct: bool, bareColon: bool)
    ensures CheckBegin(named + [NewClass(isStruct)], bareColon)
         == named + [Block(ClassBlock, false, 0, NoAsm, if isStruct then Public else Private, bareColon)]
  {
    assert AllButLast(named + [NewClass(isStruct)]) == named;
  }

  lemma CountedBelow(stack: seq<Block>, p: Parsed, more: seq<Block>)
    ensures Below(stack, Counted(stack, p) + more, p.depthChange) && (Counted(stack, p) + more)[|stack|..] == more
  {
  }

  lemma ClassIsPushed(counted: seq<Block>, p: Parsed, decl: ClassDecl)
    requires p.classDecl == Some(decl)
    requires p.namespaces != [] || counted == [] || counted[|counted| - 1].openParentheses == 0
    ensures Declared(counted, p) == (counted + Heads(p.namespaces) + [NewClass(decl.isStruct)], decl.rest)
  {
    NamespacesPushed(counted, p.namespaces);
    var named := counted + Heads(p.namespaces);
    assert named != [] ==> named[|named| - 1].openParentheses == 0;
  }

  /** The blocks with the heads that the line declares. */
  function WithHeads(s: Stack, p: Parsed, isStruct: bool): seq<Block> {
    Counted(s.stack, p) + (Heads(p.namespaces) +
      [Block(ClassBlock, false, 0, NoAsm, if isStruct then Public else Private, p.bareColon)])
  }

  lemma ClassLine(s: Stack, p: Parsed, decl: ClassDecl)
    requires p.directive.NoDirective? && p.classDecl == Some(decl)
    requires p.namespaces != [] || s.stack == [] || s.stack[|s.stack| - 1].openParentheses + p.depthChange == 0
    ensures AfterLine(s, p)
         == State(OnTokens(SetAccess(WithHeads(s, p, decl.isStruct), decl.rest.access), decl.rest.tokens), s.pp)
  {
    NoDirectiveLine(s, p);
    var counted, heads := Counted(s.stack, p), Heads(p.namespaces);
    ClassIsPushed(counted, p, decl);
    ClassPushed(counted + heads, decl.isStruct, p.bareColon);
    var head := Block(ClassBlock, false, 0, NoAsm, if decl.isStruct then Public else Private, p.bareColon);
    assert counted + (heads + [head]) == (counted + heads) + [head];
  }

  lemma DeclaredStack(s: Stack, p: Parsed, decl: ClassDecl)
    requires p.directive.NoDirective? && p.classDecl == Some(decl) && decl.rest == Rest(None, [])
    requires p.namespaces != [] || s.stack == [] || s.stack[|s.stack| - 1].openParentheses + p.depthChange == 0
    ensures AfterLine(s, p) == State(WithHeads(s, p, decl.isStruct), s.pp)
  {
    ClassLine(s, p, decl);
  }

  /**
  A line with declarations only: a class is private and a struct public, it waits for its brace, and
  it is derived exactly if there is a bare colon.
  */
  lemma DeclarationLine(s: Stack, p: Parsed, decl: ClassDecl)
    requires p.directive.NoDirective? && p.classDecl == Some(decl) && decl.rest == Rest(None, [])
    requires p.namespaces != [] || s.stack == [] || s.stack[|s.stack| - 1].openParentheses + p.depthChange == 0
    ensures Below(s.stack, AfterLine(s, p).stack, p.depthChange) && AfterLine(s, p).pp == s.pp
    ensures AfterLine(s, p).stack[|s.stack|..] == Heads(p.namespaces) +
              [Block(ClassBlock, false, 0, NoAsm, if decl.isStruct then Public else Private, p.bareColon)]
  {
    DeclaredStack(s, p, decl);
    var head := Block(ClassBlock, false, 0, NoAsm, if decl.isStruct then Public else Private, p.bareColon);
    CountedBelow(s.stack, p, Heads(p.namespaces) + [head]);
  }

  /** A line with namespace heads and no class. */
  lemma NamespaceLine(s: Stack, p: Parsed)
    requires p.directive.NoDirective? && p.classDecl.None? && p.rest == Rest(None, []) && p.namespaces != []
    ensures Below(s.stack, AfterLine(s, p).stack, p.depthChange) && AfterLine(s, p).pp == s.pp
    ensures AfterLine(s, p).stack[|s.stack|..] == Heads(p.namespaces)
  {
    NoDirectiveLine(s, p);
    var counted, heads := Counted(s.stack, p), Heads(p.namespaces);
    NamespacesPushed(counted, p.namespaces);
    CountedBelow(s.stack, p, heads);
    assert (counted + heads)[|counted + heads| - 1].kind.NamespaceBlock?;
    assert AfterLine(s, p).stack == counted + heads;
  }

  /** While parentheses are open a class declaration is ignored, as in the arguments of a function. */
  lemma ClassIgnoredInParentheses(s: Stack, p: Parsed)
    requires p.directive.NoDirective? && p.namespaces == [] && s.stack != []
    requires s.stack[|s.stack| - 1].openParentheses + p.depthChange != 0
    ensures AfterLine(s, p) == AfterLine(s, p.(classDecl := None))
  {
    var q := p.(classDecl := None);
    NoDirectiveLine(s, p);
    NoDirectiveLine(s, q);
    assert Counted(s.stack, p) == Counted(s.stack, q);
    assert !PushesClass(PushNamespaces(Counted(s.stack, p), []), p);
  }

  // ----- lines inside a block -----

  lemma {:induction false} NoBracesNoChange(stack: seq<Block>, tokens: seq<Token>)
    requires stack == [] || stack[|stack| - 1].seenOpenBrace
    requires forall i :: 0 <= i < |tokens| ==> tokens[i].Semicolon? || tokens[i].CloseParenthesis?
    ensures OnTokens(stack, tokens) == stack
  {
    if tokens != [] {
      NoBracesNoChange(stack, AllButLast(tokens));
    }
  }

  /**
  A line without braces inside an open block, or without any token, changes the innermost block
  only: it counts parentheses there, a specifier sets its access if it is a class, and a bare colon
  makes a class derived that has not seen its brace.
  */
  lemma InnermostOnly(s: Stack, p: Parsed)
    requires s.stack != [] && (Bare(p) || (NoBraces(p) && s.stack[|s.stack| - 1].seenOpenBrace))
    ensures var t, n := AfterLine(s, p).stack, |s.stack|;
      |t| == n && var was, top := s.stack[n - 1], t[n - 1];
      && (forall i :: 0 <= i < n - 1 ==> t[i] == s.stack[i])
      && top.kind == was.kind && top.seenOpenBrace == was.seenOpenBrace
      && top.openParentheses == was.openParentheses + p.depthChange
      && top.access == (if was.kind.ClassBlock? && p.rest.access.Some? then p.rest.access.value else was.access)
      && top.derived == (was.derived || (was.kind.ClassBlock? && !was.seenOpenBrace && p.bareColon))
    ensures AfterLine(s, p).pp == s.pp
  {
    PlainLine(s, p);
    NoBracesNoChangeOrNone(BeforeTokens(s.stack, p), p.rest.tokens);
  }

  lemma NoBracesNoChangeOrNone(stack: seq<Block>, tokens: seq<Token>)
    requires stack != [] && (tokens == [] || stack[|stack| - 1].seenOpenBrace)
    requires forall i :: 0 <= i < |tokens| ==> tokens[i].Semicolon? || tokens[i].CloseParenthesis?
    ensures OnTokens(stack, tokens) == stack
  {
    if tokens != [] {
      NoBracesNoChange(stack, tokens);
    }
  }

  /** A plain line on an empty stack, without an opening brace, leaves it empty. */
  lemma EmptyStays(s: Stack, p: Parsed)
    requires s.stack == [] && Plain(p) && (p.rest.tokens == [] || p.rest.tokens == [CloseBrace] || p.rest.tokens == [Semicolon])
    ensures AfterLine(s, p) == s
  {
    PlainLine(s, p);
    OneToken([], CloseBrace);
    OneToken([], Semicolon);
  }

  function DepthChanges(ps: seq<Parsed>): int { if ps == [] then 0 else DepthChanges(AllButLast(ps)) + Last(ps).depthChange }

  /** Same blocks, except for fields of the innermost one. */
  predicate SameBut(was: seq<Block>, now: seq<Block>) {
    && |now| == |was| > 0 && (forall i :: 0 <= i < |was| - 1 ==> now[i] == was[i])
    && now[|now| - 1].kind == was[|was| - 1].kind && now[|now| - 1].seenOpenBrace == was[|was| - 1].seenOpenBrace
  }

  predicate CountedBy(was: seq<Block>, now: seq<Block>, change: int) {
    SameBut(was, now) && now[|now| - 1].openParentheses == was[|was| - 1].openParentheses + change
  }

  lemma CountedOneLine(s: Stack, p: Parsed)
    requires s.stack != [] && (Bare(p) || (NoBraces(p) && s.stack[|s.stack| - 1].seenOpenBrace))
    ensures CountedBy(s.stack, AfterLine(s, p).stack, p.depthChange)
  {
    InnermostOnly(s, p);
  }

  lemma CountedTwice(a: seq<Block>, b: seq<Block>, c: seq<Block>, x: int, y: int)
    requires CountedBy(a, b, x) && CountedBy(b, c, y)
    ensures CountedBy(a, c, x + y)
  {
  }

  /** Over lines that neither push nor pop, the innermost count grows by the sum of the depth changes. */
  lemma {:induction false} ParenthesesAddUp(s: Stack, ps: seq<Parsed>)
    requires s.stack != []
    requires forall i :: 0 <= i < |ps| ==> Bare(ps[i]) || (NoBraces(ps[i]) && s.stack[|s.stack| - 1].seenOpenBrace)
    ensures CountedBy(s.stack, AfterLines(s, ps).stack, DepthChanges(ps))
  {
    if ps != [] {
      var mid := AfterLines(s, AllButLast(ps));
      ParenthesesAddUp(s, AllButLast(ps));
      CountedOneLine(mid, Last(ps));
      CountedTwice(s.stack, mid.stack, AfterLine(mid, Last(ps)).stack, DepthChanges(AllButLast(ps)), Last(ps).depthChange);
    }
  }

  // ----- braces -----

  /** An opening brace completes a head, or opens a block, which is assembly exactly if the line says so. */
  lemma OpenBraceLine(s: Stack, p: Parsed, asm: bool)
    requires Plain(p) && p.rest == Rest(None, [OpenBrace(asm)])
    ensures var t, n := AfterLine(s, p).stack, |s.stack|;
      if s.stack == [] || s.stack[n - 1].seenOpenBrace
      then |t| == n + 1 && t[n] == Block(PlainBlock, true, 0, if asm then BlockAsm else NoAsm, Private, false)
      else && |t| == n && t[n - 1].seenOpenBrace && t[n - 1].kind == s.stack[n - 1].kind
           && t[n - 1].access == s.stack[n - 1].access
           && t[n - 1].derived == (s.stack[n - 1].derived || (s.stack[n - 1].kind.ClassBlock? && p.bareColon))
    ensures forall i :: 0 <= i < |s.stack| - 1 ==> AfterLine(s, p).stack[i] == s.stack[i]
  {
    PlainLine(s, p);
    OneToken(BeforeTokens(s.stack, p), OpenBrace(asm));
  }

  /** A closing brace removes the innermost block and leaves the others alone. */
  lemma CloseBraceLine(s: Stack, p: Parsed)
    requires s.stack != [] && Plain(p) && p.rest.tokens == [CloseBrace]
    ensures AfterLine(s, p).stack == s.stack[..|s.stack| - 1]
  {
    PlainLine(s, p);
    OneToken(BeforeTokens(s.stack, p), CloseBrace);
  }

  /** A head without its brace is removed by a semicolon or a closing parenthesis. */
  lemma HeadRemoved(s: Stack, p: Parsed, t: Token)
    requires s.stack != [] && !s.stack[|s.stack| - 1].seenOpenBrace && Plain(p) && p.rest.tokens == [t]
    requires t.Semicolon? || t.CloseParenthesis?
    ensures AfterLine(s, p).stack == s.stack[..|s.stack| - 1]
  {
    PlainLine(s, p);
    OneToken(BeforeTokens(s.stack, p), t);
  }

  // ----- classes over several lines -----

  predicate SomeBareColon(ps: seq<Parsed>) { exists i :: 0 <= i < |ps| && ps[i].bareColon }

  /** The innermost block is still a class head with the same access, and derived if it was or `colon`. */
  predicate HeadStill(was: seq<Block>, now: seq<Block>, colon: bool) {
    && SameBut(was, now) && now[|now| - 1].kind.ClassBlock? && !now[|now| - 1].seenOpenBrace
    && now[|now| - 1].access == was[|was| - 1].access
    && now[|now| - 1].derived == (was[|was| - 1].derived || colon)
  }

  lemma HeadOneLine(s: Stack, p: Parsed)
    requires s.stack != [] && s.stack[|s.stack| - 1].kind.ClassBlock? && !s.stack[|s.stack| - 1].seenOpenBrace
    requires Bare(p) && p.rest.access.None?
    ensures HeadStill(s.stack, AfterLine(s, p).stack, p.bareColon)
  {
    InnermostOnly(s, p);
  }

  lemma BareColonOneMore(ps: seq<Parsed>)
    requires ps != []
    ensures SomeBareColon(ps) <==> SomeBareColon(AllButLast(ps)) || Last(ps).bareColon
  {
    assert ps == AllButLast(ps) + [Last(ps)];
  }

  /** A class head keeps looking for a bare colon on every line before its brace. */
  lemma {:induction false} HeadWaits(s: Stack, ps: seq<Parsed>)
    requires s.stack != [] && s.stack[|s.stack| - 1].kind.ClassBlock? && !s.stack[|s.stack| - 1].seenOpenBrace
    requires forall i :: 0 <= i < |ps| ==> Bare(ps[i]) && ps[i].rest.access.None?
    ensures HeadStill(s.stack, AfterLines(s, ps).stack, SomeBareColon(ps))
  {
    if ps != [] {
      HeadWaits(s, AllButLast(ps));
      HeadOneLine(AfterLines(s, AllButLast(ps)), Last(ps));
      BareColonOneMore(ps);
    }
  }

  /**
  A class from its declaration to the line with its brace: it is open, private or a public struct,
  and derived exactly if one of these lines has a bare colon.
  */
  lemma ClassOpens(s: Stack, p: Parsed, decl: ClassDecl, ps: seq<Parsed>, q: Parsed, asm: bool)
    requires p.directive.NoDirective? && p.classDecl == Some(decl) && decl.rest == Rest(None, []) && p.namespaces == []
    requires s.stack == [] || s.stack[|s.stack| - 1].openParentheses + p.depthChange == 0
    requires forall i :: 0 <= i < |ps| ==> Bare(ps[i]) && ps[i].rest.access.None?
    requires Plain(q) && q.rest == Rest(None, [OpenBrace(asm)])
    ensures InnermostClass(AfterLine(AfterLines(AfterLine(s, p), ps), q).stack, |s.stack| + 1, true,
                           if decl.isStruct then Public else Private, p.bareColon || SomeBareColon(ps) || q.bareColon)
  {
    HeadDeclared(s, p, decl);
    HeadWaits(AfterLine(s, p), ps);
    HeadOpened(AfterLines(AfterLine(s, p), ps), q, asm);
  }

  /** The innermost block is a class, still a head or open. */
  predicate InnermostClass(stack: seq<Block>, size: nat, open: bool, access: Access, derived: bool) {
    && |stack| == size > 0 && stack[size - 1].kind.ClassBlock? && stack[size - 1].seenOpenBrace == open
    && stack[size - 1].access == access && stack[size - 1].derived == derived
  }

  lemma HeadDeclared(s: Stack, p: Parsed, decl: ClassDecl)
    requires p.directive.NoDirective? && p.classDecl == Some(decl) && decl.rest == Rest(None, []) && p.namespaces == []
    requires s.stack == [] || s.stack[|s.stack| - 1].openParentheses + p.depthChange == 0
    ensures InnermostClass(AfterLine(s, p).stack, |s.stack| + 1, false, if decl.isStruct then Public else Private, p.bareColon)
  {
    DeclaredStack(s, p, decl);
  }

  lemma HeadOpened(s: Stack, q: Parsed, asm: bool)
    requires s.stack != [] && s.stack[|s.stack| - 1].kind.ClassBlock? && !s.stack[|s.stack| - 1].seenOpenBrace
    requires Plain(q) && q.rest == Rest(None, [OpenBrace(asm)])
    ensures var top := s.stack[|s.stack| - 1];
      InnermostClass(AfterLine(s, q).stack, |s.stack|, true, top.access, top.derived || q.bareColon)
  {
    OpenBraceLine(s, q, asm);
  }

  /** A line that has nothing but this rest. */
  function RestLine(rest: Rest): Parsed { Parsed(NoDirective, 0, false, [], None, false, rest) }

  lemma RestLineOnClass(s: Stack, rest: Rest)
    requires s.stack != [] && s.stack[|s.stack| - 1].inlineAsm == NoAsm
    ensures AfterLine(s, RestLine(rest)) == State(OnTokens(SetAccess(s.stack, rest.access), rest.tokens), s.pp)
  {
    PlainLine(s, RestLine(rest));
    assert Counted(s.stack, RestLine(rest)) == s.stack;
  }

  lemma SpecifierThenTokens(s: Stack, rest: Rest)
    requires s.stack != [] && s.stack[|s.stack| - 1].inlineAsm == NoAsm
    ensures AfterLine(AfterLine(s, RestLine(Rest(rest.access, []))), RestLine(Rest(None, rest.tokens)))
         == State(OnTokens(SetAccess(s.stack, rest.access), rest.tokens), s.pp)
  {
    RestLineOnClass(s, Rest(rest.access, []));
    var specified := State(SetAccess(s.stack, rest.access), s.pp);
    assert OnTokens(specified.stack, []) == specified.stack;
    RestLineOnClass(specified, Rest(None, rest.tokens));
  }

  lemma SameHeads(s: Stack, p: Parsed, decl: Option<ClassDecl>, isStruct: bool)
    ensures WithHeads(s, p.(classDecl := decl), isStruct) == WithHeads(s, p, isStruct)
  {
  }

  /** What follows a class head on its line is as if it came on lines of its own: first the specifier, then the tokens. */
  lemma RestAfterClass(s: Stack, p: Parsed, decl: ClassDecl, bare: Parsed)
    requires p.directive.NoDirective? && p.classDecl == Some(decl)
    requires p.namespaces != [] || s.stack == [] || s.stack[|s.stack| - 1].openParentheses + p.depthChange == 0
    requires bare == p.(classDecl := Some(ClassDecl(decl.isStruct, Rest(None, []))))
    ensures AfterLine(s, p) ==
      AfterLine(AfterLine(AfterLine(s, bare), RestLine(Rest(decl.rest.access, []))), RestLine(Rest(None, decl.rest.tokens)))
  {
    var declared := State(WithHeads(s, p, decl.isStruct), s.pp);
    assert AfterLine(s, bare) == declared by {
      DeclaredStack(s, bare, bare.classDecl.value);
      SameHeads(s, p, bare.classDecl, decl.isStruct);
    }
    assert AfterLine(s, p) == State(OnTokens(SetAccess(declared.stack, decl.rest.access), decl.rest.tokens), s.pp) by {
      ClassLine(s, p, decl);
    }
    SpecifierThenTokens(declared, decl.rest);
  }

  // ----- inline assembly -----

  /**
  Inline assembly in the innermost block: it starts at an assembly keyword that opens the only
  parenthesis, lasts until the count is back at 0, ends for one line, and leaves `asm {` blocks alone.
  */
  lemma AssemblyLine(s: Stack, p: Parsed)
    requires s.stack != [] && Bare(p)
    ensures var t := AfterLine(s, p).stack;
      |t| == |s.stack| &&
      var was, top := s.stack[|s.stack| - 1], t[|t| - 1]; var n := was.openParentheses + p.depthChange;
      && (was.inlineAsm == NoAsm || was.inlineAsm == EndAsm ==>
            top.inlineAsm == if p.asmStart && p.depthChange != 0 && n == 1 then InsideAsm else NoAsm)
      && (was.inlineAsm == InsideAsm ==> top.inlineAsm == if n == 0 then EndAsm else InsideAsm)
      && (was.inlineAsm == BlockAsm ==> top.inlineAsm == BlockAsm)
  {
    PlainLine(s, p);
  }

  /** The parenthesis that started the assembly is not yet closed after any of the lines. */
  predicate StaysOpen(ps: seq<Parsed>) { ps == [] || (StaysOpen(AllButLast(ps)) && 1 + DepthChanges(ps) != 0) }

  predicate InnermostAsm(stack: seq<Block>, asm: Asm, count: int) {
    stack != [] && stack[|stack| - 1].inlineAsm == asm && stack[|stack| - 1].openParentheses == count
  }

  lemma AssemblyOneLine(s: Stack, p: Parsed, count: int)
    requires InnermostAsm(s.stack, InsideAsm, count) && Bare(p)
    ensures InnermostAsm(AfterLine(s, p).stack, if count + p.depthChange == 0 then EndAsm else InsideAsm, count + p.depthChange)
  {
    CountedOneLine(s, p);
    AssemblyLine(s, p);
  }

  lemma AfterAssembly(s: Stack, p: Parsed)
    requires InnermostAsm(s.stack, EndAsm, 0) && Bare(p) && !p.asmStart
    ensures InnermostAsm(AfterLine(s, p).stack, NoAsm, p.depthChange)
  {
    CountedOneLine(s, p);
    AssemblyLine(s, p);
  }

  /** `asm (` and any lines that leave the parenthesis open. */
  lemma {:induction false} AssemblyStretch(s: Stack, begin: Parsed, ps: seq<Parsed>)
    requires InnermostAsm(s.stack, NoAsm, 0) && Bare(begin) && begin.asmStart && begin.depthChange == 1
    requires (forall i :: 0 <= i < |ps| ==> Bare(ps[i])) && StaysOpen(ps)
    ensures InnermostAsm(AfterLines(AfterLine(s, begin), ps).stack, InsideAsm, 1 + DepthChanges(ps))
  {
    CountedOneLine(s, begin);
    AssemblyLine(s, begin);
    if ps != [] {
      AssemblyStretch(s, begin, AllButLast(ps));
      AssemblyOneLine(AfterLines(AfterLine(s, begin), AllButLast(ps)), Last(ps), 1 + DepthChanges(AllButLast(ps)));
    }
  }

  /** The line that closes the parenthesis ends the assembly, and the line after that is ordinary code. */
  lemma AssemblyEnds(s: Stack, begin: Parsed, ps: seq<Parsed>, end: Parsed, next: Parsed)
    requires InnermostAsm(s.stack, NoAsm, 0) && Bare(begin) && begin.asmStart && begin.depthChange == 1
    requires (forall i :: 0 <= i < |ps| ==> Bare(ps[i])) && StaysOpen(ps)
    requires Bare(end) && 1 + DepthChanges(ps) + end.depthChange == 0 && Bare(next) && !next.asmStart
    ensures var ended := AfterLine(AfterLines(AfterLine(s, begin), ps), end);
      InnermostAsm(ended.stack, EndAsm, 0) && InnermostAsm(AfterLine(ended, next).stack, NoAsm, next.depthChange)
  {
    AssemblyStretch(s, begin, ps);
    var inside := AfterLines(AfterLine(s, begin), ps);
    AssemblyOneLine(inside, end, 1 + DepthChanges(ps));
    AfterAssembly(AfterLine(inside, end), next);
  }
}
