/**
How cpplint's nesting stack treats #if / #else / #elif / #endif, for any effect of a line.

The program saves and restores whole stacks.  The reference deletes, from the sequence of
lines, everything between a block's first #else or #elif and its #endif, and folds the
effect of a line over what is left.
*/
module Preprocessor {

  /** `Else` stands for #else and #elif. */
  datatype Directive = NoDirective | If | Else | EndIf

  datatype Checkpoint<B> = Checkpoint(beforeIf: seq<B>, beforeElse: seq<B>, seenElse: bool)

  datatype State<B> = State(stack: seq<B>, pp: seq<Checkpoint<B>>)

  /** A line: its directive and its effect on the nesting stack. */
  datatype Line<!B> = Line(directive: Directive, effect: seq<B> -> seq<B>)

  function AllButLast<T>(s: seq<T>): seq<T>
    requires s != []
  {
    s[..|s| - 1]
  }

  function Last<T>(s: seq<T>): T
    requires s != []
  {
    s[|s| - 1]
  }

  /** `UpdatePreprocessor` on values. */
  function Preprocess<B>(s: State<B>, d: Directive): State<B> {
    match d
    case NoDirective => s
    case If => s.(pp := s.pp + [Checkpoint(s.stack, [], false)])
    case Else =>
      if s.pp == [] then s
      else
        var top := Last(s.pp);
        var marked := if top.seenElse then top else top.(seenElse := true, beforeElse := s.stack);
        State(top.beforeIf, AllButLast(s.pp) + [marked])
    case EndIf =>
      if s.pp == [] then s
      else State(if Last(s.pp).seenElse then Last(s.pp).beforeElse else s.stack, AllButLast(s.pp))
  }

  function Update<B>(s: State<B>, line: Line<B>): State<B> {
    var p := Preprocess(s, line.directive);
    p.(stack := line.effect(p.stack))
  }

  function Run<B>(s: State<B>, lines: seq<Line<B>>): State<B> {
    if lines == [] then s else Update(Run(s, AllButLast(lines)), Last(lines))
  }

  // ----- the reference -----

  /** For every open #if block, outermost first: whether its #else or #elif was passed. */
  function Passed<B>(lines: seq<Line<B>>): seq<bool> {
    if lines == [] then [] else NextOpen(Passed(AllButLast(lines)), Last(lines).directive)
  }

  function NextOpen(open: seq<bool>, d: Directive): seq<bool> {
    match d
    case NoDirective => open
    case If => open + [false]
    case Else => if open == [] then [] else AllButLast(open) + [true]
    case EndIf => if open == [] then [] else AllButLast(open)
  }

  /** No open block is past its #else. */
  predicate Live(open: seq<bool>) { forall i :: 0 <= i < |open| ==> !open[i] }

  /** The lines that are not between a first #else or #elif and its #endif. */
  function Kept<B>(lines: seq<Line<B>>): seq<Line<B>> {
    if lines == [] then []
    else if Live(Passed(lines)) then Kept(AllButLast(lines)) + [Last(lines)]
    else Kept(AllButLast(lines))
  }

  function Fold<B>(stack: seq<B>, lines: seq<Line<B>>): seq<B> {
    if lines == [] then stack else Last(lines).effect(Fold(stack, AllButLast(lines)))
  }

  /** No #else or #endif without an open #if. */
  predicate NoStray<B>(lines: seq<Line<B>>) {
    lines == [] || (NoStray(AllButLast(lines)) &&
      (Last(lines).directive.Else? || Last(lines).directive.EndIf? ==> Passed(AllButLast(lines)) != []))
  }

  predicate WellNested<B>(lines: seq<Line<B>>) { NoStray(lines) && Passed(lines) == [] }

  // ----- the invariant of a run -----

  predicate FirstPassed(open: seq<bool>, k: nat) { k < |open| && open[k] && Live(open[..k]) }

  /** `base` are the checkpoints from before the run; the others mirror the open blocks. */
  ghost predicate Mirrors<B>(s: State<B>, base: seq<Checkpoint<B>>, open: seq<bool>, folded: seq<B>) {
    && |s.pp| == |base| + |open| && base <= s.pp
    && (forall i :: 0 <= i < |open| ==> s.pp[|base| + i].seenElse == open[i])
    && (Live(open) ==> s.stack == folded)
    && (forall k: nat :: FirstPassed(open, k) ==> s.pp[|base| + k].beforeElse == folded)
  }

  lemma LiveButLast(open: seq<bool>)
    requires open != []
    ensures Live(open) <==> Live(AllButLast(open)) && !Last(open)
    ensures FirstPassed(open, |open| - 1) <==> Live(AllButLast(open)) && Last(open)
    ensures forall k :: 0 <= k < |open| - 1 ==> (FirstPassed(open, k) <==> FirstPassed(AllButLast(open), k))
  {
    forall k: nat | k < |open| - 1
      ensures FirstPassed(open, k) <==> FirstPassed(AllButLast(open), k)
    {
      assert open[..k] == AllButLast(open)[..k];
    }
  }

  lemma IfMirrors<B>(s: State<B>, base: seq<Checkpoint<B>>, open: seq<bool>, folded: seq<B>)
    requires Mirrors(s, base, open, folded)
    ensures Mirrors(Preprocess(s, If), base, open + [false], folded)
  {
    LiveButLast(open + [false]);
    assert AllButLast(open + [false]) == open;
  }

  lemma ElseMirrors<B>(s: State<B>, base: seq<Checkpoint<B>>, open: seq<bool>, folded: seq<B>)
    requires Mirrors(s, base, open, folded) && open != []
    ensures Mirrors(Preprocess(s, Else), base, AllButLast(open) + [true], folded)
  {
    var open' := AllButLast(open) + [true];
    assert s.pp[|base| + (|open| - 1)] == Last(s.pp);
    LiveButLast(open);
    LiveButLast(open');
    assert AllButLast(open') == AllButLast(open);
  }

  lemma EndIfMirrors<B>(s: State<B>, base: seq<Checkpoint<B>>, open: seq<bool>, folded: seq<B>)
    requires Mirrors(s, base, open, folded) && open != []
    ensures Mirrors(Preprocess(s, EndIf), base, AllButLast(open), folded)
  {
    assert s.pp[|base| + (|open| - 1)] == Last(s.pp);
    LiveButLast(open);
  }

  /** What a directive makes of the mirrored state, before the effect of its line. */
  lemma PreprocessMirrors<B>(s: State<B>, base: seq<Checkpoint<B>>, open: seq<bool>, folded: seq<B>, d: Directive)
    requires Mirrors(s, base, open, folded)
    requires base == [] || open != [] || d.NoDirective? || d.If?
    ensures Mirrors(Preprocess(s, d), base, NextOpen(open, d), folded)
  {
    match d
    case NoDirective =>
    case If => IfMirrors(s, base, open, folded);
    case Else => if open != [] { ElseMirrors(s, base, open, folded); }
    case EndIf => if open != [] { EndIfMirrors(s, base, open, folded); }
  }

  /** The effect of a line reaches the fold exactly when no open block is past its #else. */
  lemma EffectMirrors<B>(s: State<B>, base: seq<Checkpoint<B>>, open: seq<bool>, folded: seq<B>, effect: seq<B> -> seq<B>)
    requires Mirrors(s, base, open, folded)
    ensures Mirrors(s.(stack := effect(s.stack)), base, open, if Live(open) then effect(folded) else folded)
  {
  }

  lemma {:induction false} RunMirrors<B>(s: State<B>, lines: seq<Line<B>>)
    requires s.pp == [] || NoStray(lines)
    ensures Mirrors(Run(s, lines), s.pp, Passed(lines), Fold(s.stack, Kept(lines)))
  {
    if lines != [] {
      var prefix, line := AllButLast(lines), Last(lines);
      RunMirrors(s, prefix);
      var before, folded := Run(s, prefix), Fold(s.stack, Kept(prefix));
      PreprocessMirrors(before, s.pp, Passed(prefix), folded, line.directive);
      EffectMirrors(Preprocess(before, line.directive), s.pp, Passed(lines), folded, line.effect);
      if Live(Passed(lines)) {
        assert AllButLast(Kept(lines)) == Kept(prefix);
      }
    }
  }

  /**
  Outside of #else parts the stack is the fold over the kept lines, whatever came before, even
  if there are unclosed #if blocks or stray directives.
  */
  lemma LiveProjection<B>(stack: seq<B>, lines: seq<Line<B>>)
    requires Live(Passed(lines))
    ensures Run(State(stack, []), lines).stack == Fold(stack, Kept(lines))
  {
    RunMirrors(State(stack, []), lines);
  }

  /** Inside an #else part the fold is what the outermost such block has saved for its #endif. */
  lemma SavedProjection<B>(stack: seq<B>, lines: seq<Line<B>>, k: nat)
    requires FirstPassed(Passed(lines), k)
    ensures var pp := Run(State(stack, []), lines).pp;
            |pp| == |Passed(lines)| && pp[k].seenElse && pp[k].beforeElse == Fold(stack, Kept(lines))
  {
    RunMirrors(State(stack, []), lines);
  }

  /** A well-nested stretch, started anywhere, restores the checkpoints and folds the kept lines. */
  lemma WellNestedProjection<B>(s: State<B>, lines: seq<Line<B>>)
    requires WellNested(lines)
    ensures Run(s, lines) == State(Fold(s.stack, Kept(lines)), s.pp)
  {
    RunMirrors(s, lines);
  }

  // ----- inside a block -----

  /** The lines of the #else and #elif parts of a block. */
  function Parts<B>(others: seq<(Line<B>, seq<Line<B>>)>): seq<Line<B>> {
    if others == [] then [] else Parts(AllButLast(others)) + [Last(others).0] + Last(others).1
  }

  predicate AreParts<B>(others: seq<(Line<B>, seq<Line<B>>)>) {
    forall i :: 0 <= i < |others| ==> others[i].0.directive.Else? && WellNested(others[i].1)
  }

  lemma {:induction false} RunAppend<B>(s: State<B>, first: seq<Line<B>>, second: seq<Line<B>>)
    ensures Run(s, first + second) == Run(Run(s, first), second)
  {
    if second == [] {
      assert first + second == first;
    } else {
      assert AllButLast(first + second) == first + AllButLast(second);
      RunAppend(s, first, AllButLast(second));
    }
  }

  lemma RunOne<B>(s: State<B>, line: Line<B>)
    ensures Run(s, [line]) == Update(s, line)
  {
    assert AllButLast([line]) == [];
  }

  /** The first #else or #elif saves the stack; every one starts again from the stack before the #if. */
  lemma ElsePart<B>(s: State<B>, line: Line<B>, part: seq<Line<B>>)
    requires s.pp != [] && line.directive.Else? && WellNested(part)
    ensures var top := Last(s.pp);
      var marked := Checkpoint(top.beforeIf, if top.seenElse then top.beforeElse else s.stack, true);
      Run(s, [line] + part) == State(Fold(line.effect(top.beforeIf), Kept(part)), AllButLast(s.pp) + [marked])
  {
    RunAppend(s, [line], part);
    RunOne(s, line);
    WellNestedProjection(Update(s, line), part);
  }

  lemma IfPart<B>(s: State<B>, ifLine: Line<B>, first: seq<Line<B>>)
    requires ifLine.directive.If? && WellNested(first)
    ensures Run(s, [ifLine] + first)
         == State(Fold(ifLine.effect(s.stack), Kept(first)), s.pp + [Checkpoint(s.stack, [], false)])
  {
    RunAppend(s, [ifLine], first);
    RunOne(s, ifLine);
    WellNestedProjection(Update(s, ifLine), first);
  }

  lemma LastPart<B>(front: seq<Line<B>>, others: seq<(Line<B>, seq<Line<B>>)>)
    requires others != []
    ensures front + Parts(others) == (front + Parts(AllButLast(others))) + ([Last(others).0] + Last(others).1)
  {
  }

  /**
  Inside a block: before the first #else the stack is that of the #if part; in each later part it
  is the stack from before the #if with the effect of that part alone.
  */
  lemma {:induction false} InsideBlock<B>(s: State<B>, ifLine: Line<B>, first: seq<Line<B>>, others: seq<(Line<B>, seq<Line<B>>)>)
    requires ifLine.directive.If? && WellNested(first) && AreParts(others)
    ensures var ifPart := Fold(ifLine.effect(s.stack), Kept(first));
      Run(s, [ifLine] + first + Parts(others)) ==
        if others == [] then State(ifPart, s.pp + [Checkpoint(s.stack, [], false)])
        else State(Fold(Last(others).0.effect(s.stack), Kept(Last(others).1)), s.pp + [Checkpoint(s.stack, ifPart, true)])
  {
    if others == [] {
      assert [ifLine] + first + Parts(others) == [ifLine] + first;
      IfPart(s, ifLine, first);
    } else {
      var before, last := [ifLine] + first + Parts(AllButLast(others)), Last(others);
      InsideBlock(s, ifLine, first, AllButLast(others));
      LastPart([ifLine] + first, others);
      RunAppend(s, before, [last.0] + last.1);
      ElsePart(Run(s, before), last.0, last.1);
    }
  }
}
