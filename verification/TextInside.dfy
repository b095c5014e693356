/**
cpplint's `_GetTextInside`: the text between an opening punctuation and its match.

The stack of expected closers is proved equivalent to a grammar: a balanced text is empty, or
an ordinary character followed by a balanced text, or a bracketed balanced text followed by a
balanced text.
*/
module TextInside {
  import opened Common

  predicate IsOpening(c: char) { c == '(' || c == '{' || c == '[' }

  predicate IsClosing(c: char) { c == ')' || c == '}' || c == ']' }

  function Match(c: char): char
    requires IsOpening(c)
  {
    if c == '(' then ')' else if c == '{' then '}' else ']'
  }

  ghost predicate Balanced(s: string)
    decreases |s|, 1
  {
    || s == ""
    || (!IsOpening(s[0]) && !IsClosing(s[0]) && Balanced(s[1..]))
    || (IsOpening(s[0]) && exists k :: 0 < k < |s| && SplitsAt(s, k))
  }

  /** `s` is `open A close B` with the closer at `k` and both `A` and `B` balanced. */
  ghost predicate SplitsAt(s: string, k: nat)
    requires 0 < k < |s| && IsOpening(s[0])
    decreases |s|, 0
  {
    s[k] == Match(s[0]) && Balanced(s[1..k]) && Balanced(s[k + 1..])
  }

  /** `text[a..e]` is balanced and followed by the closer of the opening punctuation at `a - 1`. */
  ghost predicate Inside(text: string, a: nat, e: nat) {
    0 < a <= e < |text| && IsOpening(text[a - 1]) && text[e] == Match(text[a - 1]) && Balanced(text[a..e])
  }

  /** The grammar in full. */
  lemma BalancedMeans(s: string)
    ensures Balanced(s) <==>
      || s == ""
      || (s[0] !in "()[]{}" && Balanced(s[1..]))
      || exists k :: 0 < k < |s| && Balanced(s[1..k]) && Balanced(s[k + 1..])
                     && ((s[0] == '(' && s[k] == ')') || (s[0] == '[' && s[k] == ']') || (s[0] == '{' && s[k] == '}'))
  {
    if s != "" && IsOpening(s[0]) && exists k :: 0 < k < |s| && SplitsAt(s, k) {
      var k :| 0 < k < |s| && SplitsAt(s, k);
      assert Balanced(s[1..k]) && Balanced(s[k + 1..]);
    }
    if k :| 0 < k < |s| && Balanced(s[1..k]) && Balanced(s[k + 1..])
            && ((s[0] == '(' && s[k] == ')') || (s[0] == '[' && s[k] == ']') || (s[0] == '{' && s[k] == '}')) {
      assert SplitsAt(s, k);
    }
  }

  lemma InsideMeans(text: string, a: nat, e: nat)
    ensures Inside(text, a, e) <==>
      && 0 < a <= e < |text| && Balanced(text[a..e])
      && ((text[a - 1] == '(' && text[e] == ')') || (text[a - 1] == '[' && text[e] == ']')
          || (text[a - 1] == '{' && text[e] == '}'))
  {
  }

  // ----- the stack machine -----

  predicate AllClosers(stack: seq<char>) { forall i :: 0 <= i < |stack| ==> IsClosing(stack[i]) }

  /** Where the machine started at `p` with `stack` has emptied it, or -1. */
  function Finish(text: string, p: nat, stack: seq<char>): int
    requires p <= |text|
    decreases |text| - p
  {
    if stack == [] then p
    else if p == |text| then -1
    else if text[p] == stack[|stack| - 1] then Finish(text, p + 1, stack[..|stack| - 1])
    else if IsClosing(text[p]) then -1
    else if IsOpening(text[p]) then Finish(text, p + 1, stack + [Match(text[p])])
    else Finish(text, p + 1, stack)
  }

  lemma SliceOfSlice(s: string, p: nat, e: nat, i: nat, j: nat)
    requires p <= e <= |s| && i <= j <= e - p
    ensures s[p..e][i..j] == s[p + i..p + j]
  {
    var left, right := s[p..e][i..j], s[p + i..p + j];
    assert |left| == |right|;
    assert forall k :: 0 <= k < |right| ==> left[k] == right[k];
  }

  /** The machine runs over a balanced text and comes back to the same stack. */
  lemma {:induction false} BalancedIsTransparent(text: string, p: nat, e: nat, stack: seq<char>)
    requires p <= e <= |text| && Balanced(text[p..e]) && stack != [] && AllClosers(stack)
    ensures Finish(text, p, stack) == Finish(text, e, stack)
    decreases e - p
  {
    if p < e {
      var s := text[p..e];
      if !IsOpening(s[0]) {
        assert s[1..] == text[p + 1..e];
        BalancedIsTransparent(text, p + 1, e, stack);
      } else {
        var k :| 0 < k < |s| && SplitsAt(s, k);
        SliceOfSlice(text, p, e, 1, k);
        SliceOfSlice(text, p, e, k + 1, |s|);
        var pushed := stack + [Match(text[p])];
        BalancedIsTransparent(text, p + 1, p + k, pushed);
        assert pushed[..|pushed| - 1] == stack;
        BalancedIsTransparent(text, p + k + 1, e, stack);
      }
    }
  }

  /** If the machine empties its stack, its top is popped right after a balanced text. */
  lemma {:induction false} PopsAfterBalanced(text: string, p: nat, stack: seq<char>) returns (e: nat)
    requires p <= |text| && stack != [] && AllClosers(stack) && Finish(text, p, stack) != -1
    ensures p <= e < |text| && Balanced(text[p..e]) && text[e] == stack[|stack| - 1]
    ensures Finish(text, p, stack) == Finish(text, e + 1, stack[..|stack| - 1])
    decreases |text| - p
  {
    if text[p] == stack[|stack| - 1] {
      e := p;
    } else if IsOpening(text[p]) {
      var pushed := stack + [Match(text[p])];
      var m := PopsAfterBalanced(text, p + 1, pushed);
      assert pushed[..|pushed| - 1] == stack;
      e := PopsAfterBalanced(text, m + 1, stack);
      var s := text[p..e];
      SliceOfSlice(text, p, e, 1, m - p);
      SliceOfSlice(text, p, e, m - p + 1, |s|);
      assert SplitsAt(s, m - p);
    } else {
      e := PopsAfterBalanced(text, p + 1, stack);
      assert text[p..e][1..] == text[p + 1..e];
    }
  }

  /** The machine finishes just past `e` exactly when `e` closes a balanced text. */
  lemma FinishIffInside(text: string, a: nat, e: nat)
    requires 0 < a <= |text| && IsOpening(text[a - 1])
    ensures Finish(text, a, [Match(text[a - 1])]) == e + 1 <==> Inside(text, a, e)
  {
    var stack := [Match(text[a - 1])];
    if Inside(text, a, e) {
      BalancedIsTransparent(text, a, e, stack);
      assert stack[..|stack| - 1] == [];
    }
    if Finish(text, a, stack) == e + 1 {
      var m := PopsAfterBalanced(text, a, stack);
      assert stack[..|stack| - 1] == [];
    }
  }

  /** At most one balanced text follows an opening punctuation and precedes its closer. */
  lemma InsideIsUnique(text: string, a: nat, e: nat, e': nat)
    requires Inside(text, a, e) && Inside(text, a, e')
    ensures e == e'
  {
    FinishIffInside(text, a, e);
    FinishIffInside(text, a, e');
  }

  /**
  `start` is where the match of the start pattern ends, just past an opening punctuation;
  `None` when the pattern does not occur.
  */
  method GetTextInside(text: string, start: Option<nat>) returns (inside: Option<string>)
    requires start.Some? ==> 0 < start.value <= |text| && IsOpening(text[start.value - 1])
    ensures inside.Some? ==> start.Some? && |inside.value| < |text| - start.value
    ensures inside.Some? ==> var open, close := text[start.value - 1], text[start.value + |inside.value|];
              (open == '(' && close == ')') || (open == '[' && close == ']') || (open == '{' && close == '}')
    ensures inside.Some? ==> Inside(text, start.value, start.value + |inside.value|)
    ensures inside.Some? ==> inside.value == text[start.value..start.value + |inside.value|]
    ensures inside.None? && start.Some? ==> forall e :: !Inside(text, start.value, e)
  {
    if start.None? {
      return None;
    }
    var stack := [Match(text[start.value - 1])];
    var position := start.value;
    ghost var result := Finish(text, position, stack);
    while stack != [] && position < |text|
      invariant start.value <= position <= |text| && AllClosers(stack)
      invariant stack == [] ==> position > start.value
      invariant Finish(text, position, stack) == result
      decreases |text| - position
    {
      if text[position] == stack[|stack| - 1] {
        stack := stack[..|stack| - 1];
      } else if IsClosing(text[position]) {
        NoneInside(text, start.value);
        return None;
      } else if IsOpening(text[position]) {
        stack := stack + [Match(text[position])];
      }
      position := position + 1;
    }
    if stack != [] {
      NoneInside(text, start.value);
      return None;
    }
    FinishIffInside(text, start.value, position - 1);
    inside := Some(text[start.value..position - 1]);
  }

  lemma NoneInside(text: string, a: nat)
    requires 0 < a <= |text| && IsOpening(text[a - 1]) && Finish(text, a, [Match(text[a - 1])]) == -1
    ensures forall e :: !Inside(text, a, e)
  {
    forall e
      ensures !Inside(text, a, e)
    {
      FinishIffInside(text, a, e);
    }
  }
}
