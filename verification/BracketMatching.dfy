/**
cpplint's multi-line bracket matching, forward and backward.

Both scans go line by line and carry a nesting depth.  The reference is the flat text of
all lines: an opener at `i` is closed at `e` when `e` is the first position after `i` up to
which openers and closers balance.
*/
module BracketMatching {

  // ----- the flat text -----

  function Flat(lines: seq<string>): string {
    if lines == [] then "" else Flat(lines[..|lines| - 1]) + lines[|lines| - 1]
  }

  /** Where line `l` starts in the flat text. */
  function Offset(lines: seq<string>, l: nat): nat
    requires l <= |lines|
  {
    |Flat(lines[..l])|
  }

  function Delta(c: char, open: char, close: char): int {
    if c == open then 1 else if c == close then -1 else 0
  }

  /** Openers minus closers in `s[i..j]`. */
  function Depth(s: string, i: nat, j: nat, open: char, close: char): int
    requires i <= j <= |s|
    decreases j
  {
    if i == j then 0 else Depth(s, i, j - 1, open, close) + Delta(s[j - 1], open, close)
  }

  /** Depth is how many more openers than closers there are. */
  lemma {:induction false} DepthCounts(s: string, i: nat, j: nat, open: char, close: char)
    requires i <= j <= |s| && open != close
    ensures Depth(s, i, j, open, close) + multiset(s[i..j])[close] == multiset(s[i..j])[open]
    decreases j
  {
    if i < j {
      DepthCounts(s, i, j - 1, open, close);
      assert s[i..j] == s[i..j - 1] + [s[j - 1]];
    }
  }

  /** The bracket pair that opens at `i` ends just before `e`. */
  ghost predicate Closes(s: string, i: nat, e: nat, open: char, close: char) {
    && i < e <= |s|
    && Depth(s, i, e, open, close) == 0
    && forall k :: i < k < e ==> Depth(s, i, k, open, close) != 0
  }

  lemma {:induction false} DepthSplit(s: string, i: nat, j: nat, k: nat, open: char, close: char)
    requires i <= j <= k <= |s|
    ensures Depth(s, i, k, open, close) == Depth(s, i, j, open, close) + Depth(s, j, k, open, close)
    decreases k
  {
    if j < k {
      DepthSplit(s, i, j, k - 1, open, close);
    }
  }

  lemma {:induction false} FlatOfPrefix(lines: seq<string>, l: nat)
    requires l < |lines|
    ensures Offset(lines, l + 1) == Offset(lines, l) + |lines[l]| <= |Flat(lines)|
    ensures Flat(lines)[Offset(lines, l)..Offset(lines, l + 1)] == lines[l]
  {
    assert lines[..l + 1][..l] == lines[..l];
    if l + 1 == |lines| {
      assert lines[..l + 1] == lines;
    } else {
      var init := lines[..|lines| - 1];
      FlatOfPrefix(init, l);
      assert init[..l] == lines[..l] && init[..l + 1] == lines[..l + 1];
    }
  }

  lemma {:induction false} OffsetsGrow(lines: seq<string>, l: nat, m: nat)
    requires l <= m <= |lines|
    ensures Offset(lines, l) <= Offset(lines, m) <= |Flat(lines)|
    decreases m - l
  {
    if l < m {
      FlatOfPrefix(lines, l);
      OffsetsGrow(lines, l + 1, m);
    } else if l < |lines| {
      FlatOfPrefix(lines, l);
    } else {
      assert lines[..l] == lines;
    }
  }

  /** The depth of a stretch of line `l` is the depth of the same stretch of the flat text. */
  lemma {:induction false} DepthInLine(lines: seq<string>, l: nat, i: nat, j: nat, open: char, close: char)
    requires l < |lines| && i <= j <= |lines[l]|
    ensures Offset(lines, l) + j <= |Flat(lines)|
    ensures Depth(Flat(lines), Offset(lines, l) + i, Offset(lines, l) + j, open, close) == Depth(lines[l], i, j, open, close)
    decreases j
  {
    FlatOfPrefix(lines, l);
    if i < j {
      DepthInLine(lines, l, i, j - 1, open, close);
      assert Flat(lines)[Offset(lines, l)..Offset(lines, l + 1)][j - 1] == Flat(lines)[Offset(lines, l) + j - 1];
    }
  }

  // ----- scanning one line -----

  method FindEndOfExpressionInLine(line: string, startpos: nat, depth: int, open: char, close: char)
    returns (pos: int, newDepth: int)
    requires startpos <= |line|
    ensures pos == -1 || startpos < pos <= |line|
    ensures pos == -1 ==> newDepth == depth + Depth(line, startpos, |line|, open, close)
    ensures pos != -1 ==> newDepth == 0 && depth + Depth(line, startpos, pos, open, close) == 0
                          && line[pos - 1] == close && close != open
    ensures forall i :: startpos <= i < (if pos == -1 then |line| else pos - 1) && line[i] == close && close != open ==>
      depth + Depth(line, startpos, i + 1, open, close) != 0
  {
    newDepth := depth;
    for i := startpos to |line|
      invariant newDepth == depth + Depth(line, startpos, i, open, close)
      invariant forall j :: startpos <= j < i && line[j] == close && close != open ==>
        depth + Depth(line, startpos, j + 1, open, close) != 0
    {
      if line[i] == open {
        newDepth := newDepth + 1;
      } else if line[i] == close {
        newDepth := newDepth - 1;
        if newDepth == 0 {
          return i + 1, 0;
        }
      }
    }
    pos := -1;
  }

  method FindStartOfExpressionInLine(line: string, endpos: int, depth: int, open: char, close: char)
    returns (pos: int, newDepth: int)
    requires -1 <= endpos < |line|
    ensures -1 <= pos <= endpos
    ensures open == close ==> pos == -1 && newDepth == depth + Depth(line, 0, endpos + 1, open, close)
    ensures open != close && pos == -1 ==> newDepth == depth - Depth(line, 0, endpos + 1, open, close)
    ensures pos != -1 ==> newDepth == 0 && depth - Depth(line, pos, endpos + 1, open, close) == 0 && line[pos] == open
    ensures forall i :: (if pos == -1 then 0 else pos + 1) <= i <= endpos && line[i] == open && open != close ==>
      depth - Depth(line, i, endpos + 1, open, close) != 0
  {
    newDepth := depth;
    for i := endpos + 1 downto 0
      invariant newDepth == if open == close then depth + Depth(line, i, endpos + 1, open, close)
                            else depth - Depth(line, i, endpos + 1, open, close)
      invariant forall j :: i <= j <= endpos && line[j] == open && open != close ==>
        depth - Depth(line, j, endpos + 1, open, close) != 0
    {
      DepthSplit(line, i, i + 1, endpos + 1, open, close);
      assert Depth(line, i, i + 1, open, close) == Delta(line[i], open, close);
      if line[i] == close {
        newDepth := newDepth + 1;
      } else if line[i] == open {
        newDepth := newDepth - 1;
        if newDepth == 0 {
          return i, 0;
        }
      }
    }
    pos := -1;
  }

  // ----- the scans over all lines -----

  predicate IsOpener(c: char) { c == '(' || c == '[' || c == '{' || c == '<' }

  predicate IsCloser(c: char) { c == ')' || c == ']' || c == '}' || c == '>' }

  function Partner(c: char): char {
    match c
    case '(' => ')'
    case '[' => ']'
    case '{' => '}'
    case '<' => '>'
    case ')' => '('
    case ']' => '['
    case '}' => '{'
    case '>' => '<'
    case _ => c
  }

  /** Starting from a positive depth, the depth stays positive until a closer brings it to zero. */
  lemma {:induction false} StaysPositive(s: string, i: nat, lo: nat, hi: nat, open: char, close: char)
    requires i <= lo <= hi <= |s| && open != close
    requires Depth(s, i, lo, open, close) > 0
    requires forall k :: lo <= k < hi && s[k] == close ==> Depth(s, i, k + 1, open, close) != 0
    ensures forall k :: lo <= k <= hi ==> Depth(s, i, k, open, close) > 0
    decreases hi
  {
    if lo < hi {
      StaysPositive(s, i, lo, hi - 1, open, close);
    }
  }

  /** The same, read from right to left: the depth of `s[k..e]` stays negative. */
  lemma {:induction false} StaysNegative(s: string, e: nat, lo: nat, hi: nat, open: char, close: char)
    requires lo <= hi <= e <= |s| && open != close
    requires Depth(s, hi, e, open, close) < 0
    requires forall k :: lo <= k < hi && s[k] == open ==> Depth(s, k, e, open, close) != 0
    ensures forall k :: lo <= k <= hi ==> Depth(s, k, e, open, close) < 0
    decreases hi - lo
  {
    if lo < hi {
      StaysNegative(s, e, lo + 1, hi, open, close);
      DepthSplit(s, lo, lo + 1, e, open, close);
      assert Depth(s, lo, lo + 1, open, close) == Delta(s[lo], open, close);
    }
  }

  /** A line scanned forward at carried depth `depth` continues the flat scan from `i`. */
  lemma ForwardLine(lines: seq<string>, l: nat, i: nat, a: nat, j: nat, open: char, close: char)
    requires l < |lines| && a <= j <= |lines[l]| && i <= Offset(lines, l) + a
    ensures Offset(lines, l) + j <= |Flat(lines)|
    ensures Depth(Flat(lines), i, Offset(lines, l) + j, open, close)
         == Depth(Flat(lines), i, Offset(lines, l) + a, open, close) + Depth(lines[l], a, j, open, close)
    ensures j > a ==> Flat(lines)[Offset(lines, l) + j - 1] == lines[l][j - 1]
  {
    DepthInLine(lines, l, a, j, open, close);
    DepthSplit(Flat(lines), i, Offset(lines, l) + a, Offset(lines, l) + j, open, close);
    if j > a {
      CharInLine(lines, l, j - 1);
    }
  }

  lemma CharInLine(lines: seq<string>, l: nat, j: nat)
    requires l < |lines| && j < |lines[l]|
    ensures Offset(lines, l) + j < |Flat(lines)| && Flat(lines)[Offset(lines, l) + j] == lines[l][j]
  {
    FlatOfPrefix(lines, l);
    assert Flat(lines)[Offset(lines, l)..Offset(lines, l + 1)][j] == Flat(lines)[Offset(lines, l) + j];
  }

  ghost predicate NeverClosed(s: string, i: nat, open: char, close: char) {
    forall e :: !Closes(s, i, e, open, close)
  }

  ghost predicate NeverOpened(s: string, e: nat, open: char, close: char) {
    forall i :: !Closes(s, i, e, open, close)
  }

  /** Nothing in the rest of the text closes the opener at `lines[l][p]`. */
  ghost predicate UnclosedAt(lines: seq<string>, l: nat, p: nat)
    requires l < |lines| && p < |lines[l]|
  {
    NeverClosed(Flat(lines), Offset(lines, l) + p, lines[l][p], Partner(lines[l][p]))
  }

  /** Nothing before it opens the closer at `lines[l][p]`. */
  ghost predicate UnopenedAt(lines: seq<string>, l: nat, p: nat)
    requires l < |lines| && p < |lines[l]|
  {
    NeverOpened(Flat(lines), Offset(lines, l) + p + 1, Partner(lines[l][p]), lines[l][p])
  }

  /** The `open` at `lines[l][p]` is closed by the `close` just before position `e` of line `m`. */
  ghost predicate PairOf(lines: seq<string>, l: nat, p: int, m: nat, e: int, open: char, close: char) {
    && l < |lines| && 0 <= p < |lines[l]| && lines[l][p] == open
    && m < |lines| && 0 < e <= |lines[m]| && lines[m][e - 1] == close
    && Closes(Flat(lines), Offset(lines, l) + p, Offset(lines, m) + e, open, close)
  }

  /** If `lines[l][p]` is `open`, no `close` in the rest of the text closes it. */
  ghost predicate NoCloserFor(lines: seq<string>, l: nat, p: nat, open: char, close: char)
    requires l < |lines| && p < |lines[l]|
  {
    lines[l][p] == open ==> NeverClosed(Flat(lines), Offset(lines, l) + p, open, close)
  }

  /** If `lines[l][p]` is `close`, no `open` before it opens it. */
  ghost predicate NoOpenerFor(lines: seq<string>, l: nat, p: nat, open: char, close: char)
    requires l < |lines| && p < |lines[l]|
  {
    lines[l][p] == close ==> NeverOpened(Flat(lines), Offset(lines, l) + p + 1, open, close)
  }

  /** The flat text is scanned from the opener at `i` up to `j` without finding its closer. */
  ghost predicate OpenUpTo(s: string, i: nat, j: nat, depth: int, open: char, close: char) {
    && i < j <= |s| && depth == Depth(s, i, j, open, close)
    && forall k :: i < k <= j ==> Depth(s, i, k, open, close) > 0
  }

  /** No closer in line `l` between `a` and `last` brings the carried depth to zero. */
  lemma ForwardScan(lines: seq<string>, l: nat, i: nat, a: nat, last: nat, depth: int, open: char, close: char)
    requires l < |lines| && a <= last <= |lines[l]| && Offset(lines, l) + a <= |Flat(lines)| && open != close
    requires i <= Offset(lines, l) + a && depth == Depth(Flat(lines), i, Offset(lines, l) + a, open, close)
    requires depth > 0 || (depth == 0 && i == Offset(lines, l) + a && a < |lines[l]| && lines[l][a] == open)
    requires forall k :: a <= k < last && lines[l][k] == close ==> depth + Depth(lines[l], a, k + 1, open, close) != 0
    ensures Offset(lines, l) + last <= |Flat(lines)|
    ensures forall k :: Offset(lines, l) + a <= k <= Offset(lines, l) + last && i < k ==> Depth(Flat(lines), i, k, open, close) > 0
  {
    var flat, off := Flat(lines), Offset(lines, l);
    ForwardLine(lines, l, i, a, last, open, close);
    forall k | off + a <= k < off + last && flat[k] == close
      ensures Depth(flat, i, k + 1, open, close) != 0
    {
      CharInLine(lines, l, k - off);
      ForwardLine(lines, l, i, a, k - off + 1, open, close);
    }
    if depth > 0 {
      StaysPositive(flat, i, off + a, off + last, open, close);
    } else if last > a {
      CharInLine(lines, l, a);
      StaysPositive(flat, i, off + a + 1, off + last, open, close);
    }
  }

  /** Scanning line `l` from `a` either finds the closer or carries the depth to the end of the line. */
  lemma ForwardStep(lines: seq<string>, l: nat, i: nat, a: nat, pos: int, depth: int, open: char, close: char)
    requires l < |lines| && a <= |lines[l]| && Offset(lines, l) + a <= |Flat(lines)| && open != close
    requires
      || OpenUpTo(Flat(lines), i, Offset(lines, l) + a, depth, open, close)
      || (depth == 0 && i == Offset(lines, l) + a && a < |lines[l]| && lines[l][a] == open)
    requires pos == -1 || a < pos <= |lines[l]|
    requires pos != -1 ==> depth + Depth(lines[l], a, pos, open, close) == 0
    requires forall k :: a <= k < (if pos == -1 then |lines[l]| else pos - 1) && lines[l][k] == close ==>
      depth + Depth(lines[l], a, k + 1, open, close) != 0
    ensures pos == -1 ==> OpenUpTo(Flat(lines), i, Offset(lines, l) + |lines[l]|,
                                   depth + Depth(lines[l], a, |lines[l]|, open, close), open, close)
    ensures pos != -1 ==> Closes(Flat(lines), i, Offset(lines, l) + pos, open, close)
  {
    if pos == -1 {
      ForwardScan(lines, l, i, a, |lines[l]|, depth, open, close);
      ForwardLine(lines, l, i, a, |lines[l]|, open, close);
    } else {
      ForwardScan(lines, l, i, a, pos - 1, depth, open, close);
      ForwardLine(lines, l, i, a, pos, open, close);
    }
  }

  /**
  From the opener at `lines[linenum][pos]`: the line and position just past its closer, or
  (last line, number of lines, -1) when it is never closed.
  */
  method CloseExpression(lines: seq<string>, linenum: nat, pos: nat) returns (line: string, endLine: nat, endPos: int)
    requires linenum < |lines| && pos < |lines[linenum]|
    ensures endPos != -1 ==>
      (&& IsOpener(lines[linenum][pos])
       && endLine < |lines| && line == lines[endLine] && 0 < endPos <= |line|
       && line[endPos - 1] == Partner(lines[linenum][pos])
       && Closes(Flat(lines), Offset(lines, linenum) + pos, Offset(lines, endLine) + endPos,
                 lines[linenum][pos], Partner(lines[linenum][pos])))
    ensures endPos == -1 ==> endLine == |lines|
    ensures endPos == -1 ==> line == if IsOpener(lines[linenum][pos]) then lines[|lines| - 1] else lines[linenum]
    ensures endPos == -1 && IsOpener(lines[linenum][pos]) ==> UnclosedAt(lines, linenum, pos)
    ensures endPos != -1 ==>
      || PairOf(lines, linenum, pos, endLine, endPos, '(', ')') || PairOf(lines, linenum, pos, endLine, endPos, '[', ']')
      || PairOf(lines, linenum, pos, endLine, endPos, '{', '}') || PairOf(lines, linenum, pos, endLine, endPos, '<', '>')
    ensures endPos == -1 ==>
      && NoCloserFor(lines, linenum, pos, '(', ')') && NoCloserFor(lines, linenum, pos, '[', ']')
      && NoCloserFor(lines, linenum, pos, '{', '}') && NoCloserFor(lines, linenum, pos, '<', '>')
  {
    line := lines[linenum];
    var open := line[pos];
    if !IsOpener(open) {
      return line, |lines|, -1;
    }
    var close := Partner(open);
    ghost var flat, i := Flat(lines), Offset(lines, linenum) + pos;
    var depth;
    endLine := linenum;
    CharInLine(lines, linenum, pos);
    endPos, depth := FindEndOfExpressionInLine(line, pos, 0, open, close);
    ForwardStep(lines, linenum, i, pos, endPos, 0, open, close);
    if endPos > -1 {
      return;
    }
    while endLine < |lines| - 1
      invariant linenum <= endLine < |lines| && line == lines[endLine]
      invariant OpenUpTo(flat, i, Offset(lines, endLine) + |line|, depth, open, close)
    {
      FlatOfPrefix(lines, endLine);
      endLine := endLine + 1;
      line := lines[endLine];
      ghost var carried := depth;
      endPos, depth := FindEndOfExpressionInLine(line, 0, depth, open, close);
      ForwardStep(lines, endLine, i, 0, endPos, carried, open, close);
      if endPos > -1 {
        return;
      }
    }
    FlatOfPrefix(lines, endLine);
    assert lines[..endLine + 1] == lines;
    endLine, endPos := |lines|, -1;
  }

  /** The flat text is scanned from the closer just before `e` down to `j` without finding its opener. */
  ghost predicate OpenDownTo(s: string, j: nat, e: nat, depth: int, open: char, close: char) {
    && j < e <= |s| && depth == -Depth(s, j, e, open, close)
    && forall k :: j <= k < e ==> Depth(s, k, e, open, close) < 0
  }

  lemma BackwardLine(lines: seq<string>, l: nat, i: nat, b: nat, e: nat, open: char, close: char)
    requires l < |lines| && i <= b <= |lines[l]| && Offset(lines, l) + b <= e <= |Flat(lines)|
    ensures Depth(Flat(lines), Offset(lines, l) + i, e, open, close)
         == Depth(lines[l], i, b, open, close) + Depth(Flat(lines), Offset(lines, l) + b, e, open, close)
  {
    DepthInLine(lines, l, i, b, open, close);
    DepthSplit(Flat(lines), Offset(lines, l) + i, Offset(lines, l) + b, e, open, close);
  }

  /** Scanning line `l` backward from just before `b` finds the opener or carries the depth to its start. */
  lemma BackwardStep(lines: seq<string>, l: nat, e: nat, b: nat, pos: int, depth: int, open: char, close: char)
    requires l < |lines| && b <= |lines[l]| && Offset(lines, l) + b <= e <= |Flat(lines)| && open != close
    requires
      || OpenDownTo(Flat(lines), Offset(lines, l) + b, e, depth, open, close)
      || (depth == 0 && e == Offset(lines, l) + b && b > 0 && lines[l][b - 1] == close)
    requires -1 <= pos < b
    requires pos != -1 ==> depth - Depth(lines[l], pos, b, open, close) == 0 && lines[l][pos] == open
    requires forall k :: (if pos == -1 then 0 else pos + 1) <= k < b && lines[l][k] == open ==>
      depth - Depth(lines[l], k, b, open, close) != 0
    ensures pos == -1 ==> OpenDownTo(Flat(lines), Offset(lines, l), e, depth - Depth(lines[l], 0, b, open, close), open, close)
    ensures pos != -1 ==> Closes(Flat(lines), Offset(lines, l) + pos, e, open, close)
  {
    var flat, off := Flat(lines), Offset(lines, l);
    var first := if pos == -1 then 0 else pos + 1;
    BackwardLine(lines, l, first, b, e, open, close);
    forall k | first <= k < b && lines[l][k] == open
      ensures Depth(flat, off + k, e, open, close) != 0
    {
      BackwardLine(lines, l, k, b, e, open, close);
    }
    forall k | off + first <= k < off + b && flat[k] == open
      ensures Depth(flat, k, e, open, close) != 0
    {
      CharInLine(lines, l, k - off);
    }
    if depth > 0 {
      StaysNegative(flat, e, off + first, off + b, open, close);
    } else {
      CharInLine(lines, l, b - 1);
      assert Depth(flat, e - 1, e, open, close) == -1;
      StaysNegative(flat, e, off + first, off + b - 1, open, close);
    }
    if pos != -1 {
      BackwardLine(lines, l, pos, b, e, open, close);
      var i := off + pos;
      forall k | i < k < e
        ensures Depth(flat, i, k, open, close) != 0
      {
        DepthSplit(flat, i, k, e, open, close);
      }
    }
  }

  /**
  From the closer at `lines[linenum][pos]`: the line and position of its opener, or
  (first line, 0, -1) when there is none.
  */
  method ReverseCloseExpression(lines: seq<string>, linenum: nat, pos: nat) returns (line: string, startLine: nat, startPos: int)
    requires linenum < |lines| && pos < |lines[linenum]|
    ensures startPos != -1 ==>
      (&& IsCloser(lines[linenum][pos])
       && startLine < |lines| && line == lines[startLine] && 0 <= startPos < |line|
       && line[startPos] == Partner(lines[linenum][pos])
       && Closes(Flat(lines), Offset(lines, startLine) + startPos, Offset(lines, linenum) + pos + 1,
                 Partner(lines[linenum][pos]), lines[linenum][pos]))
    ensures startPos == -1 ==> startLine == 0
    ensures startPos == -1 ==> line == if IsCloser(lines[linenum][pos]) then lines[0] else lines[linenum]
    ensures startPos == -1 && IsCloser(lines[linenum][pos]) ==> UnopenedAt(lines, linenum, pos)
    ensures startPos != -1 ==>
      || PairOf(lines, startLine, startPos, linenum, pos + 1, '(', ')')
      || PairOf(lines, startLine, startPos, linenum, pos + 1, '[', ']')
      || PairOf(lines, startLine, startPos, linenum, pos + 1, '{', '}')
      || PairOf(lines, startLine, startPos, linenum, pos + 1, '<', '>')
    ensures startPos == -1 ==>
      && NoOpenerFor(lines, linenum, pos, '(', ')') && NoOpenerFor(lines, linenum, pos, '[', ']')
      && NoOpenerFor(lines, linenum, pos, '{', '}') && NoOpenerFor(lines, linenum, pos, '<', '>')
  {
    line := lines[linenum];
    var close := line[pos];
    if !IsCloser(close) {
      return line, 0, -1;
    }
    var open := Partner(close);
    ghost var flat, e := Flat(lines), Offset(lines, linenum) + pos + 1;
    var depth;
    startLine := linenum;
    CharInLine(lines, linenum, pos);
    startPos, depth := FindStartOfExpressionInLine(line, pos, 0, open, close);
    BackwardStep(lines, linenum, e, pos + 1, startPos, 0, open, close);
    if startPos > -1 {
      return;
    }
    while startLine > 0
      invariant startLine <= linenum && line == lines[startLine]
      invariant OpenDownTo(flat, Offset(lines, startLine), e, depth, open, close)
    {
      startLine := startLine - 1;
      FlatOfPrefix(lines, startLine);
      line := lines[startLine];
      ghost var carried := depth;
      startPos, depth := FindStartOfExpressionInLine(line, |line| - 1, depth, open, close);
      BackwardStep(lines, startLine, e, |line|, startPos, carried, open, close);
      if startPos > -1 {
        return;
      }
    }
    startPos := -1;
  }

  // ----- the two scans undo each other -----

  lemma UniqueCloser(s: string, i: nat, e: nat, e': nat, open: char, close: char)
    requires Closes(s, i, e, open, close) && Closes(s, i, e', open, close)
    ensures e == e'
  {
  }

  /** A closer has one opener: two pairs that end together start together. */
  lemma UniqueOpener(s: string, i: nat, i': nat, e: nat, open: char, close: char)
    requires Closes(s, i, e, open, close) && Closes(s, i', e, open, close)
    ensures i == i'
  {
    if i < i' {
      DepthSplit(s, i, i', e, open, close);
    } else if i' < i {
      DepthSplit(s, i', i, e, open, close);
    }
  }

  /** A position inside a line is determined by its flat offset. */
  lemma UniquePosition(lines: seq<string>, l: nat, p: nat, l': nat, p': nat)
    requires l < |lines| && p < |lines[l]| && l' < |lines| && p' < |lines[l']|
    requires Offset(lines, l) + p == Offset(lines, l') + p'
    ensures l == l' && p == p'
  {
    FlatOfPrefix(lines, l);
    FlatOfPrefix(lines, l');
    if l < l' {
      OffsetsGrow(lines, l + 1, l');
    } else if l' < l {
      OffsetsGrow(lines, l' + 1, l);
    }
  }

  /** Whatever `CloseExpression` finds leads `ReverseCloseExpression` back to the opener. */
  method CloseThenReverse(lines: seq<string>, linenum: nat, pos: nat) returns (found: bool, line: string, startLine: nat, startPos: int)
    requires linenum < |lines| && pos < |lines[linenum]|
    ensures found ==> line == lines[linenum] && startLine == linenum && startPos == pos
    ensures found <==> IsOpener(lines[linenum][pos]) && !UnclosedAt(lines, linenum, pos)
  {
    var endLine, endPos;
    line, endLine, endPos := CloseExpression(lines, linenum, pos);
    found, startLine, startPos := endPos != -1, 0, -1;
    if found {
      ghost var i, e := Offset(lines, linenum) + pos, Offset(lines, endLine) + endPos;
      ghost var open, close := lines[linenum][pos], Partner(lines[linenum][pos]);
      assert !UnopenedAt(lines, endLine, endPos - 1);
      line, startLine, startPos := ReverseCloseExpression(lines, endLine, endPos - 1);
      UniqueOpener(Flat(lines), i, Offset(lines, startLine) + startPos, e, open, close);
      UniquePosition(lines, linenum, pos, startLine, startPos);
    }
  }

  /** Whatever `ReverseCloseExpression` finds leads `CloseExpression` back to just past the closer. */
  method ReverseThenClose(lines: seq<string>, linenum: nat, pos: nat) returns (found: bool, line: string, endLine: nat, endPos: int)
    requires linenum < |lines| && pos < |lines[linenum]|
    ensures found ==> line == lines[linenum] && endLine == linenum && endPos == pos + 1
    ensures found <==> IsCloser(lines[linenum][pos]) && !UnopenedAt(lines, linenum, pos)
  {
    var startLine, startPos;
    line, startLine, startPos := ReverseCloseExpression(lines, linenum, pos);
    found, endLine, endPos := startPos != -1, 0, -1;
    if found {
      ghost var i, e := Offset(lines, startLine) + startPos, Offset(lines, linenum) + pos + 1;
      ghost var close, open := lines[linenum][pos], Partner(lines[linenum][pos]);
      assert !UnclosedAt(lines, startLine, startPos);
      line, endLine, endPos := CloseExpression(lines, startLine, startPos);
      UniqueCloser(Flat(lines), i, e, Offset(lines, endLine) + endPos, open, close);
      UniquePosition(lines, linenum, pos, endLine, endPos - 1);
    }
  }
}
