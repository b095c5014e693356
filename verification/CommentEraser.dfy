/**
cpplint's in-place eraser of multi-line comments.

The program alternates between searching for a starting line and searching for an ending
line and overwrites the range in between.  The reference is a one-pass automaton over the
original lines that remembers only whether it is inside a comment.
*/
module CommentEraser {
  import opened Common

  const DUMMY := "// dummy"

  predicate IsSpace(c: char) { c == ' ' || c == '\t' || c == '\n' || c == '\r' || c as int == 11 || c as int == 12 }

  function StripLeft(s: string): string {
    if s != "" && IsSpace(s[0]) then StripLeft(s[1..]) else s
  }

  function StripRight(s: string): string {
    if s != "" && IsSpace(s[|s| - 1]) then StripRight(s[..|s| - 1]) else s
  }

  function Strip(s: string): string { StripRight(StripLeft(s)) }

  /** The stripped line starts with a comment marker and has no end marker after it. */
  predicate Opens(line: string) {
    var t := Strip(line);
    |t| >= 2 && t[0] == '/' && t[1] == '*' && !exists j :: 2 <= j < |t| - 1 && t[j] == '*' && t[j + 1] == '/'
  }

  /** The stripped line ends with an end marker. */
  predicate Ends(line: string) {
    var t := Strip(line);
    |t| >= 2 && t[|t| - 2] == '*' && t[|t| - 1] == '/'
  }

  predicate AllSpace(s: string) { forall i :: 0 <= i < |s| ==> IsSpace(s[i]) }

  /** Stripping removes white space at both ends, all of it, and nothing else. */
  lemma StripMeans(s: string) returns (a: string, b: string)
    ensures s == a + Strip(s) + b && AllSpace(a) && AllSpace(b)
    ensures var t := Strip(s); t != "" ==> !IsSpace(t[0]) && !IsSpace(t[|t| - 1])
  {
    a := StripLeftMeans(s);
    b := StripRightMeans(StripLeft(s));
    assert s == a + (StripRight(StripLeft(s)) + b);
  }

  lemma {:induction false} StripLeftMeans(s: string) returns (a: string)
    ensures s == a + StripLeft(s) && AllSpace(a)
    ensures StripLeft(s) != "" ==> !IsSpace(StripLeft(s)[0])
  {
    if s != "" && IsSpace(s[0]) {
      var rest := StripLeftMeans(s[1..]);
      a := [s[0]] + rest;
    } else {
      a := "";
    }
  }

  lemma {:induction false} StripRightMeans(s: string) returns (b: string)
    ensures s == StripRight(s) + b && AllSpace(b)
    ensures StripRight(s) != "" ==> !IsSpace(StripRight(s)[|StripRight(s)| - 1]) && StripRight(s)[0] == s[0]
  {
    if s != "" && IsSpace(s[|s| - 1]) {
      var rest := StripRightMeans(s[..|s| - 1]);
      b := rest + [s[|s| - 1]];
    } else {
      b := "";
    }
  }

  /** There is an end marker at position `j`. */
  predicate EndMarkerAt(t: string, j: nat) { j + 2 <= |t| && t[j..j + 2] == "*/" }

  lemma EndMarkerChars(t: string, j: nat)
    requires j + 2 <= |t|
    ensures EndMarkerAt(t, j) <==> t[j] == '*' && t[j + 1] == '/'
  {
    assert t[j..j + 2] == [t[j], t[j + 1]];
  }

  lemma NoEndMarker(t: string)
    ensures (exists j :: 2 <= j < |t| - 1 && t[j] == '*' && t[j + 1] == '/') <==> exists j: nat :: 2 <= j && EndMarkerAt(t, j)
  {
    if j: nat :| 2 <= j && EndMarkerAt(t, j) {
      EndMarkerChars(t, j);
    }
    if j :| 2 <= j < |t| - 1 && t[j] == '*' && t[j + 1] == '/' {
      EndMarkerChars(t, j);
    }
  }

  lemma StartMarker(t: string)
    requires |t| >= 2
    ensures t[..2] == "/*" <==> t[0] == '/' && t[1] == '*'
  {
    assert t[..2] == [t[0], t[1]];
  }

  /** Which lines open a comment, by their text. */
  lemma OpensMeans(line: string)
    ensures var t := Strip(line);
      Opens(line) <==> |t| >= 2 && t[..2] == "/*" && !exists j: nat :: 2 <= j && EndMarkerAt(t, j)
  {
    var t := Strip(line);
    NoEndMarker(t);
    if |t| >= 2 {
      StartMarker(t);
    }
  }

  /** Which lines end a comment, by their text. */
  lemma EndsMeans(line: string)
    ensures var t := Strip(line); Ends(line) <==> |t| >= 2 && EndMarkerAt(t, |t| - 2)
  {
    var t := Strip(line);
    if |t| >= 2 {
      EndMarkerChars(t, |t| - 2);
    }
  }

  // ----- the reference -----

  /** Line `i` belongs to a multi-line comment: it starts one, or the previous line left one open. */
  predicate InComment(lines: seq<string>, i: nat)
    requires i < |lines|
    decreases i, 1
  {
    Opens(lines[i]) || StillOpen(lines, i)
  }

  /** Before line `i` a multi-line comment is open. */
  predicate StillOpen(lines: seq<string>, i: nat)
    requires i <= |lines|
    decreases i, 0
  {
    i > 0 && InComment(lines, i - 1) && !Ends(lines[i - 1])
  }

  /** Some line from `i` on ends a comment. */
  predicate EndsLater(lines: seq<string>, i: nat) {
    exists j :: i <= j < |lines| && Ends(lines[j])
  }

  predicate Erased(lines: seq<string>, i: nat)
    requires i < |lines|
  {
    InComment(lines, i) && EndsLater(lines, i)
  }

  function Cleansed(lines: seq<string>): seq<string> {
    seq(|lines|, i requires 0 <= i < |lines| => if Erased(lines, i) then DUMMY else lines[i])
  }

  /** Line `b` starts a comment that no line ends. */
  predicate StartsUnterminated(lines: seq<string>, b: nat) {
    b < |lines| && InComment(lines, b) && !StillOpen(lines, b) && !EndsLater(lines, b)
  }

  // ----- the program -----

  method FindNextMultiLineCommentStart(lines: array<string>, lineix: nat) returns (ix: nat)
    requires lineix <= lines.Length
    ensures lineix <= ix <= lines.Length
    ensures forall k :: lineix <= k < ix ==> !Opens(lines[k])
    ensures ix < lines.Length ==> Opens(lines[ix])
  {
    ix := lineix;
    while ix < lines.Length
      invariant lineix <= ix <= lines.Length
      invariant forall k :: lineix <= k < ix ==> !Opens(lines[k])
    {
      if Opens(lines[ix]) {
        return;
      }
      ix := ix + 1;
    }
  }

  method FindNextMultiLineCommentEnd(lines: array<string>, lineix: nat) returns (ix: nat)
    requires lineix <= lines.Length
    ensures lineix <= ix <= lines.Length
    ensures forall k :: lineix <= k < ix ==> !Ends(lines[k])
    ensures ix < lines.Length ==> Ends(lines[ix])
  {
    ix := lineix;
    while ix < lines.Length
      invariant lineix <= ix <= lines.Length
      invariant forall k :: lineix <= k < ix ==> !Ends(lines[k])
    {
      if Ends(lines[ix]) {
        return;
      }
      ix := ix + 1;
    }
  }

  method RemoveMultiLineCommentsFromRange(lines: array<string>, begin: nat, end: nat)
    requires begin <= end <= lines.Length
    modifies lines
    ensures forall k :: 0 <= k < lines.Length ==> lines[k] == if begin <= k < end then "// dummy" else old(lines[k])
  {
    for i := begin to end
      invariant forall k :: 0 <= k < lines.Length ==> lines[k] == if begin <= k < i then DUMMY else old(lines[k])
    {
      lines[i] := DUMMY;
    }
  }

  lemma {:induction false} StaysOutside(lines: seq<string>, a: nat, b: nat)
    requires a <= b <= |lines| && !StillOpen(lines, a) && forall k :: a <= k < b ==> !Opens(lines[k])
    ensures !StillOpen(lines, b)
    ensures forall k :: a <= k < b ==> !InComment(lines, k)
  {
    if a < b {
      StaysOutside(lines, a, b - 1);
    }
  }

  lemma {:induction false} StaysInside(lines: seq<string>, b: nat, e: nat)
    requires b <= e < |lines| && InComment(lines, b) && forall k :: b <= k < e ==> !Ends(lines[k])
    ensures forall k :: b <= k <= e ==> InComment(lines, k)
  {
    if b < e {
      StaysInside(lines, b, e - 1);
      assert StillOpen(lines, e);
    }
  }

  /** From `a` on no line starts a comment. */
  lemma NoMoreComments(lines: seq<string>, a: nat, b: nat)
    requires a <= b <= |lines| && !StillOpen(lines, a) && forall k :: a <= k < b ==> !Opens(lines[k])
    ensures forall k :: a <= k < b ==> Cleansed(lines)[k] == lines[k] && !StartsUnterminated(lines, k)
    ensures !StillOpen(lines, b)
  {
    StaysOutside(lines, a, b);
  }

  /** A comment from `begin` to `end`. */
  lemma OneComment(lines: seq<string>, begin: nat, end: nat)
    requires begin <= end < |lines| && Opens(lines[begin]) && Ends(lines[end])
    requires forall k :: begin <= k < end ==> !Ends(lines[k])
    ensures forall k :: begin <= k <= end ==> Cleansed(lines)[k] == "// dummy" && !StartsUnterminated(lines, k)
    ensures !StillOpen(lines, end + 1)
  {
    StaysInside(lines, begin, end);
    assert forall k :: begin <= k <= end ==> EndsLater(lines, k);
  }

  /** A comment from `begin` that no line ends is left alone. */
  lemma OpenEnd(lines: seq<string>, begin: nat)
    requires begin < |lines| && Opens(lines[begin]) && !StillOpen(lines, begin)
    requires forall k :: begin <= k < |lines| ==> !Ends(lines[k])
    ensures forall k :: begin <= k < |lines| ==> Cleansed(lines)[k] == lines[k]
    ensures StartsUnterminated(lines, begin)
  {
    assert forall k :: begin <= k < |lines| ==> !EndsLater(lines, k);
  }

  /** The lines before `n` are as they should be, the others as they were. */
  ghost predicate DoneUpTo(now: seq<string>, was: seq<string>, n: nat) {
    && |now| == |was| && n <= |was| && !StillOpen(was, n)
    && (forall k :: 0 <= k < n ==> now[k] == Cleansed(was)[k] && !StartsUnterminated(was, k))
    && (forall k :: n <= k < |was| ==> now[k] == was[k])
  }

  lemma SkipToStart(now: seq<string>, was: seq<string>, n: nat, begin: nat)
    requires DoneUpTo(now, was, n) && n <= begin <= |now| && forall k :: n <= k < begin ==> !Opens(now[k])
    ensures DoneUpTo(now, was, begin)
  {
    NoMoreComments(was, n, begin);
  }

  lemma EraseToEnd(now: seq<string>, next: seq<string>, was: seq<string>, begin: nat, end: nat)
    requires DoneUpTo(now, was, begin) && begin <= end < |now| == |next| && Opens(now[begin]) && Ends(now[end])
    requires forall k :: begin <= k < end ==> !Ends(now[k])
    requires forall k :: 0 <= k < |now| ==> next[k] == if begin <= k <= end then DUMMY else now[k]
    ensures DoneUpTo(next, was, end + 1)
  {
    OneComment(was, begin, end);
  }

  lemma Finished(now: seq<string>, was: seq<string>)
    requires DoneUpTo(now, was, |was|)
    ensures now == Cleansed(was) && forall b: nat :: !StartsUnterminated(was, b)
  {
  }

  lemma LeftOpen(now: seq<string>, was: seq<string>, begin: nat)
    requires DoneUpTo(now, was, begin) && begin < |was| && Opens(now[begin])
    requires forall k :: begin <= k < |now| ==> !Ends(now[k])
    ensures now == Cleansed(was) && StartsUnterminated(was, begin)
  {
    OpenEnd(was, begin);
  }

  method EraseComment(lines: array<string>, ghost was: seq<string>, begin: nat, end: nat)
    requires DoneUpTo(lines[..], was, begin) && begin <= end < lines.Length && Opens(lines[begin]) && Ends(lines[end])
    requires forall k :: begin <= k < end ==> !Ends(lines[k])
    modifies lines
    ensures DoneUpTo(lines[..], was, end + 1)
  {
    ghost var now := lines[..];
    RemoveMultiLineCommentsFromRange(lines, begin, end + 1);
    EraseToEnd(now, lines[..], was, begin, end);
  }

  /** Overwrites the comments; returns the one-based number of the line the error names, if any. */
  method RemoveMultiLineComments(lines: array<string>) returns (error: Option<nat>)
    modifies lines
    ensures lines[..] == Cleansed(old(lines[..]))
    ensures error.Some? ==> error.value > 0 && StartsUnterminated(old(lines[..]), error.value - 1)
    ensures error.None? ==> forall b: nat :: !StartsUnterminated(old(lines[..]), b)
  {
    ghost var was := lines[..];
    var lineix := 0;
    while lineix < lines.Length
      invariant DoneUpTo(lines[..], was, lineix)
    {
      var begin := FindNextMultiLineCommentStart(lines, lineix);
      assert DoneUpTo(lines[..], was, begin) by { SkipToStart(lines[..], was, lineix, begin); }
      if begin >= lines.Length {
        lineix := begin;
        break;
      }
      var end := FindNextMultiLineCommentEnd(lines, begin);
      if end >= lines.Length {
        assert lines[..] == Cleansed(was) && StartsUnterminated(was, begin) by { LeftOpen(lines[..], was, begin); }
        return Some(begin + 1);
      }
      EraseComment(lines, was, begin, end);
      lineix := end + 1;
    }
    Finished(lines[..], was);
    error := None;
  }

  // ----- single lines -----

  /** A line is overwritten with the dummy comment exactly if it lies in a comment that some later line ends. */
  lemma LineMeaning(lines: seq<string>, i: nat)
    requires i < |lines|
    ensures Cleansed(lines)[i] ==
      if (StillOpen(lines, i) || Opens(lines[i])) && exists j :: i <= j < |lines| && Ends(lines[j]) then "// dummy" else lines[i]
  {
  }

  /** A line that ends its own comment, outside of any other, is never changed. */
  lemma OneLineCommentStays(lines: seq<string>, i: nat, j: nat)
    requires i < |lines| && !StillOpen(lines, i)
    requires 2 <= j && EndMarkerAt(Strip(lines[i]), j)
    ensures Cleansed(lines)[i] == lines[i] && !StillOpen(lines, i + 1)
  {
    OpensMeans(lines[i]);
  }

  // ----- what is left, and running it again -----

  /** A line of the result is inside a comment exactly when the comment is unterminated. */
  lemma {:induction false} RemainingComment(lines: seq<string>, i: nat)
    requires i < |lines|
    ensures InComment(Cleansed(lines), i) <==> InComment(lines, i) && !EndsLater(lines, i)
  {
    var result := Cleansed(lines);
    if i > 0 {
      RemainingComment(lines, i - 1);
      assert EndsLater(lines, i - 1) <==> EndsLater(lines, i) || Ends(lines[i - 1]);
      assert StillOpen(result, i) <==> StillOpen(lines, i) && !EndsLater(lines, i);
    }
    DummyOpensNothing();
    assert Opens(result[i]) <==> Opens(lines[i]) && !EndsLater(lines, i);
  }

  lemma DummyOpensNothing()
    ensures !Opens(DUMMY)
  {
  }

  lemma StillOpenLater(lines: seq<string>, b: nat, b': nat)
    requires b < b' <= |lines| && InComment(lines, b) && forall k :: b <= k < b' ==> !Ends(lines[k])
    ensures StillOpen(lines, b')
  {
    StaysInside(lines, b, b' - 1);
    assert InComment(lines, b' - 1);
  }

  lemma OneUnterminated(lines: seq<string>, b: nat, b': nat)
    requires StartsUnterminated(lines, b) && StartsUnterminated(lines, b')
    ensures b == b'
  {
    if b < b' {
      StillOpenLater(lines, b, b');
    } else if b' < b {
      StillOpenLater(lines, b', b);
    }
  }

  /** The result still contains a line that opens a comment exactly when the error is reported. */
  lemma NothingOpensIffNoError(lines: seq<string>)
    ensures (exists i :: 0 <= i < |lines| && Opens(Cleansed(lines)[i])) <==> exists b: nat :: StartsUnterminated(lines, b)
  {
    var result := Cleansed(lines);
    if i :| 0 <= i < |lines| && Opens(result[i]) {
      assert InComment(result, i);
      RemainingComment(lines, i);
      var b := FirstOfUnterminated(lines, i);
    }
    if b: nat :| StartsUnterminated(lines, b) {
      assert result[b] == lines[b] && Opens(result[b]);
    }
  }

  lemma {:induction false} FirstOfUnterminated(lines: seq<string>, i: nat) returns (b: nat)
    requires i < |lines| && InComment(lines, i) && !EndsLater(lines, i)
    ensures StartsUnterminated(lines, b)
  {
    if StillOpen(lines, i) {
      assert !EndsLater(lines, i - 1);
      b := FirstOfUnterminated(lines, i - 1);
    } else {
      b := i;
    }
  }

  lemma SecondRunAt(lines: seq<string>, i: nat)
    requires i < |lines|
    ensures !Erased(Cleansed(lines), i)
    ensures StartsUnterminated(Cleansed(lines), i) <==> StartsUnterminated(lines, i)
  {
    var result := Cleansed(lines);
    RemainingComment(lines, i);
    if i > 0 {
      RemainingComment(lines, i - 1);
    }
    if !EndsLater(lines, i) {
      assert forall j :: i <= j < |lines| ==> result[j] == lines[j];
    }
  }

  /** A second run changes nothing and reports the same line. */
  lemma Idempotent(lines: seq<string>)
    ensures Cleansed(Cleansed(lines)) == Cleansed(lines)
    ensures forall b: nat :: StartsUnterminated(Cleansed(lines), b) <==> StartsUnterminated(lines, b)
  {
    var result := Cleansed(lines);
    forall i: nat | i < |lines|
      ensures !Erased(result, i)
      ensures StartsUnterminated(result, i) <==> StartsUnterminated(lines, i)
    {
      SecondRunAt(lines, i);
    }
  }

  /** The same on the array: the second run gives the same answer and leaves every line alone. */
  method RemoveTwice(lines: array<string>) returns (first: Option<nat>, second: Option<nat>)
    modifies lines
    ensures first == second
    ensures lines[..] == Cleansed(old(lines[..]))
  {
    ghost var was := lines[..];
    first := RemoveMultiLineComments(lines);
    second := RemoveMultiLineComments(lines);
    Idempotent(was);
    if first.Some? && second.Some? {
      OneUnterminated(was, first.value - 1, second.value - 1);
    }
  }
}
