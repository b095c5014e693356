/**
log4cplus' tokenizer.

A list of tokens is the tokenization of a string when no token holds the delimiter and putting
the delimiters back gives the string.  There is one such list, and it is what the program
produces; with collapsing it is that of the string with its delimiter runs squeezed to one.
*/
module Tokenizer {

  predicate EndsWith(s: string, c: char) { s != "" && s[|s| - 1] == c }

  /** The tokens with a delimiter after each, or between them only. */
  function Unsplit(tokens: seq<string>, c: char, terminated: bool): string {
    if tokens == [] then ""
    else Unsplit(tokens[..|tokens| - 1], c, true) + tokens[|tokens| - 1] + if terminated then [c] else ""
  }

  predicate Free(tokens: seq<string>, c: char) { forall t :: t in tokens ==> c !in t }

  /** Joining gives the string, with one more delimiter at the end exactly when the string ends with one. */
  predicate IsTokenization(s: string, c: char, tokens: seq<string>) {
    && Free(tokens, c)
    && s == Unsplit(tokens, c, EndsWith(s, c))
    && (s == "" ==> tokens == [])
  }

  /** The string with every run of delimiters squeezed to one. */
  function Squeeze(s: string, c: char): string {
    if s == "" then ""
    else
      var n := |s| - 1;
      if s[n] == c && EndsWith(s[..n], c) then Squeeze(s[..n], c) else Squeeze(s[..n], c) + [s[n]]
  }

  /** The tokens so far and the stretch `s[first..i]` account for the first `i` characters. */
  ghost predicate Progress(s: string, c: char, collapse: bool, tokens: seq<string>, first: nat, i: nat) {
    && first <= i <= |s| && Free(tokens, c) && c !in s[first..i]
    && Text(s[..i], c, collapse) == Unsplit(tokens, c, true) + s[first..i]
    && (tokens == [] ==> first == 0)
    && (first > 0 ==> s[first - 1] == c && tokens != [])
    && (collapse && 0 < first == i < |s| ==> s[i] != c)
  }

  lemma LongerStretch(s: string, c: char, first: nat, i: nat)
    requires first <= i < |s| && c !in s[first..i] && s[i] != c
    ensures s[first..i + 1] == s[first..i] + [s[i]] && c !in s[first..i + 1]
  {
  }

  lemma OrdinaryText(text: string, joined: string, x: string, d: char)
    requires text == joined + x
    ensures text + [d] == joined + (x + [d])
  {
  }

  lemma OrdinaryCharacter(s: string, c: char, collapse: bool, tokens: seq<string>, first: nat, i: nat)
    requires Progress(s, c, collapse, tokens, first, i) && i < |s| && s[i] != c
    ensures Progress(s, c, collapse, tokens, first, i + 1)
  {
    LongerStretch(s, c, first, i);
    ExtendText(s, i, c, collapse);
    OrdinaryText(Text(s[..i], c, collapse), Unsplit(tokens, c, true), s[first..i], s[i]);
  }

  lemma Delimiter(s: string, c: char, collapse: bool, tokens: seq<string>, first: nat, i: nat)
    requires Progress(s, c, collapse, tokens, first, i) && i < |s| && s[i] == c
    ensures var longer := tokens + [s[first..i]];
      Free(longer, c) && Text(s[..i + 1], c, collapse) == Unsplit(longer, c, true)
  {
    ExtendText(s, i, c, collapse);
    assert (tokens + [s[first..i]])[..|tokens|] == tokens;
    assert collapse ==> !EndsWith(s[..i], c);
  }

  /** The inner loop of the collapsing mode: to the last delimiter of the run at `i`. */
  method SkipRun(s: string, c: char, i: nat) returns (j: nat)
    requires i < |s| && s[i] == c
    ensures i <= j < |s| && s[j] == c && (j + 1 < |s| ==> s[j + 1] != c)
    ensures Squeeze(s[..j + 1], c) == Squeeze(s[..i + 1], c)
  {
    j := i;
    while j + 1 < |s| && s[j + 1] == c
      invariant i <= j < |s| && s[j] == c && Squeeze(s[..j + 1], c) == Squeeze(s[..i + 1], c)
    {
      j := j + 1;
      ExtendText(s, j, c, true);
    }
  }

  /** A delimiter at `i`, or the run of delimiters from `i` to `j`, completes a token. */
  lemma TokenComplete(s: string, c: char, collapse: bool, tokens: seq<string>, first: nat, i: nat, j: nat)
    requires Progress(s, c, collapse, tokens, first, i) && i <= j < |s| && s[i] == c == s[j]
    requires if collapse then Squeeze(s[..j + 1], c) == Squeeze(s[..i + 1], c) && (j + 1 < |s| ==> s[j + 1] != c) else j == i
    ensures Progress(s, c, collapse, tokens + [s[first..i]], j + 1, j + 1)
  {
    Delimiter(s, c, collapse, tokens, first, i);
    var longer := tokens + [s[first..i]];
    assert Unsplit(longer, c, true) + "" == Unsplit(longer, c, true);
  }

  /** What is left after the last delimiter, if anything, is the last token. */
  lemma LastTokenComplete(s: string, c: char, collapse: bool, tokens: seq<string>, first: nat)
    requires Progress(s, c, collapse, tokens, first, |s|)
    ensures IsTokenization(Text(s, c, collapse), c, if first != |s| then tokens + [s[first..]] else tokens)
  {
    assert s[..|s|] == s && s[first..|s|] == s[first..];
    SqueezedHasNoRuns(s, c);
    assert EndsWith(Text(s, c, collapse), c) <==> EndsWith(s, c);
    if first != |s| {
      var rest := s[first..];
      assert rest[|rest| - 1] == s[|s| - 1] && rest[|rest| - 1] in rest;
      assert (tokens + [rest])[..|tokens|] == tokens;
    } else {
      assert s[first..] == "";
    }
  }

  lemma NothingYet(s: string, c: char, collapse: bool)
    ensures Progress(s, c, collapse, [], 0, 0)
  {
  }

  method Tokenize(s: string, c: char, collapseTokens: bool) returns (tokens: seq<string>)
    ensures IsTokenization(Text(s, c, collapseTokens), c, tokens)
  {
    var first, i := 0, 0;
    tokens := [];
    NothingYet(s, c, collapseTokens);
    while i < |s|
      invariant Progress(s, c, collapseTokens, tokens, first, i)
    {
      if s[i] == c {
        ghost var before, at := tokens, i;
        tokens := tokens + [s[first..i]];
        if collapseTokens {
          i := SkipRun(s, c, i);
        }
        assert Progress(s, c, collapseTokens, tokens, i + 1, i + 1) by {
          TokenComplete(s, c, collapseTokens, before, first, at, i);
        }
        first := i + 1;
      } else {
        assert Progress(s, c, collapseTokens, tokens, first, i + 1) by {
          OrdinaryCharacter(s, c, collapseTokens, tokens, first, i);
        }
      }
      i := i + 1;
    }
    LastTokenComplete(s, c, collapseTokens, tokens, first);
    if first != i {
      tokens := tokens + [s[first..]];
    }
  }

  /** Collapsing is tokenizing the squeezed string without collapsing. */
  method TokenizeBothWays(s: string, c: char) returns (collapsed: seq<string>, squeezed: seq<string>)
    ensures collapsed == squeezed && IsTokenization(Squeeze(s, c), c, collapsed)
  {
    collapsed := Tokenize(s, c, true);
    squeezed := Tokenize(Squeeze(s, c), c, false);
    TokenizationUnique(Squeeze(s, c), c, collapsed, squeezed);
  }

  function Text(s: string, c: char, collapse: bool): string { if collapse then Squeeze(s, c) else s }

  lemma ExtendText(s: string, i: nat, c: char, collapse: bool)
    requires i < |s|
    ensures Text(s[..i + 1], c, collapse) ==
      if collapse && s[i] == c && EndsWith(s[..i], c) then Text(s[..i], c, collapse) else Text(s[..i], c, collapse) + [s[i]]
  {
    assert s[..i + 1][..i] == s[..i];
  }

  // ----- uniqueness and the other round trip -----

  /** How many characters follow the last delimiter. */
  function Tail(s: string, c: char): nat {
    if s == "" || EndsWith(s, c) then 0 else 1 + Tail(s[..|s| - 1], c)
  }

  lemma {:induction false} TailOfToken(u: string, x: string, c: char)
    requires c !in x && (u == "" || EndsWith(u, c))
    ensures Tail(u + x, c) == |x|
  {
    if x == "" {
      assert u + x == u;
    } else {
      assert (u + x)[..|u + x| - 1] == u + x[..|x| - 1];
      TailOfToken(u, x[..|x| - 1], c);
    }
  }

  /** What follows the last delimiter is determined. */
  lemma LastToken(u: string, x: string, v: string, y: string, c: char)
    requires u + x == v + y && c !in x && c !in y
    requires (u == "" || EndsWith(u, c)) && (v == "" || EndsWith(v, c))
    ensures u == v && x == y
  {
    TailOfToken(u, x, c);
    TailOfToken(v, y, c);
    assert u == (u + x)[..|u|] && v == (v + y)[..|v|];
    assert x == (u + x)[|u|..] && y == (v + y)[|v|..];
  }

  lemma {:induction false} TerminatedUnique(a: seq<string>, b: seq<string>, c: char)
    requires Free(a, c) && Free(b, c) && Unsplit(a, c, true) == Unsplit(b, c, true)
    ensures a == b
    decreases |a|
  {
    if a != [] && b != [] {
      var a', b' := a[..|a| - 1], b[..|b| - 1];
      var x, y := a[|a| - 1], b[|b| - 1];
      var s := Unsplit(a, c, true);
      assert s[..|s| - 1] == Unsplit(a', c, true) + x == Unsplit(b', c, true) + y;
      LastToken(Unsplit(a', c, true), x, Unsplit(b', c, true), y, c);
      TerminatedUnique(a', b', c);
      assert a == a' + [x] && b == b' + [y];
    }
  }

  /** A string has one tokenization. */
  lemma TokenizationUnique(s: string, c: char, a: seq<string>, b: seq<string>)
    requires IsTokenization(s, c, a) && IsTokenization(s, c, b)
    ensures a == b
  {
    if EndsWith(s, c) {
      TerminatedUnique(a, b, c);
    } else if s != "" {
      var a', b' := a[..|a| - 1], b[..|b| - 1];
      var x, y := a[|a| - 1], b[|b| - 1];
      assert s == Unsplit(a', c, true) + x == Unsplit(b', c, true) + y;
      LastToken(Unsplit(a', c, true), x, Unsplit(b', c, true), y, c);
      TerminatedUnique(a', b', c);
      assert a == a' + [x] && b == b' + [y];
    }
  }

  /** Any list of delimiter-free tokens is recovered from its terminated form. */
  lemma TerminatedRoundTrip(tokens: seq<string>, c: char)
    requires Free(tokens, c)
    ensures IsTokenization(Unsplit(tokens, c, true), c, tokens)
  {
  }

  /** It is recovered from its joined form exactly when it is empty or its last token is not. */
  lemma JoinedRoundTrip(tokens: seq<string>, c: char)
    requires Free(tokens, c)
    ensures IsTokenization(Unsplit(tokens, c, false), c, tokens) <==> tokens == [] || tokens[|tokens| - 1] != ""
  {
    if tokens != [] {
      var last := tokens[|tokens| - 1];
      var joined := Unsplit(tokens, c, false);
      assert joined == Unsplit(tokens[..|tokens| - 1], c, true) + last;
      if last == "" {
        assert joined == Unsplit(tokens[..|tokens| - 1], c, true);
        if joined != "" {
          assert |Unsplit(tokens, c, true)| == |joined| + 1;
        }
      } else {
        assert last in tokens && last[|last| - 1] in last;
        assert joined[|joined| - 1] == last[|last| - 1] != c;
      }
    }
  }

  /** The characters other than the delimiter, in order. */
  function Others(s: string, c: char): string {
    if s == "" then "" else Others(s[..|s| - 1], c) + if s[|s| - 1] == c then "" else [s[|s| - 1]]
  }

  /** Squeezing leaves no two delimiters next to each other, keeps all other characters and does not change the end. */
  lemma {:induction false} SqueezedHasNoRuns(s: string, c: char)
    ensures var t := Squeeze(s, c);
      (forall i :: 0 < i < |t| ==> !(t[i - 1] == c && t[i] == c)) && (EndsWith(t, c) <==> EndsWith(s, c))
    ensures Others(Squeeze(s, c), c) == Others(s, c)
  {
    if s != "" {
      var n := |s| - 1;
      SqueezedHasNoRuns(s[..n], c);
      assert (Squeeze(s[..n], c) + [s[n]])[..|Squeeze(s[..n], c)|] == Squeeze(s[..n], c);
    }
  }

  /** A string without adjacent delimiters is left alone. */
  lemma {:induction false} SqueezeNothing(s: string, c: char)
    requires forall i :: 0 < i < |s| ==> !(s[i - 1] == c && s[i] == c)
    ensures Squeeze(s, c) == s
  {
    if s != "" {
      SqueezeNothing(s[..|s| - 1], c);
    }
  }

  /** Of two adjacent delimiters one is as good as both; with `SqueezeNothing` this determines the squeezed string. */
  lemma {:induction false} SqueezeOnce(a: string, b: string, c: char)
    ensures Squeeze(a + [c, c] + b, c) == Squeeze(a + [c] + b, c)
  {
    var two, one := a + [c, c] + b, a + [c] + b;
    if b == "" {
      assert two[..|two| - 1] == one;
    } else {
      assert two[..|two| - 1] == a + [c, c] + b[..|b| - 1] && one[..|one| - 1] == a + [c] + b[..|b| - 1];
      SqueezeOnce(a, b[..|b| - 1], c);
    }
  }
}
