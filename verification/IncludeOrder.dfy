/** cpplint's include-order automaton and the regular language it accepts. */
module IncludeOrder {
  import opened Common

  datatype Header = CSystem | CppSystem | LikelyMine | PossiblyMine | Other

  // The sections, in the order in which they may appear.
  const INITIAL: nat := 0
  const MY_H: nat := 1
  const C_SECTION: nat := 2
  const CPP_SECTION: nat := 3
  const OTHER_H: nat := 4

  /** "Found `found` after `after`." */
  datatype OutOfOrder = OutOfOrder(found: Header, after: nat)

  /** The section a header leads to, if it may follow `section`. */
  function Successor(section: nat, h: Header): Option<nat> {
    match h
    case CSystem => if section <= C_SECTION then Some(C_SECTION) else None
    case CppSystem => if section <= CPP_SECTION then Some(CPP_SECTION) else None
    case LikelyMine => Some(if section <= MY_H then MY_H else OTHER_H)
    case PossiblyMine => Some(if section <= MY_H then MY_H else OTHER_H)
    case Other => Some(OTHER_H)
  }

  class IncludeState {
    var section: nat
    var lastHeader: string

    constructor ()
      ensures section == INITIAL && lastHeader == ""
    {
      section, lastHeader := INITIAL, "";
    }

    method CheckNextIncludeOrder(h: Header) returns (error: Option<OutOfOrder>)
      requires section <= OTHER_H
      modifies this
      ensures old(section) <= section <= OTHER_H
      ensures Some(section) == if error.None? then Successor(old(section), h) else Some(old(section))
      ensures error == if Successor(old(section), h).None? then Some(OutOfOrder(h, old(section))) else None
      ensures lastHeader == if error.Some? || section != old(section) then "" else old(lastHeader)
    {
      var lastSection := section;
      match h {
        case CSystem =>
          if section <= C_SECTION {
            section := C_SECTION;
          } else {
            lastHeader := "";
            return Some(OutOfOrder(h, section));
          }
        case CppSystem =>
          if section <= CPP_SECTION {
            section := CPP_SECTION;
          } else {
            lastHeader := "";
            return Some(OutOfOrder(h, section));
          }
        case Other => section := OTHER_H;
        case _ => section := if section <= MY_H then MY_H else OTHER_H;
      }
      if lastSection != section {
        lastHeader := "";
      }
      error := None;
    }

    /** Checks a whole file from the initial section: clean exactly for the words of the language. */
    method CheckAll(headers: seq<Header>) returns (clean: bool)
      modifies this
      ensures clean <==> InLanguage(headers)
    {
      section, lastHeader := INITIAL, "";
      clean := true;
      for i := 0 to |headers|
        invariant section <= OTHER_H
        invariant Accepts(INITIAL, headers) <==> clean && Accepts(section, headers[i..])
      {
        assert headers[i..][1..] == headers[i + 1..];
        var error := CheckNextIncludeOrder(headers[i]);
        if error.Some? {
          clean := false;
        }
      }
      AcceptedLanguage(INITIAL, headers);
    }
  }

  /** No header of the word is out of order. */
  predicate Accepts(section: nat, word: seq<Header>)
    decreases |word|
  {
    word == [] || var next := Successor(section, word[0]); next.Some? && Accepts(next.value, word[1..])
  }

  predicate Mine(h: Header) { h.LikelyMine? || h.PossiblyMine? }

  /** `word` is own headers up to `i`, C headers up to `j`, C++ headers up to `k`, then own or other headers. */
  predicate SplitsAt(word: seq<Header>, i: nat, j: nat, k: nat) {
    && i <= j <= k <= |word|
    && (forall n :: 0 <= n < i ==> Mine(word[n]))
    && (forall n :: i <= n < j ==> word[n].CSystem?)
    && (forall n :: j <= n < k ==> word[n].CppSystem?)
    && (forall n :: k <= n < |word| ==> Mine(word[n]) || word[n].Other?)
  }

  /** The words `M* C* X* (M|O)*`. */
  ghost predicate InLanguage(word: seq<Header>) {
    exists i: nat, j: nat, k: nat :: SplitsAt(word, i, j, k)
  }

  /** What may still come in `section`: the stretches before it must be empty. */
  ghost predicate InLanguageFrom(section: nat, word: seq<Header>) {
    exists i: nat, j: nat, k: nat :: SplitsAt(word, i, j, k) && Reachable(section, i, j, k)
  }

  predicate Reachable(section: nat, i: nat, j: nat, k: nat) {
    (section >= C_SECTION ==> i == 0) && (section >= CPP_SECTION ==> j == 0) && (section >= OTHER_H ==> k == 0)
  }

  lemma {:induction false} AcceptedLanguage(section: nat, word: seq<Header>)
    requires section <= OTHER_H
    ensures Accepts(section, word) <==> InLanguageFrom(section, word)
    decreases |word|
  {
    if word == [] {
      assert SplitsAt(word, 0, 0, 0);
    } else {
      var next := Successor(section, word[0]);
      if next.Some? {
        AcceptedLanguage(next.value, word[1..]);
        if InLanguageFrom(next.value, word[1..]) {
          PrependHeader(section, word);
        }
      }
      if InLanguageFrom(section, word) {
        DropHeader(section, word);
      }
    }
  }

  lemma PrependHeader(section: nat, word: seq<Header>)
    requires section <= OTHER_H && word != [] && Successor(section, word[0]).Some?
    requires InLanguageFrom(Successor(section, word[0]).value, word[1..])
    ensures InLanguageFrom(section, word)
  {
    var s := Successor(section, word[0]).value;
    var i: nat, j: nat, k: nat :| SplitsAt(word[1..], i, j, k) && Reachable(s, i, j, k);
    if s == MY_H {
      assert SplitsAt(word, i + 1, j + 1, k + 1);
    } else if s == C_SECTION {
      assert SplitsAt(word, 0, j + 1, k + 1);
    } else if s == CPP_SECTION {
      assert SplitsAt(word, 0, 0, k + 1);
    } else {
      assert SplitsAt(word, 0, 0, 0);
    }
  }

  lemma DropHeader(section: nat, word: seq<Header>)
    requires section <= OTHER_H && word != [] && InLanguageFrom(section, word)
    ensures Successor(section, word[0]).Some?
    ensures InLanguageFrom(Successor(section, word[0]).value, word[1..])
  {
    var i: nat, j: nat, k: nat :| SplitsAt(word, i, j, k) && Reachable(section, i, j, k);
    var i', j', k' := if i > 0 then i - 1 else 0, if j > 0 then j - 1 else 0, if k > 0 then k - 1 else 0;
    assert SplitsAt(word[1..], i', j', k');
    assert Reachable(Successor(section, word[0]).value, i', j', k');
  }
}
