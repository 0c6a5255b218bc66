/**
  The regular-expression matcher of grep.c: the mutually recursive matchhere() and matchstar()
  and the scan in match(), against a declarative meaning of patterns.  Strings are the
  characters before the terminating NUL.
 */
module Grep {
  ghost predicate CString(s: string) {
    '\0' !in s
  }

  /** *p for a pointer to the start of s. */
  function First(s: string): char {
    if s == [] then '\0' else s[0]
  }

  /** A pattern is a sequence of these: a character ('.' for any), a starred character, a final '$'. */
  datatype Atom = One(c: char) | Star(c: char) | End

  function Atoms(re: string): (r: seq<Atom>) {
    if re == [] then []
    else if |re| >= 2 && re[1] == '*' then [Star(re[0])] + Atoms(re[2..])
    else if re == "$" then [End]
    else [One(re[0])] + Atoms(re[1..])
  }

  predicate Accepts(c: char, x: char) {
    c == '.' || x == c
  }

  /** The words an atom stands for. */
  ghost predicate Fits(a: Atom, w: string) {
    match a
    case One(c) => |w| == 1 && Accepts(c, w[0])
    case Star(c) => forall i :: 0 <= i < |w| ==> Accepts(c, w[i])
    case End => w == []
  }

  function Concat(parts: seq<string>): (r: string) {
    if parts == [] then [] else parts[0] + Concat(parts[1..])
  }

  ghost predicate AllFit(atoms: seq<Atom>, parts: seq<string>) {
    |parts| == |atoms| && forall i :: 0 <= i < |atoms| ==> Fits(atoms[i], parts[i])
  }

  ghost predicate Anchored(atoms: seq<Atom>) {
    |atoms| > 0 && atoms[|atoms| - 1] == End
  }

  /** text starts with words the atoms stand for, and with a final '$' there is nothing after them. */
  ghost predicate Splits(atoms: seq<Atom>, text: string, parts: seq<string>, rest: string) {
    text == Concat(parts) + rest && AllFit(atoms, parts) && (Anchored(atoms) ==> rest == [])
  }

  ghost predicate MatchesAt(atoms: seq<Atom>, text: string) {
    exists parts, rest :: Splits(atoms, text, parts, rest)
  }

  /** The meaning of a whole pattern: '^' binds it to the start, otherwise it may match from any position. */
  ghost predicate Matches(re: string, text: string) {
    if First(re) == '^' then MatchesAt(Atoms(re[1..]), text)
    else exists k :: 0 <= k <= |text| && MatchesAt(Atoms(re), text[k..])
  }

  lemma MatchesNothing(text: string)
    ensures MatchesAt([], text)
  {
    assert Splits([], text, [], text);
  }

  lemma MatchesEnd(text: string)
    ensures MatchesAt([End], text) <==> text == []
  {
    if text == [] {
      assert Concat([[]]) == [] by {
        assert Concat([[]]) == [] + Concat([]);
      }
      assert Splits([End], text, [[]], []);
    }
    forall parts, rest | Splits([End], text, parts, rest) ensures text == [] {
      assert Concat(parts) == parts[0] + Concat(parts[1..]);
    }
  }

  /** The first atom takes some prefix, the others match what follows. */
  lemma MatchesCons(a: Atom, atoms: seq<Atom>, text: string)
    requires a != End
    ensures MatchesAt([a] + atoms, text) <==>
              exists k :: 0 <= k <= |text| && Fits(a, text[..k]) && MatchesAt(atoms, text[k..])
  {
    var all := [a] + atoms;
    forall parts, rest | Splits(all, text, parts, rest)
      ensures exists k :: 0 <= k <= |text| && Fits(a, text[..k]) && MatchesAt(atoms, text[k..])
    {
      var k := |parts[0]|;
      assert Concat(parts) == parts[0] + Concat(parts[1..]);
      assert text == parts[0] + (Concat(parts[1..]) + rest);
      assert text[..k] == parts[0] && text[k..] == Concat(parts[1..]) + rest;
      assert Fits(all[0], parts[0]);
      forall i | 0 <= i < |atoms| ensures Fits(atoms[i], parts[1..][i]) {
        assert Fits(all[i + 1], parts[i + 1]);
      }
      assert Splits(atoms, text[k..], parts[1..], rest);
    }
    forall k | 0 <= k <= |text| && Fits(a, text[..k]) && MatchesAt(atoms, text[k..]) ensures MatchesAt(all, text) {
      var parts, rest :| Splits(atoms, text[k..], parts, rest);
      var ps := [text[..k]] + parts;
      assert ps[1..] == parts;
      assert text == Concat(ps) + rest;
      assert Splits(all, text, ps, rest);
    }
  }

  lemma MatchesOne(c: char, atoms: seq<Atom>, text: string)
    ensures MatchesAt([One(c)] + atoms, text) <==> text != [] && Accepts(c, text[0]) && MatchesAt(atoms, text[1..])
  {
    MatchesCons(One(c), atoms, text);
    if text != [] && Accepts(c, text[0]) {
      assert Fits(One(c), text[..1]);
    }
  }

  /** matchhere(): does the pattern match at the start of text? */
  method MatchHere(re: string, text: string) returns (r: bool)
    requires CString(re) && CString(text)
    ensures r <==> MatchesAt(Atoms(re), text)
    decreases |re|, 0
  {
    hide MatchesAt;
    if re == [] {
      MatchesNothing(text);
      return true;
    }
    if |re| >= 2 && re[1] == '*' {
      r := MatchStar(re[0], re[2..], text);
      return;
    }
    if re[0] == '$' && |re| == 1 {
      MatchesEnd(text);
      return text == [];
    }
    MatchesOne(re[0], Atoms(re[1..]), text);
    if text != [] && (re[0] == '.' || re[0] == text[0]) {
      r := MatchHere(re[1..], text[1..]);
      return;
    }
    return false;
  }

  /** matchstar(): does c* followed by the pattern match at the start of text? */
  method MatchStar(c: char, re: string, text: string) returns (r: bool)
    requires CString(re) && CString(text)
    ensures r <==> MatchesAt([Star(c)] + Atoms(re), text)
    decreases |re|, 1
  {
    hide MatchesAt, Atoms;
    MatchesCons(Star(c), Atoms(re), text);
    var k := 0;
    while true
      invariant 0 <= k <= |text|
      invariant forall j :: 0 <= j < k ==> Accepts(c, text[j])
      invariant forall j :: 0 <= j < k ==> !MatchesAt(Atoms(re), text[j..])
      decreases |text| - k
    {
      var here := MatchHere(re, text[k..]);
      if here {
        assert Fits(Star(c), text[..k]);
        return true;
      }
      if k == |text| || !(text[k] == c || c == '.') {
        forall j | 0 <= j <= |text| && Fits(Star(c), text[..j]) ensures !MatchesAt(Atoms(re), text[j..]) {
          assert j > k ==> Accepts(c, text[..j][k]);
        }
        return false;
      }
      k := k + 1;
    }
  }

  /** match(): it answers exactly the meaning of the pattern, for every pattern and text. */
  method Match(re: string, text: string) returns (r: bool)
    requires CString(re) && CString(text)
    ensures r <==> Matches(re, text)
  {
    hide MatchesAt, Atoms;
    if First(re) == '^' {
      r := MatchHere(re[1..], text);
      return;
    }
    var k := 0;
    while true
      invariant 0 <= k <= |text|
      invariant forall j :: 0 <= j < k ==> !MatchesAt(Atoms(re), text[j..])
      decreases |text| - k
    {
      var here := MatchHere(re, text[k..]);
      if here {
        return true;
      }
      if k == |text| {
        return false;
      }
      k := k + 1;
    }
  }
}
