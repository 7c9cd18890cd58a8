/** Symbols and productions of the grammar, and the classification of symbols
    into nonterminals and terminals that the analyser derives from them. */
module Symbols {

  /** The reserved symbol that stands for the empty string. */
  const Epsilon: char := '#'

  /** The sentinel appended to the input and seeded into FOLLOW of the start symbol. */
  const EndMarker: char := '$'

  /** The C library's isupper in the default locale. */
  predicate IsUpper(c: char) {
    'A' <= c <= 'Z'
  }

  /** A production is the text `<LHS><separator><RHS>`: one left-hand character,
      one separator character, then the right-hand symbols. */
  type Production = string

  /** Every production has its left-hand side and its separator, so that
      `p[0]` and `p[2..]` (the source's `substr(2)`) are defined. */
  predicate WellFormed(ps: seq<Production>) {
    forall p :: p in ps ==> |p| >= 2
  }

  /** The uppercase characters of `s`, accumulated left to right. */
  function UpperIn(s: string): set<char>
    decreases |s|
  {
    if s == [] then {}
    else UpperIn(s[..|s| - 1]) + (if IsUpper(s[|s| - 1]) then {s[|s| - 1]} else {})
  }

  /** The characters of `s` that are neither uppercase nor the epsilon marker. */
  function OtherIn(s: string): set<char>
    decreases |s|
  {
    if s == [] then {}
    else
      var c := s[|s| - 1];
      OtherIn(s[..|s| - 1]) + (if !IsUpper(c) && c != Epsilon then {c} else {})
  }

  /** The nonterminal set that extractSymbols accumulates over the productions in order. */
  function NonterminalsOf(ps: seq<Production>): set<char>
    requires WellFormed(ps)
    decreases |ps|
  {
    if ps == [] then {}
    else
      var p := ps[|ps| - 1];
      NonterminalsOf(ps[..|ps| - 1]) + {p[0]} + UpperIn(p[2..])
  }

  /** The terminals that extractSymbols accumulates, before the end marker is added. */
  function RhsTerminalsOf(ps: seq<Production>): set<char>
    requires WellFormed(ps)
    decreases |ps|
  {
    if ps == [] then {}
    else RhsTerminalsOf(ps[..|ps| - 1]) + OtherIn(ps[|ps| - 1][2..])
  }

  /** The terminal set after extractSymbols: the right-hand terminals and the end marker. */
  function TerminalsOf(ps: seq<Production>): set<char>
    requires WellFormed(ps)
  {
    RhsTerminalsOf(ps) + {EndMarker}
  }

  /** The symbol folds over the first k + 1 productions extend those over the
      first k by production k. */
  lemma SymbolsOfPrefix(ps: seq<Production>, k: nat)
    requires WellFormed(ps) && k < |ps|
    ensures NonterminalsOf(ps[..k + 1]) == NonterminalsOf(ps[..k]) + {ps[k][0]} + UpperIn(ps[k][2..])
    ensures RhsTerminalsOf(ps[..k + 1]) == RhsTerminalsOf(ps[..k]) + OtherIn(ps[k][2..])
  {
    assert ps[..k + 1][..k] == ps[..k];
  }

  /** The character folds over a right-hand side up to position i + 1 extend
      those up to position i by character i. */
  lemma SymbolsInPrefix(p: string, i: nat)
    requires 2 <= i < |p|
    ensures UpperIn(p[2..i + 1]) == UpperIn(p[2..i]) + (if IsUpper(p[i]) then {p[i]} else {})
    ensures OtherIn(p[2..i + 1]) == OtherIn(p[2..i]) + (if !IsUpper(p[i]) && p[i] != Epsilon then {p[i]} else {})
  {
    assert p[2..i + 1][..i - 2] == p[2..i];
  }

  /** `c` occurs in production `p` in a position that makes it a nonterminal. */
  predicate OccursAsNonterminal(p: Production, c: char)
    requires |p| >= 2
  {
    c == p[0] || (IsUpper(c) && c in p[2..])
  }

  /** `c` occurs in the right-hand side of `p` as an ordinary terminal. */
  predicate OccursAsTerminal(p: Production, c: char)
    requires |p| >= 2
  {
    c in p[2..] && !IsUpper(c) && c != Epsilon
  }

  lemma {:induction false} UpperInMembers(s: string, c: char)
    ensures c in UpperIn(s) <==> c in s && IsUpper(c)
    decreases |s|
  {
    if s != [] {
      UpperInMembers(s[..|s| - 1], c);
      assert s == s[..|s| - 1] + [s[|s| - 1]];
    }
  }

  lemma {:induction false} OtherInMembers(s: string, c: char)
    ensures c in OtherIn(s) <==> c in s && !IsUpper(c) && c != Epsilon
    decreases |s|
  {
    if s != [] {
      OtherInMembers(s[..|s| - 1], c);
      assert s == s[..|s| - 1] + [s[|s| - 1]];
    }
  }

  /** After extractSymbols, a character is a nonterminal exactly when it is the
      left-hand side of some production or an uppercase right-hand character. */
  lemma {:induction false} NonterminalsOfMembers(ps: seq<Production>, c: char)
    requires WellFormed(ps)
    ensures c in NonterminalsOf(ps) <==> exists p :: p in ps && OccursAsNonterminal(p, c)
    decreases |ps|
  {
    if ps != [] {
      var init, p := ps[..|ps| - 1], ps[|ps| - 1];
      NonterminalsOfMembers(init, c);
      UpperInMembers(p[2..], c);
      assert ps == init + [p];
      if c in NonterminalsOf(ps) && !(c == p[0] || c in UpperIn(p[2..])) {
        var q :| q in init && OccursAsNonterminal(q, c);
        assert q in ps;
      }
    }
  }

  /** After extractSymbols, a character is a terminal exactly when it is the end
      marker or a right-hand character that is neither uppercase nor epsilon. */
  lemma {:induction false} TerminalsOfMembers(ps: seq<Production>, c: char)
    requires WellFormed(ps)
    ensures c in TerminalsOf(ps) <==> c == EndMarker || exists p :: p in ps && OccursAsTerminal(p, c)
  {
    RhsTerminalsOfMembers(ps, c);
  }

  lemma {:induction false} RhsTerminalsOfMembers(ps: seq<Production>, c: char)
    requires WellFormed(ps)
    ensures c in RhsTerminalsOf(ps) <==> exists p :: p in ps && OccursAsTerminal(p, c)
    decreases |ps|
  {
    if ps != [] {
      var init, p := ps[..|ps| - 1], ps[|ps| - 1];
      RhsTerminalsOfMembers(init, c);
      OtherInMembers(p[2..], c);
      assert ps == init + [p];
      if c in RhsTerminalsOf(ps) && c !in OtherIn(p[2..]) {
        var q :| q in init && OccursAsTerminal(q, c);
        assert q in ps;
      }
    }
  }

  /** FIRST and FOLLOW classify a right-hand character with isupper, the parser
      with membership in the nonterminal set. The two agree on every right-hand
      character when every left-hand side is uppercase (the converse fails:
      a lowercase left side that never occurs on a right-hand side does no harm). */
  lemma NonterminalAgreesWithUpper(ps: seq<Production>, p: Production, c: char)
    requires WellFormed(ps)
    requires forall q :: q in ps ==> IsUpper(q[0])
    requires p in ps && c in p[2..]
    ensures c in NonterminalsOf(ps) <==> IsUpper(c)
  {
    NonterminalsOfMembers(ps, c);
  }

  /** Without uppercase left-hand sides the two classifications part: in the
      grammar S>a, a>b the right-hand `a` is a nonterminal for the parser but a
      terminal for FIRST and FOLLOW. */
  lemma LowercaseLhsDisagrees()
    ensures var ps := ["S>a", "a>b"];
      WellFormed(ps) && 'a' in ps[0][2..] && 'a' in NonterminalsOf(ps) && !IsUpper('a')
  {
    var ps := ["S>a", "a>b"];
    NonterminalsOfMembers(ps, 'a');
    assert OccursAsNonterminal(ps[1], 'a');
  }

  /** Every left-hand side and every uppercase right-hand character of the
      grammar is one of its nonterminals. */
  lemma NonterminalsCover(ps: seq<Production>)
    requires WellFormed(ps)
    ensures forall p :: p in ps ==> p[0] in NonterminalsOf(ps)
    ensures forall p, j :: p in ps && 2 <= j < |p| && IsUpper(p[j]) ==> p[j] in NonterminalsOf(ps)
  {
    forall p | p in ps
      ensures p[0] in NonterminalsOf(ps)
    {
      NonterminalsOfMembers(ps, p[0]);
      assert OccursAsNonterminal(p, p[0]);
    }
    forall p, j | p in ps && 2 <= j < |p| && IsUpper(p[j])
      ensures p[j] in NonterminalsOf(ps)
    {
      assert p[2..][j - 2] == p[j];
      NonterminalsOfMembers(ps, p[j]);
      assert OccursAsNonterminal(p, p[j]);
    }
  }

  /** The left-hand side of the first production, the start symbol, is a nonterminal. */
  lemma StartIsNonterminal(ps: seq<Production>)
    requires WellFormed(ps) && |ps| >= 1
    ensures ps[0][0] in NonterminalsOf(ps)
  {
    NonterminalsOfMembers(ps, ps[0][0]);
    assert OccursAsNonterminal(ps[0], ps[0][0]);
  }
}
