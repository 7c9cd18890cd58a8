/** The FIRST-set engine: FIRST of a symbol string, one pass of the source's
    fixed-point loop, and the closure equations that its result satisfies. */
module FirstSets {
  import opened Symbols
  import opened SetMaps

  /** Every symbol of `s` is a nonterminal whose FIRST set holds epsilon. */
  ghost predicate AllNullable(first: SymbolSets, s: string) {
    forall i :: 0 <= i < |s| ==> IsUpper(s[i]) && Epsilon in Get(first, s[i])
  }

  /** computeFirstOfString: scan left to right; a non-uppercase symbol
      contributes itself and stops the scan; a nonterminal contributes its
      non-epsilon FIRST members and lets the scan go on only if its FIRST set
      holds epsilon; epsilon is in the result when the scan runs off the end. */
  function FirstOfString(first: SymbolSets, s: string): (r: set<char>)
    ensures s == [] ==> r == {Epsilon}
    ensures s != [] && !IsUpper(s[0]) ==> r == {s[0]}
    ensures Epsilon !in s ==> (Epsilon in r <==> AllNullable(first, s))
    decreases |s|
  {
    if s == [] then {Epsilon}
    else if !IsUpper(s[0]) then {s[0]}
    else
      var f := Get(first, s[0]);
      assert AllNullable(first, s) <==> Epsilon in f && AllNullable(first, s[1..]) by {
        if Epsilon in f && AllNullable(first, s[1..]) {
          forall i | 1 <= i < |s| ensures IsUpper(s[i]) && Epsilon in Get(first, s[i]) {
            assert s[i] == s[1..][i - 1];
          }
        }
      }
      (f - {Epsilon}) + (if Epsilon in f then FirstOfString(first, s[1..]) else {})
  }

  /** The inner loop of computeFirstSets over one right-hand side `w` of
      production `lhs -> w`, inserting into FIRST(lhs) in place. */
  ghost function ScanRhs(first: SymbolSets, lhs: char, w: string): (r: SymbolSets)
    ensures Le(first, r)
    ensures r.Keys <= first.Keys + {lhs}
    ensures forall j :: j != lhs ==> Get(r, j) == Get(first, j)
    decreases |w|
  {
    if w == [] then first
    else if !IsUpper(w[0]) then AddAll(first, lhs, {w[0]})
    else
      var s := Get(first, w[0]);
      var first' := AddAll(first, lhs, s - {Epsilon});
      if Epsilon !in s then first'
      else if |w| == 1 then AddAll(first', lhs, {Epsilon})
      else ScanRhs(first', lhs, w[1..])
  }

  /** One production's turn within a pass of computeFirstSets. */
  ghost function FirstStep(first: SymbolSets, p: Production): (r: SymbolSets)
    requires |p| >= 2
    ensures Le(first, r)
    ensures r.Keys <= first.Keys + {p[0]}
    ensures forall j :: j != p[0] ==> Get(r, j) == Get(first, j)
  {
    if p[2..] == [Epsilon] then AddAll(first, p[0], {Epsilon})
    else ScanRhs(first, p[0], p[2..])
  }

  /** One pass of the `while (changed)` loop: every production in order, each
      seeing the updates of those before it. A pass only ever grows the sets. */
  ghost function FirstPass(first: SymbolSets, ps: seq<Production>): (r: SymbolSets)
    requires WellFormed(ps)
    ensures Le(first, r)
    decreases |ps|
  {
    if ps == [] then first
    else FirstStep(FirstPass(first, ps[..|ps| - 1]), ps[|ps| - 1])
  }

  /** A pass over the first k + 1 productions is the pass over the first k
      followed by production k's turn. */
  lemma FirstPassPrefix(first: SymbolSets, ps: seq<Production>, k: nat)
    requires WellFormed(ps) && k < |ps|
    ensures FirstPass(first, ps[..k + 1]) == FirstStep(FirstPass(first, ps[..k]), ps[k])
  {
    assert ps[..k + 1][..k] == ps[..k];
  }

  /** The FIRST alphabet holds epsilon and every right-hand character. */
  lemma FirstAlphabetCovers(ps: seq<Production>)
    ensures Epsilon in FirstAlphabet(ps)
    ensures forall p, j :: p in ps && 2 <= j < |p| ==> p[j] in FirstAlphabet(ps)
  {
  }

  /** Scanning a right-hand side whose characters lie in `alphabet` keeps the
      keys and keeps every set within `alphabet`. */
  lemma {:induction false} ScanRhsBounded(first: SymbolSets, lhs: char, w: string, keys: set<char>, alphabet: set<char>)
    requires first.Keys == keys && lhs in keys && Bounded(first, keys, alphabet)
    requires Epsilon in alphabet && forall j :: 0 <= j < |w| ==> w[j] in alphabet
    ensures ScanRhs(first, lhs, w).Keys == keys && Bounded(ScanRhs(first, lhs, w), keys, alphabet)
    decreases |w|
  {
    if w != [] && IsUpper(w[0]) {
      var s := Get(first, w[0]);
      var first' := AddAll(first, lhs, s - {Epsilon});
      if Epsilon in s && |w| > 1 {
        assert forall j :: 0 <= j < |w| - 1 ==> w[1..][j] == w[j + 1];
        ScanRhsBounded(first', lhs, w[1..], keys, alphabet);
      }
    }
  }

  /** A pass keeps the keys when every left-hand side is one of them, and keeps
      the FIRST sets within an alphabet that holds epsilon and every right-hand
      character: no pass invents a symbol. */
  lemma {:induction false} FirstPassBounded(first: SymbolSets, ps: seq<Production>, keys: set<char>, alphabet: set<char>)
    requires WellFormed(ps) && first.Keys == keys && Bounded(first, keys, alphabet) && Epsilon in alphabet
    requires forall p :: p in ps ==> p[0] in keys
    requires forall p, j :: p in ps && 2 <= j < |p| ==> p[j] in alphabet
    ensures FirstPass(first, ps).Keys == keys && Bounded(FirstPass(first, ps), keys, alphabet)
    decreases |ps|
  {
    if ps != [] {
      var init, last := ps[..|ps| - 1], ps[|ps| - 1];
      assert forall p :: p in init ==> p in ps;
      FirstPassBounded(first, init, keys, alphabet);
      assert forall j :: 0 <= j < |last[2..]| ==> last[2..][j] == last[j + 2];
      ScanRhsBounded(FirstPass(first, init), last[0], last[2..], keys, alphabet);
    }
  }

  /** Production k's turn extends a pass over the first k productions to the
      first k + 1; the pass has changed the map exactly when an earlier turn or
      this one did. */
  lemma FirstPassExtend(first: SymbolSets, ps: seq<Production>, k: nat, before: SymbolSets, after: SymbolSets, changed: bool, added: bool)
    requires WellFormed(ps) && k < |ps|
    requires before == FirstPass(first, ps[..k]) && after == FirstStep(before, ps[k])
    requires (changed <==> before != first) && (added <==> after != before)
    ensures after == FirstPass(first, ps[..k + 1])
    ensures changed || added <==> after != first
  {
    FirstPassPrefix(first, ps, k);
    GrowStep(first, before, after, changed, added);
  }

  /** The FIRST closure equations: for every production with a non-empty
      right-hand side, FIRST of that side is contained in FIRST of its left side. */
  ghost predicate FirstClosed(first: SymbolSets, ps: seq<Production>) {
    forall p :: p in ps && |p| > 2 ==> FirstOfString(first, p[2..]) <= Get(first, p[0])
  }

  /** The symbols a FIRST set can ever hold: right-hand characters and epsilon. */
  ghost function FirstAlphabet(ps: seq<Production>): set<char> {
    (set p, j | p in ps && 2 <= j < |p| :: p[j]) + {Epsilon}
  }

  /** Scanning a right-hand side changes nothing exactly when FIRST of that side
      is already contained in FIRST(lhs). */
  lemma {:induction false} ScanRhsFixedIff(first: SymbolSets, lhs: char, w: string)
    ensures ScanRhs(first, lhs, w) == first <==> (w != [] ==> FirstOfString(first, w) <= Get(first, lhs))
    decreases |w|
  {
    if w != [] && IsUpper(w[0]) {
      var s := Get(first, w[0]);
      var first' := AddAll(first, lhs, s - {Epsilon});
      if Epsilon in s {
        if |w| == 1 {
          assert w[1..] == [];
          if ScanRhs(first, lhs, w) == first {
            LeAntisymmetric(first, first');
          }
        } else {
          if ScanRhs(first, lhs, w) == first {
            LeAntisymmetric(first, first');
          }
          if s - {Epsilon} <= Get(first, lhs) {
            ScanRhsFixedIff(first, lhs, w[1..]);
          }
        }
      }
    }
  }

  lemma FirstStepFixedIff(first: SymbolSets, p: Production)
    requires |p| >= 2
    ensures FirstStep(first, p) == first <==> (|p| > 2 ==> FirstOfString(first, p[2..]) <= Get(first, p[0]))
  {
    ScanRhsFixedIff(first, p[0], p[2..]);
  }

  /** The loop of computeFirstSets stops when a pass changes nothing; such a map
      is exactly one that satisfies the FIRST closure equations. */
  lemma {:induction false} FirstFixedPointIffClosed(first: SymbolSets, ps: seq<Production>)
    requires WellFormed(ps)
    ensures FirstPass(first, ps) == first <==> FirstClosed(first, ps)
    decreases |ps|
  {
    if ps != [] {
      var init, last := ps[..|ps| - 1], ps[|ps| - 1];
      assert ps == init + [last];
      var m := FirstPass(first, init);
      FirstStepFixedIff(first, last);
      if FirstPass(first, ps) == first {
        LeAntisymmetric(first, m);
        FirstFixedPointIffClosed(first, init);
      }
      if FirstClosed(first, ps) {
        assert FirstClosed(first, init);
        FirstFixedPointIffClosed(first, init);
      }
    }
  }

  /** A scan starting below a map `g` stays below it when `g` already satisfies
      the closure equation of this right-hand side. */
  lemma {:induction false} ScanRhsWithin(first: SymbolSets, g: SymbolSets, lhs: char, w: string)
    requires SubsetOf(first, g)
    requires w != [] ==> FirstOfString(g, w) <= Get(g, lhs)
    ensures SubsetOf(ScanRhs(first, lhs, w), g)
    decreases |w|
  {
    if w != [] && IsUpper(w[0]) {
      var s := Get(first, w[0]);
      assert Get(g, w[0]) - {Epsilon} <= FirstOfString(g, w);
      var first' := AddAll(first, lhs, s - {Epsilon});
      if Epsilon in s && |w| > 1 {
        ScanRhsWithin(first', g, lhs, w[1..]);
      }
    }
  }

  /** Every pass starting below a solution `g` of the closure equations stays
      below it; so the loop of computeFirstSets never overshoots the least solution. */
  lemma {:induction false} FirstPassWithin(first: SymbolSets, g: SymbolSets, ps: seq<Production>)
    requires WellFormed(ps)
    requires SubsetOf(first, g) && FirstClosed(g, ps)
    ensures SubsetOf(FirstPass(first, ps), g)
    decreases |ps|
  {
    if ps != [] {
      var init, last := ps[..|ps| - 1], ps[|ps| - 1];
      assert ps == init + [last];
      assert FirstClosed(g, init);
      FirstPassWithin(first, g, init);
      ScanRhsWithin(FirstPass(first, init), g, last[0], last[2..]);
    }
  }

  /** `m` lies within every solution of the FIRST closure equations. */
  ghost predicate WithinFirstSolutions(m: SymbolSets, ps: seq<Production>) {
    forall g :: FirstClosed(g, ps) ==> SubsetOf(m, g)
  }

  /** What the outer loop of computeFirstSets keeps between rounds: one set
      per nonterminal, each within the symbols FIRST can hold, and the whole
      map within every solution of the FIRST equations. */
  ghost predicate FirstProgress(m: SymbolSets, ps: seq<Production>) {
    && WellFormed(ps)
    && m.Keys == NonterminalsOf(ps)
    && Bounded(m, NonterminalsOf(ps), FirstAlphabet(ps))
    && WithinFirstSolutions(m, ps)
  }

  /** The cleared table is where the outer loop begins. */
  lemma FirstSeed(m: SymbolSets, ps: seq<Production>)
    requires WellFormed(ps) && m == map nt | nt in NonterminalsOf(ps) :: {}
    ensures FirstProgress(m, ps)
  {
    assert forall k :: Get(m, k) == {};
  }

  /** One round of computeFirstSets, seen from its outer loop: the progress
      facts are kept, a round that reports no change has reached a fixed
      point, and one that reports a change has filled in at least one missing
      pair. */
  lemma FirstRoundStep(start: SymbolSets, next: SymbolSets, ps: seq<Production>, keys: set<char>, alphabet: set<char>, changed: bool)
    requires WellFormed(ps) && next == FirstPass(start, ps) && (changed <==> next != start)
    requires keys == NonterminalsOf(ps) && alphabet == FirstAlphabet(ps)
    requires FirstProgress(start, ps)
    ensures FirstProgress(next, ps)
    ensures !changed ==> FirstPass(next, ps) == next
    ensures changed ==> Missing(next, keys, alphabet) < Missing(start, keys, alphabet)
  {
    NonterminalsCover(ps);
    FirstAlphabetCovers(ps);
    FirstPassBounded(start, ps, keys, alphabet);
    if changed {
      GrowthShrinksMissing(start, next, keys, alphabet);
    }
    forall g | FirstClosed(g, ps)
      ensures SubsetOf(next, g)
    {
      FirstPassWithin(start, g, ps);
    }
  }

  /** When a round changes nothing, the map reached is the least FIRST table:
      it satisfies the closure equations and lies within every other table
      that does. */
  lemma FirstDone(m: SymbolSets, ps: seq<Production>)
    requires FirstProgress(m, ps) && FirstPass(m, ps) == m
    ensures m.Keys == NonterminalsOf(ps)
    ensures FirstClosed(m, ps)
    ensures forall g :: FirstClosed(g, ps) ==> SubsetOf(m, g)
  {
    FirstFixedPointIffClosed(m, ps);
  }

  /** A production whose right-hand side is exactly epsilon puts epsilon into
      FIRST of its left side, in every solution of the closure equations. */
  lemma EpsilonProductionInFirst(first: SymbolSets, ps: seq<Production>, p: Production)
    requires FirstClosed(first, ps)
    requires p in ps && |p| >= 2 && p[2..] == [Epsilon]
    ensures Epsilon in Get(first, p[0])
  {
  }
}
