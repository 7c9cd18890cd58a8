/** The FOLLOW-set engine: one pass of the source's second fixed-point loop and
    the closure equations its result satisfies, given converged FIRST sets. */
module FollowSets {
  import opened Symbols
  import opened SetMaps
  import opened FirstSets

  /** No FOLLOW set holds the epsilon marker. */
  ghost predicate NoEpsilon(follow: SymbolSets) {
    forall k :: Epsilon !in Get(follow, k)
  }

  /** The body of computeFollowSets for one nonterminal occurrence `x` followed
      by `suffix` in a production of `lhs`: the non-epsilon members of FIRST of
      the suffix go into FOLLOW(x), and when the suffix is empty or can vanish,
      so do the members of FOLLOW(lhs). */
  ghost function FollowAt(follow: SymbolSets, first: SymbolSets, lhs: char, x: char, suffix: string): (r: SymbolSets)
    ensures Le(follow, r)
    ensures r.Keys <= follow.Keys + {x}
    ensures forall j :: j != x ==> Get(r, j) == Get(follow, j)
    ensures NoEpsilon(follow) ==> NoEpsilon(r)
  {
    var fs := FirstOfString(first, suffix);
    var f1 := AddAll(follow, x, fs - {Epsilon});
    if Epsilon in fs || suffix == [] then AddAll(f1, x, Get(f1, lhs)) else f1
  }

  /** The closure equation of one nonterminal occurrence. */
  ghost predicate FollowAtClosed(follow: SymbolSets, first: SymbolSets, lhs: char, x: char, suffix: string) {
    var fs := FirstOfString(first, suffix);
    && fs - {Epsilon} <= Get(follow, x)
    && (Epsilon in fs || suffix == [] ==> Get(follow, lhs) <= Get(follow, x))
  }

  /** The loop over the positions of one right-hand side `w`, updating in place;
      non-uppercase positions are skipped. */
  ghost function ScanFollow(follow: SymbolSets, first: SymbolSets, lhs: char, w: string): (r: SymbolSets)
    ensures Le(follow, r)
    ensures r.Keys <= follow.Keys + UpperIn(w)
    ensures NoEpsilon(follow) ==> NoEpsilon(r)
    decreases |w|
  {
    if w == [] then follow
    else
      var follow' := if IsUpper(w[0]) then FollowAt(follow, first, lhs, w[0], w[1..]) else follow;
      UpperInMembers(w, w[0]);
      assert UpperIn(w[1..]) <= UpperIn(w) by {
        forall c | c in UpperIn(w[1..]) ensures c in UpperIn(w) {
          UpperInMembers(w[1..], c);
          UpperInMembers(w, c);
        }
      }
      ScanFollow(follow', first, lhs, w[1..])
  }

  /** The closure equations of every nonterminal position of one right-hand side. */
  ghost predicate ScanClosed(follow: SymbolSets, first: SymbolSets, lhs: char, w: string) {
    forall i :: 0 <= i < |w| && IsUpper(w[i]) ==> FollowAtClosed(follow, first, lhs, w[i], w[i + 1..])
  }

  ghost function FollowStep(follow: SymbolSets, first: SymbolSets, p: Production): (r: SymbolSets)
    requires |p| >= 2
    ensures Le(follow, r)
    ensures NoEpsilon(follow) ==> NoEpsilon(r)
  {
    ScanFollow(follow, first, p[0], p[2..])
  }

  /** One pass of the `while (changed)` loop of computeFollowSets. */
  ghost function FollowPass(follow: SymbolSets, first: SymbolSets, ps: seq<Production>): (r: SymbolSets)
    requires WellFormed(ps)
    ensures Le(follow, r)
    ensures NoEpsilon(follow) ==> NoEpsilon(r)
    decreases |ps|
  {
    if ps == [] then follow
    else FollowStep(FollowPass(follow, first, ps[..|ps| - 1]), first, ps[|ps| - 1])
  }

  /** A pass over the first k + 1 productions is the pass over the first k
      followed by production k's turn. */
  lemma FollowPassPrefix(follow: SymbolSets, first: SymbolSets, ps: seq<Production>, k: nat)
    requires WellFormed(ps) && k < |ps|
    ensures FollowPass(follow, first, ps[..k + 1]) == FollowStep(FollowPass(follow, first, ps[..k]), first, ps[k])
  {
    assert ps[..k + 1][..k] == ps[..k];
  }

  /** The FOLLOW alphabet holds FIRST of every right-hand suffix. */
  lemma FollowAlphabetCovers(first: SymbolSets, ps: seq<Production>)
    ensures forall p, i :: p in ps && 2 <= i <= |p| ==> FirstOfString(first, p[i..]) <= FollowAlphabet(first, ps)
  {
  }

  /** Scanning one right-hand side keeps the keys when its uppercase
      characters are keys, and keeps the FOLLOW sets within an alphabet that
      holds FIRST of each of its suffixes. */
  lemma {:induction false} ScanFollowBounded(follow: SymbolSets, first: SymbolSets, lhs: char, w: string, keys: set<char>, alphabet: set<char>)
    requires follow.Keys == keys && lhs in keys && Bounded(follow, keys, alphabet)
    requires forall j :: 0 <= j < |w| && IsUpper(w[j]) ==> w[j] in keys
    requires forall j :: 0 <= j <= |w| ==> FirstOfString(first, w[j..]) <= alphabet
    ensures ScanFollow(follow, first, lhs, w).Keys == keys && Bounded(ScanFollow(follow, first, lhs, w), keys, alphabet)
    decreases |w|
  {
    if w != [] {
      var follow' := if IsUpper(w[0]) then FollowAt(follow, first, lhs, w[0], w[1..]) else follow;
      if IsUpper(w[0]) {
        assert FirstOfString(first, w[1..]) <= alphabet;
        FollowAtBounded(follow, first, lhs, w[0], w[1..], keys, alphabet);
      }
      var rest := w[1..];
      assert forall j :: 0 <= j <= |rest| ==> rest[j..] == w[j + 1..];
      assert forall j :: 0 <= j < |rest| ==> rest[j] == w[j + 1];
      ScanFollowBounded(follow', first, lhs, rest, keys, alphabet);
    }
  }

  lemma FollowAtBounded(follow: SymbolSets, first: SymbolSets, lhs: char, x: char, suffix: string, keys: set<char>, alphabet: set<char>)
    requires follow.Keys == keys && lhs in keys && x in keys && Bounded(follow, keys, alphabet)
    requires FirstOfString(first, suffix) <= alphabet
    ensures FollowAt(follow, first, lhs, x, suffix).Keys == keys && Bounded(FollowAt(follow, first, lhs, x, suffix), keys, alphabet)
  {
  }

  /** A pass keeps the keys when every left-hand side and uppercase right-hand
      character is one of them, and keeps the FOLLOW sets within an alphabet
      that holds FIRST of every right-hand suffix. */
  lemma {:induction false} FollowPassBounded(follow: SymbolSets, first: SymbolSets, ps: seq<Production>, keys: set<char>, alphabet: set<char>)
    requires WellFormed(ps) && follow.Keys == keys && Bounded(follow, keys, alphabet)
    requires forall p :: p in ps ==> p[0] in keys
    requires forall p, j :: p in ps && 2 <= j < |p| && IsUpper(p[j]) ==> p[j] in keys
    requires forall p, i :: p in ps && 2 <= i <= |p| ==> FirstOfString(first, p[i..]) <= alphabet
    ensures FollowPass(follow, first, ps).Keys == keys && Bounded(FollowPass(follow, first, ps), keys, alphabet)
    decreases |ps|
  {
    if ps != [] {
      var init, last := ps[..|ps| - 1], ps[|ps| - 1];
      assert forall p :: p in init ==> p in ps;
      FollowPassBounded(follow, first, init, keys, alphabet);
      var w := last[2..];
      forall j | 0 <= j <= |w|
        ensures w[j..] == last[j + 2..]
        ensures j < |w| ==> w[j] == last[j + 2]
      {
      }
      ScanFollowBounded(FollowPass(follow, first, init), first, last[0], w, keys, alphabet);
    }
  }

  /** Production k's turn extends a pass over the first k productions to the
      first k + 1; the pass has changed the map exactly when an earlier turn or
      this one did. */
  lemma FollowPassExtend(follow: SymbolSets, first: SymbolSets, ps: seq<Production>, k: nat, before: SymbolSets, after: SymbolSets, changed: bool, added: bool)
    requires WellFormed(ps) && k < |ps|
    requires before == FollowPass(follow, first, ps[..k]) && after == FollowStep(before, first, ps[k])
    requires (changed <==> before != follow) && (added <==> after != before)
    ensures after == FollowPass(follow, first, ps[..k + 1])
    ensures changed || added <==> after != follow
  {
    FollowPassPrefix(follow, first, ps, k);
    GrowStep(follow, before, after, changed, added);
  }

  /** The FOLLOW closure equations: for every production A -> rhs and every
      uppercase rhs[i], FIRST of the suffix after it (less epsilon) is within
      FOLLOW(rhs[i]), and FOLLOW(A) is too when that suffix is empty or nullable. */
  ghost predicate FollowClosed(follow: SymbolSets, first: SymbolSets, ps: seq<Production>) {
    forall p :: p in ps && |p| >= 2 ==> ScanClosed(follow, first, p[0], p[2..])
  }

  /** The closure equations read at one position: for a production A -> rhs of
      the grammar and an uppercase rhs[i], the non-epsilon members of FIRST of
      the suffix after it are in FOLLOW(rhs[i]), and when that suffix is empty
      or its FIRST holds epsilon, FOLLOW(A) is within FOLLOW(rhs[i]). */
  lemma FollowClosedAt(follow: SymbolSets, first: SymbolSets, ps: seq<Production>, p: Production, i: nat)
    requires FollowClosed(follow, first, ps)
    requires p in ps && 2 <= i < |p| && IsUpper(p[i])
    ensures FirstOfString(first, p[i + 1..]) - {Epsilon} <= Get(follow, p[i])
    ensures p[i + 1..] == [] || Epsilon in FirstOfString(first, p[i + 1..]) ==> Get(follow, p[0]) <= Get(follow, p[i])
  {
    var w := p[2..];
    assert w[i - 2] == p[i] && w[i - 2 + 1..] == p[i + 1..];
    assert FollowAtClosed(follow, first, p[0], w[i - 2], w[i - 2 + 1..]);
  }

  /** The symbols a FOLLOW set can ever hold. */
  ghost function FollowAlphabet(first: SymbolSets, ps: seq<Production>): set<char> {
    {EndMarker} + set p, i, t | p in ps && 2 <= i <= |p| && t in FirstOfString(first, p[i..]) :: t
  }

  lemma FollowAtFixedIff(follow: SymbolSets, first: SymbolSets, lhs: char, x: char, suffix: string)
    ensures FollowAt(follow, first, lhs, x, suffix) == follow <==> FollowAtClosed(follow, first, lhs, x, suffix)
  {
    var fs := FirstOfString(first, suffix);
    var f1 := AddAll(follow, x, fs - {Epsilon});
    if FollowAt(follow, first, lhs, x, suffix) == follow {
      LeAntisymmetric(follow, f1);
    }
  }

  /** Scanning one right-hand side changes nothing exactly when all of its
      positions satisfy their closure equations. */
  lemma {:induction false} ScanFollowFixedIff(follow: SymbolSets, first: SymbolSets, lhs: char, w: string)
    ensures ScanFollow(follow, first, lhs, w) == follow <==> ScanClosed(follow, first, lhs, w)
    decreases |w|
  {
    if w != [] {
      var follow' := if IsUpper(w[0]) then FollowAt(follow, first, lhs, w[0], w[1..]) else follow;
      if IsUpper(w[0]) {
        FollowAtFixedIff(follow, first, lhs, w[0], w[1..]);
      }
      ScanClosedShift(follow, first, lhs, w);
      if ScanFollow(follow, first, lhs, w) == follow {
        LeAntisymmetric(follow, follow');
        ScanFollowFixedIff(follow, first, lhs, w[1..]);
      }
      if ScanClosed(follow, first, lhs, w) {
        ScanFollowFixedIff(follow, first, lhs, w[1..]);
      }
    }
  }

  lemma ScanClosedShift(follow: SymbolSets, first: SymbolSets, lhs: char, w: string)
    requires w != []
    ensures ScanClosed(follow, first, lhs, w) <==>
      (IsUpper(w[0]) ==> FollowAtClosed(follow, first, lhs, w[0], w[1..])) && ScanClosed(follow, first, lhs, w[1..])
  {
    forall i | 0 <= i < |w| - 1
      ensures w[1..][i] == w[i + 1] && w[1..][i + 1..] == w[i + 2..]
    {
    }
    if (IsUpper(w[0]) ==> FollowAtClosed(follow, first, lhs, w[0], w[1..])) && ScanClosed(follow, first, lhs, w[1..]) {
      forall i | 0 <= i < |w| && IsUpper(w[i])
        ensures FollowAtClosed(follow, first, lhs, w[i], w[i + 1..])
      {
        if i > 0 {
          assert w[1..][i - 1] == w[i];
        }
      }
    }
  }

  /** The loop of computeFollowSets stops when a pass changes nothing; such a
      map is exactly one that satisfies the FOLLOW closure equations. */
  lemma {:induction false} FollowFixedPointIffClosed(follow: SymbolSets, first: SymbolSets, ps: seq<Production>)
    requires WellFormed(ps)
    ensures FollowPass(follow, first, ps) == follow <==> FollowClosed(follow, first, ps)
    decreases |ps|
  {
    if ps != [] {
      var init, last := ps[..|ps| - 1], ps[|ps| - 1];
      assert ps == init + [last];
      var m := FollowPass(follow, first, init);
      ScanFollowFixedIff(follow, first, last[0], last[2..]);
      if FollowPass(follow, first, ps) == follow {
        LeAntisymmetric(follow, m);
        FollowFixedPointIffClosed(follow, first, init);
      }
      if FollowClosed(follow, first, ps) {
        assert FollowClosed(follow, first, init);
        FollowFixedPointIffClosed(follow, first, init);
      }
    }
  }

  lemma {:induction false} ScanFollowWithin(follow: SymbolSets, h: SymbolSets, first: SymbolSets, lhs: char, w: string)
    requires SubsetOf(follow, h) && ScanClosed(h, first, lhs, w)
    ensures SubsetOf(ScanFollow(follow, first, lhs, w), h)
    decreases |w|
  {
    if w != [] {
      ScanClosedShift(h, first, lhs, w);
      var follow' := if IsUpper(w[0]) then FollowAt(follow, first, lhs, w[0], w[1..]) else follow;
      ScanFollowWithin(follow', h, first, lhs, w[1..]);
    }
  }

  /** Every pass starting below a solution `h` of the FOLLOW closure equations
      stays below it; so computeFollowSets never overshoots the least solution. */
  lemma {:induction false} FollowPassWithin(follow: SymbolSets, h: SymbolSets, first: SymbolSets, ps: seq<Production>)
    requires WellFormed(ps)
    requires SubsetOf(follow, h) && FollowClosed(h, first, ps)
    ensures SubsetOf(FollowPass(follow, first, ps), h)
    decreases |ps|
  {
    if ps != [] {
      var init, last := ps[..|ps| - 1], ps[|ps| - 1];
      assert ps == init + [last];
      assert FollowClosed(h, first, init);
      FollowPassWithin(follow, h, first, init);
      ScanFollowWithin(FollowPass(follow, first, init), h, first, last[0], last[2..]);
    }
  }

  /** `m` lies within every solution of the FOLLOW closure equations that
      holds the end marker for the start symbol `start`. */
  ghost predicate WithinFollowSolutions(m: SymbolSets, first: SymbolSets, ps: seq<Production>, start: char) {
    forall h :: FollowClosed(h, first, ps) && EndMarker in Get(h, start) ==> SubsetOf(m, h)
  }

  /** What the outer loop of computeFollowSets keeps between rounds: one set
      per nonterminal, each within the symbols FOLLOW can hold, the end marker
      in the start symbol's set, no epsilon anywhere, and the whole map within
      every solution of the FOLLOW equations that holds the end marker. */
  ghost predicate FollowProgress(m: SymbolSets, first: SymbolSets, ps: seq<Production>, start: char) {
    && WellFormed(ps)
    && m.Keys == NonterminalsOf(ps)
    && Bounded(m, NonterminalsOf(ps), FollowAlphabet(first, ps))
    && EndMarker in Get(m, start)
    && NoEpsilon(m)
    && WithinFollowSolutions(m, first, ps, start)
  }

  /** The cleared table with the end marker put under the start symbol is
      where the outer loop begins. */
  lemma FollowSeed(m: SymbolSets, first: SymbolSets, ps: seq<Production>, start: char)
    requires WellFormed(ps) && start in NonterminalsOf(ps)
    requires m == AddAll(map nt | nt in NonterminalsOf(ps) :: {}, start, {EndMarker})
    ensures FollowProgress(m, first, ps, start)
  {
    var keys := NonterminalsOf(ps);
    assert m.Keys == keys;
    assert forall k :: Get(m, k) <= {EndMarker} && (k != start ==> Get(m, k) == {});
    forall h | FollowClosed(h, first, ps) && EndMarker in Get(h, start)
      ensures SubsetOf(m, h)
    {
    }
  }

  /** One round of computeFollowSets, seen from its outer loop: the progress
      facts are kept, a round that reports no change has reached a fixed
      point, and one that reports a change has filled in at least one missing
      pair. */
  lemma FollowRoundStep(m: SymbolSets, next: SymbolSets, first: SymbolSets, ps: seq<Production>, start: char, keys: set<char>, alphabet: set<char>, changed: bool)
    requires WellFormed(ps) && next == FollowPass(m, first, ps) && (changed <==> next != m)
    requires keys == NonterminalsOf(ps) && alphabet == FollowAlphabet(first, ps)
    requires FollowProgress(m, first, ps, start)
    ensures FollowProgress(next, first, ps, start)
    ensures !changed ==> FollowPass(next, first, ps) == next
    ensures changed ==> Missing(next, keys, alphabet) < Missing(m, keys, alphabet)
  {
    NonterminalsCover(ps);
    FollowAlphabetCovers(first, ps);
    FollowPassBounded(m, first, ps, keys, alphabet);
    if changed {
      GrowthShrinksMissing(m, next, keys, alphabet);
    }
    forall h | FollowClosed(h, first, ps) && EndMarker in Get(h, start)
      ensures SubsetOf(next, h)
    {
      FollowPassWithin(m, h, first, ps);
    }
  }

  /** When a round changes nothing, the map reached is the least FOLLOW table:
      it satisfies the closure equations, holds the end marker for the start
      symbol, has no epsilon, and lies within every other such table. */
  lemma FollowDone(m: SymbolSets, first: SymbolSets, ps: seq<Production>, start: char)
    requires FollowProgress(m, first, ps, start) && FollowPass(m, first, ps) == m
    ensures m.Keys == NonterminalsOf(ps)
    ensures EndMarker in Get(m, start) && NoEpsilon(m)
    ensures FollowClosed(m, first, ps)
    ensures forall h :: FollowClosed(h, first, ps) && EndMarker in Get(h, start) ==> SubsetOf(m, h)
  {
    FollowFixedPointIffClosed(m, first, ps);
  }
}
