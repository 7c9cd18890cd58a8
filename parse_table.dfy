/** The LL(1) table builder: which productions claim which (nonterminal,
    lookahead) cells, and the table that results when later writes overwrite
    earlier ones. */
module ParseTable {
  import opened Symbols
  import opened SetMaps
  import opened FirstSets
  import opened FollowSets

  datatype Option<T> = None | Some(value: T)

  /** The source's `map<pair<char, char>, string> parseTable`. */
  type Table = map<(char, char), Production>

  function Lookup(table: Table, a: char, t: char): Option<Production> {
    if (a, t) in table then Some(table[(a, t)]) else None
  }

  /** Production `p` writes cell (a, t): `a` is its left side and `t` is a
      non-epsilon member of FIRST of its right side, or a member of FOLLOW(a)
      when that FIRST set holds epsilon. */
  ghost predicate Claims(first: SymbolSets, follow: SymbolSets, p: Production, a: char, t: char) {
    && |p| >= 2
    && p[0] == a
    && var fr := FirstOfString(first, p[2..]);
       (t in fr && t != Epsilon) || (Epsilon in fr && t in Get(follow, a))
  }

  /** `p` written into the cells (lhs, t) for every t in `ts`. */
  function WriteCells(table: Table, lhs: char, ts: set<char>, p: Production): (r: Table)
    ensures forall a, t :: Lookup(r, a, t) == if a == lhs && t in ts then Some(p) else Lookup(table, a, t)
  {
    table + map t | t in ts :: (lhs, t) := p
  }

  /** One production's turn in buildParseTable: the FIRST cells, then the
      FOLLOW cells when its right side can vanish. Exactly the cells it claims
      now hold it; every other cell is as before. */
  ghost function TableStep(table: Table, first: SymbolSets, follow: SymbolSets, p: Production): (r: Table)
    requires |p| >= 2
    ensures forall a, t :: Lookup(r, a, t) == if Claims(first, follow, p, a, t) then Some(p) else Lookup(table, a, t)
  {
    var fr := FirstOfString(first, p[2..]);
    var written := WriteCells(table, p[0], fr - {Epsilon}, p);
    if Epsilon in fr then WriteCells(written, p[0], Get(follow, p[0]), p) else written
  }

  /** The production latest in `ps` that claims cell (a, t), if any. */
  ghost function LastClaim(first: SymbolSets, follow: SymbolSets, ps: seq<Production>, a: char, t: char): Option<Production>
    decreases |ps|
  {
    if ps == [] then None
    else if Claims(first, follow, ps[|ps| - 1], a, t) then Some(ps[|ps| - 1])
    else LastClaim(first, follow, ps[..|ps| - 1], a, t)
  }

  /** buildParseTable over the productions in order, starting from a cleared
      table. Each cell ends up holding the latest production that claims it,
      and a cell nobody claims stays empty. */
  ghost function BuildTable(first: SymbolSets, follow: SymbolSets, ps: seq<Production>): (r: Table)
    requires WellFormed(ps)
    ensures forall a, t :: Lookup(r, a, t) == LastClaim(first, follow, ps, a, t)
    decreases |ps|
  {
    if ps == [] then map[]
    else TableStep(BuildTable(first, follow, ps[..|ps| - 1]), first, follow, ps[|ps| - 1])
  }

  /** The table built from the first k + 1 productions is the one built from
      the first k followed by production k's turn. */
  lemma BuildTablePrefix(first: SymbolSets, follow: SymbolSets, ps: seq<Production>, k: nat)
    requires WellFormed(ps) && k < |ps|
    ensures BuildTable(first, follow, ps[..k + 1]) == TableStep(BuildTable(first, follow, ps[..k]), first, follow, ps[k])
  {
    assert ps[..k + 1][..k] == ps[..k];
  }

  /** When production k claims a cell and no later production does, the cell
      holds production k: the later write wins. */
  lemma {:induction false} LastClaimIsLatest(first: SymbolSets, follow: SymbolSets, ps: seq<Production>, a: char, t: char, k: nat)
    requires k < |ps| && Claims(first, follow, ps[k], a, t)
    requires forall j :: k < j < |ps| ==> !Claims(first, follow, ps[j], a, t)
    ensures LastClaim(first, follow, ps, a, t) == Some(ps[k])
    decreases |ps|
  {
    if k < |ps| - 1 {
      var init := ps[..|ps| - 1];
      assert init[k] == ps[k];
      forall j | k < j < |init| ensures !Claims(first, follow, init[j], a, t) {
        assert init[j] == ps[j];
      }
      LastClaimIsLatest(first, follow, init, a, t, k);
    }
  }

  /** A cell is empty exactly when no production claims it. */
  lemma {:induction false} LastClaimNone(first: SymbolSets, follow: SymbolSets, ps: seq<Production>, a: char, t: char)
    ensures LastClaim(first, follow, ps, a, t) == None <==> forall k :: 0 <= k < |ps| ==> !Claims(first, follow, ps[k], a, t)
    decreases |ps|
  {
    if ps != [] {
      var init := ps[..|ps| - 1];
      LastClaimNone(first, follow, init, a, t);
      assert forall k :: 0 <= k < |init| ==> init[k] == ps[k];
    }
  }

  /** What a filled cell holds is a production of the grammar that claims it. */
  lemma {:induction false} LastClaimSome(first: SymbolSets, follow: SymbolSets, ps: seq<Production>, a: char, t: char, p: Production)
    requires LastClaim(first, follow, ps, a, t) == Some(p)
    ensures p in ps && Claims(first, follow, p, a, t)
    decreases |ps|
  {
    if !Claims(first, follow, ps[|ps| - 1], a, t) {
      LastClaimSome(first, follow, ps[..|ps| - 1], a, t, p);
    }
  }

  /** Every entry (A, t) of the built table maps to a production of the grammar
      whose left side is A; the lookahead is never epsilon when no FOLLOW set
      holds epsilon. */
  lemma TableEntries(first: SymbolSets, follow: SymbolSets, ps: seq<Production>, a: char, t: char)
    requires WellFormed(ps) && NoEpsilon(follow)
    requires (a, t) in BuildTable(first, follow, ps)
    ensures var p := BuildTable(first, follow, ps)[(a, t)];
      p in ps && p[0] == a && t != Epsilon
  {
    var table := BuildTable(first, follow, ps);
    assert Lookup(table, a, t) == Some(table[(a, t)]);
    LastClaimSome(first, follow, ps, a, t, table[(a, t)]);
  }
}
