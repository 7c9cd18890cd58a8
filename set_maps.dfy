/** Maps from a symbol to a set of symbols, the shape of the source's FIRST and
    FOLLOW tables, with the insertion they are grown by. */
module SetMaps {

  type SymbolSets = map<char, set<char>>

  /** Reading a key that is absent gives the empty set, as `operator[]` on the
      source's unordered_map does. */
  function Get(m: SymbolSets, k: char): set<char> {
    if k in m then m[k] else {}
  }

  /** `b` holds every key of `a`, and at each of them at least what `a` holds. */
  ghost predicate Le(a: SymbolSets, b: SymbolSets) {
    a.Keys <= b.Keys && forall k :: k in a ==> a[k] <= b[k]
  }

  /** Every set that `a` gives is contained in the one `b` gives (absent keys read as empty). */
  ghost predicate SubsetOf(a: SymbolSets, b: SymbolSets) {
    forall k :: Get(a, k) <= Get(b, k)
  }

  /** Inserts every member of `s` into the set at `k`. When none of the
      insertions adds anything (every `insert(...).second` is false) the map is
      returned as it was. */
  function AddAll(m: SymbolSets, k: char, s: set<char>): (r: SymbolSets)
    ensures Get(r, k) == Get(m, k) + s
    ensures forall j :: j != k ==> Get(r, j) == Get(m, j)
    ensures r.Keys <= m.Keys + {k}
    ensures Le(m, r)
    ensures r == m <==> s <= Get(m, k)
  {
    if s <= Get(m, k) then m else m[k := Get(m, k) + s]
  }

  lemma LeAntisymmetric(a: SymbolSets, b: SymbolSets)
    requires Le(a, b) && Le(b, a)
    ensures a == b
  {
    assert a.Keys == b.Keys;
    assert forall k :: k in a ==> a[k] == b[k];
  }

  /** Every value stored under one of `keys` lies within `alphabet`. */
  ghost predicate Bounded(m: SymbolSets, keys: set<char>, alphabet: set<char>) {
    forall k :: k in keys ==> Get(m, k) <= alphabet
  }

  /** The (key, symbol) pairs of `keys` x `alphabet` not yet present in `m`; the
      fixed-point loops shrink this finite set on every pass that changes something. */
  ghost function Missing(m: SymbolSets, keys: set<char>, alphabet: set<char>): set<(char, char)> {
    set k, t | k in keys && t in alphabet && t !in Get(m, k) :: (k, t)
  }

  /** Growing in two steps: the map has changed overall exactly when one of
      the steps changed it. */
  lemma GrowStep(a: SymbolSets, b: SymbolSets, c: SymbolSets, first: bool, second: bool)
    requires Le(a, b) && Le(b, c)
    requires (first <==> a != b) && (second <==> b != c)
    ensures Le(a, c)
    ensures first || second <==> a != c
  {
    if a == c {
      LeAntisymmetric(a, b);
    }
  }

  /** A map that grows within the bounds, on a fixed key set, loses at least
      one missing pair; this is what makes the fixed-point loops terminate. */
  lemma GrowthShrinksMissing(m: SymbolSets, m': SymbolSets, keys: set<char>, alphabet: set<char>)
    requires m.Keys == keys && m'.Keys == keys
    requires Le(m, m') && Bounded(m', keys, alphabet) && m' != m
    ensures Missing(m', keys, alphabet) < Missing(m, keys, alphabet)
  {
    assert exists k :: k in keys && m[k] != m'[k];
    var k :| k in keys && m[k] != m'[k];
    var t :| t in m'[k] && t !in m[k];
    assert (k, t) in Missing(m, keys, alphabet);
    assert (k, t) !in Missing(m', keys, alphabet);
  }
}
