/** The analyser and parser state of the program: the grammar, the symbol sets
    derived from it, the FIRST and FOLLOW tables, the LL(1) parse table and the
    start symbol, with the procedures that fill them in place and the parser
    that runs over them. */
module PredParser {
  import opened Symbols
  import opened SetMaps
  import opened FirstSets
  import opened FollowSets
  import opened ParseTable
  import opened Parsing

  /** The loop `for (char t : s) if (m[k].insert(t).second) changed = true`:
      each member of `s` is inserted in turn, and `added` records whether any
      insertion found it new. The set under `k` gains exactly `s`, no other key
      changes, and `added` holds exactly when the map changed. */
  method Insert(m: SymbolSets, k: char, s: set<char>) returns (r: SymbolSets, added: bool)
    ensures Get(r, k) == Get(m, k) + s
    ensures forall j :: j != k ==> Get(r, j) == Get(m, j)
    ensures added <==> r != m
    ensures r == AddAll(m, k, s)
  {
    r, added := m, false;
    var rest := s;
    while rest != {}
      invariant rest <= s
      invariant r == AddAll(m, k, s - rest)
      invariant added <==> r != m
      decreases rest
    {
      var t :| t in rest;
      var r' := AddAll(r, k, {t});
      InsertOne(m, k, s - rest, t);
      GrowStep(m, r, r', added, r' != r);
      added := added || r' != r;
      r := r';
      assert (s - rest) + {t} == s - (rest - {t});
      rest := rest - {t};
    }
    assert s - rest == s;
  }

  /** Inserting one more element after a bulk insertion is the bulk insertion of both. */
  lemma InsertOne(m: SymbolSets, k: char, done: set<char>, t: char)
    ensures AddAll(AddAll(m, k, done), k, {t}) == AddAll(m, k, done + {t})
  {
    var a := AddAll(AddAll(m, k, done), k, {t});
    var b := AddAll(m, k, done + {t});
    assert Le(a, b) && Le(b, a);
    LeAntisymmetric(a, b);
  }

  /** Every cell of a built table holds a production of the grammar, so it has
      a right-hand side to push. */
  lemma BuiltTableWellFormed(first: SymbolSets, follow: SymbolSets, ps: seq<Production>)
    requires WellFormed(ps)
    ensures TableWellFormed(BuildTable(first, follow, ps))
  {
    var table := BuildTable(first, follow, ps);
    forall key | key in table ensures |table[key]| >= 2 {
      assert Lookup(table, key.0, key.1) == Some(table[key]);
      LastClaimSome(first, follow, ps, key.0, key.1, table[key]);
    }
  }

  /** getStackString: the stack listed from bottom to top. The stack is given
      top first; its symbols are popped into a buffer, the buffer is reversed
      and copied into the result. */
  method GetStackString(st: string) returns (result: string)
    ensures |result| == |st|
    ensures forall i :: 0 <= i < |st| ==> result[i] == st[|st| - 1 - i]
  {
    var s := st;
    var temp: string := [];
    while s != []
      invariant temp + s == st
    {
      temp := temp + [s[0]];
      s := s[1..];
    }
    temp := Reverse(temp);
    result := [];
    var j := 0;
    while j < |temp|
      invariant 0 <= j <= |temp|
      invariant result == temp[..j]
    {
      result := result + [temp[j]];
      j := j + 1;
    }
    assert temp[..j] == temp;
  }

  /** The pushes of an expansion: the right-hand side from its last symbol
      down to its first onto a stack written top first, so that the first
      symbol ends on top. */
  method PushRhs(stack: string, rhs: string) returns (r: string)
    ensures r == rhs + stack
  {
    r := stack;
    var i := |rhs| - 1;
    while i >= 0
      invariant -1 <= i < |rhs|
      invariant r == rhs[i + 1..] + stack
    {
      assert rhs[i..] == [rhs[i]] + rhs[i + 1..];
      r := [rhs[i]] + r;
      i := i - 1;
    }
  }

  class Analyzer {
    var productions: seq<Production>
    var nonterminals: set<char>
    var terminals: set<char>
    var firstSets: SymbolSets
    var followSets: SymbolSets
    var parseTable: Table
    var startSymbol: char

    /** The state after the grammar is read: productions with a left-hand side
        and a separator, at least one of them, the start symbol taken from the
        first, the symbol sets extracted from them, FIRST and FOLLOW keyed by
        nonterminals only, and a table whose cells hold productions. */
    ghost predicate Valid()
      reads this
    {
      && Grammar()
      && firstSets.Keys <= nonterminals
      && followSets.Keys <= nonterminals
      && TableWellFormed(parseTable)
    }

    /** The part of Valid that the FIRST, FOLLOW and table procedures never change. */
    ghost predicate Grammar()
      reads this`productions, this`nonterminals, this`terminals, this`startSymbol
    {
      && WellFormed(productions) && |productions| >= 1
      && startSymbol == productions[0][0]
      && nonterminals == NonterminalsOf(productions)
      && terminals == TerminalsOf(productions)
    }

    /** inputGrammar without the console: the productions are given, the
        symbols extracted, and the start symbol is the left side of the first. */
    constructor (prods: seq<Production>)
      requires |prods| >= 1 && WellFormed(prods)
      ensures Valid()
      ensures productions == prods && startSymbol == prods[0][0]
      ensures firstSets == map[] && followSets == map[] && parseTable == map[]
    {
      productions := prods;
      firstSets := map[];
      followSets := map[];
      parseTable := map[];
      new;
      ExtractSymbols();
      startSymbol := productions[0][0];
    }

    /** extractSymbols: every left-hand side and every uppercase right-hand
        character is a nonterminal; every other right-hand character except
        epsilon is a terminal, and so is the end marker. */
    method ExtractSymbols()
      requires WellFormed(productions)
      modifies this`nonterminals, this`terminals
      ensures nonterminals == NonterminalsOf(productions)
      ensures terminals == TerminalsOf(productions)
    {
      var prods := productions;
      var nts: set<char> := {};
      var ts: set<char> := {};
      for k := 0 to |prods|
        invariant nts == NonterminalsOf(prods[..k])
        invariant ts == RhsTerminalsOf(prods[..k])
      {
        var production := prods[k];
        SymbolsOfPrefix(prods, k);
        nts := nts + {production[0]};
        for i := 2 to |production|
          invariant nts == NonterminalsOf(prods[..k]) + {production[0]} + UpperIn(production[2..i])
          invariant ts == RhsTerminalsOf(prods[..k]) + OtherIn(production[2..i])
        {
          var symbol := production[i];
          SymbolsInPrefix(production, i);
          if IsUpper(symbol) {
            nts := nts + {symbol};
          } else if symbol != Epsilon {
            ts := ts + {symbol};
          }
        }
        assert production[2..|production|] == production[2..];
      }
      assert prods[..|prods|] == prods;
      nonterminals := nts;
      terminals := ts + {EndMarker};
    }

    /** isNonterminal: membership in the extracted nonterminal set, which is
        exactly occurring as a left-hand side or as an uppercase right-hand
        character of some production. */
    function IsNonterminal(symbol: char): (r: bool)
      reads this
      requires Valid()
      ensures r <==> exists p :: p in productions && OccursAsNonterminal(p, symbol)
    {
      NonterminalsOfMembers(productions, symbol);
      symbol in nonterminals
    }

    /** computeFirstOfString over the current FIRST table. */
    method ComputeFirstOfString(str: string) returns (result: set<char>)
      ensures result == FirstOfString(firstSets, str)
    {
      result := {};
      if str == [] {
        result := result + {Epsilon};
        return;
      }
      var i := 0;
      while i < |str|
        invariant 0 <= i <= |str|
        invariant i < |str| ==> FirstOfString(firstSets, str) == result + FirstOfString(firstSets, str[i..])
        invariant i == |str| ==> FirstOfString(firstSets, str) == result
      {
        var symbol := str[i];
        if !IsUpper(symbol) {
          result := result + {symbol};
          break;
        } else {
          var s := Get(firstSets, symbol);
          var hasEpsilon := Epsilon in s;
          result := result + (s - {Epsilon});
          if !hasEpsilon {
            break;
          }
          assert str[i..][1..] == str[i + 1..];
          if i == |str| - 1 {
            result := result + {Epsilon};
          }
        }
        i := i + 1;
      }
    }

    /** computeFirstSets: the FIRST table is cleared for every nonterminal and
        rounds over the productions are repeated until one inserts nothing.
        The result satisfies the FIRST closure equations and lies within every
        other table that does, so it is their least solution. */
    method ComputeFirstSets()
      requires Valid()
      modifies this`firstSets
      ensures Valid()
      ensures firstSets.Keys == nonterminals
      ensures FirstClosed(firstSets, productions)
      ensures forall g :: FirstClosed(g, productions) ==> SubsetOf(firstSets, g)
    {
      var first := LeastFirstTable();
      firstSets := first;
    }

    /** The body of computeFirstSets on a local table: every FIRST set
        cleared, then the rounds. */
    method LeastFirstTable() returns (first: SymbolSets)
      requires Grammar()
      ensures first.Keys == nonterminals
      ensures FirstClosed(first, productions)
      ensures forall g :: FirstClosed(g, productions) ==> SubsetOf(first, g)
    {
      first := map nt | nt in nonterminals :: {};
      FirstSeed(first, productions);
      first := FirstRounds(first);
      FirstDone(first, productions);
    }

    /** The `while (changed)` loop of computeFirstSets: rounds are repeated
        until one inserts nothing, so the map returned is a fixed point of a
        round, and the progress facts still hold. */
    method FirstRounds(first: SymbolSets) returns (r: SymbolSets)
      requires Grammar() && FirstProgress(first, productions)
      ensures FirstProgress(r, productions)
      ensures FirstPass(r, productions) == r
    {
      r := first;
      ghost var alphabet := FirstAlphabet(productions);
      var changed := true;
      while changed
        invariant FirstProgress(r, productions)
        invariant !changed ==> FirstPass(r, productions) == r
        decreases Missing(r, nonterminals, alphabet), changed
      {
        ghost var start := r;
        r, changed := FirstRound(r);
        FirstRoundStep(start, r, productions, nonterminals, alphabet, changed);
      }
    }

    /** One round of the `while (changed)` loop of computeFirstSets: every
        production in order, each seeing the insertions of those before it.
        `changed` is set exactly when the round grew some FIRST set. */
    method FirstRound(first: SymbolSets) returns (r: SymbolSets, changed: bool)
      requires Grammar()
      ensures r == FirstPass(first, productions)
      ensures changed <==> r != first
    {
      r := first;
      changed := false;
      assert productions[..0] == [];
      for k := 0 to |productions|
        invariant r == FirstPass(first, productions[..k])
        invariant changed <==> r != first
      {
        ghost var before := r;
        var added;
        r, added := FirstProduction(r, k);
        FirstPassExtend(first, productions, k, before, r, changed, added);
        changed := changed || added;
      }
      assert productions[..|productions|] == productions;
    }

    /** One production's turn in a round of computeFirstSets: an epsilon
        right-hand side adds epsilon; otherwise the right-hand side is scanned
        while its symbols can vanish. */
    method FirstProduction(first: SymbolSets, k: nat) returns (r: SymbolSets, added: bool)
      requires Grammar() && k < |productions|
      ensures r == FirstStep(first, productions[k])
      ensures added <==> r != first
    {
      var production := productions[k];
      var lhs := production[0];
      var rhs := production[2..];
      if rhs == [Epsilon] {
        r, added := Insert(first, lhs, {Epsilon});
        return;
      }
      r := first;
      added := false;
      var i := 0;
      while i < |rhs|
        invariant 0 <= i <= |rhs|
        invariant ScanRhs(r, lhs, rhs[i..]) == ScanRhs(first, lhs, rhs)
        invariant Le(first, r) && (added <==> r != first)
      {
        var symbol := rhs[i];
        ghost var before := r;
        if !IsUpper(symbol) {
          var a;
          r, a := Insert(r, lhs, {symbol});
          GrowStep(first, before, r, added, a);
          added := added || a;
          break;
        } else {
          var s := Get(r, symbol);
          var hasEpsilon := Epsilon in s;
          var a;
          r, a := Insert(r, lhs, s - {Epsilon});
          GrowStep(first, before, r, added, a);
          added := added || a;
          if !hasEpsilon {
            break;
          }
          assert rhs[i..][1..] == rhs[i + 1..];
          if i == |rhs| - 1 {
            ghost var middle := r;
            var b;
            r, b := Insert(r, lhs, {Epsilon});
            GrowStep(first, middle, r, added, b);
            added := added || b;
          }
        }
        i := i + 1;
      }
    }

    /** computeFollowSets: every FOLLOW set is cleared, the end marker goes
        into FOLLOW of the start symbol, and rounds are repeated until one
        inserts nothing. The result satisfies the FOLLOW closure equations and
        is the least map that does and holds the end marker for the start
        symbol; epsilon is never in it. */
    method ComputeFollowSets()
      requires Valid()
      modifies this`followSets
      ensures Valid()
      ensures followSets.Keys == nonterminals
      ensures EndMarker in Get(followSets, startSymbol)
      ensures NoEpsilon(followSets)
      ensures FollowClosed(followSets, firstSets, productions)
      ensures forall h :: FollowClosed(h, firstSets, productions) && EndMarker in Get(h, startSymbol) ==> SubsetOf(followSets, h)
    {
      var follow := LeastFollowTable();
      followSets := follow;
    }

    /** The body of computeFollowSets on a local table: every FOLLOW set
        cleared, the end marker put under the start symbol, then the rounds. */
    method LeastFollowTable() returns (follow: SymbolSets)
      requires Grammar()
      ensures follow.Keys == nonterminals
      ensures EndMarker in Get(follow, startSymbol) && NoEpsilon(follow)
      ensures FollowClosed(follow, firstSets, productions)
      ensures forall h :: FollowClosed(h, firstSets, productions) && EndMarker in Get(h, startSymbol) ==> SubsetOf(follow, h)
    {
      follow := map nt | nt in nonterminals :: {};
      StartIsNonterminal(productions);
      var seeded;
      follow, seeded := Insert(follow, startSymbol, {EndMarker});
      FollowSeed(follow, firstSets, productions, startSymbol);
      follow := FollowRounds(follow);
      FollowDone(follow, firstSets, productions, startSymbol);
    }

    /** The `while (changed)` loop of computeFollowSets: rounds are repeated
        until one inserts nothing, so the map returned is a fixed point of a
        round, and the progress facts still hold. */
    method FollowRounds(follow: SymbolSets) returns (r: SymbolSets)
      requires Grammar() && FollowProgress(follow, firstSets, productions, startSymbol)
      ensures FollowProgress(r, firstSets, productions, startSymbol)
      ensures FollowPass(r, firstSets, productions) == r
    {
      r := follow;
      ghost var alphabet := FollowAlphabet(firstSets, productions);
      var changed := true;
      while changed
        invariant FollowProgress(r, firstSets, productions, startSymbol)
        invariant !changed ==> FollowPass(r, firstSets, productions) == r
        decreases Missing(r, nonterminals, alphabet), changed
      {
        ghost var start := r;
        r, changed := FollowRound(r);
        FollowRoundStep(start, r, firstSets, productions, startSymbol, nonterminals, alphabet, changed);
      }
    }

    /** One round of the `while (changed)` loop of computeFollowSets.
        `changed` is set exactly when the round grew some FOLLOW set. */
    method FollowRound(follow: SymbolSets) returns (r: SymbolSets, changed: bool)
      requires Grammar()
      ensures r == FollowPass(follow, firstSets, productions)
      ensures changed <==> r != follow
    {
      r := follow;
      changed := false;
      assert productions[..0] == [];
      for k := 0 to |productions|
        invariant r == FollowPass(follow, firstSets, productions[..k])
        invariant changed <==> r != follow
      {
        ghost var before := r;
        var added;
        r, added := FollowProduction(r, k);
        FollowPassExtend(follow, firstSets, productions, k, before, r, changed, added);
        changed := changed || added;
      }
      assert productions[..|productions|] == productions;
    }

    /** One production's turn in a round of computeFollowSets: each uppercase
        position of the right-hand side receives FIRST of what follows it
        (less epsilon), and FOLLOW of the left side when that can vanish. */
    method FollowProduction(follow: SymbolSets, k: nat) returns (r: SymbolSets, added: bool)
      requires Grammar() && k < |productions|
      ensures r == FollowStep(follow, firstSets, productions[k])
      ensures added <==> r != follow
    {
      var production := productions[k];
      var lhs := production[0];
      var rhs := production[2..];
      r := follow;
      added := false;
      for i := 0 to |rhs|
        invariant ScanFollow(r, firstSets, lhs, rhs[i..]) == ScanFollow(follow, firstSets, lhs, rhs)
        invariant Le(follow, r) && (added <==> r != follow)
      {
        var symbol := rhs[i];
        assert rhs[i..][1..] == rhs[i + 1..];
        if !IsUpper(symbol) {
          continue;
        }
        var suffix := rhs[i + 1..];
        var firstOfSuffix := ComputeFirstOfString(suffix);
        ghost var before := r;
        var a;
        r, a := Insert(r, symbol, firstOfSuffix - {Epsilon});
        GrowStep(follow, before, r, added, a);
        added := added || a;
        if Epsilon in firstOfSuffix || suffix == [] {
          ghost var middle := r;
          var b;
          r, b := Insert(r, symbol, Get(r, lhs));
          GrowStep(follow, middle, r, added, b);
          added := added || b;
        }
      }
    }

    /** buildParseTable: the table is cleared, then every production in order
        writes itself into the cells (lhs, t) for each non-epsilon t in FIRST
        of its right side and, when that FIRST set holds epsilon, for each t in
        FOLLOW(lhs). A later production overwrites an earlier one in a shared
        cell, so each cell ends up with the last production claiming it. */
    method BuildParseTable()
      requires Valid()
      modifies this`parseTable
      ensures Valid()
      ensures parseTable == BuildTable(firstSets, followSets, productions)
      ensures forall a, t :: Lookup(parseTable, a, t) == LastClaim(firstSets, followSets, productions, a, t)
    {
      var table := FilledTable();
      BuiltTableWellFormed(firstSets, followSets, productions);
      parseTable := table;
    }

    /** The body of buildParseTable on a local table: cleared, then every
        production's turn in order. */
    method FilledTable() returns (table: Table)
      requires Grammar()
      ensures table == BuildTable(firstSets, followSets, productions)
    {
      table := map[];
      for k := 0 to |productions|
        invariant table == BuildTable(firstSets, followSets, productions[..k])
      {
        table := TableProduction(table, k);
        BuildTablePrefix(firstSets, followSets, productions, k);
      }
      assert productions[..|productions|] == productions;
    }

    /** One production's turn in buildParseTable: it is written into the cells
        of the non-epsilon members of FIRST of its right side and, when that
        set holds epsilon, into those of FOLLOW of its left side. */
    method TableProduction(table: Table, k: nat) returns (r: Table)
      requires Grammar() && k < |productions|
      ensures r == TableStep(table, firstSets, followSets, productions[k])
    {
      var production := productions[k];
      var lhs := production[0];
      var rhs := production[2..];
      var firstOfRhs := ComputeFirstOfString(rhs);
      r := WriteCells(table, lhs, firstOfRhs - {Epsilon}, production);
      if Epsilon in firstOfRhs {
        r := WriteCells(r, lhs, Get(followSets, lhs), production);
      }
    }

    /** computeFirstAndFollow: the FIRST table, then the FOLLOW table over it;
        each is the least solution of its closure equations. */
    method ComputeFirstAndFollow()
      requires Valid()
      modifies this`firstSets, this`followSets
      ensures Valid()
      ensures firstSets.Keys == nonterminals && followSets.Keys == nonterminals
      ensures FirstClosed(firstSets, productions)
      ensures forall g :: FirstClosed(g, productions) ==> SubsetOf(firstSets, g)
      ensures EndMarker in Get(followSets, startSymbol) && NoEpsilon(followSets)
      ensures FollowClosed(followSets, firstSets, productions)
      ensures forall h :: FollowClosed(h, firstSets, productions) && EndMarker in Get(h, startSymbol) ==> SubsetOf(followSets, h)
    {
      ComputeFirstSets();
      ComputeFollowSets();
    }

    /** parseString without the console: the input is given, the end marker
        appended, and the stack starts as the start symbol above `$`. Each
        iteration writes one trace line and then accepts, rejects, matches the
        top against the input or expands the top by its table cell; the loop
        is cut off after `fuel` iterations. The trace is the automaton's run. */
    method ParseString(input: string, fuel: nat) returns (trace: seq<Row>)
      requires Valid()
      ensures trace == Parse(parseTable, nonterminals, startSymbol, input, fuel)
    {
      ghost var table, nts := parseTable, nonterminals;
      ghost var total := Parse(table, nts, startSymbol, input, fuel);
      var text := input + [EndMarker];
      var parseStack: string := [startSymbol, EndMarker];
      var inputIndex := 0;
      var remaining := fuel;
      trace := [];
      while parseStack != [] && remaining > 0
        invariant inputIndex < |text|
        invariant EndsWithMarker(text[inputIndex..])
        invariant trace + Run(table, nts, parseStack, text[inputIndex..], remaining) == total
        decreases remaining
      {
        var inputStr := text[inputIndex..];
        var action, next := ParseStep(parseStack, text[inputIndex]);
        var row := Row(parseStack, inputStr, action);
        var nextIndex := if action.Match? then inputIndex + 1 else inputIndex;
        assert action.Match? ==> text[nextIndex..] == inputStr[1..];
        var nextRemaining := remaining - 1;
        TraceAdvance(table, nts, trace, parseStack, inputStr, remaining, total, row, next, text[nextIndex..], nextRemaining);
        trace := trace + [row];
        if Halts(action) {
          return;
        }
        inputIndex := nextIndex;
        parseStack := next;
        remaining := nextRemaining;
      }
      RunStops(table, nts, parseStack, text[inputIndex..], remaining);
      if parseStack == [] {
        trace := trace + [Row([], text[inputIndex..], RejectStackEmpty)];
      } else {
        assert trace + [] == trace;
      }
    }

    /** The body of parseString's loop for the stack top and the current input
        character: both `$` accepts; a top that is not a nonterminal is matched
        (and popped) or rejected as a mismatch; a nonterminal top is rejected
        when its table cell is empty, and otherwise popped and replaced by the
        right-hand side of the production in the cell, pushed last symbol
        first, with nothing pushed for an epsilon right-hand side. */
    method ParseStep(parseStack: string, currentInput: char) returns (action: Action, next: string)
      requires Valid() && parseStack != []
      ensures action == Decide(parseTable, nonterminals, parseStack[0], currentInput)
      ensures !Halts(action) ==> next == NextStack(parseStack, action)
    {
      var top := parseStack[0];
      next := parseStack;
      if top == EndMarker && currentInput == EndMarker {
        return Accept, next;
      }
      if !IsNonterminal(top) {
        if top == currentInput {
          return Match, parseStack[1..];
        }
        return RejectMismatch, next;
      }
      if (top, currentInput) !in parseTable {
        return RejectNoRule, next;
      }
      var production := parseTable[(top, currentInput)];
      var rhs := production[2..];
      next := parseStack[1..];
      if rhs != [Epsilon] {
        next := PushRhs(next, rhs);
      }
      action := Apply(production);
    }
  }
}
