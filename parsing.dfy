/** The table-driven predictive parser as a deterministic pushdown automaton:
    the choice made at each step, the stack change it causes, and the trace of
    a whole run. Stacks are written top first: `stack[0]` is what the source's
    `parseStack.top()` returns, and the bottom marker is the last character. */
module Parsing {
  import opened Symbols
  import opened ParseTable

  /** The output column of a trace line. */
  datatype Action =
    | Match
    | Apply(production: Production)
    | Accept
    | RejectMismatch
    | RejectNoRule
    | RejectStackEmpty

  /** One line of the trace: the stack (top first), the unread input, the action. */
  datatype Row = Row(stack: string, input: string, action: Action)

  /** The actions after which parseString returns. */
  predicate Halts(a: Action) {
    !a.Match? && !a.Apply?
  }

  function Reverse(s: string): (r: string)
    ensures |r| == |s|
    ensures forall i :: 0 <= i < |s| ==> r[i] == s[|s| - 1 - i]
    decreases |s|
  {
    if s == [] then [] else [s[|s| - 1]] + Reverse(s[..|s| - 1])
  }

  /** Every value of the table is a production text with a right-hand side. */
  ghost predicate TableWellFormed(table: Table) {
    forall k :: k in table ==> |table[k]| >= 2
  }

  /** The decision of one iteration of parseString's loop, from the top of the
      stack and the current input character. */
  function Decide(table: Table, nts: set<char>, top: char, cur: char): (r: Action)
    ensures r == Match ==> top == cur && top !in nts && top != EndMarker
    ensures r.Apply? ==> top in nts && (top, cur) in table && r.production == table[(top, cur)]
    ensures r != RejectStackEmpty
  {
    if top == EndMarker && cur == EndMarker then Accept
    else if top !in nts then (if top == cur then Match else RejectMismatch)
    else if (top, cur) !in table then RejectNoRule
    else Apply(table[(top, cur)])
  }

  /** The symbols an expansion by `p` pushes, top first: its right-hand side,
      or nothing when that is exactly epsilon. */
  function Pushed(p: Production): (r: string)
    requires |p| >= 2
    ensures Epsilon in r ==> r == p[2..] && |r| >= 2
    ensures r == [] <==> |p| == 2 || p[2..] == [Epsilon]
    ensures r != [] ==> r[0] == p[2]
  {
    if p[2..] == [Epsilon] then [] else p[2..]
  }

  /** The stack after the nonterminal on top is expanded by `p`: the top is
      popped and the right-hand side pushed from its last symbol to its first,
      so its first symbol ends on top. */
  function Expand(stack: string, p: Production): (r: string)
    requires stack != [] && |p| >= 2
    ensures |r| == |stack| - 1 + |Pushed(p)|
    ensures r[|Pushed(p)|..] == stack[1..]
    ensures r[..|Pushed(p)|] == Pushed(p)
  {
    Pushed(p) + stack[1..]
  }

  /** The stack after a non-halting action: a Match pops the top, an
      expansion replaces it by the right-hand side. */
  function NextStack(stack: string, a: Action): string
    requires stack != [] && (a.Apply? ==> |a.production| >= 2)
  {
    match a
    case Match => stack[1..]
    case Apply(p) => Expand(stack, p)
    case _ => stack
  }

  /** The unread input after an action: only a Match consumes a character. */
  function NextInput(input: string, a: Action): string
    requires input != []
  {
    if a.Match? then input[1..] else input
  }

  /** The unread input still ends with the end marker. */
  predicate EndsWithMarker(input: string) {
    input != [] && input[|input| - 1] == EndMarker
  }

  /** The trace that parseString produces from the given stack and unread input
      (which ends with the end marker), allowing at most `fuel` iterations of
      its loop. A Match never consumes the end marker itself, since top and
      input both `$` is an Accept, so the unread input never runs out. */
  ghost function Run(table: Table, nts: set<char>, stack: string, input: string, fuel: nat): seq<Row>
    requires TableWellFormed(table) && EndsWithMarker(input)
    decreases fuel
  {
    if stack == [] then [Row([], input, RejectStackEmpty)]
    else if fuel == 0 then []
    else
      var action := Decide(table, nts, stack[0], input[0]);
      var row := Row(stack, input, action);
      if Halts(action) then [row]
      else [row] + Run(table, nts, NextStack(stack, action), NextInput(input, action), fuel - 1)
  }

  /** A parse of `input` from the start symbol: the stack starts as the start
      symbol above `$` and the input gets the end marker appended. */
  ghost function Parse(table: Table, nts: set<char>, start: char, input: string, fuel: nat): seq<Row>
    requires TableWellFormed(table)
  {
    Run(table, nts, [start, EndMarker], input + [EndMarker], fuel)
  }

  /** The line was written by the rule that parseString applies to its stack top and input character. */
  ghost predicate Decided(table: Table, nts: set<char>, row: Row) {
    if row.stack == [] then row.action == RejectStackEmpty
    else row.input != [] && row.action == Decide(table, nts, row.stack[0], row.input[0])
  }

  /** `next` is the configuration that the action of `row` leads to: a Match pops
      one symbol and consumes one input character; an expansion replaces the top
      by the right-hand side; nothing follows any other action. */
  ghost predicate Moves(row: Row, next: Row) {
    && row.stack != []
    && row.input != []
    && match row.action
       case Match => next.stack == row.stack[1..] && next.input == row.input[1..]
       case Apply(p) => |p| >= 2 && next.stack == Pushed(p) + row.stack[1..] && next.input == row.input
       case _ => false
  }

  /** `s` is a suffix of `text` that still ends with the end marker. */
  ghost predicate SuffixOf(s: string, text: string) {
    EndsWithMarker(s) && |s| <= |text| && s == text[|text| - |s|..]
  }

  /** Every line of `tr` is decided by the automaton's rule from its own stack
      top and input character, and its unread input is a suffix of `text`. */
  ghost predicate AllDecided(table: Table, nts: set<char>, text: string, tr: seq<Row>) {
    forall i :: 0 <= i < |tr| ==> Decided(table, nts, tr[i]) && SuffixOf(tr[i].input, text)
  }

  /** Consecutive lines of `tr` are connected by the earlier line's move. */
  ghost predicate AllMove(tr: seq<Row>) {
    forall i :: 0 <= i < |tr| - 1 ==> Moves(tr[i], tr[i + 1])
  }

  /** Every line of `tr` has `$` at the bottom of its stack and is not a
      "stack empty" rejection. */
  ghost predicate AllKeepBottom(tr: seq<Row>) {
    forall i :: 0 <= i < |tr| ==>
      tr[i].stack != [] && tr[i].stack[|tr[i].stack| - 1] == EndMarker && tr[i].action != RejectStackEmpty
  }

  /** The first step of a run that neither halts nor runs out of fuel. */
  lemma RunStep(table: Table, nts: set<char>, stack: string, input: string, fuel: nat)
    requires TableWellFormed(table) && EndsWithMarker(input)
    requires stack != [] && fuel > 0
    requires !Halts(Decide(table, nts, stack[0], input[0]))
    ensures var a := Decide(table, nts, stack[0], input[0]);
      && EndsWithMarker(NextInput(input, a))
      && Run(table, nts, stack, input, fuel)
         == [Row(stack, input, a)] + Run(table, nts, NextStack(stack, a), NextInput(input, a), fuel - 1)
  {
  }

  /** A run that stops at once: the stack is empty, the fuel is spent, or the
      first decision halts. */
  lemma RunStops(table: Table, nts: set<char>, stack: string, input: string, fuel: nat)
    requires TableWellFormed(table) && EndsWithMarker(input)
    requires stack == [] || fuel == 0 || Halts(Decide(table, nts, stack[0], input[0]))
    ensures Run(table, nts, stack, input, fuel) ==
      if stack == [] then [Row([], input, RejectStackEmpty)]
      else if fuel == 0 then []
      else [Row(stack, input, Decide(table, nts, stack[0], input[0]))]
  {
  }

  /** One iteration of parseString's loop seen against the whole trace: when
      `tr` followed by the run from the current configuration is `total` and
      `row` is the line this configuration writes, then `tr` and `row`
      complete `total` after a halting action, and otherwise leave the run
      from the configuration the action moves to. */
  lemma TraceAdvance(table: Table, nts: set<char>, tr: seq<Row>, stack: string, input: string, fuel: nat, total: seq<Row>,
                     row: Row, stack': string, input': string, fuel': nat)
    requires TableWellFormed(table) && EndsWithMarker(input)
    requires stack != [] && fuel == fuel' + 1
    requires tr + Run(table, nts, stack, input, fuel) == total
    requires row == Row(stack, input, Decide(table, nts, stack[0], input[0]))
    requires !Halts(row.action) ==> stack' == NextStack(stack, row.action) && input' == NextInput(input, row.action)
    ensures Halts(row.action) ==> tr + [row] == total
    ensures !Halts(row.action) ==> EndsWithMarker(input') && (tr + [row]) + Run(table, nts, stack', input', fuel') == total
  {
    if Halts(row.action) {
      RunStops(table, nts, stack, input, fuel);
    } else {
      RunStep(table, nts, stack, input, fuel);
      var rest := Run(table, nts, stack', input', fuel');
      assert tr + ([row] + rest) == (tr + [row]) + rest;
    }
  }

  /** A run starts in the configuration it is given. */
  lemma RunStarts(table: Table, nts: set<char>, stack: string, input: string, fuel: nat, tr: seq<Row>)
    requires TableWellFormed(table) && EndsWithMarker(input)
    requires tr == Run(table, nts, stack, input, fuel)
    ensures tr != [] ==> tr[0].stack == stack && tr[0].input == input
  {
    if stack != [] && fuel > 0 && !Halts(Decide(table, nts, stack[0], input[0])) {
      RunStep(table, nts, stack, input, fuel);
    } else {
      RunStops(table, nts, stack, input, fuel);
    }
  }

  /** A run has at most one line per unit of fuel, plus the final "stack
      empty" line. */
  lemma {:induction false} RunLengthBound(table: Table, nts: set<char>, stack: string, input: string, fuel: nat, tr: seq<Row>)
    requires TableWellFormed(table) && EndsWithMarker(input)
    requires tr == Run(table, nts, stack, input, fuel)
    ensures |tr| <= fuel + 1
    decreases fuel
  {
    if stack != [] && fuel > 0 && !Halts(Decide(table, nts, stack[0], input[0])) {
      var a := Decide(table, nts, stack[0], input[0]);
      RunStep(table, nts, stack, input, fuel);
      RunLengthBound(table, nts, NextStack(stack, a), NextInput(input, a), fuel - 1, tr[1..]);
    } else {
      RunStops(table, nts, stack, input, fuel);
    }
  }

  /** `tr` ends in a halting line, or has exactly `fuel` lines. */
  ghost predicate HaltsOrFuelSpent(tr: seq<Row>, fuel: nat) {
    (tr != [] && Halts(tr[|tr| - 1].action)) || |tr| == fuel
  }

  lemma ConsHaltsOrFuelSpent(row: Row, rest: seq<Row>, fuel: nat)
    requires !Halts(row.action) && fuel > 0 && HaltsOrFuelSpent(rest, fuel - 1)
    ensures HaltsOrFuelSpent([row] + rest, fuel)
  {
    var tr := [row] + rest;
    if rest != [] {
      assert tr[|tr| - 1] == rest[|rest| - 1];
    }
  }

  /** A run that does not end in a halting line was cut short by the fuel: it
      has exactly one line per unit of fuel. */
  lemma {:induction false} RunCutShort(table: Table, nts: set<char>, stack: string, input: string, fuel: nat, tr: seq<Row>)
    requires TableWellFormed(table) && EndsWithMarker(input)
    requires tr == Run(table, nts, stack, input, fuel)
    ensures HaltsOrFuelSpent(tr, fuel)
    decreases fuel
  {
    if stack != [] && fuel > 0 && !Halts(Decide(table, nts, stack[0], input[0])) {
      var a := Decide(table, nts, stack[0], input[0]);
      RunStep(table, nts, stack, input, fuel);
      var rest := Run(table, nts, NextStack(stack, a), NextInput(input, a), fuel - 1);
      RunCutShort(table, nts, NextStack(stack, a), NextInput(input, a), fuel - 1, rest);
      ConsHaltsOrFuelSpent(Row(stack, input, a), rest, fuel);
    } else {
      RunStops(table, nts, stack, input, fuel);
    }
  }

  lemma ConsAllDecided(table: Table, nts: set<char>, text: string, row: Row, next: string, rest: seq<Row>)
    requires Decided(table, nts, row) && SuffixOf(row.input, text)
    requires SuffixOf(next, text) && AllDecided(table, nts, next, rest)
    ensures AllDecided(table, nts, text, [row] + rest)
  {
    var tr := [row] + rest;
    forall i | 0 < i < |tr|
      ensures Decided(table, nts, tr[i]) && SuffixOf(tr[i].input, text)
    {
      assert tr[i] == rest[i - 1];
      SuffixTransitive(tr[i].input, next, text);
    }
  }

  /** Every line of a run is decided by the automaton's rule from its own stack
      top and input character, and its unread input is a suffix of the input
      the run started with. */
  lemma {:induction false} RunLinesDecided(table: Table, nts: set<char>, stack: string, input: string, fuel: nat, tr: seq<Row>)
    requires TableWellFormed(table) && EndsWithMarker(input)
    requires tr == Run(table, nts, stack, input, fuel)
    ensures AllDecided(table, nts, input, tr)
    decreases fuel
  {
    if stack != [] && fuel > 0 && !Halts(Decide(table, nts, stack[0], input[0])) {
      var a := Decide(table, nts, stack[0], input[0]);
      var next := NextInput(input, a);
      RunStep(table, nts, stack, input, fuel);
      var rest := Run(table, nts, NextStack(stack, a), next, fuel - 1);
      RunLinesDecided(table, nts, NextStack(stack, a), next, fuel - 1, rest);
      assert SuffixOf(input, input);
      assert SuffixOf(next, input);
      ConsAllDecided(table, nts, input, Row(stack, input, a), next, rest);
    } else {
      RunStops(table, nts, stack, input, fuel);
      assert SuffixOf(input, input);
    }
  }

  lemma SuffixTransitive(s: string, t: string, u: string)
    requires SuffixOf(s, t) && |t| <= |u| && t == u[|u| - |t|..]
    ensures SuffixOf(s, u)
  {
    assert s == u[|u| - |s|..];
  }

  lemma ConsAllMove(row: Row, rest: seq<Row>)
    requires AllMove(rest) && (rest != [] ==> Moves(row, rest[0]))
    ensures AllMove([row] + rest)
  {
    var tr := [row] + rest;
    forall i | 0 <= i < |tr| - 1
      ensures Moves(tr[i], tr[i + 1])
    {
      if i > 0 {
        assert tr[i] == rest[i - 1] && tr[i + 1] == rest[i];
      } else {
        assert tr[1] == rest[0];
      }
    }
  }

  /** Consecutive lines of a run are connected by the move of the earlier
      line's action; so only the last line of a run can halt. */
  lemma {:induction false} RunMoves(table: Table, nts: set<char>, stack: string, input: string, fuel: nat, tr: seq<Row>)
    requires TableWellFormed(table) && EndsWithMarker(input)
    requires tr == Run(table, nts, stack, input, fuel)
    ensures AllMove(tr)
    decreases fuel
  {
    if stack != [] && fuel > 0 && !Halts(Decide(table, nts, stack[0], input[0])) {
      var a := Decide(table, nts, stack[0], input[0]);
      RunStep(table, nts, stack, input, fuel);
      var rest := Run(table, nts, NextStack(stack, a), NextInput(input, a), fuel - 1);
      RunMoves(table, nts, NextStack(stack, a), NextInput(input, a), fuel - 1, rest);
      RunStarts(table, nts, NextStack(stack, a), NextInput(input, a), fuel - 1, rest);
      ConsAllMove(Row(stack, input, a), rest);
    } else {
      RunStops(table, nts, stack, input, fuel);
    }
  }

  lemma ConsAllKeepBottom(row: Row, rest: seq<Row>)
    requires row.stack != [] && row.stack[|row.stack| - 1] == EndMarker && row.action != RejectStackEmpty
    requires AllKeepBottom(rest)
    ensures AllKeepBottom([row] + rest)
  {
    var tr := [row] + rest;
    forall i | 0 < i < |tr|
      ensures tr[i].stack != [] && tr[i].stack[|tr[i].stack| - 1] == EndMarker && tr[i].action != RejectStackEmpty
    {
      assert tr[i] == rest[i - 1];
    }
  }

  /** When `$` is not a nonterminal, the `$` at the bottom of the stack is never
      popped, so the run never ends in "Reject: stack empty". */
  lemma {:induction false} RunKeepsBottomMarker(table: Table, nts: set<char>, stack: string, input: string, fuel: nat, tr: seq<Row>)
    requires TableWellFormed(table) && EndsWithMarker(input)
    requires EndMarker !in nts && stack != [] && stack[|stack| - 1] == EndMarker
    requires tr == Run(table, nts, stack, input, fuel)
    ensures AllKeepBottom(tr)
    decreases fuel
  {
    if fuel > 0 && !Halts(Decide(table, nts, stack[0], input[0])) {
      var a := Decide(table, nts, stack[0], input[0]);
      assert |stack| > 1;
      var next := NextStack(stack, a);
      assert next != [] && next[|next| - 1] == EndMarker;
      RunStep(table, nts, stack, input, fuel);
      var rest := Run(table, nts, next, NextInput(input, a), fuel - 1);
      RunKeepsBottomMarker(table, nts, next, NextInput(input, a), fuel - 1, rest);
      ConsAllKeepBottom(Row(stack, input, a), rest);
    } else {
      RunStops(table, nts, stack, input, fuel);
    }
  }

  /** When the input itself holds no `$`, an Accept happens only with the whole
      input consumed. */
  lemma AcceptConsumesInput(table: Table, nts: set<char>, start: char, input: string, fuel: nat)
    requires TableWellFormed(table)
    requires EndMarker !in input
    ensures var tr := Parse(table, nts, start, input, fuel);
      forall i :: 0 <= i < |tr| && tr[i].action == Accept ==> tr[i].input == [EndMarker]
  {
    var text := input + [EndMarker];
    var tr := Parse(table, nts, start, input, fuel);
    RunLinesDecided(table, nts, [start, EndMarker], text, fuel, tr);
    forall i | 0 <= i < |tr| && tr[i].action == Accept
      ensures tr[i].input == [EndMarker]
    {
      var n := |tr[i].input|;
      assert tr[i].input[0] == text[|text| - n];
    }
  }

  /** The outcome of a step, characterised: Accept exactly when top and input
      are both `$`; mismatch exactly when a non-nonterminal top differs from the
      input; no rule exactly when a nonterminal top has no cell for the input
      (and not both are `$`); an applied production is always the table's cell. */
  lemma DecideOutcomes(table: Table, nts: set<char>, top: char, cur: char)
    ensures Decide(table, nts, top, cur) == Accept <==> top == EndMarker && cur == EndMarker
    ensures Decide(table, nts, top, cur) == Match <==> top !in nts && top == cur && top != EndMarker
    ensures Decide(table, nts, top, cur) == RejectMismatch <==> top !in nts && top != cur
    ensures Decide(table, nts, top, cur) == RejectNoRule <==>
      top in nts && (top, cur) !in table && !(top == EndMarker && cur == EndMarker)
    ensures Decide(table, nts, top, cur).Apply? <==>
      top in nts && (top, cur) in table && !(top == EndMarker && cur == EndMarker)
    ensures Decide(table, nts, top, cur).Apply? ==> Decide(table, nts, top, cur).production == table[(top, cur)]
    ensures Decide(table, nts, top, cur) != RejectStackEmpty
  {
  }

  /** The table the grammar S -> # yields, its one cell (S, $) holding S>#, on
      the empty input: the expansion pushes nothing and the
      parse accepts on the next step. */
  lemma EpsilonGrammarAccepts()
    ensures Parse(map[('S', EndMarker) := "S>#"], {'S'}, 'S', "", 5)
      == [Row("S$", "$", Apply("S>#")), Row("$", "$", Accept)]
  {
    var table := map[('S', EndMarker) := "S>#"];
    assert Expand("S$", "S>#") == "$";
    assert Run(table, {'S'}, "$", "$", 4) == [Row("$", "$", Accept)];
  }
}
