# LL(1) grammar analyser and predictive parser, modelled in Dafny

`pred_parser.cpp` reads a context-free grammar as production strings of the
form `A>rhs`. Character 0 is the left-hand side, character 1 is a separator,
and the rest is the right-hand side. The program then:

- sorts the symbols into nonterminals (left-hand sides and uppercase
  characters) and terminals (every other character except the epsilon
  marker `#`, plus the end marker `$`);
- computes the FIRST and FOLLOW sets by two `while (changed)` fixed-point
  loops;
- fills the LL(1) parse table, where a later production silently overwrites
  an earlier one in a shared cell;
- runs a table-driven predictive parser on an input string and prints one
  trace line per step: Match, a production, Accept, or one of three
  rejections.

The program keeps its state in globals: the productions, the two symbol
sets, the FIRST and FOLLOW tables, the parse table and the start symbol.
This model holds them as the fields of the class `PredParser.Analyzer`,
whose methods are the program's procedures. Each procedure is proved
against pure specification functions kept in their own modules:

- `Symbols`: the symbol folds that extractSymbols computes.
- `SetMaps`: the `map<char, set<char>>` shape of FIRST and FOLLOW. A missing
  key reads as the empty set, like `operator[]`. `AddAll` is the bulk
  insertion, and the map comes back unchanged exactly when every
  `insert(...).second` would have been false.
- `FirstSets`, `FollowSets`: FIRST of a string, one round of each fixed-point
  loop as a fold over the productions, the closure equations, and the
  lemmas proving that the loops compute the least solutions.
- `ParseTable`: which productions claim which cells, and the table that
  results when later writes win.
- `Parsing`: the parser as a deterministic pushdown automaton, and its trace.

Stacks are written top first: `stack[0]` is `parseStack.top()`. A trace
line (`Parsing.Row`) records the stack, the unread input and the action.
The printed Stack column is `GetStackString` of the row's stack, which is
the same symbols bottom first.

The two fixed-point procedures work on a local copy of their table and
assign the field once the loop ends. buildParseTable does the same, and
extractSymbols accumulates its two sets in locals. Nothing else reads these
fields while the procedure runs, so the final state is the one the source
reaches by updating in place.

## Model

| member | source | states |
|---|---|---|
| PredParser.Analyzer.constructor | pred_parser.cpp:38-51 | With the productions given, the symbols are extracted and the start symbol is the first production's left side; the analyser state is valid |
| PredParser.Analyzer.ExtractSymbols | pred_parser.cpp:53-69 | The nonterminal and terminal sets become exactly the folds `NonterminalsOf` and `TerminalsOf` over the productions, in order |
| Symbols.NonterminalsOfMembers | pred_parser.cpp:54-66 | A character is a nonterminal exactly when it is some production's left side or an uppercase right-hand character |
| Symbols.TerminalsOfMembers | pred_parser.cpp:55-68 | A character is a terminal exactly when it is `$` or a right-hand character that is neither uppercase nor `#` |
| Symbols.RhsTerminalsOfMembers | pred_parser.cpp:59-66 | Before `$` is added, the terminals are exactly the right-hand characters that are neither uppercase nor `#` |
| Symbols.UpperInMembers | pred_parser.cpp:59-62 | The uppercase fold over a right-hand side holds exactly its uppercase characters |
| Symbols.OtherInMembers | pred_parser.cpp:59-65 | The other fold holds exactly the characters that are neither uppercase nor `#` |
| Symbols.NonterminalsCover | pred_parser.cpp:57-62 | Every left side and every uppercase right-hand character is a nonterminal |
| Symbols.StartIsNonterminal | pred_parser.cpp:50 | The start symbol, the first production's left side, is a nonterminal |
| Symbols.NonterminalAgreesWithUpper | pred_parser.cpp:197-199 | When every left side is uppercase, set membership (used by the parser) and `isupper` (used by FIRST and FOLLOW) agree on every right-hand character |
| Symbols.LowercaseLhsDisagrees | pred_parser.cpp:58-61 | With the grammar `S>a`, `a>b`, the right-hand `a` is a nonterminal by membership but not by `isupper` |
| PredParser.Analyzer.IsNonterminal | pred_parser.cpp:197-199 | True exactly when the symbol occurs as a left side or as an uppercase right-hand character of some production |
| FirstSets.FirstOfString | pred_parser.cpp:124-153 | The empty string gives `{#}`; a string starting with a non-uppercase `c` gives exactly `{c}`; for a string without `#`, `#` is in the result exactly when every symbol is a nonterminal whose FIRST holds `#` |
| PredParser.Analyzer.ComputeFirstOfString | pred_parser.cpp:124-153 | The loop's result is FIRST of the string over the current FIRST table |
| SetMaps.AddAll | pred_parser.cpp:107-109 | Inserting a set under a key adds exactly it there and changes no other key; the map grows and is unchanged exactly when nothing was new |
| PredParser.Insert | pred_parser.cpp:186-190 | Inserting the members one at a time adds exactly them under the key and changes no other key; the change flag is set exactly when the map changed |
| FirstSets.ScanRhs | pred_parser.cpp:91-118 | The scan of a right-hand side from its first symbol: a terminal is added and ends the scan; a nonterminal adds its FIRST without `#` and the scan continues only when that FIRST holds `#`, adding `#` after a last such symbol. The table only grows, and only at the left side |
| FirstSets.FirstStep | pred_parser.cpp:81-119 | One production's turn: `#` for a right side that is exactly `#`, otherwise the scan. The table only grows, and only at the left side |
| FirstSets.FirstPass | pred_parser.cpp:80-120 | A round over the productions only grows the FIRST sets |
| FirstSets.FirstFixedPointIffClosed | pred_parser.cpp:77-121 | A round changes nothing exactly when the table satisfies the FIRST closure equations |
| FirstSets.FirstPassWithin | pred_parser.cpp:80-120 | A round that starts below a solution of the closure equations stays below it |
| FirstSets.FirstPassBounded | pred_parser.cpp:80-120 | A round keeps the nonterminal keys and adds only `#` and right-hand characters |
| FirstSets.FirstPassExtend | pred_parser.cpp:80-120 | Each production's turn extends the round, and the round's `changed` flag is set exactly when the table grew |
| FirstSets.FirstSeed | pred_parser.cpp:72-74 | The cleared table starts the loop with its invariant |
| FirstSets.FirstRoundStep | pred_parser.cpp:76-121 | A round keeps the loop invariant; a round reporting no change is a fixed point, and one reporting a change strictly shrinks the finite set of missing pairs, so the loop terminates |
| FirstSets.FirstDone | pred_parser.cpp:76-121 | At the fixed point the table satisfies the closure equations and lies within every other table that does |
| FirstSets.EpsilonProductionInFirst | pred_parser.cpp:84-89 | A production whose right side is exactly `#` puts `#` into FIRST of its left side |
| PredParser.Analyzer.ComputeFirstSets | pred_parser.cpp:71-122 | FIRST is keyed by the nonterminals, satisfies the closure equations, and is the least table that does |
| PredParser.Analyzer.LeastFirstTable | pred_parser.cpp:72-121 | The cleared table iterated to its fixed point is the least solution of the FIRST closure equations |
| PredParser.Analyzer.FirstRounds | pred_parser.cpp:76-121 | The `while (changed)` loop ends at a fixed point of a round and keeps the invariant |
| PredParser.Analyzer.FirstRound | pred_parser.cpp:78-120 | One round yields the fold `FirstPass`; `changed` is set exactly when the table grew |
| PredParser.Analyzer.FirstProduction | pred_parser.cpp:81-119 | One production's turn yields `FirstStep`; `added` is set exactly when the table grew |
| FollowSets.FollowAt | pred_parser.cpp:170-190 | The updates at one uppercase position: FIRST of the suffix without `#` is added to its FOLLOW, then FOLLOW of the left side when the suffix is empty or nullable. Only that key grows, and no `#` is brought in |
| FollowSets.ScanFollow | pred_parser.cpp:168-191 | The positions of a right-hand side in order, skipping non-uppercase ones. The table only grows, a new key is only ever an uppercase symbol of the right side, and no `#` is brought in |
| FollowSets.FollowStep | pred_parser.cpp:166-191 | One production's turn over its right-hand side; the table only grows and never gains `#` |
| FollowSets.FollowPass | pred_parser.cpp:164-192 | A round only grows the FOLLOW sets and never brings in `#` |
| FollowSets.FollowFixedPointIffClosed | pred_parser.cpp:162-193 | A round changes nothing exactly when the table satisfies the FOLLOW closure equations |
| FollowSets.FollowClosedAt | pred_parser.cpp:166-191 | At a solution, for every production A -> rhs and uppercase rhs[i], FIRST of the suffix without `#` is within FOLLOW(rhs[i]), and FOLLOW(A) is too when the suffix is empty or its FIRST holds `#` |
| FollowSets.FollowPassWithin | pred_parser.cpp:164-192 | A round that starts below a solution of the closure equations stays below it |
| FollowSets.FollowPassBounded | pred_parser.cpp:164-192 | A round keeps the nonterminal keys and adds only `$` and members of FIRST of right-hand suffixes |
| FollowSets.FollowPassExtend | pred_parser.cpp:164-192 | Each production's turn extends the round, and `changed` is set exactly when the table grew |
| FollowSets.FollowSeed | pred_parser.cpp:156-160 | The cleared table with `$` under the start symbol starts the loop with its invariant |
| FollowSets.FollowRoundStep | pred_parser.cpp:162-193 | A round keeps `$` in FOLLOW(start), keeps `#` out and keeps the invariant; no change means a fixed point; a change shrinks the missing pairs |
| FollowSets.FollowDone | pred_parser.cpp:162-193 | At the fixed point the table satisfies the closure equations, holds `$` for the start symbol, has no `#`, and lies within every other such table |
| PredParser.Analyzer.ComputeFollowSets | pred_parser.cpp:155-195 | FOLLOW is keyed by the nonterminals, holds `$` for the start symbol, never holds `#`, satisfies the closure equations, and is the least such table |
| PredParser.Analyzer.LeastFollowTable | pred_parser.cpp:156-194 | Clearing, seeding `$` and iterating to the fixed point gives the least solution of the FOLLOW closure equations |
| PredParser.Analyzer.FollowRounds | pred_parser.cpp:162-194 | The `while (changed)` loop ends at a fixed point of a round and keeps the invariant |
| PredParser.Analyzer.FollowRound | pred_parser.cpp:165-193 | One round yields the fold `FollowPass`; `changed` is set exactly when the table grew |
| PredParser.Analyzer.FollowProduction | pred_parser.cpp:166-192 | One production's turn yields `FollowStep`; `added` is set exactly when the table grew |
| PredParser.Analyzer.ComputeFirstAndFollow | pred_parser.cpp:213-216 | Both tables are the least solutions of their closure equations, FOLLOW over the FIRST just computed |
| ParseTable.WriteCells | pred_parser.cpp:227-237 | Exactly the cells (lhs, t) for the given t now hold the production; every other cell is as before |
| ParseTable.TableStep | pred_parser.cpp:222-237 | After a production's turn, exactly the cells it claims hold it and every other cell is unchanged |
| ParseTable.BuildTable | pred_parser.cpp:218-239 | Each cell of the built table holds the last production in the list that claims it, and an unclaimed cell is empty |
| ParseTable.LastClaim | pred_parser.cpp:218-239 | The independent reference for the built table: the last production in the list that claims the cell, or none. `LastClaimIsLatest`, `LastClaimNone` and `LastClaimSome` state its properties, and `BuildTable` is proved equal to it |
| ParseTable.LastClaimIsLatest | pred_parser.cpp:218-239 | When production k claims a cell and no later one does, the cell holds production k: the later write wins |
| ParseTable.LastClaimNone | pred_parser.cpp:218-239 | A cell is empty exactly when no production claims it |
| ParseTable.LastClaimSome | pred_parser.cpp:218-239 | A filled cell holds a production of the grammar that claims it |
| ParseTable.TableEntries | pred_parser.cpp:218-239 | Every entry (A, t) holds a production of the grammar whose left side is A, and t is not `#` when FOLLOW holds no `#` |
| PredParser.BuiltTableWellFormed | pred_parser.cpp:218-239 | Every cell of a built table holds a production with a right-hand side |
| PredParser.Analyzer.BuildParseTable | pred_parser.cpp:218-239 | The table becomes `BuildTable` of the productions; each cell holds the last production claiming it |
| PredParser.Analyzer.FilledTable | pred_parser.cpp:219-238 | The cleared table after every production's turn, in order, is `BuildTable` |
| PredParser.Analyzer.TableProduction | pred_parser.cpp:222-237 | One production's turn yields `TableStep` |
| PredParser.GetStackString | pred_parser.cpp:201-211 | The string is the stack listed bottom to top: same length, character i is the i-th from the bottom |
| PredParser.PushRhs | pred_parser.cpp:357-361 | Pushing the right side from its last symbol to its first leaves it on the stack in order, with its first symbol on top |
| PredParser.Analyzer.ParseStep | pred_parser.cpp:313-362 | The action is the automaton's decision for the top and the input character; a non-halting action leaves the stack the automaton moves to |
| PredParser.Analyzer.ParseString | pred_parser.cpp:296-368 | The trace is the automaton's run from the start symbol above `$`, on the input with `$` appended |
| Parsing.Decide | pred_parser.cpp:312-348 | One iteration's decision from the stack top and the input character: a Match needs a top that is no nonterminal, equals the input and is not `$`; an applied production is the table's cell for a nonterminal top; the decision is never "stack empty" |
| Parsing.Pushed | pred_parser.cpp:349-361 | What an expansion pushes: nothing exactly when the right side is `#` or empty, otherwise the right side with its first symbol on top; a lone `#` is never pushed |
| Parsing.Expand | pred_parser.cpp:355-361 | Expanding pops the top and puts the pushed symbols above the untouched rest of the stack |
| Parsing.Run | pred_parser.cpp:312-368 | The trace of the loop from a configuration with at most `fuel` iterations: one line per iteration, ending at the first halting action, and a "stack empty" line once the stack is empty. `RunStarts`, `RunMoves`, `RunLinesDecided`, `RunKeepsBottomMarker`, `RunLengthBound` and `RunCutShort` state its properties |
| Parsing.Parse | pred_parser.cpp:300-368 | The run from the start symbol above `$`, on the input with `$` appended; `ParseString` is proved to produce it |
| Parsing.DecideOutcomes | pred_parser.cpp:319-353 | Accept exactly when top and input are both `$`; Match exactly when a non-nonterminal top equals the input (and is not `$`); mismatch exactly when it differs; no rule exactly when a nonterminal top has no cell; an applied production is the table's cell |
| Parsing.RunStarts | pred_parser.cpp:302-304 | A run's first line is the configuration it starts from |
| Parsing.RunMoves | pred_parser.cpp:326-361 | Consecutive lines are linked by the earlier line's move: a Match pops one symbol and consumes one input character; an expansion replaces the top by the right side, pushing nothing for `#` |
| Parsing.RunLinesDecided | pred_parser.cpp:312-362 | Every line's action is the automaton's decision from its own stack top and input character, and its unread input is a suffix of the input |
| Parsing.RunKeepsBottomMarker | pred_parser.cpp:302-367 | When `$` is not a nonterminal, `$` stays at the bottom of the stack and the run never ends in "stack empty" |
| Parsing.AcceptConsumesInput | pred_parser.cpp:319-324 | When the input holds no `$`, Accept happens only with the whole input consumed |
| Parsing.RunLengthBound | pred_parser.cpp:312-363 | A run has at most one line per iteration allowed, plus a final "stack empty" line |
| Parsing.RunCutShort | pred_parser.cpp:312-363 | A run ends on a halting line or uses exactly its whole iteration budget |
| Parsing.TraceAdvance | pred_parser.cpp:312-363 | One loop iteration appends the current line; a halting action completes the trace, and otherwise the rest is the run from the next configuration |
| Parsing.EpsilonGrammarAccepts | pred_parser.cpp:355-361 | For the table the grammar `S>#` yields (its one cell `(S, $)` holding `S>#`) and the empty input, the expansion pushes nothing and the next step accepts |
| SetMaps.GrowthShrinksMissing | pred_parser.cpp:76-77 | A table that grows inside its bounds loses a missing (key, symbol) pair: the termination measure of both `while (changed)` loops |

## Left out

- Console I/O: `inputGrammar`'s reading, `displaySets`, `displayParseTable`, `main`, and the `cin`/`setw`/`cout` formatting inside `parseString` (pred_parser.cpp:38-48, 241-294, 297-310, 370-378). The productions and the input string are parameters, and the trace is a sequence of `Row` values rather than printed text.
- The "stack empty" line prints `-` in the Stack and Input columns. Its `Row` records the empty stack and the unread input instead.
- PredParser.Analyzer.ParseString: the source loop is unbounded, since a table that routes a nonterminal back to itself expands forever. The model allows at most `fuel` iterations, and a run cut off by fuel has no final line (`Parsing.RunCutShort`).
- Iteration order of `unordered_set`, `unordered_map` and `set`. The inner `for (char t : ...)` insertion loops are modelled by `Insert`, which takes the members one at a time in an unspecified order, and its specification `AddAll`; the table writes are modelled as one bulk write (`WriteCells`). Their results are sets, and every write of one such loop stores the same production, so the order cannot be observed.
- `operator[]` on `firstSets` and `followSets` inserts an empty set for a missing key. `Get` reads a missing key as empty without inserting it. After the clearing loops every key read is a nonterminal and already present, so the two agree.
- PredParser.Analyzer.ComputeFirstSets and ComputeFollowSets (and BuildParseTable, ExtractSymbols) compute on a local value and assign the field at the end instead of updating it in place. No other code runs in between, so only the final state is modelled.
- Production strings shorter than 2 characters, which make `substr(2)` fail, and an empty grammar, where `productions[0][0]` has no value. Both are preconditions (`WellFormed`, at least one production) rather than modelled behaviour.
- `isupper` is modelled for ASCII `A`-`Z` only; locale-dependent classification is not modelled.
- The source works on bytes (`char`), so a non-ASCII character in a production or an input is several symbols there. Here every symbol is one Dafny `char`, and multi-byte characters are not modelled.
