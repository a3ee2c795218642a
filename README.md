# zlang front end and translator, modelled in Dafny

zlang is a small teaching compiler. This project models its core, one Dafny
module per stage, and proves what each stage promises.

- **GrammarRules** and **Closure**, **PrecedenceTable**, **GrammarBuilder**
  (`grammar_rules.dfy`, `closure.dfy`, `op_table.dfy`, `grammar.dfy`) model the
  grammar generator of `gen_tables.py`. It reads the grammar text, splits the
  `|` alternatives into separate rules and collects the nonterminals. It builds
  the skeleton grammar, where every nonterminal becomes `S` and `S ::= S` is
  dropped. It computes the leftmost/rightmost symbol and terminal tables as
  fixed points, then fills the operator-precedence table. That table has one
  row per terminal plus a BEGIN row and one column per terminal plus an END
  column. A cell that gets a second relation is recorded in
  `multiple_value_cells`.
- **SyntaxAnalysis** (`syntax.dfy`) models the shift-reduce parser of
  `syntaxanalyzer.py`. It pushes BEGIN and appends END. It shifts on `=` or `<`
  and reduces on `>`. A reduction pops the handle and replaces it with a
  `GrammarNode` for the first skeleton rule whose right side the handle spells.
- **Lexer** (`lexer.dfy`) models the scanner of `lexicalanalyzer.py`: its
  cursor, its three growing symbol tables and its token list.
- **AsmTranslation** (`asm.dfy`) models `to_asm` of `asmtranslator.py`. It
  turns a statement into postfix order with an operator stack, and turns
  `switch`/`case` into switch tokens, jumps, labels and comparisons.
- **Semantic** (`semantic.dfy`) models the breadth-first definition-before-use
  check of `semanticanalyzer.py`.
- **Util** and **Tokens** (`util.dfy`, `tokens.dfy`) hold the Python list and
  string operations the source relies on, and the `Token` record.

Each stateful part of the source is a class whose methods update its fields:

- `OpTable`, `SyntaxAnalyzer`, `LexicalParser`, `AsmSyntax`, `AsmTranslator` and
  `SemanticAnalyzer` are classes;
- every loop is a `while` or `for` loop with invariants;
- each method is proved against a function of its inputs and old state, and the
  source's promises are lemmas about those functions.

Inputs the source hard-codes or takes from libraries are parameters here:

- the terminal list, the start symbol and the grammar text (the shipped values
  are constants in `GrammarRules`);
- the lexer's compiled identifier regex (`identifierMatch`, its `fullmatch`);
- Python's `float()` (`isFloat`, whether it accepts a word);
- the three callbacks of the semantic analyzer.

In several places the code departs from the textbook operator-precedence
design, and the model follows the code:

- The parser matches a handle against the **skeleton** rules
  (`syntaxanalyzer.py:88`), not the full rules. `get_token_for_rule` maps a
  node to its label, and that label is `S` for every node. So any reduced
  nonterminal matches any `S` position.
- `parse` returns the whole stack (`syntaxanalyzer.py:136`), BEGIN included,
  not the single node above BEGIN.
- A word is a constant when `float()` accepts it (`lexicalanalyzer.py:96-98`).
  The parser classes a word as `CONSTANT` or `ID` by its membership in the
  lexer's constants and identifiers tables (`syntaxanalyzer.py:64-72`), not by
  the kind of literal it is.

One departure is not followed. The basis search of `find_basis_symbols`
(gen_tables.py:296-305) does not compute the relation `ai = aj` of the
textbook definition; see "## Findings". The search as written is modelled and
the discrepancy is exhibited, but the precedence table is built from the
corrected search. "## Left out" names the members this affects.

## Model

| member | source | states |
|---|---|---|
| GrammarRules.FirstTerminal | gen_tables.py:68-73 | the result is a terminal of the right side and no terminal comes before it, and there is no result exactly when the right side holds no terminal |
| GrammarRules.LastTerminal | gen_tables.py:75-80 | the same from the right end: no terminal comes after the result, and there is no result exactly when the right side holds no terminal |
| GrammarRules.ParseLine | gen_tables.py:94-103 | an accepted line gives field 0 as the left side and fields 2 onwards as the right side |
| GrammarRules.ReadRules | gen_tables.py:92-104 | the loop over the lines returns the rules of every line in order, or the error of the first bad line |
| GrammarRules.LineWithoutDerives | gen_tables.py:96-97 | a line whose second field is not `::=` is rejected with its own line number |
| GrammarRules.FirstBadLineNamed | gen_tables.py:93-97 | reading stops at the first line without `::=` and names it, counting lines from 1 |
| GrammarRules.ParseLineRoundTrip | gen_tables.py:94-103 | joining an accepted line's left side, `::=` and right side with spaces gives the line back |
| GrammarRules.PrintedRuleParses | gen_tables.py:94-103 | a rule whose symbols hold no space, written out with spaces, is read back as the same rule |
| GrammarRules.SplitRule | gen_tables.py:107-116 | `split_rule` returns one rule per `\|`-segment except the last, with the same left side, and leaves the last segment as the right side |
| GrammarRules.SplitStep | gen_tables.py:110-114 | one loop turn takes the piece before the first `\|` as the next segment, and the rest splits into the remaining segments |
| GrammarRules.NoAlternativeExpansion | gen_tables.py:119 | a rule without `\|` stays as it is |
| GrammarRules.ExpansionNoAlternative | gen_tables.py:110-116 | no rule that one line expands into holds `\|` |
| GrammarRules.ExpandAt | gen_tables.py:119-123 | splitting rule `i` in place puts its expansion where it stood and leaves the rules before and after unchanged |
| GrammarRules.SplitAlternatives | gen_tables.py:118-123 | the loop that inserts into the list it walks ends with every line replaced by its expansion, in order |
| GrammarRules.VisitRule | gen_tables.py:118-123 | one turn of that loop keeps its invariant and either moves to the next line or passes one inserted rule |
| GrammarRules.SplitDone | gen_tables.py:118 | when the enumeration runs off the end of the grown list, every line has been expanded |
| GrammarRules.SplitAtLine | gen_tables.py:119-123 | a rule with `\|` met by the loop is the next unexpanded line, and splitting it moves past that line |
| GrammarRules.PassLine | gen_tables.py:119 | a line without `\|` is passed over unchanged |
| GrammarRules.PassExpanded | gen_tables.py:118-123 | a rule inserted by an earlier split is passed over |
| GrammarRules.ExpandAllSound | gen_tables.py:107-123 | no split rule holds `\|`, and each has the left side of a line and one of that line's `\|`-segments as its right side |
| GrammarRules.RightsOfExpansion | gen_tables.py:113-123 | a line's expansion has the segments before the last one in reverse order, then the last segment |
| GrammarRules.ExpansionSegments | gen_tables.py:107-123 | the right sides a line expands into are exactly its `\|`-segments, counted with multiplicity, and all keep the line's left side |
| GrammarRules.ExpansionLefts | gen_tables.py:113 | every rule of an expansion keeps the line's left side |
| GrammarRules.CollectNonTerminals | gen_tables.py:130-137 | the nonterminals are listed once each; a symbol is listed exactly when it is no terminal and occurs in some rule; and they come in the order of their first occurrence in the rules, left side before right side |
| GrammarRules.CollectFrom | gen_tables.py:133-135 | the loop over one rule's symbols keeps the list the first occurrences, in order, of the non-terminal symbols visited so far |
| GrammarRules.SymbolsOccur | gen_tables.py:132-133 | the scan order visits, rule by rule, the left side and then the right side, and it visits exactly the symbols that occur in some rule |
| GrammarRules.FirstOccurrencesSnoc | gen_tables.py:133-135 | one more scanned symbol is appended exactly when it is no terminal and not yet listed, and the first-occurrence order is kept |
| GrammarRules.FirstOccurrencesOfRules | gen_tables.py:130-137 | the order characterization of the scan prefix carries over to the whole rule list |
| GrammarRules.NonTerminalsOrdered | gen_tables.py:130-137 | an earlier nonterminal of the list first occurs earlier in the scan order |
| GrammarRules.FirstOccurrencesUnique | gen_tables.py:130-137 | the first-occurrence order determines the list: two lists that both satisfy it are equal |
| GrammarRules.FirstOccurrencesTail | gen_tables.py:130-137 | dropping the first nonterminal of an ordered list leaves an ordered list of the rest, with that nonterminal counted as excluded |
| GrammarRules.BuildSkeleton | gen_tables.py:139-157 | the deepcopy-rename loop and the filter loop together give exactly the skeleton rules |
| GrammarRules.KeepNonTrivialSound | gen_tables.py:151-157 | everything the filter keeps is a renamed rule other than `S ::= S` |
| GrammarRules.KeepNonTrivialComplete | gen_tables.py:151-157 | the filter keeps every renamed rule other than `S ::= S` |
| GrammarRules.SkeletonRulesShape | gen_tables.py:139-157 | every skeleton rule has left side `S`, is not `S ::= S`, and comes from a rule of the same length with nonterminals renamed to `S` and terminals kept |
| GrammarRules.SkeletonRulesComplete | gen_tables.py:139-157 | every rule whose skeleton is not `S ::= S` has that skeleton among the skeleton rules |
| Closure.AppendNew | gen_tables.py:189-190 | appending a symbol only when it is absent keeps a list free of duplicates and adds exactly that symbol |
| Closure.EmptyLists | gen_tables.py:179-183 | one empty list per nonterminal and no other key |
| Closure.SeedSymbolTables | gen_tables.py:177-195 | the first filling fails exactly when some rule has a terminal left side or an empty right side, with the error of the first such rule; otherwise each nonterminal's two lists hold exactly the first and the last symbols of its rules, once each |
| Closure.SeedTable | gen_tables.py:186-195 | the filling has exactly the nonterminals as keys |
| Closure.SeedTableSnoc | gen_tables.py:186-195 | one more error-free rule appends its first (last) symbol to its left side's list if absent |
| Closure.SeedTableSeeded | gen_tables.py:186-195 | the filling holds each rule's end symbol in its left side's list, once, and nothing else |
| Closure.FirstSeedError | gen_tables.py:186-195 | a failing rule after error-free ones makes the filling fail with that rule's error |
| Closure.SymbolSeedStep | gen_tables.py:187-195 | one rule's contribution keeps the list exactly the seeds of the rules so far |
| Closure.TerminalSeedStep | gen_tables.py:238-247 | a rule's leftmost (rightmost) terminal, if it has one, joins its left side's terminal list once |
| Closure.SeedTerminalTables | gen_tables.py:229-247 | each nonterminal's terminal lists hold exactly the leftmost and the rightmost terminals of its rules, once each |
| Closure.SymbolSeededWellFormed | gen_tables.py:186-195 | the symbol lists hold only terminals and nonterminals and have no duplicate |
| Closure.TerminalSeededWellFormed | gen_tables.py:238-247 | the terminal lists hold only terminals and have no duplicate |
| Closure.WellFormedBound | gen_tables.py:198-216 | the total length of the lists is bounded by the number of nonterminals times the vocabulary, so the fixed-point loops end |
| Closure.AddNew | gen_tables.py:211-213 | `additional_symbols` gains, in order, every candidate absent from the current list and not yet gathered, and stays free of duplicates |
| Closure.Gather | gen_tables.py:204-213 | `additional_symbols` is exactly the symbols of the listed nonterminals' lists that are not yet present, with no duplicate |
| Closure.GatherEmpty | gen_tables.py:215 | `additional_symbols` is empty exactly when every listed nonterminal's list is already contained |
| Closure.CompletePass | gen_tables.py:201-216 | one pass only appends to lists, which stay duplicate-free within the vocabulary; `changed` means the total grew, and no change means the table is closed; a closed table that contains the lists before the pass also contains them after it |
| Closure.PassStep | gen_tables.py:203-216 | one nonterminal of a pass keeps the pass invariant |
| Closure.PassWellFormed | gen_tables.py:216 | appending `additional_symbols` keeps the lists duplicate-free, in the vocabulary and only growing |
| Closure.PassClosed | gen_tables.py:215-216 | a nonterminal with nothing to add is closed, as are those before it |
| Closure.PassLeast | gen_tables.py:208-216 | the symbols gathered for a nonterminal lie in every closed table that contains the current lists |
| Closure.CompleteTable | gen_tables.py:198-219 | `complete_table` ends with the lists grown from the seeds and closed, so a nonterminal's list contains the list of every nonterminal in it; and they lie within every closed table that contains the seeds, so the result is the least fixed point |
| Closure.CompleteTPass | gen_tables.py:252-268 | the same for one pass over the terminal lists along the closed symbol lists, including that every table closed along them and containing the lists before the pass contains them after it |
| Closure.CompleteTTable | gen_tables.py:249-271 | `complete_t_table` ends with every terminal list grown and containing the terminal list of every nonterminal in its symbol list, and within every such closed table that contains the seeds: the least fixed point |
| Closure.TPassLeast | gen_tables.py:258-268 | the terminals gathered for a nonterminal lie in every table closed along the symbol lists that contains the current lists |
| Closure.SymbolTableLeast | gen_tables.py:177-219 | the completed symbol table holds every seed, is closed, and lies within every closed table holding the seeds |
| Closure.TerminalTableLeast | gen_tables.py:229-271 | the completed terminal table holds every terminal seed, is closed along the symbol table, and lies within every such table holding the seeds |
| Closure.LeastSymbolTableUnique | gen_tables.py:198-219 | two least closed symbol tables for the same rules hold the same symbols in every list |
| Closure.LeastTerminalTableUnique | gen_tables.py:249-271 | two least terminal tables, closed along symbol tables with the same symbols, hold the same symbols in every list |
| PrecedenceTable.ScanBasis | gen_tables.py:291-310 | the intended scan of one right side adds, once each, exactly the terminals that either follow `ai` or follow it after one nonterminal |
| PrecedenceTable.FindBasisSymbols | gen_tables.py:287-312 | `b` is in the basis of `ai` exactly when some right side has `ai b` or `ai N b`, with N a nonterminal, and no symbol is listed twice |
| PrecedenceTable.BasisAsWrittenSpurious | gen_tables.py:296-305 | the search as written puts `c` in the basis of `a` for the rules `A ::= a b` and `A ::= a b c`, although `c` never follows `a` within one symbol |
| PrecedenceTable.ScanShortRule | gen_tables.py:296-305 | on `a b` the search as written finds `b` |
| PrecedenceTable.ScanLongRule | gen_tables.py:296-305 | on `a b c`, with `b` already found, the search as written adds `c` |
| PrecedenceTable.NoBasisAC | gen_tables.py:287-312 | in those two rules `a` and `c` are no basis pair |
| PrecedenceTable.BasisCorrectedExample | gen_tables.py:287-312 | on the same rules the intended search finds a basis for `a` without `c` |
| PrecedenceTable.ScanNeighbours | gen_tables.py:318-335 | one right side adds, once each, exactly the nonterminals at distance `delta` from an occurrence of `ai`; a negative index does not count |
| PrecedenceTable.FindNextPrevSymbols | gen_tables.py:314-343 | `find_precedes_symbols` and `find_follows_symbols` list exactly the nonterminals right after (before) some occurrence of `ai`, once each |
| PrecedenceTable.MergeCellKeeps | gen_tables.py:345-351 | merging into a cell keeps every relation, adds exactly the new one and keeps the cell's relations distinct; the cell grows by one exactly when a second, different relation arrives |
| PrecedenceTable.MergeEntries | gen_tables.py:345-351 | a merge adds exactly the merged relation to the table's relations |
| PrecedenceTable.MergeValid | gen_tables.py:345-351 | a merge keeps the cells well formed when a conflict is recorded for each second relation |
| PrecedenceTable.MergeCounts | gen_tables.py:349-351 | each position is recorded in `multiple_value_cells` once per relation beyond the first in its cell |
| PrecedenceTable.MergeWellFormed | gen_tables.py:345-351 | after a merge every cell is blank or a string of distinct relations |
| PrecedenceTable.MergeInRange | gen_tables.py:351 | every recorded conflict is a position of the table |
| PrecedenceTable.BodyEntriesRows | gen_tables.py:353-376 | the relations of the terminal loop are exactly those of its iterations together |
| PrecedenceTable.NeighbourListEntries | gen_tables.py:360-376 | the relations made from the found neighbours are exactly those the neighbour relation specifies |
| PrecedenceTable.OpTable.constructor | gen_tables.py:281-285 | `n` rows of `n` blank cells, no conflicts, no relations |
| PrecedenceTable.OpTable.SetOrAppend | gen_tables.py:345-351 | the cell becomes the merge of its old content and the value; a position is appended to `multiple_value_cells` exactly when a second, different relation arrives; the rest of the table is unchanged |
| PrecedenceTable.OpTable.AppendEmptyRow | gen_tables.py:379 | a blank row is added at the bottom and nothing else changes |
| PrecedenceTable.OpTable.AppendEmptyColumn | gen_tables.py:382-383 | every row gains one blank cell at its end and nothing else changes |
| PrecedenceTable.OpTable.SetAt | gen_tables.py:358 | one call adds exactly its relation, in row or column `fixed` |
| PrecedenceTable.OpTable.SetForAll | gen_tables.py:365-367 | the loop over one symbol list adds exactly one relation per terminal of the list |
| PrecedenceTable.OpTable.SetForNeighbours | gen_tables.py:362-367 | the loop over the neighbours adds the relation for every terminal of their lists |
| PrecedenceTable.OpTable.AddBorders | gen_tables.py:378-383 | the table becomes `n + 1` square with no relation added |
| PrecedenceTable.OpTable.FillBorders | gen_tables.py:385-395 | adds `<` in the BEGIN row for the start symbol's leftmost terminals and `>` in the END column for its rightmost ones |
| PrecedenceTable.OpTable.FillRow | gen_tables.py:353-376 | one iteration of the terminal loop adds exactly that terminal's `=`, `<` and `>` relations |
| PrecedenceTable.BuildOpTable | gen_tables.py:281-395 | fails with a `KeyError` exactly when the start symbol is not a nonterminal; otherwise a fresh, valid table, square over the terminals and the sentinel, holding exactly the specified relations |
| PrecedenceTable.RowEntryShape | gen_tables.py:353-376 | one iteration puts `=` and `<` only in its row and `>` only in its column, each against a terminal that the basis or the neighbour relation justifies |
| PrecedenceTable.EqualPlacement | gen_tables.py:353-358 | the table holds `=` at `(r, c)` exactly when terminal `c` is in the basis of terminal `r`; `=` never appears in the BEGIN row or the END column |
| PrecedenceTable.LessPlacement | gen_tables.py:360-367 | the table holds `<` at `(r, c)` exactly when terminal `c` can start a nonterminal right after terminal `r`, or `r` is BEGIN and `c` can start the start symbol |
| PrecedenceTable.GreaterPlacement | gen_tables.py:369-376 | the table holds `>` at `(r, c)` exactly when terminal `r` can end a nonterminal right before terminal `c`, or `c` is END and `r` can end the start symbol |
| PrecedenceTable.SentinelLines | gen_tables.py:378-395 | the BEGIN row holds only `<` and the END column only `>`, and their shared cell is blank |
| PrecedenceTable.TableEntriesDetermined | gen_tables.py:353-395 | the relations of the table depend on the terminal lists only through the symbols they hold, not through their order |
| PrecedenceTable.SamePlacement | gen_tables.py:353-376 | a relation placed from one pair of terminal tables is placed from any pair holding the same symbols |
| GrammarBuilder.BuiltTableShaped | gen_tables.py:378-395 | a built table is what the parser expects: square, well-formed cells, `<` only in the BEGIN row and `>` only in the END column |
| GrammarBuilder.FirstRuleErrorAt | gen_tables.py:186-195 | the build's error is the error of the first rule that has one |
| GrammarBuilder.FirstRuleErrorNone | gen_tables.py:186-195 | with no failing rule, no error |
| GrammarBuilder.ComputeTables | gen_tables.py:177-273 | fails exactly when some rule has a terminal left side or an empty right side, with the first such rule's error; otherwise each of the four tables is the least closed table holding its seeds, its lists duplicate-free within the vocabulary |
| GrammarBuilder.LoadRules | gen_tables.py:44-123 | fails with the sentinel error when BEGIN or END is a terminal, else with the first bad line's error; otherwise returns the read rules with alternatives expanded |
| GrammarBuilder.BuildFromRules | gen_tables.py:130-397 | from the split rules: the nonterminals in first-occurrence order, the skeleton, the four tables as the least closed tables holding their seeds, and the precedence table, each as specified; fails exactly in the cases the source raises, with the first error |
| GrammarBuilder.Tabulate | gen_tables.py:177-397 | with the nonterminals given: fails exactly when a rule's seeding raises or the start symbol is not a nonterminal, else the least tables and the precedence table as specified, its `=` relation from the corrected basis search |
| GrammarBuilder.WithOpTable | gen_tables.py:281-397 | with the tables given: fails with a `KeyError` on the start symbol exactly when it is not a nonterminal, else adds the precedence table as specified, its `=` relation from the corrected basis search, and keeps every other attribute |
| GrammarBuilder.BuiltFromRulesDetermined | gen_tables.py:130-397 | two grammars built from the same rules, terminals and start symbol have the same nonterminals in the same order, the same skeleton, lists holding the same symbols and the same relations |
| GrammarBuilder.BuildGrammar | gen_tables.py:83-397 | the whole build: fails exactly when the source raises, with that error; otherwise every attribute of `Grammar` is as specified for the given text |
| GrammarBuilder.BuiltDetermined | gen_tables.py:83-397 | the grammar text, the terminals and the start symbol determine the built grammar, each list up to the order of its symbols |
| SyntaxAnalysis.TableIndex | syntaxanalyzer.py:64-72 | a constant maps to the index of `CONSTANT`, an identifier to that of `ID`, BEGIN and END to the sentinel index, anything else to its first index; a value of none of these kinds makes `index` fail |
| SyntaxAnalysis.CellOf | syntaxanalyzer.py:81-84 | a lookup succeeds only when a topmost terminal was found |
| SyntaxAnalysis.RuleSymbol | syntaxanalyzer.py:74-79 | a node stands for its label, a terminal for the terminal of its class; a sentinel inside a handle fails |
| SyntaxAnalysis.MapRight | syntaxanalyzer.py:87 | the handle's symbols, element by element, or the error of its first element that has none |
| SyntaxAnalysis.FirstWithRight | syntaxanalyzer.py:86-91 | the first skeleton rule whose right side is the given one, and none exactly when no rule has it |
| SyntaxAnalysis.TopLeaf | syntaxanalyzer.py:55-58 | the topmost terminal's position: only nodes above it, none exactly when no terminal is on the stack |
| SyntaxAnalysis.TopToken | syntaxanalyzer.py:55-58 | a topmost terminal exists exactly when the stack holds a terminal |
| SyntaxAnalysis.HasLeafWiden | syntaxanalyzer.py:105-106 | popping one more element keeps a terminal in the basis |
| SyntaxAnalysis.PopAboveTerminal | syntaxanalyzer.py:105-106 | the first loop of `reduce` stops exactly when it has popped the topmost terminal |
| SyntaxAnalysis.HasLeafReverse | syntaxanalyzer.py:121 | reversing the basis does not change whether it holds a terminal |
| SyntaxAnalysis.CellAt | syntaxanalyzer.py:108-110 | comparing the stack and basis terminals succeeds only when the stack still holds a terminal |
| SyntaxAnalysis.EqualRun | syntaxanalyzer.py:111-115 | the `=`-loop stops at a cut where the stack still holds a terminal and the relation is not `=` |
| SyntaxAnalysis.EqualStep | syntaxanalyzer.py:111-115 | one turn of the `=`-loop moves the cut down by one and keeps a terminal in the basis |
| SyntaxAnalysis.ReduceCut | syntaxanalyzer.py:105-119 | the handle is a non-empty top segment of the stack holding a terminal |
| SyntaxAnalysis.ReduceCutAt | syntaxanalyzer.py:117-119 | after the `=`-loop the cut takes one more element exactly when it is a node |
| SyntaxAnalysis.ReduceSpecShape | syntaxanalyzer.py:121-128 | a reduction replaces a top segment holding a terminal with one node for a skeleton rule matching it; the stack's tokens stay the same and fewer terminals lie on it |
| SyntaxAnalysis.ReduceKeeps | syntaxanalyzer.py:125-126 | replacing the handle with its node keeps the tokens and removes terminals from the stack |
| SyntaxAnalysis.Step | syntaxanalyzer.py:130-145 | a turn accepts exactly when BEGIN meets END; otherwise it keeps the tokens or shifts one input token behind them, and it always decreases the loop measure |
| SyntaxAnalysis.ShiftKeeps | syntaxanalyzer.py:93-94 | a shift appends the input token to the stack's tokens |
| SyntaxAnalysis.RunAcceptsAtBegin | syntaxanalyzer.py:132-136 | an accepting run stops with BEGIN as the topmost terminal |
| SyntaxAnalysis.RunAcceptsInOrder | syntaxanalyzer.py:130-145 | an accepting run's stack reads as the start stack followed by the input up to an END token, in order |
| SyntaxAnalysis.ConsumedPrefix | syntaxanalyzer.py:140-143 | a reduction consumes no input and a shift consumes exactly one token |
| SyntaxAnalysis.ParseAccepted | syntaxanalyzer.py:45-145 | an accepted parse has BEGIN on top and, when the input holds no END token, gives back every input token in order as the tree's leaves |
| SyntaxAnalysis.SyntaxAnalyzer.constructor | syntaxanalyzer.py:41-43 | the grammar is kept and the stack is empty |
| SyntaxAnalysis.SyntaxAnalyzer.TopTerminal | syntaxanalyzer.py:55-58 | the reversed scan finds the topmost terminal token |
| SyntaxAnalysis.SyntaxAnalyzer.HasTerminal | syntaxanalyzer.py:96-100 | true exactly when the list holds a terminal |
| SyntaxAnalysis.SyntaxAnalyzer.FindRuleWithRight | syntaxanalyzer.py:86-91 | the loop returns the first rule with the given right side |
| SyntaxAnalysis.SyntaxAnalyzer.Shift | syntaxanalyzer.py:93-94 | the first input token moves to the top of the stack |
| SyntaxAnalysis.SyntaxAnalyzer.PopUntilTerminal | syntaxanalyzer.py:105-106 | pops down to just below the topmost terminal; the basis, popping order, is that segment reversed |
| SyntaxAnalysis.SyntaxAnalyzer.PopWhileEqual | syntaxanalyzer.py:108-115 | pops while the relation is `=` and stops where the `=`-loop specification stops, or with its error |
| SyntaxAnalysis.SyntaxAnalyzer.PopOnto | syntaxanalyzer.py:112 | one element moves from the stack to the basis |
| SyntaxAnalysis.SyntaxAnalyzer.Precedence | syntaxanalyzer.py:108-110 | the relation of the topmost stack terminal and the topmost basis terminal |
| SyntaxAnalysis.SyntaxAnalyzer.Reduce | syntaxanalyzer.py:102-128 | `reduce` succeeds exactly when the reduction specification does, leaves the stack it gives, and otherwise raises its error |
| SyntaxAnalysis.SyntaxAnalyzer.TakeNonTerminal | syntaxanalyzer.py:117-121 | a node directly below the handle joins it, and the basis is put back in stack order |
| SyntaxAnalysis.SyntaxAnalyzer.ReplaceHandle | syntaxanalyzer.py:121-128 | the handle becomes one node for the first matching skeleton rule, or the rule error is raised at the handle's first element |
| SyntaxAnalysis.SyntaxAnalyzer.Parse | syntaxanalyzer.py:45-145 | `parse` returns what the main loop specification gives from BEGIN and the input with END; an accepted parse leaves that stack with BEGIN on top and the input's tokens, in order, as its leaves |
| Lexer.Advance | lexicalanalyzer.py:214-225 | `_next` moves one character on, to column 1 of the next line after a newline, and fails past the end |
| Lexer.WhileFrom | lexicalanalyzer.py:186-193 | `_parse_while` reads the maximal run of characters the predicate accepts |
| Lexer.WhitespaceAt | lexicalanalyzer.py:140-147 | skips exactly the white space at the cursor, and fails when the cursor is past the end |
| Lexer.OperatorAt | lexicalanalyzer.py:105-123 | a comparison operator reads two characters, and fails when nothing follows them |
| Lexer.SingleAt | lexicalanalyzer.py:125-130 | a character that cannot start a word is a word by itself; the cursor moves only when another character follows |
| Lexer.FractionAt | lexicalanalyzer.py:133-138 | a number followed by `.` and a digit goes on with its fraction; the test fails exactly at the source's end or before a final `.` |
| Lexer.WordAt | lexicalanalyzer.py:131-138 | a word is a piece of the source free of white space that ends at the new cursor |
| Lexer.WordPiece | lexicalanalyzer.py:131-138 | a run of word characters, with or without its fraction, is such a piece |
| Lexer.TokenWordAt | lexicalanalyzer.py:102-138 | `_parse_token_word` reads a piece of the source at the cursor, free of white space when it starts on none; an operator start succeeds exactly when a character follows it |
| Lexer.TokenWordDecimal | lexicalanalyzer.py:133-136 | digits, `.` and a digit are read as one number with its fraction |
| Lexer.Classify | lexicalanalyzer.py:82-100 | keywords first; an identifier-shaped word is an identifier when the regex accepts it and raises otherwise; operators and single non-digits are delimiters; else a constant when `float()` accepts it; else no type |
| Lexer.Enter | lexicalanalyzer.py:157-160 | the table gains the word only when it is absent, and the index is its first position |
| Lexer.MakeToken | lexicalanalyzer.py:149-179 | the token carries the word and the position passed in, which its callers take as the cursor position after the word, as `_current_pos()` gives it |
| Lexer.IndexedGrow | lexicalanalyzer.py:157-160 | a token keeps naming its word when the tables only grow |
| Lexer.MakeTokenIndexed | lexicalanalyzer.py:149-179 | making a token keeps the tables free of duplicates, only grows them, and the token's index points at its word in its table |
| Lexer.LexPass | lexicalanalyzer.py:53-78 | a pass that goes on moves the cursor forward and leaves a character after it |
| Lexer.PassIndexed | lexicalanalyzer.py:53-78 | a pass keeps the tables duplicate-free and only growing, and every token names its word |
| Lexer.LexIndexed | lexicalanalyzer.py:49-80 | after `parse`, the same holds for every token, old and new |
| Lexer.SameWordSameIndex | lexicalanalyzer.py:154-179 | two tokens of one table with the same word have the same index |
| Lexer.PassAppends | lexicalanalyzer.py:53-78 | a pass either stops with the tokens it had or appends one token, a piece of the source at or after the cursor and free of white space |
| Lexer.LexInOrder | lexicalanalyzer.py:49-80 | `parse` keeps the earlier tokens in front and appends pieces of the source free of white space, in the order they occur, from the cursor on |
| Lexer.FinalCharacterUnread | lexicalanalyzer.py:77-78 | as written, the loop stops once no character follows the cursor, even on an unread one: on `a;` only `a` becomes a token |
| Lexer.LexicalParser.constructor | lexicalanalyzer.py:32-47 | empty tables and token list, cursor at position 0, line 1, column 1 |
| Lexer.LexicalParser.Next | lexicalanalyzer.py:214-225 | `_next` as specified by `Advance`, nothing else changed |
| Lexer.LexicalParser.ParseWhile | lexicalanalyzer.py:181-197 | `_parse_while` as specified, nothing else changed |
| Lexer.LexicalParser.ParseWhitespaces | lexicalanalyzer.py:140-147 | `_parse_whitespaces` as specified by `WhitespaceAt` |
| Lexer.LexicalParser.ParseTokenWord | lexicalanalyzer.py:102-138 | `_parse_token_word` as specified by `TokenWordAt` |
| Lexer.LexicalParser.ParseWord | lexicalanalyzer.py:131-138 | the word branch as specified by `WordAt` |
| Lexer.LexicalParser.GetKeywordToken | lexicalanalyzer.py:149-152 | a keyword token with the keyword's first index and the current position |
| Lexer.LexicalParser.GetIdentifierToken | lexicalanalyzer.py:154-161 | the identifier table is entered as `Enter` says and the token carries the word's index; the other tables stay unchanged |
| Lexer.LexicalParser.GetConstToken | lexicalanalyzer.py:163-170 | the same for the constants table |
| Lexer.LexicalParser.GetDelimiterToken | lexicalanalyzer.py:172-179 | the same for the delimiters table |
| Lexer.LexicalParser.Parse | lexicalanalyzer.py:49-80 | `parse` ends in the state the loop specification gives from the old state, or raises its error, and returns the whole token list |
| AsmTranslation.LabelTextInjective | asmtranslator.py:20-25 | two labels are equal only when made from the same counter value and target |
| AsmTranslation.AsmSyntax.constructor | asmtranslator.py:7-10 | memory starts at 500, no identifier is placed, the label counter is 0 |
| AsmTranslation.AsmSyntax.GetMemForId | asmtranslator.py:12-18 | a known identifier keeps its address; a new one gets the next address, which moves on; addresses stay distinct |
| AsmTranslation.AsmSyntax.GetLabelFor | asmtranslator.py:20-25 | the label made from the counter and target, and the counter moves on by one |
| AsmTranslation.FutureLabelText | asmtranslator.py:111-118 | `undefined` before the label is set, the label afterwards |
| AsmTranslation.StopAt | asmtranslator.py:216-222 | popping stops just above the topmost entry in the stop list, or empties the stack |
| AsmTranslation.StopAtTopmost | asmtranslator.py:222 | the stop is just above the topmost entry in the list |
| AsmTranslation.PopUntilAnyOf | asmtranslator.py:215-225 | the entries above the stop go to the output, topmost first; with `extra_pop` the stop entry is dropped too |
| AsmTranslation.PopOneMore | asmtranslator.py:222-223 | moving the top to the output and popping the rest outputs what popping the whole stack would |
| AsmTranslation.NearestSwitch | asmtranslator.py:253-257 | the topmost switch token, and none exactly when the stack holds none |
| AsmTranslation.NearestSwitchStop | asmtranslator.py:258 | popping until the nearest switch token stops right above it |
| AsmTranslation.Insert | asmtranslator.py:263 | `list.insert` places the item at the position, or at the end past it |
| AsmTranslation.CaseStep | asmtranslator.py:250-263 | fails exactly when no switch is open or nothing follows `case`; otherwise pops to the switch, outputs the jump to its end label and a fresh case label, and inserts the comparison at the switch's recorded position |
| AsmTranslation.CloseBrace | asmtranslator.py:265-286 | consumes `}` and leaves the switch records as they are |
| AsmTranslation.CloseInSwitch | asmtranslator.py:272-281 | with a switch open: an inner `{` on top after popping is dropped and the labels and counter stay; otherwise the popped operators are followed by a fresh end label, which the switch takes, and the counter advances |
| AsmTranslation.CloseBraceCases | asmtranslator.py:265-286 | the three cases of `}`: no switch open, everything above the nearest `{` goes to the output and the `{` is dropped; an inner `{` above the nearest switch, the same with the switch kept open; only operators above it, they go out followed by the switch's fresh end label, and the counter advances |
| AsmTranslation.OperatorStep | asmtranslator.py:290-308 | pushes the operator when the stack is empty or its input priority beats the top's stack priority, else moves the top to the output; fails exactly when the top has no stack priority |
| AsmTranslation.Step | asmtranslator.py:229-308 | every pass that does not raise decreases the loop measure |
| AsmTranslation.MergeSwitch | asmtranslator.py:310-313 | the check consumes nothing and never lengthens the stack |
| AsmTranslation.MergeSwitchDone | asmtranslator.py:310-313 | after the check the stack never ends in `switch`, `{`; a new switch token records the output length and reads `undefined` |
| AsmTranslation.LabelsIssuedNew | asmtranslator.py:279-280 | a fresh label from the counter keeps the output's labels distinct |
| AsmTranslation.PopKeeps | asmtranslator.py:215-225 | popping keeps the invariant |
| AsmTranslation.PopMoveKeeps | asmtranslator.py:242-243 | popping and then moving the top to the output keeps the invariant |
| AsmTranslation.CaseKeeps | asmtranslator.py:250-263 | `case` keeps the invariant |
| AsmTranslation.BraceKeeps | asmtranslator.py:265-286 | `}` keeps the invariant |
| AsmTranslation.SwitchBraceKeeps | asmtranslator.py:272-281 | `}` inside a switch keeps the invariant |
| AsmTranslation.InnerBraceKeeps | asmtranslator.py:275-276 | dropping an inner `{` keeps the invariant |
| AsmTranslation.SwitchCloseKeeps | asmtranslator.py:277-281 | closing the switch keeps the invariant |
| AsmTranslation.SwitchEndKeeps | asmtranslator.py:279-281 | setting a switch's end label keeps the invariant |
| AsmTranslation.PushableHasPriority | asmtranslator.py:290-301 | every operator the priority branch can push has a stack priority |
| AsmTranslation.OperatorKeeps | asmtranslator.py:290-308 | the priority branch keeps the invariant |
| AsmTranslation.CloseParenKeeps | asmtranslator.py:238-240 | `)` keeps the invariant |
| AsmTranslation.LoopEndKeeps | asmtranslator.py:241-244 | `loop` keeps the invariant |
| AsmTranslation.StatementEndKeeps | asmtranslator.py:245-249 | `;` keeps the invariant |
| AsmTranslation.StepKeeps | asmtranslator.py:229-308 | every pass keeps the invariant |
| AsmTranslation.MergeKeeps | asmtranslator.py:310-313 | the switch check keeps the invariant |
| AsmTranslation.NoPriorityError | asmtranslator.py:296-297 | with the invariant, the stack-priority lookup never fails |
| AsmTranslation.RunKeeps | asmtranslator.py:227-313 | the translation keeps the invariant to the end: the lookup never fails and no label is output twice |
| AsmTranslation.ValuesPassThrough | asmtranslator.py:233-235 | identifiers and constants go to the output unchanged and in order |
| AsmTranslation.OperandStep | asmtranslator.py:233-235 | an operand goes straight to the output |
| AsmTranslation.PushOnEmpty | asmtranslator.py:306-308 | on an empty stack an operator is pushed and consumed |
| AsmTranslation.AssignmentExample | asmtranslator.py:227-313 | `x = y ;` becomes `x y =` with an empty stack |
| AsmTranslation.StatementEndExample | asmtranslator.py:245-249 | `;` moves a waiting `=` to the output |
| AsmTranslation.StartInv | asmtranslator.py:211-213 | the start state satisfies the invariant |
| AsmTranslation.RunLabelOk | asmtranslator.py:227-313 | on a translation that does not raise, the label counter the specification tracks is the final state's counter |
| AsmTranslation.AsmTranslator.constructor | asmtranslator.py:158-209 | keeps the non-operators and makes a fresh `AsmSyntax` in its start state |
| AsmTranslation.AsmTranslator.PopUntil | asmtranslator.py:215-219 | `pop_until` as specified by `PopUntilAnyOf` with one stop entry |
| AsmTranslation.AsmTranslator.PopUntilAnyOfMethod | asmtranslator.py:221-225 | `pop_until_any_of` as specified by `PopUntilAnyOf` |
| AsmTranslation.AsmTranslator.FindSwitch | asmtranslator.py:253-257 | the reversed scan finds the nearest switch token |
| AsmTranslation.AsmTranslator.Case | asmtranslator.py:250-263 | the `case` branch as specified by `CaseStep`, keeping the label counter in step |
| AsmTranslation.AsmTranslator.Brace | asmtranslator.py:265-286 | the `}` branch as specified by `CloseBrace`, keeping the label counter in step |
| AsmTranslation.AsmTranslator.BraceInSwitch | asmtranslator.py:272-281 | the in-switch part of `}` as specified by `CloseInSwitch`, drawing the end label from the counter and leaving the memory counters alone |
| AsmTranslation.AsmTranslator.Special | asmtranslator.py:237-288 | the branches handled by name, as specified by `Step` |
| AsmTranslation.AsmTranslator.Paren | asmtranslator.py:238-240 | the `)` branch as specified |
| AsmTranslation.AsmTranslator.Loop | asmtranslator.py:241-244 | the `loop` branch as specified, failing when the stack is empty after the search |
| AsmTranslation.AsmTranslator.Semicolon | asmtranslator.py:245-249 | the `;` branch as specified |
| AsmTranslation.AsmTranslator.Prioritized | asmtranslator.py:290-308 | the priority branch as specified by `Step` |
| AsmTranslation.AsmTranslator.Pass | asmtranslator.py:229-308 | one pass as specified by `Step`, keeping the label counter in step |
| AsmTranslation.AsmTranslator.Merge | asmtranslator.py:310-313 | the switch check as specified |
| AsmTranslation.AsmTranslator.ToAsm | asmtranslator.py:211-316 | `to_asm` returns the output of the translation specification from the start state, or raises its error; the switch labels are those set at the end; the label counter ends where the specification puts it, also after an error, and the memory counters `id_mem` and `next_mem` are untouched |
| Semantic.OrNothing | semanticanalyzer.py:25-31 | a `None` callback result counts as no identifiers |
| Semantic.Kids | semanticanalyzer.py:33-36 | the walk queues a node's own children or nothing |
| Semantic.QueueShrinks | semanticanalyzer.py:19-36 | dequeuing a node and queuing its children shrinks the queue's size, so the walk ends |
| Semantic.BfsCons | semanticanalyzer.py:19-36 | the front node is visited first, and its children join the back of the queue |
| Semantic.BfsShift | semanticanalyzer.py:19-36 | everything in the queue is visited before anything queued behind it |
| Semantic.BfsIsLevelOrder | semanticanalyzer.py:17-36 | the FIFO walk visits the tree level by level |
| Semantic.FirstUndefined | semanticanalyzer.py:26-28 | the first use not yet defined, and none exactly when every use is defined |
| Semantic.UseError | semanticanalyzer.py:25-28 | raises for the first undefined use with the node's position, and not at all exactly when every use is defined |
| Semantic.Visit | semanticanalyzer.py:22-31 | a node's uses are checked before its own definitions are added, so a node cannot define what it uses |
| Semantic.WalkStep | semanticanalyzer.py:19-36 | a pass either raises for the front node or goes on with its definitions added and its children queued |
| Semantic.WalkIsScan | semanticanalyzer.py:16-38 | the walk is a check of the nodes in breadth-first order |
| Semantic.ScanSpec | semanticanalyzer.py:19-38 | the check succeeds exactly when every node uses only identifiers defined before it; otherwise it raises at the first node that does not, for its first such use |
| Semantic.SemanticAnalyzer.constructor | semanticanalyzer.py:10-14 | no identifier is defined and the callbacks are kept |
| Semantic.SemanticAnalyzer.CheckUses | semanticanalyzer.py:25-28 | the loop over the uses raises as `UseError` says |
| Semantic.SemanticAnalyzer.ParseTree | semanticanalyzer.py:16-38 | `parse_tree` returns `True` or raises as the walk specification says, and the identifiers defined before an error stay defined |
| Semantic.ParseTreeSpec | semanticanalyzer.py:16-38 | `parse_tree` succeeds exactly when, in level order, every node uses only identifiers defined by the nodes before it; otherwise it raises the error `UseError` gives (`UndefinedIdentifier` with the first undefined use and the node's position, or `NoLinePos` on a token leaf) for the first node that does not, keeping the definitions of the nodes before it |
| Util.JoinSplit | gen_tables.py:93-94 | joining the pieces of `split(sep)` with `sep` gives the text back |
| Util.Strip | gen_tables.py:47 | `strip()` returns a contiguous part of the text with only white space cut from both ends, and leaves no white space at either end |
| Util.StrippedFront | gen_tables.py:47 | cutting one leading space keeps the stripped part a substring with only spaces around it |
| Util.StrippedBack | gen_tables.py:47 | the same for one trailing space |
| Util.NatToStringInjective | asmtranslator.py:21 | different counter values print differently |

## Left out

- Printing and the CSV export are not modelled. This covers the `calc_print`
  output and the file writing of the grammar generator (gen_tables.py:125-128,
  159-166, 223-227, 275-279, 398-431) and the trace prints of `to_asm`
  (asmtranslator.py:228, 315). They are I/O only.
- `find_rules_with_left` (gen_tables.py:168-175) is defined but never called;
  it is not modelled.
- `leftmost_symbol`/`rightmost_symbol` on an empty right side raise an
  `IndexError`. This is modelled as the seeding error `IndexError`, raised in
  rule order.
- main.py is not part of this model. It is the command-line driver that chains
  the stages. exceptions.py is not part of this model either; its exception
  classes are the error datatypes of each module, carrying the positions and
  values the source passes to them.
- The string helpers of `AsmSyntax` (asmtranslator.py:27-79) and `AsmLabel`,
  `JmpToken` and `CmpToken` formatting are not modelled. They only build assembly
  text for the excluded code generator.
- A `FutureLabel` is shared by reference between a switch token and the jumps
  made from it. Here that aliasing is a label map keyed by switch number,
  which is set once when the switch closes. A `Jmp` names its switch number.
- The `"end"` test in the `;` branch (asmtranslator.py:245) cannot be taken,
  because `"end"` has no input priority and goes to the output as a value. The
  model gives it the behaviour the source has, as a value.
- AsmTranslation.AsmTranslator.ToAsm: `to_asm` consumes the caller's
  `token_list` in place with `pop(0)` (asmtranslator.py:235-307), leaving it
  empty after a successful call and holding the unconsumed tokens after an
  error. That consumption of the argument is not modelled; `tokens` is a value.
- `SyntaxAnalyzer.stack` persists between calls of `parse`. `Parse` takes the old
  stack as its starting point. `parse` also appends END to the caller's token
  list and shifts tokens out of it (syntaxanalyzer.py:49, 94). That mutation of
  an argument is not modelled; the input is a value.
- `SyntaxAnalysis.ParseAccepted`: the leaves come back in order only when the
  input holds no END token of its own. In the source such a token equals the
  sentinel by value.
- Tokens are compared as values. The source compares `sj == begin_token` by
  object identity, so here a token equal in every field to a sentinel is taken
  for it. The table lookup treats the words `BEGIN` and `END` as sentinels in
  both the source and the model.
- `is_terminal` (syntaxanalyzer.py:51-53) is modelled as "is a token leaf". In
  the source a `GrammarNode` also counts as a terminal when its label `S` is a
  word of one of the lexer's tables, for example an identifier named `S`.
  The `keywords` and `delimiters` arguments of `parse` serve only that test and
  are not parameters here.
- `Semantic.Kids`: `get_node_children` is modelled as choosing between a node's
  own children and nothing. A callback that returns some other list is not
  modelled. Its default lambdas, which return `None`, are one instance.
- The `str` predicates (`isspace`, `isalnum`, `isidentifier`, `isdigit`,
  `isnumeric`) are modelled on ASCII. Non-ASCII letters and digits are not
  modelled.
- The identifier regex and `float()` are parameters and are not modelled.
  `Lexer.Classify` states its result given what they return.
- `deepcopy` of the rules is a value copy; rules are values here.
- PrecedenceTable.OpTable.FillRow: places `=` from the corrected basis search
  (`FindBasisSymbols`), not from the search as written at gen_tables.py:296-305.
  For `A ::= a b | a b c` the source puts `=` at `(a, c)` and the model does not.
- PrecedenceTable.BuildOpTable: the same correction, via `FillRow`; every `=`
  of its table is the corrected basis relation.
- PrecedenceTable.EqualPlacement: states `=` for the corrected basis relation,
  not the one the code as written computes.
- PrecedenceTable.RowEntryShape: the `=` it justifies comes from the corrected
  basis relation.
- GrammarBuilder.BuildFromRules: the precedence table it builds has the
  corrected `=` relation, so it differs from the source's table on grammars
  like the one above.
- GrammarBuilder.BuildGrammar: the same, for the whole build.
- GrammarBuilder.Tabulate: the precedence table it builds carries the corrected
  `=` relation, not the one of gen_tables.py:296-305.
- GrammarBuilder.WithOpTable: the same; the table it adds carries the
  corrected `=` relation.
- GrammarBuilder.ComputeTables: states which symbols each of the four lists
  holds, and that each list is duplicate-free, but not the order of the
  symbols within a list.

## Findings

| source | as written | input that shows it | evidently intended | confidence | as-written member | corrected member |
|---|---|---|---|---|---|---|
| gen_tables.py:298-305 | `find_basis_symbols` takes the `else` branch also when `next` is a terminal already in the result, and then adds the terminal after `next` | rules `A ::= a b` and `A ::= a b c` with terminals `a b c`: scanning the second rule after `b` was found puts `c` in the basis of `a` | `b` is in the basis of `ai` exactly when some right side has `ai b` or `ai N b`, N a nonterminal | not executed | PrecedenceTable.BasisAsWrittenSpurious | PrecedenceTable.FindBasisSymbols |
