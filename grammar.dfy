/** `Grammar.__init__` of gen_tables.py as one computation, parameterised by
    the terminal list, the start nonterminal and the grammar text. */
module GrammarBuilder {
  import opened Util
  import opened GrammarRules
  import opened Closure
  import opened PrecedenceTable

  /** The attributes a `Grammar` object ends up with. */
  datatype Grammar = Grammar(
    terminals: seq<Symbol>,
    startNonTerminal: Symbol,
    rules: seq<Rule>,
    nonTerminals: seq<Symbol>,
    skeletonRules: seq<Rule>,
    ntLeft: SymTable,
    ntRight: SymTable,
    tLeft: SymTable,
    tRight: SymTable,
    opTable: seq<seq<string>>,
    multipleValueCells: seq<(nat, nat)>)

  /** The table has `len(terminals) + 1` rows and columns of well-formed cells,
      its BEGIN row holds only `<` and its END column only `>`. This is what the
      parser relies on. */
  ghost predicate TableShaped(g: Grammar) {
    var n := |g.terminals|;
    |g.opTable| == n + 1
    && (forall r :: 0 <= r <= n ==> |g.opTable[r]| == n + 1)
    && ValidCells(g.opTable, g.multipleValueCells)
    && (forall s, c :: 0 <= s <= n && c in g.opTable[n][s] && IsRelation(c) ==> c == '<' && s < n)
    && (forall r, c :: 0 <= r <= n && c in g.opTable[r][n] && IsRelation(c) ==> c == '>' && r < n)
  }

  /** The four symbol tables of gen_tables.py:177-273 as they end up: each
      leftmost/rightmost symbol list is the least closed one holding its seeds,
      each terminal list the least one holding its terminal seeds and closed
      along the finished symbol lists. */
  ghost predicate TablesBuilt(rules: seq<Rule>, terminals: seq<Symbol>, nts: seq<Symbol>, ntLeft: SymTable,
                              ntRight: SymTable, tLeft: SymTable, tRight: SymTable) {
    WellFormed(ntLeft, nts, terminals + nts) && WellFormed(ntRight, nts, terminals + nts)
    && LeastSymbolTable(ntLeft, rules, Leftmost, nts) && LeastSymbolTable(ntRight, rules, Rightmost, nts)
    && WellFormed(tLeft, nts, terminals) && WellFormed(tRight, nts, terminals)
    && LeastTerminalTable(tLeft, ntLeft, rules, Leftmost, terminals, nts)
    && LeastTerminalTable(tRight, ntRight, rules, Rightmost, terminals, nts)
  }

  /** The precedence table of gen_tables.py:281-395: square over the terminals
      and the sentinel, validly merged, holding exactly the relations the rules give. */
  ghost predicate OpTableBuilt(g: Grammar) {
    (forall u :: u in g.nonTerminals ==> u in g.tLeft && u in g.tRight)
    && g.startNonTerminal in g.nonTerminals
    && |g.opTable| == |g.terminals| + 1
    && (forall r :: 0 <= r < |g.opTable| ==> |g.opTable[r]| == |g.terminals| + 1)
    && ValidCells(g.opTable, g.multipleValueCells)
    && EntriesOf(g.opTable) == TableEntries(g.rules, g.terminals, g.nonTerminals, g.tLeft, g.tRight, g.startNonTerminal)
  }

  /** Everything `Grammar.__init__` establishes about a grammar built from `text`. */
  ghost predicate Built(g: Grammar, text: string) {
    var parsed := ParseLinesFrom(GrammarLines(text), 1);
    BEGIN_TERMINAL !in g.terminals && END_TERMINAL !in g.terminals
    && parsed.Ok?
    && g.rules == ExpandAll(parsed.value)
    && BuiltFromRules(g)
  }

  /** Everything `Grammar()` establishes from the split rules on. */
  ghost predicate BuiltFromRules(g: Grammar) {
    var nts := g.nonTerminals;
    Distinct(nts)
    && (forall x :: x in nts <==> x !in g.terminals && OccursIn(x, g.rules))
    && FirstOccurrences(nts, Symbols(g.rules), g.terminals)
    && g.skeletonRules == SkeletonRules(g.rules, nts)
    && TablesBuilt(g.rules, g.terminals, nts, g.ntLeft, g.ntRight, g.tLeft, g.tRight)
    // the precedence table
    && g.startNonTerminal in nts
    && OpTableBuilt(g)
  }

  /** A built grammar's table is shaped as the parser expects. */
  lemma BuiltTableShaped(g: Grammar)
    requires OpTableBuilt(g)
    ensures TableShaped(g)
  {
    var n := |g.terminals|;
    forall s, c | 0 <= s <= n && c in g.opTable[n][s] && IsRelation(c) ensures c == '<' && s < n {
      assert (n, s, c) in EntriesOf(g.opTable);
      SentinelLines(g.rules, g.terminals, g.nonTerminals, g.tLeft, g.tRight, g.startNonTerminal, (n, s, c));
    }
    forall r, c | 0 <= r <= n && c in g.opTable[r][n] && IsRelation(c) ensures c == '>' && r < n {
      assert (r, n, c) in EntriesOf(g.opTable);
      SentinelLines(g.rules, g.terminals, g.nonTerminals, g.tLeft, g.tRight, g.startNonTerminal, (r, n, c));
    }
  }

  /** The same nonterminals in the same order, the same skeleton, four
      tables whose lists hold the same symbols, and the same relations in
      the precedence table. */
  ghost predicate SameGrammar(g: Grammar, h: Grammar) {
    g.nonTerminals == h.nonTerminals && g.skeletonRules == h.skeletonRules
    && SameMembers(g.ntLeft, h.ntLeft, g.nonTerminals) && SameMembers(g.ntRight, h.ntRight, g.nonTerminals)
    && SameMembers(g.tLeft, h.tLeft, g.nonTerminals) && SameMembers(g.tRight, h.tRight, g.nonTerminals)
    && EntriesOf(g.opTable) == EntriesOf(h.opTable)
  }

  /** Two grammars built from the same rules, terminals and start symbol
      agree: the same nonterminals in the same order, the same skeleton, lists
      holding the same symbols, and the same relations in the table. */
  lemma BuiltFromRulesDetermined(g: Grammar, h: Grammar)
    requires BuiltFromRules(g) && BuiltFromRules(h)
    requires g.rules == h.rules && g.terminals == h.terminals && g.startNonTerminal == h.startNonTerminal
    ensures SameGrammar(g, h)
  {
    FirstOccurrencesUnique(g.nonTerminals, h.nonTerminals, Symbols(g.rules), g.terminals);
    var nts := g.nonTerminals;
    LeastSymbolTableUnique(g.ntLeft, h.ntLeft, g.rules, Leftmost, nts);
    LeastSymbolTableUnique(g.ntRight, h.ntRight, g.rules, Rightmost, nts);
    LeastTerminalTableUnique(g.tLeft, h.tLeft, g.ntLeft, h.ntLeft, g.rules, Leftmost, g.terminals, nts);
    LeastTerminalTableUnique(g.tRight, h.tRight, g.ntRight, h.ntRight, g.rules, Rightmost, g.terminals, nts);
    TableEntriesDetermined(g.rules, g.terminals, nts, g.tLeft, g.tRight, h.tLeft, h.tRight, g.startNonTerminal);
  }

  /** The grammar text, the terminals and the start symbol determine every
      attribute of the built grammar (each list up to the order of its symbols). */
  lemma BuiltDetermined(g: Grammar, h: Grammar, text: string)
    requires Built(g, text) && Built(h, text)
    requires g.terminals == h.terminals && g.startNonTerminal == h.startNonTerminal
    ensures g.rules == h.rules && SameGrammar(g, h)
  {
    BuiltFromRulesDetermined(g, h);
  }

  /** What the initial filling raises at a rule: a `KeyError` when its left
      side is a terminal (terminals have no table entry), an `IndexError`
      when its right side is empty. */
  function RuleSeedError(rule: Rule, terminals: seq<Symbol>): Option<GrammarError> {
    if rule.left in terminals then Some(KeyError(rule.left))
    else if rule.right == [] then Some(IndexError)
    else None
  }

  /** The error of the first rule that has one. */
  function FirstRuleError(rules: seq<Rule>, terminals: seq<Symbol>): Option<GrammarError> {
    if rules == [] then None
    else if RuleSeedError(rules[0], terminals).Some? then RuleSeedError(rules[0], terminals)
    else FirstRuleError(rules[1..], terminals)
  }

  lemma {:induction false} FirstRuleErrorAt(rules: seq<Rule>, terminals: seq<Symbol>, k: nat)
    requires k < |rules| && RuleSeedError(rules[k], terminals).Some?
    requires forall j :: 0 <= j < k ==> RuleSeedError(rules[j], terminals) == None
    ensures FirstRuleError(rules, terminals) == RuleSeedError(rules[k], terminals)
  {
    if k > 0 {
      FirstRuleErrorAt(rules[1..], terminals, k - 1);
    }
  }

  lemma {:induction false} FirstRuleErrorNone(rules: seq<Rule>, terminals: seq<Symbol>)
    requires forall j :: 0 <= j < |rules| ==> RuleSeedError(rules[j], terminals) == None
    ensures FirstRuleError(rules, terminals) == None
  {
    if rules != [] {
      FirstRuleErrorNone(rules[1..], terminals);
    }
  }

  /** The error building the grammar raises, if any, in the order the source meets them. */
  function BuildError(terminals: seq<Symbol>, start: Symbol, text: string): Option<GrammarError> {
    if BEGIN_TERMINAL in terminals || END_TERMINAL in terminals then Some(SentinelError)
    else
      var parsed := ParseLinesFrom(GrammarLines(text), 1);
      if parsed.Err? then Some(parsed.error)
      else
        RulesError(ExpandAll(parsed.value), terminals, start)
  }

  /** The error building the grammar raises once the rules are read and split. */
  function RulesError(rules: seq<Rule>, terminals: seq<Symbol>, start: Symbol): Option<GrammarError> {
    if FirstRuleError(rules, terminals).Some? then FirstRuleError(rules, terminals)
    else if start in terminals || !OccursIn(start, rules) then Some(KeyError(start))
    else None
  }

  /** gen_tables.py:177-273: seed and close the symbol tables, then the terminal tables. */
  method ComputeTables(rules: seq<Rule>, terminals: seq<Symbol>, nts: seq<Symbol>)
    returns (r: Result<(SymTable, SymTable, SymTable, SymTable), GrammarError>)
    requires Distinct(nts) && forall x :: x in nts <==> x !in terminals && OccursIn(x, rules)
    ensures r.Err? <==> FirstRuleError(rules, terminals).Some?
    ensures r.Err? ==> r.error == FirstRuleError(rules, terminals).value
    ensures r.Ok? ==> TablesBuilt(rules, terminals, nts, r.value.0, r.value.1, r.value.2, r.value.3)
  {
    assert forall k :: 0 <= k < |rules| ==> SeedError(rules[k], nts) == RuleSeedError(rules[k], terminals) by {
      forall k | 0 <= k < |rules| ensures SeedError(rules[k], nts) == RuleSeedError(rules[k], terminals) {
        assert OccursIn(rules[k].left, rules) by { assert rules[k] in rules; }
      }
    }
    var seeded := SeedSymbolTables(rules, nts);
    if seeded.Err? {
      var k :| 0 <= k < |rules| && SeedError(rules[k], nts) == Some(seeded.error)
               && forall j :: 0 <= j < k ==> SeedError(rules[j], nts) == None;
      FirstRuleErrorAt(rules, terminals, k);
      return Err(seeded.error);
    }
    FirstRuleErrorNone(rules, terminals);
    var (lSeed, rSeed) := seeded.value;
    assert forall rule, x :: rule in rules && x in rule.right ==> x in terminals || x in nts by {
      forall rule, x | rule in rules && x in rule.right ensures x in terminals || x in nts {
        assert OccursIn(x, rules);
      }
    }
    SymbolSeededWellFormed(lSeed, Leftmost, rules, terminals, nts);
    SymbolSeededWellFormed(rSeed, Rightmost, rules, terminals, nts);
    var ntLeft := CompleteTable(lSeed, nts, terminals + nts);
    var ntRight := CompleteTable(rSeed, nts, terminals + nts);
    var tlSeed, trSeed := SeedTerminalTables(rules, terminals, nts);
    TerminalSeededWellFormed(tlSeed, Leftmost, rules, terminals, nts);
    TerminalSeededWellFormed(trSeed, Rightmost, rules, terminals, nts);
    var tLeft := CompleteTTable(ntLeft, tlSeed, nts, terminals);
    var tRight := CompleteTTable(ntRight, trSeed, nts, terminals);
    SymbolTableLeast(lSeed, ntLeft, rules, Leftmost, nts);
    SymbolTableLeast(rSeed, ntRight, rules, Rightmost, nts);
    TerminalTableLeast(tlSeed, tLeft, ntLeft, rules, Leftmost, terminals, nts);
    TerminalTableLeast(trSeed, tRight, ntRight, rules, Rightmost, terminals, nts);
    r := Ok((ntLeft, ntRight, tLeft, tRight));
  }

  /** The sentinel check, reading the rules and splitting their alternatives. */
  method LoadRules(terminals: seq<Symbol>, text: string) returns (r: Result<seq<Rule>, GrammarError>)
    ensures var parsed := ParseLinesFrom(GrammarLines(text), 1);
      && (r.Err? <==> BEGIN_TERMINAL in terminals || END_TERMINAL in terminals || parsed.Err?)
      && (r.Err? ==> r.error == if BEGIN_TERMINAL in terminals || END_TERMINAL in terminals then SentinelError
                                else parsed.error)
      && (r.Ok? ==> r.value == ExpandAll(parsed.value))
  {
    if BEGIN_TERMINAL in terminals || END_TERMINAL in terminals {
      return Err(SentinelError);
    }
    var lines := Split(Strip(text), '\n');
    var parsed := ReadRules(lines);
    if parsed.Err? {
      return Err(parsed.error);
    }
    var rules := SplitAlternatives(parsed.value);
    r := Ok(rules);
  }

  /** Module load plus `Grammar()`: the sentinel check, reading the rules,
      splitting alternatives, then the rest of `Grammar()`. */
  method BuildGrammar(terminals: seq<Symbol>, start: Symbol, text: string) returns (r: Result<Grammar, GrammarError>)
    ensures r.Err? <==> BuildError(terminals, start, text).Some?
    ensures r.Err? ==> r.error == BuildError(terminals, start, text).value
    ensures r.Ok? ==> Built(r.value, text) && r.value.terminals == terminals && r.value.startNonTerminal == start
  {
    var loaded := LoadRules(terminals, text);
    if loaded.Err? {
      return Err(loaded.error);
    }
    r := BuildFromRules(terminals, start, loaded.value);
  }

  /** `Grammar()` from the split rules on: the nonterminals, the skeleton,
      the four tables and the precedence table. */
  method BuildFromRules(terminals: seq<Symbol>, start: Symbol, rules: seq<Rule>)
    returns (r: Result<Grammar, GrammarError>)
    ensures r.Err? <==> RulesError(rules, terminals, start).Some?
    ensures r.Err? ==> r.error == RulesError(rules, terminals, start).value
    ensures r.Ok? ==> BuiltFromRules(r.value) && r.value.rules == rules
                      && r.value.terminals == terminals && r.value.startNonTerminal == start
  {
    var nts := CollectNonTerminals(rules, terminals);
    var skeleton := BuildSkeleton(rules, nts);
    r := Tabulate(terminals, start, rules, nts, skeleton);
  }

  /** The symbol tables and the precedence table of gen_tables.py:177-395,
      for the nonterminals and skeleton already computed. */
  method Tabulate(terminals: seq<Symbol>, start: Symbol, rules: seq<Rule>, nts: seq<Symbol>,
                  skeleton: seq<Rule>) returns (r: Result<Grammar, GrammarError>)
    requires Distinct(nts) && forall x :: x in nts <==> x !in terminals && OccursIn(x, rules)
    ensures r.Err? <==> RulesError(rules, terminals, start).Some?
    ensures r.Err? ==> r.error == RulesError(rules, terminals, start).value
    ensures r.Ok? ==> r.value.rules == rules && r.value.nonTerminals == nts && r.value.skeletonRules == skeleton
                      && r.value.terminals == terminals && r.value.startNonTerminal == start
                      && TablesBuilt(rules, terminals, nts, r.value.ntLeft, r.value.ntRight, r.value.tLeft,
                                     r.value.tRight)
                      && start in nts && OpTableBuilt(r.value)
  {
    var tables := ComputeTables(rules, terminals, nts);
    if tables.Err? {
      return Err(tables.error);
    }
    var (ntLeft, ntRight, tLeft, tRight) := tables.value;
    r := WithOpTable(terminals, start, rules, nts, skeleton, ntLeft, ntRight, tLeft, tRight);
  }

  /** The precedence table of gen_tables.py:281-395 over the finished
      terminal tables, and the grammar with all its attributes. */
  method WithOpTable(terminals: seq<Symbol>, start: Symbol, rules: seq<Rule>, nts: seq<Symbol>,
                     skeleton: seq<Rule>, ntLeft: SymTable, ntRight: SymTable, tLeft: SymTable, tRight: SymTable)
    returns (r: Result<Grammar, GrammarError>)
    requires WellFormed(tLeft, nts, terminals) && WellFormed(tRight, nts, terminals)
    ensures r.Err? <==> start !in nts
    ensures r.Err? ==> r.error == KeyError(start)
    ensures r.Ok? ==> r.value.rules == rules && r.value.nonTerminals == nts && r.value.skeletonRules == skeleton
                      && r.value.terminals == terminals && r.value.startNonTerminal == start
                      && r.value.ntLeft == ntLeft && r.value.ntRight == ntRight
                      && r.value.tLeft == tLeft && r.value.tRight == tRight
                      && OpTableBuilt(r.value)
  {
    var table := BuildOpTable(rules, terminals, nts, tLeft, tRight, start);
    if table.Err? {
      return Err(table.error);
    }
    r := Ok(Grammar(terminals, start, rules, nts, skeleton, ntLeft, ntRight, tLeft, tRight,
                    table.value.cells, table.value.multipleValueCells));
  }
}
