/** The operator-precedence relations of gen_tables.py:281-397: which terminal
    pairs are in the `=` (basis), `<` and `>` relations, and the table object
    that records them together with its conflict list. */
module PrecedenceTable {
  import opened Util
  import opened GrammarRules
  import opened Closure

  // ---------------------------------------------------------------------------
  // find_basis_symbols

  /** Position `p` of `right` puts `b` in the basis of the symbol there: `b` is
      a terminal directly after it, or after one non-terminal symbol. */
  predicate BasisAt(right: seq<Symbol>, terminals: seq<Symbol>, p: int, b: Symbol) {
    0 <= p && b in terminals
    && ((p + 1 < |right| && right[p + 1] == b)
        || (p + 2 < |right| && right[p + 1] !in terminals && right[p + 2] == b))
  }

  ghost predicate BasisInRight(right: seq<Symbol>, terminals: seq<Symbol>, a: Symbol, b: Symbol) {
    exists p :: 0 <= p < |right| && right[p] == a && BasisAt(right, terminals, p, b)
  }

  /** `a = b` holds in the grammar: some right side has `a b` or `a N b`. */
  ghost predicate BasisIn(rules: seq<Rule>, terminals: seq<Symbol>, a: Symbol, b: Symbol) {
    exists rule :: rule in rules && BasisInRight(rule.right, terminals, a, b)
  }

  /** The `while ai in rule.right[search_pos:]` loop of `find_basis_symbols` over one
      right side, with the branch on `next` as the source evidently intends it:
      a terminal `next` is the basis symbol, whether or not it was found before,
      and only a non-terminal `next` lets the search look one symbol further. */
  method ScanBasis(right: seq<Symbol>, terminals: seq<Symbol>, ai: Symbol, result0: seq<Symbol>)
    returns (result: seq<Symbol>)
    requires ai in terminals && Distinct(result0)
    ensures Distinct(result) && result0 <= result
    ensures forall b :: b in result <==> b in result0 || BasisInRight(right, terminals, ai, b)
  {
    result := result0;
    var searchPos := 0;
    while ai in right[searchPos..]
      invariant 0 <= searchPos <= |right|
      invariant Distinct(result) && result0 <= result
      invariant forall b :: b in result <==>
                  b in result0
                  || exists p :: 0 <= p < searchPos && right[p] == ai && BasisAt(right, terminals, p, b)
      decreases |right| - searchPos
    {
      ghost var before := searchPos;
      searchPos := IndexFrom(right, ai, searchPos);
      ghost var p := searchPos;
      if searchPos + 1 < |right| {
        var next := right[searchPos + 1];
        if next in terminals {
          if next !in result {
            DistinctAppend(result, [next]);
            result := result + [next];
          }
        } else if searchPos + 2 < |right| {
          var afterNext := right[searchPos + 2];
          if afterNext in terminals && afterNext !in result {
            DistinctAppend(result, [afterNext]);
            result := result + [afterNext];
            searchPos := searchPos + 1;
          }
        }
      }
      searchPos := searchPos + 1;
      assert forall q :: before <= q < searchPos && q != p ==> right[q] != ai;
    }
  }

  /** `find_basis_symbols(ai)`: every basis symbol of `ai`, once each. */
  method FindBasisSymbols(rules: seq<Rule>, terminals: seq<Symbol>, ai: Symbol) returns (result: seq<Symbol>)
    requires ai in terminals
    ensures Distinct(result)
    ensures forall b :: b in result <==> BasisIn(rules, terminals, ai, b)
  {
    result := [];
    var i := 0;
    while i < |rules|
      invariant 0 <= i <= |rules|
      invariant Distinct(result)
      invariant forall b :: b in result <==> BasisIn(rules[..i], terminals, ai, b)
    {
      result := ScanBasis(rules[i].right, terminals, ai, result);
      assert rules[..i + 1] == rules[..i] + [rules[i]];
      i := i + 1;
    }
    assert rules[..i] == rules;
  }

  /** The same scan as the source writes it: the `else` branch is also taken when
      `next` is a terminal that is already in the result, and it then adds the
      terminal after `next`. */
  function ScanBasisAsWritten(right: seq<Symbol>, terminals: seq<Symbol>, ai: Symbol, pos: nat,
                              result: seq<Symbol>): seq<Symbol>
    requires pos <= |right|
    decreases |right| - pos
  {
    if ai !in right[pos..] then result
    else
      var p := IndexFrom(right, ai, pos);
      if p + 1 >= |right| then ScanBasisAsWritten(right, terminals, ai, p + 1, result)
      else if right[p + 1] in terminals && right[p + 1] !in result then
        ScanBasisAsWritten(right, terminals, ai, p + 1, result + [right[p + 1]])
      else if p + 2 >= |right| then ScanBasisAsWritten(right, terminals, ai, p + 1, result)
      else if right[p + 2] in terminals && right[p + 2] !in result then
        ScanBasisAsWritten(right, terminals, ai, p + 2, result + [right[p + 2]])
      else ScanBasisAsWritten(right, terminals, ai, p + 1, result)
  }

  function BasisAsWrittenFrom(rules: seq<Rule>, terminals: seq<Symbol>, ai: Symbol, result: seq<Symbol>)
    : seq<Symbol>
  {
    if rules == [] then result
    else BasisAsWrittenFrom(rules[1..], terminals, ai, ScanBasisAsWritten(rules[0].right, terminals, ai, 0, result))
  }

  /** `find_basis_symbols` as written. */
  function BasisAsWritten(rules: seq<Rule>, terminals: seq<Symbol>, ai: Symbol): seq<Symbol> {
    BasisAsWrittenFrom(rules, terminals, ai, [])
  }

  /** With the rules `A ::= a b` and `A ::= a b c`, the scan as written puts `c`
      in the basis of `a`, although `c` never follows `a` within one symbol. */
  lemma BasisAsWrittenSpurious()
    ensures var rules := [Rule("A", ["a", "b"]), Rule("A", ["a", "b", "c"])];
            var terminals := ["a", "b", "c"];
            "c" in BasisAsWritten(rules, terminals, "a") && !BasisIn(rules, terminals, "a", "c")
  {
    var terminals := ["a", "b", "c"];
    var r1, r2 := Rule("A", ["a", "b"]), Rule("A", ["a", "b", "c"]);
    var rules := [r1, r2];
    ScanShortRule();
    ScanLongRule();
    assert rules[1..] == [r2] && rules[1..][1..] == [];
    assert BasisAsWrittenFrom(rules, terminals, "a", []) == BasisAsWrittenFrom([r2], terminals, "a", ["b"]);
    assert BasisAsWrittenFrom([r2], terminals, "a", ["b"]) == BasisAsWrittenFrom([], terminals, "a", ["b", "c"]);
    NoBasisAC(rules, terminals);
  }

  /** On `a b` the scan as written finds `b`. */
  lemma ScanShortRule()
    ensures ScanBasisAsWritten(["a", "b"], ["a", "b", "c"], "a", 0, []) == ["b"]
  {
    var right, terminals := ["a", "b"], ["a", "b", "c"];
    assert IndexFrom(right, "a", 0) == 0;
    assert "a" !in right[1..] by { assert right[1..] == ["b"]; }
    assert ScanBasisAsWritten(right, terminals, "a", 1, ["b"]) == ["b"];
  }

  /** On `a b c`, with `b` already found, the scan as written adds `c`. */
  lemma ScanLongRule()
    ensures ScanBasisAsWritten(["a", "b", "c"], ["a", "b", "c"], "a", 0, ["b"]) == ["b", "c"]
  {
    var right, terminals := ["a", "b", "c"], ["a", "b", "c"];
    assert IndexFrom(right, "a", 0) == 0;
    assert "a" !in right[2..] by { assert right[2..] == ["c"]; }
    assert ScanBasisAsWritten(right, terminals, "a", 2, ["b", "c"]) == ["b", "c"];
  }

  /** In both rules `a` comes first and `c`, if present, third: not a basis pair. */
  lemma NoBasisAC(rules: seq<Rule>, terminals: seq<Symbol>)
    requires rules == [Rule("A", ["a", "b"]), Rule("A", ["a", "b", "c"])] && terminals == ["a", "b", "c"]
    ensures !BasisIn(rules, terminals, "a", "c")
  {
    forall rule | rule in rules ensures !BasisInRight(rule.right, terminals, "a", "c") {
      forall p | 0 <= p < |rule.right| && rule.right[p] == "a"
        ensures !BasisAt(rule.right, terminals, p, "c")
      {
        assert p == 0;
      }
    }
  }

  /** What went wrong in the example above does not happen in the intended scan:
      its result holds `c` only for a genuine basis pair. */
  lemma BasisCorrectedExample(rules: seq<Rule>, terminals: seq<Symbol>, result: seq<Symbol>)
    requires rules == [Rule("A", ["a", "b"]), Rule("A", ["a", "b", "c"])] && terminals == ["a", "b", "c"]
    requires forall b :: b in result <==> BasisIn(rules, terminals, "a", b)
    ensures result != [] && "c" !in result
  {
    assert BasisAt(rules[0].right, terminals, 0, "b");
    assert BasisInRight(rules[0].right, terminals, "a", "b");
    assert "b" in result;
    NoBasisAC(rules, terminals);
  }

  // ---------------------------------------------------------------------------
  // find_next_prev_symbols

  /** Position `p + delta` of `right` exists and holds the nonterminal `u`;
      a position before the start does not count. */
  predicate NeighbourAt(right: seq<Symbol>, nts: seq<Symbol>, p: int, delta: int, u: Symbol) {
    0 <= p + delta < |right| && right[p + delta] == u && u in nts
  }

  ghost predicate NeighbourInRight(right: seq<Symbol>, nts: seq<Symbol>, a: Symbol, delta: int, u: Symbol) {
    exists p :: 0 <= p < |right| && right[p] == a && NeighbourAt(right, nts, p, delta, u)
  }

  /** Some right side has the nonterminal `u` at distance `delta` from `a`. */
  ghost predicate NeighbourIn(rules: seq<Rule>, nts: seq<Symbol>, a: Symbol, delta: int, u: Symbol) {
    exists rule :: rule in rules && NeighbourInRight(rule.right, nts, a, delta, u)
  }

  method ScanNeighbours(right: seq<Symbol>, nts: seq<Symbol>, ai: Symbol, delta: int, result0: seq<Symbol>)
    returns (result: seq<Symbol>)
    requires Distinct(result0)
    ensures Distinct(result) && result0 <= result
    ensures forall u :: u in result <==> u in result0 || NeighbourInRight(right, nts, ai, delta, u)
  {
    result := result0;
    var searchPos := 0;
    while ai in right[searchPos..]
      invariant 0 <= searchPos <= |right|
      invariant Distinct(result) && result0 <= result
      invariant forall u :: u in result <==>
                  u in result0
                  || exists p :: 0 <= p < searchPos && right[p] == ai && NeighbourAt(right, nts, p, delta, u)
      decreases |right| - searchPos
    {
      ghost var before := searchPos;
      searchPos := IndexFrom(right, ai, searchPos);
      if 0 <= searchPos + delta < |right| {
        var next := right[searchPos + delta];
        if next in nts && next !in result {
          DistinctAppend(result, [next]);
          result := result + [next];
        }
      }
      searchPos := searchPos + 1;
      assert forall q :: before <= q < searchPos - 1 ==> right[q] != ai;
    }
  }

  /** `find_next_prev_symbols(ai, delta)`: the nonterminals at distance `delta`
      from an occurrence of `ai`, once each. `find_precedes_symbols` is delta 1,
      `find_follows_symbols` delta -1. */
  method FindNextPrevSymbols(rules: seq<Rule>, nts: seq<Symbol>, ai: Symbol, delta: int)
    returns (result: seq<Symbol>)
    ensures Distinct(result)
    ensures forall u :: u in result <==> NeighbourIn(rules, nts, ai, delta, u)
  {
    result := [];
    var i := 0;
    while i < |rules|
      invariant 0 <= i <= |rules|
      invariant Distinct(result)
      invariant forall u :: u in result <==> NeighbourIn(rules[..i], nts, ai, delta, u)
    {
      result := ScanNeighbours(rules[i].right, nts, ai, delta, result);
      assert rules[..i + 1] == rules[..i] + [rules[i]];
      i := i + 1;
    }
    assert rules[..i] == rules;
  }
  // ---------------------------------------------------------------------------
  // The table and set_or_append_op_table

  /** The relation characters a cell can hold. */
  predicate IsRelation(c: char) {
    c == '=' || c == '<' || c == '>'
  }

  /** A cell is `' '` (no relation) or a non-empty string of distinct relations. */
  predicate WellFormedCell(cell: string) {
    cell == " " || (cell != [] && Distinct(cell) && forall k :: 0 <= k < |cell| ==> IsRelation(cell[k]))
  }

  /** `set_or_append_op_table` on the contents of one cell. */
  function MergeCell(cell: string, value: char): string {
    if cell == " " then [value] else if value in cell then cell else cell + [value]
  }

  /** Merging never removes a relation, adds exactly `value`, and lengthens the
      cell, by one, exactly when a second distinct relation arrives. */
  lemma MergeCellKeeps(cell: string, value: char)
    requires WellFormedCell(cell) && IsRelation(value)
    ensures WellFormedCell(MergeCell(cell, value))
    ensures forall c :: IsRelation(c) ==> (c in MergeCell(cell, value) <==> c in cell || c == value)
    ensures |MergeCell(cell, value)| == |cell| + (if cell != " " && value !in cell then 1 else 0)
  {
    if cell != " " && value !in cell {
      DistinctAppend(cell, [value]);
    }
  }

  /** One relation between two table positions: (row, column, relation). */
  type Entry = (nat, nat, char)

  /** The entry for a symbol at index `j`, in row `fixed` or, if not `asRow`, in column `fixed`. */
  function At(fixed: nat, j: nat, value: char, asRow: bool): Entry {
    if asRow then (fixed, j, value) else (j, fixed, value)
  }

  /** The entries that setting `value` for every terminal among `symbols` makes. */
  ghost function SymbolEntries(fixed: nat, symbols: seq<Symbol>, terminals: seq<Symbol>, value: char, asRow: bool)
    : (es: set<Entry>)
    ensures forall e :: e in es <==>
              exists b :: b in symbols && b in terminals && e == At(fixed, IndexOf(terminals, b), value, asRow)
    decreases |symbols|
  {
    if symbols == [] then {}
    else
      var init, b := symbols[..|symbols| - 1], symbols[|symbols| - 1];
      assert forall x :: x in symbols <==> x in init || x == b by { assert symbols == init + [b]; }
      SymbolEntries(fixed, init, terminals, value, asRow)
      + (if b in terminals then {At(fixed, IndexOf(terminals, b), value, asRow)} else {})
  }

  lemma SymbolEntriesStep(fixed: nat, symbols: seq<Symbol>, k: nat, terminals: seq<Symbol>, value: char,
                          asRow: bool)
    requires k < |symbols| && symbols[k] in terminals
    ensures SymbolEntries(fixed, symbols[..k + 1], terminals, value, asRow)
            == SymbolEntries(fixed, symbols[..k], terminals, value, asRow)
               + {At(fixed, IndexOf(terminals, symbols[k]), value, asRow)}
  {
    assert symbols[..k + 1][..k] == symbols[..k];
  }

  lemma UnionStep<T>(a: set<T>, b: set<T>, c: set<T>)
    ensures (a + b) + c == a + (b + c)
  {
  }

  /** The entries that setting `value` for the symbols of every `u` in `us` makes. */
  ghost function ListEntries(fixed: nat, us: seq<Symbol>, table: SymTable, terminals: seq<Symbol>, value: char,
                             asRow: bool): set<Entry>
    requires forall u :: u in us ==> u in table
  {
    set u, b | u in us && b in table[u] && b in terminals :: At(fixed, IndexOf(terminals, b), value, asRow)
  }

  lemma ListEntriesStep(fixed: nat, us: seq<Symbol>, k: nat, table: SymTable, terminals: seq<Symbol>, value: char,
                        asRow: bool)
    requires k < |us| && forall u :: u in us ==> u in table
    ensures ListEntries(fixed, us[..k + 1], table, terminals, value, asRow)
            == ListEntries(fixed, us[..k], table, terminals, value, asRow)
               + SymbolEntries(fixed, table[us[k]], terminals, value, asRow)
  {
    assert us[..k + 1] == us[..k] + [us[k]];
    assert forall x :: x in us[..k + 1] <==> x in us[..k] || x == us[k];
    var l := ListEntries(fixed, us[..k + 1], table, terminals, value, asRow);
    var a := ListEntries(fixed, us[..k], table, terminals, value, asRow);
    var b := SymbolEntries(fixed, table[us[k]], terminals, value, asRow);
    forall e | e in l ensures e in a + b {
      var u, x :| u in us[..k + 1] && x in table[u] && x in terminals
                  && e == At(fixed, IndexOf(terminals, x), value, asRow);
      if u != us[k] { assert u in us[..k]; }
    }
  }

  /** The `=` entries of row `i`: one per basis symbol of the `i`-th terminal. */
  ghost function EqualEntries(rules: seq<Rule>, terminals: seq<Symbol>, i: nat): set<Entry>
    requires i < |terminals|
  {
    set b | b in terminals && BasisIn(rules, terminals, terminals[i], b) :: (i, IndexOf(terminals, b), '=')
  }

  /** The entries of the `i`-th terminal for the nonterminals at distance `delta`
      from it: `value` against every terminal in their `table` lists. */
  ghost function NeighbourEntries(rules: seq<Rule>, terminals: seq<Symbol>, nts: seq<Symbol>, table: SymTable,
                                  i: nat, delta: int, value: char, asRow: bool): set<Entry>
    requires i < |terminals| && forall u :: u in nts ==> u in table
  {
    set u, b | u in nts && NeighbourIn(rules, nts, terminals[i], delta, u) && b in table[u] && b in terminals
             :: At(i, IndexOf(terminals, b), value, asRow)
  }

  /** Everything one iteration of `for i, ai in enumerate(TERMINALS)` enters:
      `=` for the basis, `<` in row i for what a following nonterminal starts
      with, `>` in column i for what a preceding nonterminal ends with. */
  ghost function RowEntries(rules: seq<Rule>, terminals: seq<Symbol>, nts: seq<Symbol>, tLeft: SymTable,
                            tRight: SymTable, i: nat): set<Entry>
    requires i < |terminals|
    requires forall u :: u in nts ==> u in tLeft && u in tRight
  {
    EqualEntries(rules, terminals, i)
    + NeighbourEntries(rules, terminals, nts, tLeft, i, 1, '<', true)
    + NeighbourEntries(rules, terminals, nts, tRight, i, -1, '>', false)
  }

  /** The entries of the first `k` iterations. */
  ghost function BodyEntries(rules: seq<Rule>, terminals: seq<Symbol>, nts: seq<Symbol>, tLeft: SymTable,
                             tRight: SymTable, k: nat): set<Entry>
    requires k <= |terminals|
    requires forall u :: u in nts ==> u in tLeft && u in tRight
  {
    if k == 0 then {}
    else BodyEntries(rules, terminals, nts, tLeft, tRight, k - 1) + RowEntries(rules, terminals, nts, tLeft, tRight, k - 1)
  }

  lemma BodyEntriesStep(rules: seq<Rule>, terminals: seq<Symbol>, nts: seq<Symbol>, tLeft: SymTable,
                        tRight: SymTable, k: nat)
    requires k < |terminals|
    requires forall u :: u in nts ==> u in tLeft && u in tRight
    ensures BodyEntries(rules, terminals, nts, tLeft, tRight, k + 1)
            == BodyEntries(rules, terminals, nts, tLeft, tRight, k) + RowEntries(rules, terminals, nts, tLeft, tRight, k)
  {
  }

  /** The first `k` iterations enter exactly what each of them enters. */
  lemma {:induction false} BodyEntriesRows(rules: seq<Rule>, terminals: seq<Symbol>, nts: seq<Symbol>,
                                           tLeft: SymTable, tRight: SymTable, k: nat)
    requires k <= |terminals|
    requires forall u :: u in nts ==> u in tLeft && u in tRight
    ensures forall e :: e in BodyEntries(rules, terminals, nts, tLeft, tRight, k) <==>
                          exists i :: 0 <= i < k && e in RowEntries(rules, terminals, nts, tLeft, tRight, i)
  {
    if k > 0 {
      BodyEntriesRows(rules, terminals, nts, tLeft, tRight, k - 1);
    }
  }

  /** The BEGIN row and END column: `<` for the start symbol's leftmost
      terminals, `>` for its rightmost ones. */
  ghost function StartEntries(terminals: seq<Symbol>, tLeft: SymTable, tRight: SymTable, start: Symbol): set<Entry>
    requires start in tLeft && start in tRight
  {
    SymbolEntries(|terminals|, tLeft[start], terminals, '<', true)
    + SymbolEntries(|terminals|, tRight[start], terminals, '>', false)
  }

  /** Every relation of the finished table. */
  ghost function TableEntries(rules: seq<Rule>, terminals: seq<Symbol>, nts: seq<Symbol>, tLeft: SymTable,
                              tRight: SymTable, start: Symbol): set<Entry>
    requires forall u :: u in nts ==> u in tLeft && u in tRight
    requires start in nts
  {
    BodyEntries(rules, terminals, nts, tLeft, tRight, |terminals|) + StartEntries(terminals, tLeft, tRight, start)
  }

  /** The neighbour list the search returns yields exactly the specified entries. */
  lemma NeighbourListEntries(rules: seq<Rule>, terminals: seq<Symbol>, nts: seq<Symbol>, table: SymTable, i: nat,
                             delta: int, value: char, asRow: bool, us: seq<Symbol>)
    requires i < |terminals| && WellFormed(table, nts, terminals)
    requires forall u :: u in us <==> NeighbourIn(rules, nts, terminals[i], delta, u)
    ensures forall u :: u in us ==> u in table
    ensures forall u, b :: u in us && b in table[u] ==> b in terminals
    ensures ListEntries(i, us, table, terminals, value, asRow)
            == NeighbourEntries(rules, terminals, nts, table, i, delta, value, asRow)
  {
    assert forall u :: u in us ==> u in nts by {
      forall u | u in us ensures u in nts {
        var rule :| rule in rules && NeighbourInRight(rule.right, nts, terminals[i], delta, u);
      }
    }
    assert forall u :: u in us <==> u in nts && NeighbourIn(rules, nts, terminals[i], delta, u);
  }

  /** Every cell is well formed, every recorded conflict is a position of the
      table, and each position is recorded once per relation beyond the first
      that its cell holds. */
  ghost predicate ValidCells(cells: seq<seq<string>>, conflicts: seq<(nat, nat)>) {
    (forall r, s :: 0 <= r < |cells| && 0 <= s < |cells[r]| ==> WellFormedCell(cells[r][s]))
    && (forall k :: 0 <= k < |conflicts| ==>
                      conflicts[k].0 < |cells| && conflicts[k].1 < |cells[conflicts[k].0]|)
    && (forall r, s :: 0 <= r < |cells| && 0 <= s < |cells[r]| ==>
                         multiset(conflicts)[(r, s)] == |cells[r][s]| - 1)
  }

  /** The relations a table holds. */
  ghost function EntriesOf(cells: seq<seq<string>>): set<Entry> {
    set r, s, c | 0 <= r < |cells| && 0 <= s < |cells[r]| && c in cells[r][s] && IsRelation(c) :: (r, s, c)
  }

  function UpdateCell(cells: seq<seq<string>>, row: nat, col: nat, cell: string): seq<seq<string>>
    requires row < |cells| && col < |cells[row]|
  {
    cells[row := cells[row][col := cell]]
  }

  lemma UpdateCellShape(cells: seq<seq<string>>, row: nat, col: nat, cell: string)
    requires row < |cells| && col < |cells[row]|
    ensures var t := UpdateCell(cells, row, col, cell);
            |t| == |cells| && forall r :: 0 <= r < |t| ==> |t[r]| == |cells[r]|
  {
  }

  /** A merge adds exactly the merged relation to the table's entries. */
  lemma MergeEntries(cells: seq<seq<string>>, row: nat, col: nat, value: char)
    requires row < |cells| && col < |cells[row]| && IsRelation(value)
    requires WellFormedCell(cells[row][col])
    ensures EntriesOf(UpdateCell(cells, row, col, MergeCell(cells[row][col], value)))
            == EntriesOf(cells) + {(row, col, value)}
  {
    MergeCellKeeps(cells[row][col], value);
    var t := UpdateCell(cells, row, col, MergeCell(cells[row][col], value));
    forall e | e in EntriesOf(t) ensures e in EntriesOf(cells) + {(row, col, value)} {
      if (e.0, e.1) != (row, col) { assert cells[e.0][e.1] == t[e.0][e.1]; }
    }
    forall e | e in EntriesOf(cells) + {(row, col, value)} ensures e in EntriesOf(t) {
      if (e.0, e.1) != (row, col) { assert e.2 in t[e.0][e.1]; }
      else { assert e.2 in t[row][col]; }
    }
  }

  /** A merge keeps the table valid when a conflict is recorded for each new second relation. */
  lemma MergeValid(cells: seq<seq<string>>, conflicts: seq<(nat, nat)>, row: nat, col: nat, value: char)
    requires ValidCells(cells, conflicts) && row < |cells| && col < |cells[row]| && IsRelation(value)
    ensures var cell := cells[row][col];
            ValidCells(UpdateCell(cells, row, col, MergeCell(cell, value)),
                       conflicts + (if cell != " " && value !in cell then [(row, col)] else []))
  {
    var cell := cells[row][col];
    MergeCellKeeps(cell, value);
    var added: seq<(nat, nat)> := if cell != " " && value !in cell then [(row, col)] else [];
    MergeCounts(cells, conflicts, row, col, value, added);
    MergeInRange(cells, conflicts, row, col, value, added);
    MergeWellFormed(cells, conflicts, row, col, value);
  }

  lemma MergeWellFormed(cells: seq<seq<string>>, conflicts: seq<(nat, nat)>, row: nat, col: nat, value: char)
    requires ValidCells(cells, conflicts) && row < |cells| && col < |cells[row]| && IsRelation(value)
    ensures var t := UpdateCell(cells, row, col, MergeCell(cells[row][col], value));
            forall r, s :: 0 <= r < |t| && 0 <= s < |t[r]| ==> WellFormedCell(t[r][s])
  {
    MergeCellKeeps(cells[row][col], value);
  }

  lemma MergeCounts(cells: seq<seq<string>>, conflicts: seq<(nat, nat)>, row: nat, col: nat, value: char,
                    added: seq<(nat, nat)>)
    requires ValidCells(cells, conflicts) && row < |cells| && col < |cells[row]| && IsRelation(value)
    requires added == if cells[row][col] != " " && value !in cells[row][col] then [(row, col)] else []
    ensures var t := UpdateCell(cells, row, col, MergeCell(cells[row][col], value));
            forall r, s :: 0 <= r < |t| && 0 <= s < |t[r]| ==> multiset(conflicts + added)[(r, s)] == |t[r][s]| - 1
  {
    MergeCellKeeps(cells[row][col], value);
    var t := UpdateCell(cells, row, col, MergeCell(cells[row][col], value));
    var c := conflicts + added;
    assert multiset(c) == multiset(conflicts) + multiset(added);
    forall r, s | 0 <= r < |t| && 0 <= s < |t[r]| ensures multiset(c)[(r, s)] == |t[r][s]| - 1 {
      if (r, s) != (row, col) {
        assert t[r][s] == cells[r][s];
      }
    }
  }

  lemma MergeInRange(cells: seq<seq<string>>, conflicts: seq<(nat, nat)>, row: nat, col: nat, value: char,
                     added: seq<(nat, nat)>)
    requires ValidCells(cells, conflicts) && row < |cells| && col < |cells[row]|
    requires added == [] || added == [(row, col)]
    ensures var t := UpdateCell(cells, row, col, MergeCell(cells[row][col], value));
            forall k :: 0 <= k < |conflicts + added| ==>
                          (conflicts + added)[k].0 < |t| && (conflicts + added)[k].1 < |t[(conflicts + added)[k].0]|
  {
    var t := UpdateCell(cells, row, col, MergeCell(cells[row][col], value));
    var c := conflicts + added;
    forall k | 0 <= k < |c| ensures c[k].0 < |t| && c[k].1 < |t[c[k].0]| {
      if k < |conflicts| { assert c[k] == conflicts[k]; }
    }
  }

  /** `op_table` and `multiple_value_cells`. */
  class OpTable {
    var cells: seq<seq<string>>
    var multipleValueCells: seq<(nat, nat)>

    ghost predicate Valid()
      reads this
    {
      ValidCells(cells, multipleValueCells)
    }

    /** `height` rows of `width` cells. */
    ghost predicate Shape(height: nat, width: nat)
      reads this
    {
      |cells| == height && forall r :: 0 <= r < |cells| ==> |cells[r]| == width
    }

    /** The relations the table holds. */
    ghost function Entries(): set<Entry>
      reads this
    {
      EntriesOf(cells)
    }

    /** `op_table` as first built: `n` rows of `n` empty cells. */
    constructor (n: nat)
      ensures Valid() && Shape(n, n) && multipleValueCells == []
      ensures forall r, s :: 0 <= r < n && 0 <= s < n ==> cells[r][s] == " "
      ensures Entries() == {}
    {
      cells := seq(n, _ => seq(n, _ => " "));
      multipleValueCells := [];
      new;
      assert forall r, s :: 0 <= r < |cells| && 0 <= s < |cells[r]| ==> cells[r][s] == " ";
    }

    /** `set_or_append_op_table(row, col, value)`. */
    method SetOrAppend(row: nat, col: nat, value: char)
      requires Valid() && row < |cells| && col < |cells[row]| && IsRelation(value)
      modifies this
      ensures Valid()
      ensures cells == UpdateCell(old(cells), row, col, MergeCell(old(cells)[row][col], value))
      ensures multipleValueCells == old(multipleValueCells)
                                    + (if old(cells)[row][col] != " " && value !in old(cells)[row][col]
                                       then [(row, col)] else [])
      ensures Entries() == old(Entries()) + {(row, col, value)}
      ensures |cells| == |old(cells)| && forall r :: 0 <= r < |cells| ==> |cells[r]| == |old(cells)[r]|
    {
      var cell := cells[row][col];
      MergeEntries(cells, row, col, value);
      MergeValid(cells, multipleValueCells, row, col, value);
      UpdateCellShape(cells, row, col, MergeCell(cell, value));
      if cell == " " {
        cells := cells[row := cells[row][col := [value]]];
      } else if value !in cell {
        cells := cells[row := cells[row][col := cell + [value]]];
        multipleValueCells := multipleValueCells + [(row, col)];
      } else {
        assert cells[row][col := cell] == cells[row];
      }
    }

    /** `op_table.append([' '] * width)`: the BEGIN row. */
    method AppendEmptyRow(width: nat)
      requires Valid()
      modifies this
      ensures Valid()
      ensures cells == old(cells) + [seq(width, _ => " ")]
      ensures multipleValueCells == old(multipleValueCells)
      ensures Entries() == old(Entries())
    {
      ghost var e0 := Entries();
      ghost var c0 := cells;
      cells := cells + [seq(width, _ => " ")];
      assert forall s :: 0 <= s < width ==> cells[|c0|][s] == " ";
      assert Entries() == e0 by {
        forall e | e in Entries() ensures e in e0 {
          assert e.0 < |c0|;
        }
        forall e | e in e0 ensures e in Entries() {
          assert cells[e.0] == c0[e.0];
        }
      }
    }

    /** `for row in op_table: row.append(' ')`: the END column. */
    method AppendEmptyColumn()
      requires Valid()
      modifies this
      ensures Valid()
      ensures |cells| == |old(cells)| && forall r :: 0 <= r < |cells| ==> cells[r] == old(cells)[r] + [" "]
      ensures multipleValueCells == old(multipleValueCells)
      ensures Entries() == old(Entries())
    {
      ghost var e0 := Entries();
      ghost var c0 := cells;
      var r := 0;
      while r < |cells|
        invariant 0 <= r <= |cells| == |c0|
        invariant forall q :: 0 <= q < r ==> cells[q] == c0[q] + [" "]
        invariant forall q :: r <= q < |cells| ==> cells[q] == c0[q]
        invariant multipleValueCells == old(multipleValueCells)
      {
        cells := cells[r := cells[r] + [" "]];
        r := r + 1;
      }
      assert forall q, s :: 0 <= q < |cells| && 0 <= s < |cells[q]| ==>
                              cells[q][s] == if s < |c0[q]| then c0[q][s] else " ";
      assert Entries() == e0 by {
        forall e | e in Entries() ensures e in e0 {
          assert e.1 < |c0[e.0]|;
        }
        forall e | e in e0 ensures e in Entries() {
          assert cells[e.0][e.1] == c0[e.0][e.1];
        }
      }
    }

    /** `set_or_append_op_table(fixed, j, value)`, or `(j, fixed, value)` when not `asRow`. */
    method SetAt(n: nat, fixed: nat, j: nat, value: char, asRow: bool)
      requires Valid() && Shape(n, n) && fixed < n && j < n && IsRelation(value)
      modifies this
      ensures Valid() && Shape(n, n)
      ensures Entries() == old(Entries()) + {At(fixed, j, value, asRow)}
    {
      if asRow {
        SetOrAppend(fixed, j, value);
      } else {
        SetOrAppend(j, fixed, value);
      }
    }

    /** The inner `for symbol in symbols` loops: set `value` for every symbol's
        column in row `fixed` (or row in column `fixed`). */
    method SetForAll(n: nat, fixed: nat, symbols: seq<Symbol>, terminals: seq<Symbol>, value: char, asRow: bool)
      requires Valid() && Shape(n, n) && fixed < n && IsRelation(value)
      requires forall b :: b in symbols ==> b in terminals
      requires |terminals| <= n
      modifies this
      ensures Valid() && Shape(n, n)
      ensures Entries() == old(Entries()) + SymbolEntries(fixed, symbols, terminals, value, asRow)
    {
      ghost var e0 := Entries();
      var k := 0;
      while k < |symbols|
        invariant 0 <= k <= |symbols|
        invariant Valid() && Shape(n, n)
        invariant Entries() == e0 + SymbolEntries(fixed, symbols[..k], terminals, value, asRow)
      {
        ghost var before := Entries();
        var j := IndexOf(terminals, symbols[k]);
        SetAt(n, fixed, j, value, asRow);
        SymbolEntriesStep(fixed, symbols, k, terminals, value, asRow);
        UnionStep(e0, SymbolEntries(fixed, symbols[..k], terminals, value, asRow), {At(fixed, j, value, asRow)});
        k := k + 1;
      }
      assert symbols[..k] == symbols;
    }

    /** `for U in precedes: ... set_or_append_op_table(...)` and its `follows` twin. */
    method SetForNeighbours(n: nat, fixed: nat, us: seq<Symbol>, table: SymTable, terminals: seq<Symbol>,
                            value: char, asRow: bool)
      requires Valid() && Shape(n, n) && fixed < n && IsRelation(value) && |terminals| <= n
      requires forall u :: u in us ==> u in table
      requires forall u, b :: u in us && b in table[u] ==> b in terminals
      modifies this
      ensures Valid() && Shape(n, n)
      ensures Entries() == old(Entries()) + ListEntries(fixed, us, table, terminals, value, asRow)
    {
      ghost var e0 := Entries();
      var k := 0;
      while k < |us|
        invariant 0 <= k <= |us|
        invariant Valid() && Shape(n, n)
        invariant Entries() == e0 + ListEntries(fixed, us[..k], table, terminals, value, asRow)
      {
        SetForAll(n, fixed, table[us[k]], terminals, value, asRow);
        ListEntriesStep(fixed, us, k, table, terminals, value, asRow);
        k := k + 1;
      }
      assert us[..k] == us;
    }

    /** gen_tables.py:378-383: the BEGIN row and the END column, both empty. */
    method AddBorders(n: nat)
      requires Valid() && Shape(n, n)
      modifies this
      ensures Valid() && Shape(n + 1, n + 1)
      ensures Entries() == old(Entries())
    {
      AppendEmptyRow(n);
      AppendEmptyColumn();
    }

    /** gen_tables.py:385-395: `<` in the BEGIN row for the start symbol's leftmost
        terminals, `>` in the END column for its rightmost ones. */
    method FillBorders(n: nat, terminals: seq<Symbol>, tLeft: SymTable, tRight: SymTable, start: Symbol)
      requires Valid() && Shape(n + 1, n + 1) && |terminals| == n
      requires start in tLeft && start in tRight
      requires forall b :: b in tLeft[start] ==> b in terminals
      requires forall b :: b in tRight[start] ==> b in terminals
      modifies this
      ensures Valid() && Shape(n + 1, n + 1)
      ensures Entries() == old(Entries()) + StartEntries(terminals, tLeft, tRight, start)
    {
      ghost var body := Entries();
      SetForAll(n + 1, n, tLeft[start], terminals, '<', true);
      SetForAll(n + 1, n, tRight[start], terminals, '>', false);
      UnionStep(body, SymbolEntries(n, tLeft[start], terminals, '<', true),
                SymbolEntries(n, tRight[start], terminals, '>', false));
    }

    /** One iteration of `for i, ai in enumerate(TERMINALS)` (gen_tables.py:353-376). */
    method FillRow(n: nat, rules: seq<Rule>, terminals: seq<Symbol>, nts: seq<Symbol>, tLeft: SymTable,
                   tRight: SymTable, i: nat)
      requires Valid() && Shape(n, n) && |terminals| <= n && i < |terminals|
      requires WellFormed(tLeft, nts, terminals) && WellFormed(tRight, nts, terminals)
      modifies this
      ensures Valid() && Shape(n, n)
      ensures Entries() == old(Entries()) + RowEntries(rules, terminals, nts, tLeft, tRight, i)
    {
      var ai := terminals[i];
      var basis := FindBasisSymbols(rules, terminals, ai);
      SetForAll(n, i, basis, terminals, '=', true);
      assert SymbolEntries(i, basis, terminals, '=', true) == EqualEntries(rules, terminals, i);
      var precedes := FindNextPrevSymbols(rules, nts, ai, 1);
      NeighbourListEntries(rules, terminals, nts, tLeft, i, 1, '<', true, precedes);
      SetForNeighbours(n, i, precedes, tLeft, terminals, '<', true);
      var follows := FindNextPrevSymbols(rules, nts, ai, -1);
      NeighbourListEntries(rules, terminals, nts, tRight, i, -1, '>', false, follows);
      SetForNeighbours(n, i, follows, tRight, terminals, '>', false);
    }
  }
  /** gen_tables.py:281-395: the whole table. Looking up the start symbol's
      terminal lists raises a `KeyError` when the start symbol is not a
      nonterminal of the grammar. */
  method BuildOpTable(rules: seq<Rule>, terminals: seq<Symbol>, nts: seq<Symbol>, tLeft: SymTable,
                      tRight: SymTable, start: Symbol) returns (r: Result<OpTable, GrammarError>)
    requires WellFormed(tLeft, nts, terminals) && WellFormed(tRight, nts, terminals)
    ensures r.Err? <==> start !in nts
    ensures r.Err? ==> r.error == KeyError(start)
    ensures r.Ok? ==> fresh(r.value) && r.value.Valid()
                      && r.value.Shape(|terminals| + 1, |terminals| + 1)
                      && r.value.Entries() == TableEntries(rules, terminals, nts, tLeft, tRight, start)
  {
    var n := |terminals|;
    var table := new OpTable(n);
    var i := 0;
    while i < n
      invariant 0 <= i <= n
      invariant fresh(table) && table.Valid() && table.Shape(n, n)
      invariant table.Entries() == BodyEntries(rules, terminals, nts, tLeft, tRight, i)
    {
      BodyEntriesStep(rules, terminals, nts, tLeft, tRight, i);
      table.FillRow(n, rules, terminals, nts, tLeft, tRight, i);
      i := i + 1;
    }
    table.AddBorders(n);
    if start !in nts {
      return Err(KeyError(start));
    }
    table.FillBorders(n, terminals, tLeft, tRight, start);
    r := Ok(table);
  }
  // ---------------------------------------------------------------------------
  // What the finished table holds

  /** Where one iteration's entries can go: `=` and `<` in row `i`, `>` in column `i`,
      always against a terminal's first position. */
  lemma RowEntryShape(rules: seq<Rule>, terminals: seq<Symbol>, nts: seq<Symbol>, tLeft: SymTable,
                      tRight: SymTable, i: nat, e: Entry)
    requires i < |terminals| && forall u :: u in nts ==> u in tLeft && u in tRight
    requires e in RowEntries(rules, terminals, nts, tLeft, tRight, i)
    ensures e.2 == '=' ==> (e.0 == i && exists b :: b in terminals && BasisIn(rules, terminals, terminals[i], b)
                                                      && e.1 == IndexOf(terminals, b))
    ensures e.2 == '<' ==> (e.0 == i && exists u, b :: u in nts && NeighbourIn(rules, nts, terminals[i], 1, u)
                                                         && b in tLeft[u] && b in terminals
                                                         && e.1 == IndexOf(terminals, b))
    ensures e.2 == '>' ==> (e.1 == i && exists u, b :: u in nts && NeighbourIn(rules, nts, terminals[i], -1, u)
                                                         && b in tRight[u] && b in terminals
                                                         && e.0 == IndexOf(terminals, b))
    ensures IsRelation(e.2) && e.0 < |terminals| && e.1 < |terminals|
  {
  }

  /** `=` is exactly the basis relation, and never in the BEGIN row or END column. */
  lemma EqualPlacement(rules: seq<Rule>, terminals: seq<Symbol>, nts: seq<Symbol>, tLeft: SymTable,
                       tRight: SymTable, start: Symbol, r: nat, c: nat)
    requires forall u :: u in nts ==> u in tLeft && u in tRight
    requires start in nts
    ensures (r, c, '=') in TableEntries(rules, terminals, nts, tLeft, tRight, start) <==>
            r < |terminals| && exists b :: b in terminals && BasisIn(rules, terminals, terminals[r], b)
                                           && c == IndexOf(terminals, b)
  {
    var e := (r, c, '=');
    var body := BodyEntries(rules, terminals, nts, tLeft, tRight, |terminals|);
    BodyEntriesRows(rules, terminals, nts, tLeft, tRight, |terminals|);
    assert e !in StartEntries(terminals, tLeft, tRight, start);
    if e in body {
      var i :| 0 <= i < |terminals| && e in RowEntries(rules, terminals, nts, tLeft, tRight, i);
      RowEntryShape(rules, terminals, nts, tLeft, tRight, i, e);
    }
    if r < |terminals| && exists b :: b in terminals && BasisIn(rules, terminals, terminals[r], b)
                                      && c == IndexOf(terminals, b) {
      assert e in EqualEntries(rules, terminals, r);
      assert e in RowEntries(rules, terminals, nts, tLeft, tRight, r);
    }
  }

  /** `<` goes in row `i` for the leftmost terminals of a nonterminal after the
      `i`-th terminal, and in the BEGIN row for the start symbol's leftmost terminals. */
  lemma LessPlacement(rules: seq<Rule>, terminals: seq<Symbol>, nts: seq<Symbol>, tLeft: SymTable,
                      tRight: SymTable, start: Symbol, r: nat, c: nat)
    requires forall u :: u in nts ==> u in tLeft && u in tRight
    requires start in nts
    ensures (r, c, '<') in TableEntries(rules, terminals, nts, tLeft, tRight, start) <==>
            (r < |terminals| && exists u, b :: u in nts && NeighbourIn(rules, nts, terminals[r], 1, u)
                                               && b in tLeft[u] && b in terminals && c == IndexOf(terminals, b))
            || (r == |terminals| && exists b :: b in tLeft[start] && b in terminals && c == IndexOf(terminals, b))
  {
    var e := (r, c, '<');
    var body := BodyEntries(rules, terminals, nts, tLeft, tRight, |terminals|);
    BodyEntriesRows(rules, terminals, nts, tLeft, tRight, |terminals|);
    var lower := SymbolEntries(|terminals|, tLeft[start], terminals, '<', true);
    var upper := SymbolEntries(|terminals|, tRight[start], terminals, '>', false);
    assert e !in upper;
    if e in body {
      var i :| 0 <= i < |terminals| && e in RowEntries(rules, terminals, nts, tLeft, tRight, i);
      RowEntryShape(rules, terminals, nts, tLeft, tRight, i, e);
    } else if e in lower {
      var b :| b in tLeft[start] && b in terminals && e == At(|terminals|, IndexOf(terminals, b), '<', true);
    }
    if r < |terminals| && exists u, b :: u in nts && NeighbourIn(rules, nts, terminals[r], 1, u)
                                         && b in tLeft[u] && b in terminals && c == IndexOf(terminals, b) {
      var u, b :| u in nts && NeighbourIn(rules, nts, terminals[r], 1, u)
                  && b in tLeft[u] && b in terminals && c == IndexOf(terminals, b);
      assert e in NeighbourEntries(rules, terminals, nts, tLeft, r, 1, '<', true);
      assert e in RowEntries(rules, terminals, nts, tLeft, tRight, r);
      assert e in body;
    }
    if r == |terminals| && exists b :: b in tLeft[start] && b in terminals && c == IndexOf(terminals, b) {
      var b :| b in tLeft[start] && b in terminals && c == IndexOf(terminals, b);
      assert e == At(|terminals|, IndexOf(terminals, b), '<', true);
      assert e in lower;
    }
  }

  /** `>` goes in column `i` for the rightmost terminals of a nonterminal before
      the `i`-th terminal, and in the END column for the start symbol's rightmost terminals. */
  lemma GreaterPlacement(rules: seq<Rule>, terminals: seq<Symbol>, nts: seq<Symbol>, tLeft: SymTable,
                         tRight: SymTable, start: Symbol, r: nat, c: nat)
    requires forall u :: u in nts ==> u in tLeft && u in tRight
    requires start in nts
    ensures (r, c, '>') in TableEntries(rules, terminals, nts, tLeft, tRight, start) <==>
            (c < |terminals| && exists u, b :: u in nts && NeighbourIn(rules, nts, terminals[c], -1, u)
                                               && b in tRight[u] && b in terminals && r == IndexOf(terminals, b))
            || (c == |terminals| && exists b :: b in tRight[start] && b in terminals && r == IndexOf(terminals, b))
  {
    var e := (r, c, '>');
    var body := BodyEntries(rules, terminals, nts, tLeft, tRight, |terminals|);
    BodyEntriesRows(rules, terminals, nts, tLeft, tRight, |terminals|);
    var lower := SymbolEntries(|terminals|, tLeft[start], terminals, '<', true);
    var upper := SymbolEntries(|terminals|, tRight[start], terminals, '>', false);
    assert e !in lower;
    if e in body {
      var i :| 0 <= i < |terminals| && e in RowEntries(rules, terminals, nts, tLeft, tRight, i);
      RowEntryShape(rules, terminals, nts, tLeft, tRight, i, e);
    } else if e in upper {
      var b :| b in tRight[start] && b in terminals && e == At(|terminals|, IndexOf(terminals, b), '>', false);
    }
    if c < |terminals| && exists u, b :: u in nts && NeighbourIn(rules, nts, terminals[c], -1, u)
                                         && b in tRight[u] && b in terminals && r == IndexOf(terminals, b) {
      var u, b :| u in nts && NeighbourIn(rules, nts, terminals[c], -1, u)
                  && b in tRight[u] && b in terminals && r == IndexOf(terminals, b);
      assert e in NeighbourEntries(rules, terminals, nts, tRight, c, -1, '>', false);
      assert e in RowEntries(rules, terminals, nts, tLeft, tRight, c);
      assert e in body;
    }
    if c == |terminals| && exists b :: b in tRight[start] && b in terminals && r == IndexOf(terminals, b) {
      var b :| b in tRight[start] && b in terminals && r == IndexOf(terminals, b);
      assert e == At(|terminals|, IndexOf(terminals, b), '>', false);
      assert e in upper;
    }
  }

  /** The relations depend on the terminal tables only through the symbols
      their lists hold, not through the order of the lists. */
  lemma TableEntriesDetermined(rules: seq<Rule>, terminals: seq<Symbol>, nts: seq<Symbol>, tLeft: SymTable,
                               tRight: SymTable, tLeft': SymTable, tRight': SymTable, start: Symbol)
    requires start in nts && SameMembers(tLeft, tLeft', nts) && SameMembers(tRight, tRight', nts)
    ensures TableEntries(rules, terminals, nts, tLeft, tRight, start)
            == TableEntries(rules, terminals, nts, tLeft', tRight', start)
  {
    forall e | e in TableEntries(rules, terminals, nts, tLeft, tRight, start)
      ensures e in TableEntries(rules, terminals, nts, tLeft', tRight', start)
    {
      SentinelLines(rules, terminals, nts, tLeft, tRight, start, e);
      SamePlacement(rules, terminals, nts, tLeft, tRight, tLeft', tRight', start, e);
    }
    forall e | e in TableEntries(rules, terminals, nts, tLeft', tRight', start)
      ensures e in TableEntries(rules, terminals, nts, tLeft, tRight, start)
    {
      SentinelLines(rules, terminals, nts, tLeft', tRight', start, e);
      SamePlacement(rules, terminals, nts, tLeft', tRight', tLeft, tRight, start, e);
    }
  }

  lemma SamePlacement(rules: seq<Rule>, terminals: seq<Symbol>, nts: seq<Symbol>, tLeft: SymTable,
                      tRight: SymTable, tLeft': SymTable, tRight': SymTable, start: Symbol, e: Entry)
    requires start in nts && SameMembers(tLeft, tLeft', nts) && SameMembers(tRight, tRight', nts)
    requires IsRelation(e.2) && e in TableEntries(rules, terminals, nts, tLeft, tRight, start)
    ensures e in TableEntries(rules, terminals, nts, tLeft', tRight', start)
  {
    var (r, c, v) := e;
    if v == '=' {
      EqualPlacement(rules, terminals, nts, tLeft, tRight, start, r, c);
      EqualPlacement(rules, terminals, nts, tLeft', tRight', start, r, c);
    } else if v == '<' {
      LessPlacement(rules, terminals, nts, tLeft, tRight, start, r, c);
      LessPlacement(rules, terminals, nts, tLeft', tRight', start, r, c);
    } else {
      GreaterPlacement(rules, terminals, nts, tLeft, tRight, start, r, c);
      GreaterPlacement(rules, terminals, nts, tLeft', tRight', start, r, c);
    }
  }

  /** The BEGIN row holds only `<`, the END column only `>`, and their shared
      cell nothing: BEGIN never reduces and END is never shifted. */
  lemma SentinelLines(rules: seq<Rule>, terminals: seq<Symbol>, nts: seq<Symbol>, tLeft: SymTable,
                      tRight: SymTable, start: Symbol, e: Entry)
    requires forall u :: u in nts ==> u in tLeft && u in tRight
    requires start in nts
    requires e in TableEntries(rules, terminals, nts, tLeft, tRight, start)
    ensures e.0 <= |terminals| && e.1 <= |terminals| && IsRelation(e.2)
    ensures e.0 == |terminals| ==> e.2 == '<' && e.1 < |terminals|
    ensures e.1 == |terminals| ==> e.2 == '>' && e.0 < |terminals|
  {
    BodyEntriesRows(rules, terminals, nts, tLeft, tRight, |terminals|);
    if e in BodyEntries(rules, terminals, nts, tLeft, tRight, |terminals|) {
      var i :| 0 <= i < |terminals| && e in RowEntries(rules, terminals, nts, tLeft, tRight, i);
      RowEntryShape(rules, terminals, nts, tLeft, tRight, i, e);
    }
  }
}
