/** The leftmost/rightmost symbol and terminal tables of gen_tables.py: a
    per-nonterminal list, seeded from the rules and then closed by iterating
    to a fixed point (`complete_table`, `complete_t_table`). The source keeps
    both sides in one dictionary under the keys 'l' and 'r'; here each side is
    its own table and the side is a parameter. */
module Closure {
  import opened Util
  import opened GrammarRules

  /** `leftmost_and_rightmost_nt[N][key]` or `leftmost_and_rightmost_t[N][key]`
      for one key: a list of symbols per nonterminal. */
  type SymTable = map<Symbol, seq<Symbol>>

  /** The two keys of the source's inner dictionaries. */
  datatype Side = Leftmost | Rightmost

  /** Every nonterminal has a list, no list repeats a symbol, all symbols are drawn from `u`. */
  ghost predicate WellFormed(table: SymTable, nts: seq<Symbol>, u: seq<Symbol>) {
    (forall n :: n in table <==> n in nts)
    && (forall n :: n in table ==> Distinct(table[n]))
    && (forall n, x :: n in table && x in table[n] ==> x in u)
  }

  /** Lists only grow: each old list is a prefix of the new one. */
  ghost predicate Grows(before: SymTable, after: SymTable) {
    forall n :: n in before ==> n in after && before[n] <= after[n]
  }

  /** The fixed point of `complete_table`: a nonterminal in N's list brings its
      whole list into N's. */
  ghost predicate Closed(table: SymTable, nts: seq<Symbol>)
    requires forall n :: n in nts ==> n in table
  {
    forall n, m, x :: n in nts && m in nts && m in table[n] && x in table[m] ==> x in table[n]
  }

  /** The fixed point of `complete_t_table`: a nonterminal in N's symbol list
      brings its whole terminal list into N's terminal list. */
  ghost predicate TClosed(ntTable: SymTable, tTable: SymTable, nts: seq<Symbol>)
    requires forall n :: n in nts ==> n in ntTable && n in tTable
  {
    forall n, m, x :: n in nts && m in nts && m in ntTable[n] && x in tTable[m] ==> x in tTable[n]
  }

  /** Every nonterminal has a list in both tables, and each list of `small`
      is contained in the matching list of `big`. */
  ghost predicate Within(small: SymTable, big: SymTable, nts: seq<Symbol>) {
    (forall n :: n in nts ==> n in small && n in big)
    && forall n, x :: n in nts && x in small[n] ==> x in big[n]
  }

  /** Both tables have a list for every nonterminal, and the two lists hold
      the same symbols (perhaps in another order). */
  ghost predicate SameMembers(a: SymTable, b: SymTable, nts: seq<Symbol>) {
    (forall n :: n in nts ==> n in a && n in b)
    && forall n, x :: n in nts ==> (x in a[n] <==> x in b[n])
  }

  /** Sum of the list lengths over `nts`. */
  function Total(table: SymTable, nts: seq<Symbol>): nat
    requires forall n :: n in nts ==> n in table
  {
    if nts == [] then 0 else |table[nts[0]]| + Total(table, nts[1..])
  }

  lemma {:induction false} TotalBound(table: SymTable, nts: seq<Symbol>, u: seq<Symbol>)
    requires forall n :: n in nts ==> n in table
    requires forall n :: n in nts ==> |table[n]| <= |u|
    ensures Total(table, nts) <= |nts| * |u|
  {
    if nts != [] { TotalBound(table, nts[1..], u); }
  }

  lemma {:induction false} TotalUpdate(table: SymTable, nts: seq<Symbol>, n: Symbol, v: seq<Symbol>)
    requires forall m :: m in nts ==> m in table
    requires Distinct(nts) && n in nts
    ensures Total(table[n := v], nts) == Total(table, nts) - |table[n]| + |v|
  {
    if nts[0] == n {
      assert n !in nts[1..] by {
        forall k | 0 <= k < |nts[1..]| ensures nts[1..][k] != n { assert nts[k + 1] != nts[0]; }
      }
      TotalUnchanged(table, nts[1..], n, v);
    } else {
      assert Distinct(nts[1..]) by {
        forall i, j | 0 <= i < j < |nts[1..]| ensures nts[1..][i] != nts[1..][j] {
          assert nts[i + 1] != nts[j + 1];
        }
      }
      TotalUpdate(table, nts[1..], n, v);
    }
  }

  lemma {:induction false} TotalUnchanged(table: SymTable, nts: seq<Symbol>, n: Symbol, v: seq<Symbol>)
    requires forall m :: m in nts ==> m in table
    requires n !in nts
    ensures Total(table[n := v], nts) == Total(table, nts)
  {
    if nts != [] { TotalUnchanged(table, nts[1..], n, v); }
  }

  lemma WellFormedBound(table: SymTable, nts: seq<Symbol>, u: seq<Symbol>)
    requires WellFormed(table, nts, u)
    ensures Total(table, nts) <= |nts| * |u|
  {
    forall n | n in nts ensures |table[n]| <= |u| {
      DistinctBoundSeq(table[n], u);
    }
    TotalBound(table, nts, u);
  }

  // ---------------------------------------------------------------------------
  // Collecting new symbols

  /** The loop over `potential_symbols`: `acc` extended, in order, by every
      candidate that is neither `present` nor already collected. */
  function AddNew(acc: seq<Symbol>, present: seq<Symbol>, candidates: seq<Symbol>): (r: seq<Symbol>)
    ensures acc <= r
    ensures Distinct(acc) ==> Distinct(r)
    ensures forall x :: x in r <==> x in acc || (x in candidates && x !in present)
    ensures (forall x :: x in acc ==> x !in present) ==> forall x :: x in r ==> x !in present
    decreases |candidates|
  {
    if candidates == [] then acc
    else
      var init := candidates[..|candidates| - 1];
      var c := candidates[|candidates| - 1];
      var prev := AddNew(acc, present, init);
      assert forall x :: x in candidates <==> x in init || x == c by {
        assert candidates == init + [c];
      }
      if c !in present && c !in prev then prev + [c] else prev
  }

  /** The loop over a list `scan`: for every nonterminal `m` in it, the symbols of
      `src[m]` not `present` are collected into `acc`. This is `additional_symbols`. */
  function Gather(acc: seq<Symbol>, present: seq<Symbol>, scan: seq<Symbol>, src: SymTable, nts: seq<Symbol>)
    : (r: seq<Symbol>)
    requires forall n :: n in nts ==> n in src
    ensures acc <= r
    ensures Distinct(acc) ==> Distinct(r)
    ensures forall x :: x in r <==>
              x in acc || (x !in present && exists m :: m in scan && m in nts && x in src[m])
    ensures (forall x :: x in acc ==> x !in present) ==> forall x :: x in r ==> x !in present
    decreases |scan|
  {
    if scan == [] then acc
    else
      var init := scan[..|scan| - 1];
      var m := scan[|scan| - 1];
      var prev := Gather(acc, present, init, src, nts);
      assert forall x :: x in scan <==> x in init || x == m by {
        assert scan == init + [m];
      }
      if m in nts then AddNew(prev, present, src[m]) else prev
  }

  /** `additional_symbols` is empty exactly when every nonterminal in `scan`
      has its list inside `present`. */
  lemma GatherEmpty(present: seq<Symbol>, scan: seq<Symbol>, src: SymTable, nts: seq<Symbol>)
    requires forall n :: n in nts ==> n in src
    ensures Gather([], present, scan, src, nts) == [] <==>
            forall m, x :: m in scan && m in nts && x in src[m] ==> x in present
  {
    var r := Gather([], present, scan, src, nts);
    if r != [] {
      assert r[0] in r;
    }
  }

  // ---------------------------------------------------------------------------
  // complete_table

  /** One pass of the `while changed` loop of `complete_table`: every nonterminal,
      in order, takes in the lists of the nonterminals in its own list. */
  method CompletePass(table0: SymTable, nts: seq<Symbol>, ghost u: seq<Symbol>)
    returns (table: SymTable, changed: bool)
    requires Distinct(nts) && WellFormed(table0, nts, u)
    ensures WellFormed(table, nts, u) && Grows(table0, table)
    ensures Total(table0, nts) <= Total(table, nts)
    ensures changed ==> Total(table0, nts) < Total(table, nts)
    ensures !changed ==> table == table0 && Closed(table, nts)
    ensures forall t :: Within(table0, t, nts) && Closed(t, nts) ==> Within(table, t, nts)
  {
    table := table0;
    changed := false;
    var i := 0;
    assert nts[..0] == [];
    while i < |nts|
      invariant PassInv(table0, table0, table, nts, u, i, changed)
      invariant forall t :: Within(table0, t, nts) && Closed(t, nts) ==> Within(table, t, nts)
    {
      var n := nts[i];
      PassStep(table0, table0, table, nts, u, i, changed, table[n]);
      PassLeast(table0, table, nts, n);
      var additional := Gather([], table[n], table[n], table, nts);
      changed := changed || |additional| > 0;
      table := table[n := table[n] + additional];
      i := i + 1;
    }
    assert nts[..i] == nts;
  }

  /** The state after the first `i` nonterminals of a pass that scans `src`'s
      lists: the table is well formed and has grown, a change shows in the
      total, and without a change the nonterminals passed are closed. */
  ghost predicate PassInv(src: SymTable, table0: SymTable, table: SymTable, nts: seq<Symbol>, u: seq<Symbol>,
                          i: nat, changed: bool)
  {
    i <= |nts| && (forall n :: n in nts ==> n in src) && WellFormed(table0, nts, u)
    && WellFormed(table, nts, u) && Grows(table0, table)
    && Total(table0, nts) <= Total(table, nts)
    && (changed ==> Total(table0, nts) < Total(table, nts))
    && (!changed ==> table == table0)
    && (!changed ==>
          forall n, m, x :: n in nts[..i] && m in nts && m in src[n] && x in table[m] ==> x in table[n])
  }

  /** One nonterminal of a pass: `n := nts[i]` takes in what the nonterminals
      of `scan` hold beyond its own list. */
  lemma PassStep(src: SymTable, table0: SymTable, table: SymTable, nts: seq<Symbol>, u: seq<Symbol>, i: nat,
                 changed: bool, scan: seq<Symbol>)
    requires Distinct(nts) && i < |nts| && PassInv(src, table0, table, nts, u, i, changed)
    requires !changed ==> scan == src[nts[i]]
    ensures var n := nts[i];
            var additional := Gather([], table[n], scan, table, nts);
            PassInv(src, table0, table[n := table[n] + additional], nts, u, i + 1, changed || |additional| > 0)
  {
    var n := nts[i];
    var additional := Gather([], table[n], scan, table, nts);
    var t := table[n := table[n] + additional];
    PassWellFormed(table0, table, nts, u, n, scan);
    TotalUpdate(table, nts, n, table[n] + additional);
    if !changed && additional == [] {
      PassClosed(src, table, nts, i, scan);
    }
  }

  lemma PassWellFormed(table0: SymTable, table: SymTable, nts: seq<Symbol>, u: seq<Symbol>, n: Symbol,
                       scan: seq<Symbol>)
    requires WellFormed(table, nts, u) && Grows(table0, table) && n in nts
    ensures var t := table[n := table[n] + Gather([], table[n], scan, table, nts)];
            WellFormed(t, nts, u) && Grows(table0, t)
  {
    DistinctAppend(table[n], Gather([], table[n], scan, table, nts));
  }

  /** Nothing new for `nts[i]`: it is closed, and so are those before it. */
  lemma PassClosed(src: SymTable, table: SymTable, nts: seq<Symbol>, i: nat, scan: seq<Symbol>)
    requires i < |nts| && forall n :: n in nts ==> n in src && n in table
    requires scan == src[nts[i]] && Gather([], table[nts[i]], scan, table, nts) == []
    requires forall n, m, x :: n in nts[..i] && m in nts && m in src[n] && x in table[m] ==> x in table[n]
    ensures table[nts[i] := table[nts[i]] + []] == table
    ensures forall n, m, x :: n in nts[..i + 1] && m in nts && m in src[n] && x in table[m] ==> x in table[n]
  {
    var n := nts[i];
    GatherEmpty(table[n], scan, table, nts);
    assert table[n] + [] == table[n];
    assert nts[..i + 1] == nts[..i] + [n];
  }

  /** What a nonterminal gathers stays inside every closed table that already
      holds the current lists: a pass never leaves the least closed table. */
  lemma GatherWithin(table: SymTable, t: SymTable, nts: seq<Symbol>, n: Symbol, scan: seq<Symbol>)
    requires Within(table, t, nts) && n in nts
    requires forall m, x :: m in scan && m in nts && x in t[m] ==> x in t[n]
    ensures Within(table[n := table[n] + Gather([], table[n], scan, table, nts)], t, nts)
  {
  }

  /** One nonterminal's update in `complete_table` keeps the table below every
      closed table above the seeds. */
  lemma PassLeast(table0: SymTable, table: SymTable, nts: seq<Symbol>, n: Symbol)
    requires n in nts && forall m :: m in nts ==> m in table
    requires forall t :: Within(table0, t, nts) && Closed(t, nts) ==> Within(table, t, nts)
    ensures forall t :: Within(table0, t, nts) && Closed(t, nts) ==>
              Within(table[n := table[n] + Gather([], table[n], table[n], table, nts)], t, nts)
  {
    forall t | Within(table0, t, nts) && Closed(t, nts)
      ensures Within(table[n := table[n] + Gather([], table[n], table[n], table, nts)], t, nts)
    {
      GatherWithin(table, t, nts, n, table[n]);
    }
  }

  /** One nonterminal's update in `complete_t_table` keeps the table below
      every table above the seeds that is closed along `ntTable`. */
  lemma TPassLeast(ntTable: SymTable, table0: SymTable, table: SymTable, nts: seq<Symbol>, n: Symbol)
    requires n in nts && forall m :: m in nts ==> m in table && m in ntTable
    requires forall t :: Within(table0, t, nts) && TClosed(ntTable, t, nts) ==> Within(table, t, nts)
    ensures forall t :: Within(table0, t, nts) && TClosed(ntTable, t, nts) ==>
              Within(table[n := table[n] + Gather([], table[n], ntTable[n], table, nts)], t, nts)
  {
    forall t | Within(table0, t, nts) && TClosed(ntTable, t, nts)
      ensures Within(table[n := table[n] + Gather([], table[n], ntTable[n], table, nts)], t, nts)
    {
      GatherWithin(table, t, nts, n, ntTable[n]);
    }
  }

  /** `complete_table`: repeat passes until one changes nothing. */
  method CompleteTable(table0: SymTable, nts: seq<Symbol>, ghost u: seq<Symbol>) returns (table: SymTable)
    requires Distinct(nts) && WellFormed(table0, nts, u)
    ensures WellFormed(table, nts, u) && Grows(table0, table)
    ensures Closed(table, nts)
    ensures forall t :: Within(table0, t, nts) && Closed(t, nts) ==> Within(table, t, nts)
  {
    table := table0;
    var changed := true;
    WellFormedBound(table, nts, u);
    while changed
      invariant WellFormed(table, nts, u) && Grows(table0, table)
      invariant Total(table, nts) <= |nts| * |u|
      invariant !changed ==> Closed(table, nts)
      invariant forall t :: Within(table0, t, nts) && Closed(t, nts) ==> Within(table, t, nts)
      decreases |nts| * |u| - Total(table, nts) + (if changed then 1 else 0)
    {
      table, changed := CompletePass(table, nts, u);
      WellFormedBound(table, nts, u);
    }
  }

  // ---------------------------------------------------------------------------
  // complete_t_table

  /** One pass of `complete_t_table`: every nonterminal, in order, takes in the
      terminal lists of the nonterminals in its (closed) symbol list. */
  method CompleteTPass(ntTable: SymTable, table0: SymTable, nts: seq<Symbol>, ghost u: seq<Symbol>)
    returns (table: SymTable, changed: bool)
    requires Distinct(nts) && WellFormed(table0, nts, u)
    requires forall n :: n in nts ==> n in ntTable
    ensures WellFormed(table, nts, u) && Grows(table0, table)
    ensures Total(table0, nts) <= Total(table, nts)
    ensures changed ==> Total(table0, nts) < Total(table, nts)
    ensures !changed ==> table == table0 && TClosed(ntTable, table, nts)
    ensures forall t :: Within(table0, t, nts) && TClosed(ntTable, t, nts) ==> Within(table, t, nts)
  {
    table := table0;
    changed := false;
    var i := 0;
    assert nts[..0] == [];
    while i < |nts|
      invariant PassInv(ntTable, table0, table, nts, u, i, changed)
      invariant forall t :: Within(table0, t, nts) && TClosed(ntTable, t, nts) ==> Within(table, t, nts)
    {
      var n := nts[i];
      PassStep(ntTable, table0, table, nts, u, i, changed, ntTable[n]);
      TPassLeast(ntTable, table0, table, nts, n);
      var additional := Gather([], table[n], ntTable[n], table, nts);
      changed := changed || |additional| > 0;
      table := table[n := table[n] + additional];
      i := i + 1;
    }
    assert nts[..i] == nts;
  }

  /** `complete_t_table`: repeat passes until one changes nothing. */
  method CompleteTTable(ntTable: SymTable, table0: SymTable, nts: seq<Symbol>, ghost u: seq<Symbol>)
    returns (table: SymTable)
    requires Distinct(nts) && WellFormed(table0, nts, u)
    requires forall n :: n in nts ==> n in ntTable
    ensures WellFormed(table, nts, u) && Grows(table0, table)
    ensures TClosed(ntTable, table, nts)
    ensures forall t :: Within(table0, t, nts) && TClosed(ntTable, t, nts) ==> Within(table, t, nts)
  {
    table := table0;
    var changed := true;
    WellFormedBound(table, nts, u);
    while changed
      invariant WellFormed(table, nts, u) && Grows(table0, table)
      invariant Total(table, nts) <= |nts| * |u|
      invariant !changed ==> TClosed(ntTable, table, nts)
      invariant forall t :: Within(table0, t, nts) && TClosed(ntTable, t, nts) ==> Within(table, t, nts)
      decreases |nts| * |u| - Total(table, nts) + (if changed then 1 else 0)
    {
      table, changed := CompleteTPass(ntTable, table, nts, u);
      WellFormedBound(table, nts, u);
    }
  }
  // ---------------------------------------------------------------------------
  // Initial filling

  /** `leftmost_symbol()` or `rightmost_symbol()`. */
  function EndSymbol(rule: Rule, side: Side): Symbol
    requires rule.right != []
  {
    if side == Leftmost then rule.right[0] else rule.right[|rule.right| - 1]
  }

  /** `leftmost_terminal()` or `rightmost_terminal()`. */
  function EndTerminal(rule: Rule, side: Side, terminals: seq<Symbol>): Option<Symbol> {
    if side == Leftmost then LeftmostTerminal(rule, terminals) else RightmostTerminal(rule, terminals)
  }

  /** What the initial filling of the symbol tables raises at `rule`: a `KeyError`
      when the left side has no entry (it is a terminal), an `IndexError` when
      the right side is empty. */
  function SeedError(rule: Rule, nts: seq<Symbol>): Option<GrammarError> {
    if rule.left !in nts then Some(KeyError(rule.left))
    else if rule.right == [] then Some(IndexError)
    else None
  }

  /** Some rule of `n` starts (ends) with `x`. */
  ghost predicate SymbolSeed(rules: seq<Rule>, side: Side, n: Symbol, x: Symbol) {
    exists rule :: rule in rules && rule.left == n && rule.right != [] && EndSymbol(rule, side) == x
  }

  /** Some rule of `n` has `x` as its leftmost (rightmost) terminal. */
  ghost predicate TerminalSeed(rules: seq<Rule>, side: Side, terminals: seq<Symbol>, n: Symbol, x: Symbol) {
    exists rule :: rule in rules && rule.left == n && EndTerminal(rule, side, terminals) == Some(x)
  }

  /** A table with one duplicate-free list per nonterminal, holding exactly the seeds. */
  ghost predicate SymbolSeeded(table: SymTable, side: Side, rules: seq<Rule>, nts: seq<Symbol>) {
    (forall n :: n in table <==> n in nts)
    && (forall n :: n in table ==> Distinct(table[n]))
    && (forall n, x :: n in table ==> (x in table[n] <==> SymbolSeed(rules, side, n, x)))
  }

  ghost predicate TerminalSeeded(table: SymTable, side: Side, rules: seq<Rule>, terminals: seq<Symbol>,
                                 nts: seq<Symbol>) {
    (forall n :: n in table <==> n in nts)
    && (forall n :: n in table ==> Distinct(table[n]))
    && (forall n, x :: n in table ==> (x in table[n] <==> TerminalSeed(rules, side, terminals, n, x)))
  }

  /** `if symbol not in lst: lst.append(symbol)` */
  function AppendNew(lst: seq<Symbol>, x: Symbol): (r: seq<Symbol>)
    ensures Distinct(lst) ==> Distinct(r)
    ensures forall y :: y in r <==> y in lst || y == x
  {
    if x in lst then lst else lst + [x]
  }

  function EmptyLists(nts: seq<Symbol>): (table: SymTable)
    ensures forall n :: n in table <==> n in nts
    ensures forall n :: n in table ==> table[n] == []
  {
    map n | n in nts :: []
  }

  /** The initial filling of `leftmost_and_rightmost_nt` (gen_tables.py:177-195):
      every rule adds its first and its last symbol to its left side's lists. */
  method SeedSymbolTables(rules: seq<Rule>, nts: seq<Symbol>)
    returns (r: Result<(SymTable, SymTable), GrammarError>)
    ensures r.Ok? <==> NoSeedErrors(rules, nts)
    ensures r.Err? ==>
              exists k :: 0 <= k < |rules| && SeedError(rules[k], nts) == Some(r.error)
                          && forall j :: 0 <= j < k ==> SeedError(rules[j], nts) == None
    ensures r.Ok? ==> SymbolSeeded(r.value.0, Leftmost, rules, nts)
                      && SymbolSeeded(r.value.1, Rightmost, rules, nts)
  {
    var left, right := EmptyLists(nts), EmptyLists(nts);
    var i := 0;
    assert rules[..0] == [];
    while i < |rules|
      invariant 0 <= i <= |rules|
      invariant NoSeedErrors(rules[..i], nts)
      invariant left == SeedTable(rules[..i], Leftmost, nts) && right == SeedTable(rules[..i], Rightmost, nts)
    {
      var rule := rules[i];
      var error := SeedError(rule, nts);
      if error.Some? {
        FirstSeedError(rules, nts, i);
        return Err(error.value);
      }
      SeedTableSnoc(rules, nts, i);
      left := left[rule.left := AppendNew(left[rule.left], rule.right[0])];
      right := right[rule.left := AppendNew(right[rule.left], rule.right[|rule.right| - 1])];
      i := i + 1;
    }
    assert rules[..i] == rules;
    SeedTableSeeded(rules, Leftmost, nts);
    SeedTableSeeded(rules, Rightmost, nts);
    r := Ok((left, right));
  }

  /** The tables the seeding loop builds from error-free rules, one rule after another. */
  function SeedTable(rules: seq<Rule>, side: Side, nts: seq<Symbol>): (t: SymTable)
    requires NoSeedErrors(rules, nts)
    ensures forall n :: n in t <==> n in nts
    decreases |rules|
  {
    if rules == [] then EmptyLists(nts)
    else
      var t := SeedTable(rules[..|rules| - 1], side, nts);
      var rule := rules[|rules| - 1];
      assert SeedError(rule, nts) == None;
      t[rule.left := AppendNew(t[rule.left], EndSymbol(rule, side))]
  }

  /** One more error-free rule extends both tables by that rule's end symbols. */
  lemma SeedTableSnoc(rules: seq<Rule>, nts: seq<Symbol>, i: nat)
    requires i < |rules| && NoSeedErrors(rules[..i], nts) && SeedError(rules[i], nts) == None
    ensures NoSeedErrors(rules[..i + 1], nts)
    ensures rules[i].left in nts && rules[i].right != []
    ensures forall side :: SeedTable(rules[..i + 1], side, nts)
                           == SeedTable(rules[..i], side, nts)[rules[i].left :=
                                AppendNew(SeedTable(rules[..i], side, nts)[rules[i].left], EndSymbol(rules[i], side))]
  {
    NoSeedErrorsSnoc(rules, nts, i);
    assert rules[..i + 1][..i] == rules[..i];
    assert rules[..i + 1][i] == rules[i];
  }

  /** What the seeding loop builds holds every rule's first (last) symbol in its
      left side's list, once, and nothing else. */
  lemma {:induction false} SeedTableSeeded(rules: seq<Rule>, side: Side, nts: seq<Symbol>)
    requires NoSeedErrors(rules, nts)
    ensures SymbolSeeded(SeedTable(rules, side, nts), side, rules, nts)
  {
    if rules != [] {
      var init, rule := rules[..|rules| - 1], rules[|rules| - 1];
      SeedTableSeeded(init, side, nts);
      assert SeedError(rule, nts) == None;
      SymbolSeedStep(SeedTable(init, side, nts), side, init, rule, nts);
      assert rules == init + [rule];
    }
  }

  /** The initial filling of `leftmost_and_rightmost_t` (gen_tables.py:229-247):
      every rule adds its leftmost and rightmost terminal, when it has one. The
      symbol tables were filled from the same rules first, so every left side
      has an entry here. */
  method SeedTerminalTables(rules: seq<Rule>, terminals: seq<Symbol>, nts: seq<Symbol>)
    returns (left: SymTable, right: SymTable)
    requires forall k :: 0 <= k < |rules| ==> rules[k].left in nts
    ensures TerminalSeeded(left, Leftmost, rules, terminals, nts)
    ensures TerminalSeeded(right, Rightmost, rules, terminals, nts)
  {
    left, right := EmptyLists(nts), EmptyLists(nts);
    var i := 0;
    while i < |rules|
      invariant 0 <= i <= |rules|
      invariant TerminalSeeded(left, Leftmost, rules[..i], terminals, nts)
      invariant TerminalSeeded(right, Rightmost, rules[..i], terminals, nts)
    {
      var rule := rules[i];
      assert rules[..i + 1] == rules[..i] + [rule];
      TerminalSeedStep(left, Leftmost, rules[..i], rule, terminals, nts);
      TerminalSeedStep(right, Rightmost, rules[..i], rule, terminals, nts);
      var l := LeftmostTerminal(rule, terminals);
      if l.Some? {
        left := left[rule.left := AppendNew(left[rule.left], l.value)];
      }
      var rt := RightmostTerminal(rule, terminals);
      if rt.Some? {
        right := right[rule.left := AppendNew(right[rule.left], rt.value)];
      }
      i := i + 1;
    }
    assert rules[..i] == rules;
  }

  /** No rule of `rules` makes the seeding fail. */
  predicate NoSeedErrors(rules: seq<Rule>, nts: seq<Symbol>) {
    forall k :: 0 <= k < |rules| ==> SeedError(rules[k], nts) == None
  }

  lemma NoSeedErrorsSnoc(rules: seq<Rule>, nts: seq<Symbol>, i: nat)
    requires i < |rules| && NoSeedErrors(rules[..i], nts) && SeedError(rules[i], nts) == None
    ensures NoSeedErrors(rules[..i + 1], nts)
  {
    var pre := rules[..i + 1];
    forall k | 0 <= k < |pre| ensures SeedError(pre[k], nts) == None {
      if k < i { assert rules[..i][k] == rules[k]; }
    }
  }

  /** The rule at `i` is the first that fails. */
  lemma FirstSeedError(rules: seq<Rule>, nts: seq<Symbol>, i: nat)
    requires i < |rules| && SeedError(rules[i], nts).Some? && NoSeedErrors(rules[..i], nts)
    ensures !NoSeedErrors(rules, nts)
    ensures exists k :: 0 <= k < |rules| && SeedError(rules[k], nts) == SeedError(rules[i], nts)
                        && forall j :: 0 <= j < k ==> SeedError(rules[j], nts) == None
  {
    forall j | 0 <= j < i ensures SeedError(rules[j], nts) == None {
      assert rules[..i][j] == rules[j];
    }
  }

  /** One rule's contribution to a symbol table. */
  lemma SymbolSeedStep(table: SymTable, side: Side, rules: seq<Rule>, rule: Rule, nts: seq<Symbol>)
    requires SymbolSeeded(table, side, rules, nts) && rule.left in nts && rule.right != []
    ensures SymbolSeeded(table[rule.left := AppendNew(table[rule.left], EndSymbol(rule, side))],
                         side, rules + [rule], nts)
  {
    var t := table[rule.left := AppendNew(table[rule.left], EndSymbol(rule, side))];
    forall n, x | n in t ensures x in t[n] <==> SymbolSeed(rules + [rule], side, n, x) {
      if SymbolSeed(rules + [rule], side, n, x) {
        var w :| w in rules + [rule] && w.left == n && w.right != [] && EndSymbol(w, side) == x;
        if w in rules {
          assert SymbolSeed(rules, side, n, x);
        }
      }
      if x in t[n] && !(x in table[n]) {
        assert rule in rules + [rule];
      }
      if x in table[n] {
        var w :| w in rules && w.left == n && w.right != [] && EndSymbol(w, side) == x;
        assert w in rules + [rule];
      }
    }
  }

  lemma TerminalSeedStep(table: SymTable, side: Side, rules: seq<Rule>, rule: Rule, terminals: seq<Symbol>,
                         nts: seq<Symbol>)
    requires TerminalSeeded(table, side, rules, terminals, nts) && rule.left in nts
    ensures var o := EndTerminal(rule, side, terminals);
            TerminalSeeded(if o.Some? then table[rule.left := AppendNew(table[rule.left], o.value)] else table,
                           side, rules + [rule], terminals, nts)
  {
    var o := EndTerminal(rule, side, terminals);
    var t := if o.Some? then table[rule.left := AppendNew(table[rule.left], o.value)] else table;
    forall n, x | n in t ensures x in t[n] <==> TerminalSeed(rules + [rule], side, terminals, n, x) {
      if TerminalSeed(rules + [rule], side, terminals, n, x) {
        var w :| w in rules + [rule] && w.left == n && EndTerminal(w, side, terminals) == Some(x);
        if w in rules {
          assert TerminalSeed(rules, side, terminals, n, x);
        }
      }
      if x in t[n] && !(x in table[n]) {
        assert rule in rules + [rule];
      }
      if x in table[n] {
        var w :| w in rules && w.left == n && EndTerminal(w, side, terminals) == Some(x);
        assert w in rules + [rule];
      }
    }
  }

  /** Every nonterminal has a list in `t` holding all its symbol seeds. */
  ghost predicate HoldsSymbolSeeds(t: SymTable, rules: seq<Rule>, side: Side, nts: seq<Symbol>) {
    (forall n :: n in nts ==> n in t)
    && forall n, x :: n in nts && SymbolSeed(rules, side, n, x) ==> x in t[n]
  }

  /** Every nonterminal has a list in `t` holding all its terminal seeds. */
  ghost predicate HoldsTerminalSeeds(t: SymTable, rules: seq<Rule>, side: Side, terminals: seq<Symbol>,
                                     nts: seq<Symbol>) {
    (forall n :: n in nts ==> n in t)
    && forall n, x :: n in nts && TerminalSeed(rules, side, terminals, n, x) ==> x in t[n]
  }

  /** `table` is the least closed symbol table holding the seeds: it holds them,
      is closed, and lies within every closed table that holds them. */
  ghost predicate LeastSymbolTable(table: SymTable, rules: seq<Rule>, side: Side, nts: seq<Symbol>) {
    HoldsSymbolSeeds(table, rules, side, nts) && Closed(table, nts)
    && forall t :: HoldsSymbolSeeds(t, rules, side, nts) && Closed(t, nts) ==> Within(table, t, nts)
  }

  /** `table` is the least terminal table holding the terminal seeds and
      closed along the symbol table `ntTable`. */
  ghost predicate LeastTerminalTable(table: SymTable, ntTable: SymTable, rules: seq<Rule>, side: Side,
                                     terminals: seq<Symbol>, nts: seq<Symbol>) {
    (forall n :: n in nts ==> n in ntTable)
    && HoldsTerminalSeeds(table, rules, side, terminals, nts) && TClosed(ntTable, table, nts)
    && forall t :: HoldsTerminalSeeds(t, rules, side, terminals, nts) && TClosed(ntTable, t, nts) ==>
                     Within(table, t, nts)
  }

  /** Closing the seeded symbol table as `complete_table` does yields the
      least closed table holding the seeds. */
  lemma SymbolTableLeast(seed: SymTable, table: SymTable, rules: seq<Rule>, side: Side, nts: seq<Symbol>)
    requires SymbolSeeded(seed, side, rules, nts) && Grows(seed, table) && Closed(table, nts)
    requires forall t :: Within(seed, t, nts) && Closed(t, nts) ==> Within(table, t, nts)
    ensures LeastSymbolTable(table, rules, side, nts)
  {
    forall n, x | n in nts && SymbolSeed(rules, side, n, x) ensures x in table[n] {
      assert x in seed[n];
    }
    forall t | HoldsSymbolSeeds(t, rules, side, nts) && Closed(t, nts) ensures Within(table, t, nts) {
      assert Within(seed, t, nts);
    }
  }

  /** Closing the seeded terminal table as `complete_t_table` does yields the
      least table holding the terminal seeds and closed along `ntTable`. */
  lemma TerminalTableLeast(seed: SymTable, table: SymTable, ntTable: SymTable, rules: seq<Rule>, side: Side,
                           terminals: seq<Symbol>, nts: seq<Symbol>)
    requires TerminalSeeded(seed, side, rules, terminals, nts) && Grows(seed, table)
    requires forall n :: n in nts ==> n in ntTable
    requires TClosed(ntTable, table, nts)
    requires forall t :: Within(seed, t, nts) && TClosed(ntTable, t, nts) ==> Within(table, t, nts)
    ensures LeastTerminalTable(table, ntTable, rules, side, terminals, nts)
  {
    forall n, x | n in nts && TerminalSeed(rules, side, terminals, n, x) ensures x in table[n] {
      assert x in seed[n];
    }
    forall t | HoldsTerminalSeeds(t, rules, side, terminals, nts) && TClosed(ntTable, t, nts)
      ensures Within(table, t, nts)
    {
      assert Within(seed, t, nts);
    }
  }

  /** Two least closed tables for the same seeds hold the same symbols: the
      closure determines every list up to the order of its elements. */
  lemma LeastSymbolTableUnique(a: SymTable, b: SymTable, rules: seq<Rule>, side: Side, nts: seq<Symbol>)
    requires LeastSymbolTable(a, rules, side, nts) && LeastSymbolTable(b, rules, side, nts)
    ensures SameMembers(a, b, nts)
  {
    assert Within(a, b, nts) && Within(b, a, nts);
  }

  /** The same for the terminal tables, closed along symbol tables that hold
      the same symbols. */
  lemma LeastTerminalTableUnique(a: SymTable, b: SymTable, ntA: SymTable, ntB: SymTable, rules: seq<Rule>,
                                 side: Side, terminals: seq<Symbol>, nts: seq<Symbol>)
    requires LeastTerminalTable(a, ntA, rules, side, terminals, nts)
    requires LeastTerminalTable(b, ntB, rules, side, terminals, nts)
    requires SameMembers(ntA, ntB, nts)
    ensures SameMembers(a, b, nts)
  {
    assert TClosed(ntA, b, nts) && TClosed(ntB, a, nts);
    assert Within(a, b, nts) && Within(b, a, nts);
  }

  /** Seeds are right-hand symbols, hence terminals or nonterminals. */
  lemma SymbolSeededWellFormed(table: SymTable, side: Side, rules: seq<Rule>, terminals: seq<Symbol>,
                               nts: seq<Symbol>)
    requires SymbolSeeded(table, side, rules, nts)
    requires forall rule, x :: rule in rules && x in rule.right ==> x in terminals || x in nts
    ensures WellFormed(table, nts, terminals + nts)
  {
    forall n, x | n in table && x in table[n] ensures x in terminals + nts {
      var rule :| rule in rules && rule.left == n && rule.right != [] && EndSymbol(rule, side) == x;
      assert x in rule.right;
    }
  }

  /** Every terminal seed is a terminal. */
  lemma TerminalSeededWellFormed(table: SymTable, side: Side, rules: seq<Rule>, terminals: seq<Symbol>,
                                 nts: seq<Symbol>)
    requires TerminalSeeded(table, side, rules, terminals, nts)
    ensures WellFormed(table, nts, terminals)
  {
    forall n, x | n in table && x in table[n] ensures x in terminals {
      var rule :| rule in rules && rule.left == n && EndTerminal(rule, side, terminals) == Some(x);
    }
  }
}
