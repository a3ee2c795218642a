/** The front half of the precedence-table generator (gen_tables.py): the
    textual grammar is read line by line into rules, alternatives separated by
    `|` become rules of their own, the nonterminals are collected and the
    skeleton grammar (every nonterminal renamed `S`) is derived. */
module GrammarRules {
  import opened Util

  type Symbol = string

  /** `GrammarRule`: one production `left ::= right`. A value here: the source
      never shares one rule object between two lists. */
  datatype Rule = Rule(left: Symbol, right: seq<Symbol>)

  /** The exceptions the generator raises while it builds its tables. */
  datatype GrammarError =
    | SyntaxError(line: nat)           // ValueError "'::=' expected at line {line}"
    | WhitespaceError(items: seq<string>)  // ValueError "check whitespaces at {items}!"
    | IndexError                       // a field or a rule symbol that is not there
    | KeyError(key: Symbol)            // a dictionary lookup of a symbol that is no key
    | SentinelError                    // BEGIN or END occurs among the terminals

  const BEGIN_TERMINAL: Symbol := "BEGIN"
  const END_TERMINAL: Symbol := "END"
  const SKELETON_NON_TERMINAL: Symbol := "S"
  const ALTERNATIVE: Symbol := "|"
  const DERIVES: Symbol := "::="

  /** The terminal vocabulary and the start symbol shipped with the compiler. */
  const SHIPPED_TERMINALS: seq<Symbol> :=
    ["dim", ";", "ID", ",", "integer", "real", "boolean", "{", "}", "=", "let", "if",
     "[", "]", "else", "endif", "for", "to", "do", "while", "readln", "writeln",
     "+", "-", "*", "/", "(", ")", "CONSTANT", "<", "<=", ">", ">=", "==", "!=", "\\"]
  const SHIPPED_START: Symbol := "PROGRAM"

  /** The shipped grammar text, one production per line. */
  const SHIPPED_GRAMMAR: string :=
    "\nPROGRAM ::= { PROGRAM_CONTENT_N }\n"
    + "PROGRAM_CONTENT_N ::= PROGRAM_CONTENT ; | PROGRAM_CONTENT ; PROGRAM_CONTENT_N\n"
    + "PROGRAM_CONTENT ::= TYPE_DEFINITION | OPERATOR\n"
    + "TYPE_DEFINITION ::= dim ID_N integer | dim ID_N real | dim ID_N boolean\n"
    + "ID_N ::= ID | ID , ID_N\n"
    + "OPERATOR_N ::= OPERATOR | OPERATOR ; OPERATOR_N\n"
    + "OPERATOR ::= COMPLEX_OPERATOR | ASSIGNMENT_OPERATOR | IF_OPERATOR | FOR_OPERATOR"
    + " | WHILE_OPERATOR | INPUT_OPERATOR | OUTPUT_OPERATOR\n"
    + "COMPLEX_OPERATOR ::= { OPERATOR_N }\n"
    + "ASSIGNMENT_OPERATOR ::= ID = EXPRESSION | let ID = EXPRESSION\n"
    + "IF_OPERATOR ::= if [ EXPRESSION ] OPERATOR endif | if [ EXPRESSION ] OPERATOR else OPERATOR endif\n"
    + "FOR_OPERATOR ::= for ASSIGNMENT_OPERATOR to EXPRESSION do OPERATOR\n"
    + "WHILE_OPERATOR ::= while EXPRESSION do OPERATOR\n"
    + "INPUT_OPERATOR ::= readln ID_N\n"
    + "OUTPUT_OPERATOR ::= writeln ( EXPRESSION_N )\n"
    + "EXPRESSION_N ::= EXPRESSION | EXPRESSION \\ EXPRESSION_N\n"
    + "EXPRESSION ::= A < A | A <= A | A > A | A >= A | A == A | A != A | A\n"
    + "A ::= A + T | A - T | T\n"
    + "T ::= T * P | T / P | P\n"
    + "P ::= ( A ) | ID | CONSTANT\n"

  // ---------------------------------------------------------------------------
  // Leftmost and rightmost symbols and terminals of a rule

  /** The first terminal of `s`, or None when `s` holds no terminal. */
  function FirstTerminal(s: seq<Symbol>, terminals: seq<Symbol>): (o: Option<Symbol>)
    ensures o.Some? ==>
              o.value in terminals &&
              exists k :: 0 <= k < |s| && s[k] == o.value &&
                (forall j :: 0 <= j < k ==> s[j] !in terminals)
    ensures o.None? <==> forall j :: 0 <= j < |s| ==> s[j] !in terminals
  {
    if s == [] then None
    else if s[0] in terminals then
      assert s[0] == s[0];
      Some(s[0])
    else
      var o := FirstTerminal(s[1..], terminals);
      assert o.Some? ==>
               exists k :: 0 <= k < |s| && s[k] == o.value &&
                 (forall j :: 0 <= j < k ==> s[j] !in terminals) by {
        if o.Some? {
          var k :| 0 <= k < |s[1..]| && s[1..][k] == o.value &&
                   (forall j :: 0 <= j < k ==> s[1..][j] !in terminals);
          assert s[k + 1] == o.value;
          assert forall j :: 0 <= j < k + 1 ==> s[j] !in terminals by {
            forall j | 0 <= j < k + 1 ensures s[j] !in terminals {
              if j > 0 { assert s[j] == s[1..][j - 1]; }
            }
          }
        }
      }
      assert o.None? ==> forall j :: 0 <= j < |s| ==> s[j] !in terminals by {
        if o.None? {
          forall j | 0 <= j < |s| ensures s[j] !in terminals {
            if j > 0 { assert s[j] == s[1..][j - 1]; }
          }
        }
      }
      o
  }

  /** The last terminal of `s`, or None when `s` holds no terminal. */
  function LastTerminal(s: seq<Symbol>, terminals: seq<Symbol>): (o: Option<Symbol>)
    ensures o.Some? ==>
              o.value in terminals &&
              exists k :: 0 <= k < |s| && s[k] == o.value &&
                (forall j :: k < j < |s| ==> s[j] !in terminals)
    ensures o.None? <==> forall j :: 0 <= j < |s| ==> s[j] !in terminals
  {
    if s == [] then None
    else if s[|s| - 1] in terminals then
      assert s[|s| - 1] == s[|s| - 1];
      Some(s[|s| - 1])
    else
      var init := s[..|s| - 1];
      var o := LastTerminal(init, terminals);
      assert o.Some? ==>
               exists k :: 0 <= k < |s| && s[k] == o.value &&
                 (forall j :: k < j < |s| ==> s[j] !in terminals) by {
        if o.Some? {
          var k :| 0 <= k < |init| && init[k] == o.value &&
                   (forall j :: k < j < |init| ==> init[j] !in terminals);
          assert s[k] == o.value;
          assert forall j :: k < j < |s| ==> s[j] !in terminals by {
            forall j | k < j < |s| ensures s[j] !in terminals {
              if j < |s| - 1 { assert s[j] == init[j]; }
            }
          }
        }
      }
      assert o.None? ==> forall j :: 0 <= j < |s| ==> s[j] !in terminals by {
        if o.None? {
          forall j | 0 <= j < |s| ensures s[j] !in terminals {
            if j < |s| - 1 { assert s[j] == init[j]; }
          }
        }
      }
      o
  }

  /** `GrammarRule.leftmost_terminal`. */
  function LeftmostTerminal(rule: Rule, terminals: seq<Symbol>): Option<Symbol> {
    FirstTerminal(rule.right, terminals)
  }

  /** `GrammarRule.rightmost_terminal`. */
  function RightmostTerminal(rule: Rule, terminals: seq<Symbol>): Option<Symbol> {
    LastTerminal(rule.right, terminals)
  }

  // ---------------------------------------------------------------------------
  // Reading the grammar text

  /** One line of the grammar text, numbered from 1 in error messages. */
  function ParseLine(row: string, lineNo: nat): (r: Result<Rule, GrammarError>)
    ensures r.Ok? ==>
              |Split(row, ' ')| >= 2 && r.value.left == Split(row, ' ')[0]
              && r.value.right == Split(row, ' ')[2..]
  {
    var items := Split(row, ' ');
    if |items| < 2 then Err(IndexError)
    else if items[1] != DERIVES then Err(SyntaxError(lineNo))
    else if exists k :: 0 <= k < |items| && IsSpaceString(items[k]) then Err(WhitespaceError(items))
    else Ok(Rule(items[0], items[2..]))
  }

  /** The rules of `lines`, the first of which is line `first`; the first bad line wins. */
  function ParseLinesFrom(lines: seq<string>, first: nat): Result<seq<Rule>, GrammarError>
    decreases |lines|
  {
    if lines == [] then Ok([])
    else
      match ParseLine(lines[0], first)
      case Err(e) => Err(e)
      case Ok(rule) =>
        match ParseLinesFrom(lines[1..], first + 1)
        case Err(e) => Err(e)
        case Ok(rest) => Ok([rule] + rest)
  }

  /** The grammar text as the generator reads it: stripped, then split at newlines. */
  function GrammarLines(text: string): seq<string> {
    Split(Strip(text), '\n')
  }

  function Prepend(done: seq<Rule>, r: Result<seq<Rule>, GrammarError>): Result<seq<Rule>, GrammarError> {
    match r
    case Ok(rest) => Ok(done + rest)
    case Err(e) => Err(e)
  }

  lemma PrependTwice(done: seq<Rule>, rule: Rule, r: Result<seq<Rule>, GrammarError>)
    ensures Prepend(done, Prepend([rule], r)) == Prepend(done + [rule], r)
  {
    if r.Ok? { assert done + ([rule] + r.value) == (done + [rule]) + r.value; }
  }

  /** The `for i, row in enumerate(...)` loop of `Grammar.__init__`. */
  method ReadRules(lines: seq<string>) returns (r: Result<seq<Rule>, GrammarError>)
    ensures r == ParseLinesFrom(lines, 1)
  {
    var rules: seq<Rule> := [];
    var i := 0;
    assert lines[0..] == lines;
    assert Prepend([], ParseLinesFrom(lines, 1)) == ParseLinesFrom(lines, 1) by {
      if ParseLinesFrom(lines, 1).Ok? { assert [] + ParseLinesFrom(lines, 1).value == ParseLinesFrom(lines, 1).value; }
    }
    while i < |lines|
      invariant 0 <= i <= |lines|
      invariant ParseLinesFrom(lines, 1) == Prepend(rules, ParseLinesFrom(lines[i..], i + 1))
    {
      assert lines[i..][0] == lines[i] && lines[i..][1..] == lines[i + 1..];
      var ruleList := Split(lines[i], ' ');
      if |ruleList| < 2 {
        assert ParseLine(lines[i], i + 1) == Err(IndexError);
        return Err(IndexError);
      }
      if ruleList[1] != DERIVES {
        assert ParseLine(lines[i], i + 1) == Err(SyntaxError(i + 1));
        return Err(SyntaxError(i + 1));
      }
      var k := 0;
      while k < |ruleList|
        invariant 0 <= k <= |ruleList|
        invariant forall m :: 0 <= m < k ==> !IsSpaceString(ruleList[m])
      {
        if IsSpaceString(ruleList[k]) {
          assert ParseLine(lines[i], i + 1) == Err(WhitespaceError(ruleList));
          return Err(WhitespaceError(ruleList));
        }
        k := k + 1;
      }
      var rule := Rule(ruleList[0], ruleList[2..]);
      assert ParseLine(lines[i], i + 1) == Ok(rule);
      assert ParseLinesFrom(lines[i..], i + 1) == Prepend([rule], ParseLinesFrom(lines[i + 1..], i + 2));
      PrependTwice(rules, rule, ParseLinesFrom(lines[i + 1..], i + 2));
      rules := rules + [rule];
      i := i + 1;
    }
    assert lines[i..] == [];
    assert rules + [] == rules;
    r := Ok(rules);
  }

  /** A line whose second field is not `::=` is rejected, naming its line number. */
  lemma LineWithoutDerives(row: string, lineNo: nat)
    requires |Split(row, ' ')| >= 2 && Split(row, ' ')[1] != DERIVES
    ensures ParseLine(row, lineNo) == Err(SyntaxError(lineNo))
  {
  }

  /** When every line before line `k + 1` is well formed and that line lacks `::=`,
      reading the grammar fails with SyntaxError(k + 1). */
  lemma {:induction false} FirstBadLineNamed(lines: seq<string>, first: nat, k: nat)
    requires k < |lines|
    requires forall j :: 0 <= j < k ==> ParseLine(lines[j], first + j).Ok?
    requires |Split(lines[k], ' ')| >= 2 && Split(lines[k], ' ')[1] != DERIVES
    ensures ParseLinesFrom(lines, first) == Err(SyntaxError(first + k))
    decreases k
  {
    if k == 0 {
    } else {
      assert ParseLine(lines[0], first).Ok?;
      forall j | 0 <= j < k - 1 ensures ParseLine(lines[1..][j], first + 1 + j).Ok? {
        assert lines[1..][j] == lines[j + 1];
      }
      assert lines[1..][k - 1] == lines[k];
      FirstBadLineNamed(lines[1..], first + 1, k - 1);
    }
  }

  /** Reading a line and writing the rule back gives the line again. */
  lemma ParseLineRoundTrip(row: string, lineNo: nat)
    requires ParseLine(row, lineNo).Ok?
    ensures var rule := ParseLine(row, lineNo).value;
            Join([rule.left, DERIVES] + rule.right, ' ') == row
  {
    var items := Split(row, ' ');
    var rule := ParseLine(row, lineNo).value;
    assert [rule.left, DERIVES] + rule.right == items;
    JoinSplit(row, ' ');
  }

  /** Writing a rule whose symbols hold no space and reading it back gives the rule. */
  lemma PrintedRuleParses(rule: Rule, lineNo: nat)
    requires ' ' !in rule.left && forall k :: 0 <= k < |rule.right| ==> ' ' !in rule.right[k]
    requires !IsSpaceString(rule.left)
    requires forall k :: 0 <= k < |rule.right| ==> !IsSpaceString(rule.right[k])
    ensures ParseLine(Join([rule.left, DERIVES] + rule.right, ' '), lineNo) == Ok(rule)
  {
    var items := [rule.left, DERIVES] + rule.right;
    forall k | 0 <= k < |items| ensures ' ' !in items[k] && !IsSpaceString(items[k]) {
      if k >= 2 { assert items[k] == rule.right[k - 2]; }
      if k == 1 { assert items[k][0] == ':'; }
    }
    SplitJoin(items, ' ');
    assert items[2..] == rule.right;
  }

  // ---------------------------------------------------------------------------
  // Splitting alternatives

  function Rights(rules: seq<Rule>): (rs: seq<seq<Symbol>>)
    ensures |rs| == |rules|
  {
    seq(|rules|, k requires 0 <= k < |rules| => rules[k].right)
  }

  function RulesWithLeft(left: Symbol, rights: seq<seq<Symbol>>): (rules: seq<Rule>)
    ensures |rules| == |rights|
  {
    seq(|rights|, k requires 0 <= k < |rights| => Rule(left, rights[k]))
  }

  /** The rules one line becomes. `insert(i, ...)` of every segment but the last
      puts those in reverse order in front of the last one. */
  function Expansion(rule: Rule): (rules: seq<Rule>)
    ensures |rules| >= 1
  {
    var segs := Split(rule.right, ALTERNATIVE);
    Reverse(RulesWithLeft(rule.left, segs[..|segs| - 1])) + [Rule(rule.left, segs[|segs| - 1])]
  }

  function ExpandAll(rules: seq<Rule>): seq<Rule> {
    if rules == [] then [] else ExpandAll(rules[..|rules| - 1]) + Expansion(rules[|rules| - 1])
  }

  /** `split_rule`: cut the right side at every `|`; the segments before the last
      are returned as new rules and the last stays as the rule's right side. */
  method SplitRule(rule: Rule) returns (additional: seq<Rule>, rest: seq<Symbol>)
    ensures var segs := Split(rule.right, ALTERNATIVE);
            additional == RulesWithLeft(rule.left, segs[..|segs| - 1]) && rest == segs[|segs| - 1]
  {
    ghost var segs := Split(rule.right, ALTERNATIVE);
    additional := [];
    rest := rule.right;
    while ALTERNATIVE in rest
      invariant |additional| < |segs|
      invariant additional == RulesWithLeft(rule.left, segs[..|additional|])
      invariant Split(rest, ALTERNATIVE) == segs[|additional|..]
      decreases |rest|
    {
      var splitIndex := IndexOf(rest, ALTERNATIVE);
      SplitStep(rest, segs, |additional|);
      RulesWithLeftSnoc(rule.left, segs, |additional|);
      additional := additional + [Rule(rule.left, rest[..splitIndex])];
      rest := rest[splitIndex + 1..];
    }
    assert segs[|additional|..] == [rest];
  }

  lemma RulesWithLeftSnoc(left: Symbol, segs: seq<seq<Symbol>>, n: nat)
    requires n < |segs|
    ensures RulesWithLeft(left, segs[..n + 1]) == RulesWithLeft(left, segs[..n]) + [Rule(left, segs[n])]
  {
  }

  /** One turn of the `split_rule` loop: the piece before the first `|` is the
      next segment, and the pieces after it are the segments that follow. */
  lemma SplitStep(rest: seq<Symbol>, segs: seq<seq<Symbol>>, n: nat)
    requires ALTERNATIVE in rest && n <= |segs| && Split(rest, ALTERNATIVE) == segs[n..]
    ensures n + 1 < |segs|
    ensures segs[n] == rest[..IndexOf(rest, ALTERNATIVE)]
    ensures Split(rest[IndexOf(rest, ALTERNATIVE) + 1..], ALTERNATIVE) == segs[n + 1..]
  {
    var i := IndexOf(rest, ALTERNATIVE);
    var tail := Split(rest[i + 1..], ALTERNATIVE);
    assert segs[n..] == [rest[..i]] + tail;
    assert segs[n..][1..] == segs[n + 1..];
  }

  lemma {:induction false} ExpandAllSnoc(rules: seq<Rule>, r: Rule)
    ensures ExpandAll(rules + [r]) == ExpandAll(rules) + Expansion(r)
  {
    assert (rules + [r])[..|rules + [r]| - 1] == rules;
  }

  lemma {:induction false} ExpandAllLength(rules: seq<Rule>)
    ensures |ExpandAll(rules)| >= |rules|
  {
    if rules != [] { ExpandAllLength(rules[..|rules| - 1]); }
  }

  lemma NoAlternativeExpansion(rule: Rule)
    requires ALTERNATIVE !in rule.right
    ensures Expansion(rule) == [rule]
  {
    assert Split(rule.right, ALTERNATIVE) == [rule.right];
  }

  /** Once the rules expanded so far are passed, the next rule is the next line's. */
  lemma StepIntoLine(orig: seq<Rule>, j: nat, rules: seq<Rule>)
    requires j <= |orig| && rules == ExpandAll(orig[..j]) + orig[j..]
    requires |ExpandAll(orig[..j])| < |rules|
    ensures j < |orig|
    ensures rules[..|ExpandAll(orig[..j])|] == ExpandAll(orig[..j])
    ensures rules[|ExpandAll(orig[..j])|] == orig[j]
    ensures rules[|ExpandAll(orig[..j])| + 1..] == orig[j + 1..]
    ensures ExpandAll(orig[..j + 1]) == ExpandAll(orig[..j]) + Expansion(orig[j])
  {
    var done := ExpandAll(orig[..j]);
    ConcatAt(done, orig[j..]);
    assert orig[j..][1..] == orig[j + 1..];
    assert orig[..j + 1] == orig[..j] + [orig[j]];
    ExpandAllSnoc(orig[..j], orig[j]);
  }

  /** The parts of `a + b` at the seam. */
  lemma ConcatAt<T>(a: seq<T>, b: seq<T>)
    requires |b| > 0
    ensures (a + b)[..|a|] == a && (a + b)[|a|] == b[0] && (a + b)[|a| + 1..] == b[1..]
  {
  }

  lemma ExpansionNoAlternative(rule: Rule)
    ensures forall k :: 0 <= k < |Expansion(rule)| ==> ALTERNATIVE !in Expansion(rule)[k].right
  {
    var segs := Split(rule.right, ALTERNATIVE);
    forall k | 0 <= k < |Expansion(rule)| ensures ALTERNATIVE !in Expansion(rule)[k].right {
      if k < |segs| - 1 {
        assert Expansion(rule)[k] == RulesWithLeft(rule.left, segs[..|segs| - 1])[|segs| - 2 - k];
      }
    }
  }

  /** The body of the splitting loop for a rule with a `|` at position `i`:
      `split_rule` and the `insert(i, ...)` of every additional rule. */
  method ExpandAt(rules: seq<Rule>, i: nat) returns (result: seq<Rule>)
    requires i < |rules|
    ensures result == rules[..i] + Expansion(rules[i]) + rules[i + 1..]
  {
    var rule := rules[i];
    var additional, rest := SplitRule(rule);
    ghost var pre, post := rules[..i], [Rule(rule.left, rest)] + rules[i + 1..];
    result := rules[i := Rule(rule.left, rest)];
    assert result == pre + Reverse(additional[..0]) + post;
    var k := 0;
    while k < |additional|
      invariant 0 <= k <= |additional|
      invariant result == pre + Reverse(additional[..k]) + post
    {
      ReversePrefixStep(additional, k);
      InsertAtFront(pre, Reverse(additional[..k]), additional[k], post);
      result := result[..i] + [additional[k]] + result[i..];
      k := k + 1;
    }
    assert additional[..k] == additional;
    assert result == pre + Expansion(rule) + rules[i + 1..];
  }

  lemma ReversePrefixStep<T>(s: seq<T>, k: nat)
    requires k < |s|
    ensures Reverse(s[..k + 1]) == [s[k]] + Reverse(s[..k])
  {
    assert s[..k + 1][..k] == s[..k];
  }

  /** `insert(i, x)` right after a prefix of length `i`. */
  lemma InsertAtFront<T>(pre: seq<T>, xs: seq<T>, x: T, post: seq<T>)
    ensures var r := pre + xs + post; r[..|pre|] + [x] + r[|pre|..] == pre + ([x] + xs) + post
  {
    var r := pre + xs + post;
    assert r[..|pre|] == pre;
    assert r[|pre|..] == xs + post;
  }

  /** The `for i, rule in enumerate(self.rules)` loop that splits every rule with
      a `|` while the list grows under it. */
  method SplitAlternatives(orig: seq<Rule>) returns (rules: seq<Rule>)
    ensures rules == ExpandAll(orig)
  {
    rules := orig;
    var i := 0;
    ghost var j := 0;
    assert orig[..0] == [];
    while i < |rules|
      invariant SplitInv(orig, j, rules, i)
      decreases |orig| - j, |ExpandAll(orig[..j])| - i
    {
      rules, j := VisitRule(orig, j, rules, i);
      i := i + 1;
    }
    SplitDone(orig, j, rules, i);
  }

  /** The body of the splitting loop at position `i`. */
  method VisitRule(ghost orig: seq<Rule>, ghost j: nat, rules: seq<Rule>, i: nat)
    returns (next: seq<Rule>, ghost j': nat)
    requires SplitInv(orig, j, rules, i) && i < |rules|
    ensures SplitInv(orig, j', next, i + 1)
    ensures (j < j' <= |orig|) || (j' == j && i < |ExpandAll(orig[..j])|)
  {
    if ALTERNATIVE in rules[i].right {
      SplitAtLine(orig, j, rules, i);
      next := ExpandAt(rules, i);
      j' := j + 1;
    } else {
      next := rules;
      if i == |ExpandAll(orig[..j])| {
        PassLine(orig, j, rules, i);
        j' := j + 1;
      } else {
        PassExpanded(orig, j, rules, i);
        j' := j;
      }
    }
  }

  /** When the loop runs off the end of the list, every line is expanded. */
  lemma SplitDone(orig: seq<Rule>, j: nat, rules: seq<Rule>, i: nat)
    requires SplitInv(orig, j, rules, i) && i >= |rules|
    ensures rules == ExpandAll(orig)
  {
    ExpandAllLength(orig[..j]);
    assert orig[..j] == orig;
  }

  /** The state of the splitting loop: lines before `j` are expanded, the
      rest are as read, and no expanded rule from `i` on holds `|`. */
  ghost predicate SplitInv(orig: seq<Rule>, j: nat, rules: seq<Rule>, i: nat) {
    j <= |orig| && rules == ExpandAll(orig[..j]) + orig[j..] && i <= |ExpandAll(orig[..j])|
    && forall k :: i <= k < |ExpandAll(orig[..j])| ==> ALTERNATIVE !in rules[k].right
  }

  /** A rule with `|` is the next line, and expanding it moves past it. */
  lemma SplitAtLine(orig: seq<Rule>, j: nat, rules: seq<Rule>, i: nat)
    requires SplitInv(orig, j, rules, i) && i < |rules| && ALTERNATIVE in rules[i].right
    ensures j < |orig| && rules[i] == orig[j]
    ensures SplitInv(orig, j + 1, rules[..i] + Expansion(rules[i]) + rules[i + 1..], i + 1)
  {
    var done := ExpandAll(orig[..j]);
    assert i == |done|;
    StepIntoLine(orig, j, rules);
    ExpansionNoAlternative(orig[j]);
    var next := rules[..i] + Expansion(rules[i]) + rules[i + 1..];
    assert next == ExpandAll(orig[..j + 1]) + orig[j + 1..];
    assert forall k :: i + 1 <= k < |ExpandAll(orig[..j + 1])| ==> next[k] == Expansion(orig[j])[k - i];
  }

  /** A line without `|` is passed over as it is. */
  lemma PassLine(orig: seq<Rule>, j: nat, rules: seq<Rule>, i: nat)
    requires SplitInv(orig, j, rules, i) && i < |rules| && ALTERNATIVE !in rules[i].right
    requires i == |ExpandAll(orig[..j])|
    ensures j < |orig| && SplitInv(orig, j + 1, rules, i + 1)
  {
    StepIntoLine(orig, j, rules);
    NoAlternativeExpansion(orig[j]);
    assert rules == ExpandAll(orig[..j + 1]) + orig[j + 1..];
  }

  /** A rule produced by an earlier split is passed over. */
  lemma PassExpanded(orig: seq<Rule>, j: nat, rules: seq<Rule>, i: nat)
    requires SplitInv(orig, j, rules, i) && i != |ExpandAll(orig[..j])|
    ensures SplitInv(orig, j, rules, i + 1)
  {
  }

  /** After splitting: no rule holds `|`, every rule keeps the left side of the
      line it came from and its right side is one of that line's segments. */
  lemma {:induction false} ExpandAllSound(orig: seq<Rule>, x: Rule)
    requires x in ExpandAll(orig)
    ensures ALTERNATIVE !in x.right
    ensures exists r :: r in orig && x.left == r.left && x.right in Split(r.right, ALTERNATIVE)
  {
    var init := orig[..|orig| - 1];
    var last := orig[|orig| - 1];
    if x in ExpandAll(init) {
      ExpandAllSound(init, x);
      var r :| r in init && x.left == r.left && x.right in Split(r.right, ALTERNATIVE);
      assert r in orig;
    } else {
      assert x in Expansion(last);
      var segs := Split(last.right, ALTERNATIVE);
      var front := RulesWithLeft(last.left, segs[..|segs| - 1]);
      if x in Reverse(front) {
        var k :| 0 <= k < |Reverse(front)| && Reverse(front)[k] == x;
        var m := |front| - 1 - k;
        assert x == front[m] && x.right == segs[m];
      } else {
        assert x == Rule(last.left, segs[|segs| - 1]);
      }
    }
  }

  lemma RightsOfExpansion(rule: Rule)
    ensures var segs := Split(rule.right, ALTERNATIVE);
            Rights(Expansion(rule)) == Reverse(segs[..|segs| - 1]) + [segs[|segs| - 1]]
  {
    var segs := Split(rule.right, ALTERNATIVE);
    var e := Expansion(rule);
    var want := Reverse(segs[..|segs| - 1]) + [segs[|segs| - 1]];
    assert |Rights(e)| == |want|;
    forall k | 0 <= k < |want| ensures Rights(e)[k] == want[k] {
      if k < |segs| - 1 {
        assert e[k] == RulesWithLeft(rule.left, segs[..|segs| - 1])[|segs| - 2 - k];
      }
    }
  }

  /** The right sides one line produces are exactly its `|`-separated segments,
      counted with multiplicity (their order is not the text's). */
  lemma ExpansionSegments(rule: Rule)
    ensures multiset(Rights(Expansion(rule))) == multiset(Split(rule.right, ALTERNATIVE))
    ensures forall x :: x in Expansion(rule) ==> x.left == rule.left
  {
    RightsOfExpansion(rule);
    ReversedFrontMultiset(Rights(Expansion(rule)), Split(rule.right, ALTERNATIVE));
    ExpansionLefts(rule);
  }

  /** Reversing all but the last element keeps the multiset. */
  lemma ReversedFrontMultiset<T>(rs: seq<T>, segs: seq<T>)
    requires |segs| > 0 && rs == Reverse(segs[..|segs| - 1]) + [segs[|segs| - 1]]
    ensures multiset(rs) == multiset(segs)
  {
    ReverseMultiset(segs[..|segs| - 1]);
    assert segs == segs[..|segs| - 1] + [segs[|segs| - 1]];
  }

  lemma ExpansionLefts(rule: Rule)
    ensures forall k :: 0 <= k < |Expansion(rule)| ==> Expansion(rule)[k].left == rule.left
  {
    var segs := Split(rule.right, ALTERNATIVE);
    var front := RulesWithLeft(rule.left, segs[..|segs| - 1]);
    assert forall k :: 0 <= k < |Reverse(front)| ==> Reverse(front)[k] == front[|front| - 1 - k];
  }

  // ---------------------------------------------------------------------------
  // Nonterminals and the skeleton grammar

  /** `x` stands somewhere in `rules`, on a left or a right side. */
  predicate OccursIn(x: Symbol, rules: seq<Rule>) {
    exists r :: r in rules && (x == r.left || x in r.right)
  }

  /** Every symbol of `rules` in the order the `NON_TERMINALS` loop visits
      them: each rule's left side, then its right side. */
  function Symbols(rules: seq<Rule>): seq<Symbol>
    decreases |rules|
  {
    if rules == [] then []
    else
      var last := rules[|rules| - 1];
      Symbols(rules[..|rules| - 1]) + [last.left] + last.right
  }

  /** `x` stands somewhere in `rules` exactly when the visiting order meets it. */
  lemma {:induction false} SymbolsOccur(rules: seq<Rule>, x: Symbol)
    ensures x in Symbols(rules) <==> OccursIn(x, rules)
    decreases |rules|
  {
    if rules != [] {
      var init, last := rules[..|rules| - 1], rules[|rules| - 1];
      SymbolsOccur(init, x);
      assert rules == init + [last];
      if OccursIn(x, rules) && !OccursIn(x, init) {
        var r :| r in rules && (x == r.left || x in r.right);
        assert r == last;
      }
      if OccursIn(x, init) {
        var r :| r in init && (x == r.left || x in r.right);
        assert r in rules;
      }
      if x in [last.left] + last.right {
        assert last in rules;
      }
    }
  }

  /** The `NON_TERMINALS` loop: every symbol that is not a terminal, once, in
      order of first occurrence. */
  method CollectNonTerminals(rules: seq<Rule>, terminals: seq<Symbol>) returns (nts: seq<Symbol>)
    ensures Distinct(nts)
    ensures forall x :: x in nts <==> x !in terminals && OccursIn(x, rules)
    ensures FirstOccurrences(nts, Symbols(rules), terminals)
  {
    nts := [];
    var i := 0;
    ghost var seen: seq<Symbol> := [];
    while i < |rules|
      invariant 0 <= i <= |rules| && seen == Symbols(rules[..i])
      invariant FirstOccurrences(nts, seen, terminals)
    {
      var items := [rules[i].left] + rules[i].right;
      nts := CollectFrom(nts, items, terminals, seen);
      seen := seen + items;
      assert rules[..i + 1][..i] == rules[..i];
      i := i + 1;
    }
    assert rules[..i] == rules;
    FirstOccurrencesOfRules(nts, rules, terminals);
  }

  /** The inner loop over one rule's symbols, `[rule.left] + rule.right`. */
  method CollectFrom(nts0: seq<Symbol>, items: seq<Symbol>, terminals: seq<Symbol>, ghost seen0: seq<Symbol>)
    returns (nts: seq<Symbol>)
    requires FirstOccurrences(nts0, seen0, terminals)
    ensures FirstOccurrences(nts, seen0 + items, terminals)
  {
    nts := nts0;
    ghost var seen := seen0;
    var k := 0;
    while k < |items|
      invariant 0 <= k <= |items| && seen == seen0 + items[..k]
      invariant FirstOccurrences(nts, seen, terminals)
    {
      FirstOccurrencesSnoc(nts, seen, terminals, items[k]);
      if items[k] !in terminals && items[k] !in nts {
        nts := nts + [items[k]];
      }
      seen := seen + [items[k]];
      assert seen0 + items[..k + 1] == seen0 + items[..k] + [items[k]];
      k := k + 1;
    }
    assert items[..k] == items;
  }

  lemma FirstOccurrencesOfRules(nts: seq<Symbol>, rules: seq<Rule>, terminals: seq<Symbol>)
    requires FirstOccurrences(nts, Symbols(rules), terminals)
    ensures forall x :: x in nts <==> x !in terminals && OccursIn(x, rules)
  {
    forall x ensures x in nts <==> x !in terminals && OccursIn(x, rules) {
      SymbolsOccur(rules, x);
    }
  }

  /** `nts` lists the non-terminal symbols of `seen` once each, in order of
      first occurrence: wherever a later one occurs, each earlier one has
      occurred already. */
  ghost predicate FirstOccurrences(nts: seq<Symbol>, seen: seq<Symbol>, terminals: seq<Symbol>) {
    Distinct(nts)
    && (forall x :: x in nts <==> x !in terminals && x in seen)
    && forall a, b, k :: 0 <= a < b < |nts| && 0 <= k < |seen| && seen[k] == nts[b] ==> nts[a] in seen[..k]
  }

  /** One more visited symbol: it joins the list when it is new and not a terminal. */
  lemma FirstOccurrencesSnoc(nts: seq<Symbol>, seen: seq<Symbol>, terminals: seq<Symbol>, y: Symbol)
    requires FirstOccurrences(nts, seen, terminals)
    ensures FirstOccurrences(if y !in terminals && y !in nts then nts + [y] else nts, seen + [y], terminals)
  {
    var nts' := if y !in terminals && y !in nts then nts + [y] else nts;
    var seen' := seen + [y];
    if nts' != nts {
      DistinctAppend(nts, [y]);
    }
    forall a, b, k | 0 <= a < b < |nts'| && 0 <= k < |seen'| && seen'[k] == nts'[b] ensures nts'[a] in seen'[..k] {
      assert nts'[a] == nts[a] && nts[a] in nts;
      if k < |seen| {
        assert seen'[k] == seen[k] && seen'[..k] == seen[..k];
        if b < |nts| { assert nts'[b] == nts[b]; }
      } else {
        assert seen'[..k] == seen;
      }
    }
  }

  /** In the order the rules are visited, the first occurrences of the
      nonterminals come in the order of the list. */
  lemma NonTerminalsOrdered(nts: seq<Symbol>, seen: seq<Symbol>, terminals: seq<Symbol>, a: nat, b: nat)
    requires FirstOccurrences(nts, seen, terminals) && a < b < |nts|
    ensures nts[a] in seen && nts[b] in seen && IndexOf(seen, nts[a]) < IndexOf(seen, nts[b])
  {
    assert nts[a] in nts && nts[b] in nts;
    var kb := IndexOf(seen, nts[b]);
    assert nts[a] in seen[..kb];
    var ka :| 0 <= ka < kb && seen[ka] == nts[a];
  }

  /** The first-occurrence order leaves no choice: two lists that both list
      the non-terminal symbols of `seen` in that order are the same list. */
  lemma {:induction false} FirstOccurrencesUnique(a: seq<Symbol>, b: seq<Symbol>, seen: seq<Symbol>,
                                                  terminals: seq<Symbol>)
    requires FirstOccurrences(a, seen, terminals) && FirstOccurrences(b, seen, terminals)
    ensures a == b
    decreases |a|
  {
    assert a == [] <==> b == [] by {
      if a != [] { assert a[0] in b; }
      if b != [] { assert b[0] in a; }
    }
    if a != [] {
      if a[0] != b[0] {
        assert a[0] in b && b[0] in a;
        var i :| 0 <= i < |b| && b[i] == a[0];
        var j :| 0 <= j < |a| && a[j] == b[0];
        NonTerminalsOrdered(b, seen, terminals, 0, i);
        NonTerminalsOrdered(a, seen, terminals, 0, j);
        assert false;
      }
      FirstOccurrencesTail(a, seen, terminals);
      FirstOccurrencesTail(b, seen, terminals);
      FirstOccurrencesUnique(a[1..], b[1..], seen, terminals + [a[0]]);
      assert a == [a[0]] + a[1..] && b == [b[0]] + b[1..];
    }
  }

  /** Without its first symbol, the list is the first-occurrence list of
      `seen` once that symbol counts as a terminal. */
  lemma FirstOccurrencesTail(a: seq<Symbol>, seen: seq<Symbol>, terminals: seq<Symbol>)
    requires FirstOccurrences(a, seen, terminals) && a != []
    ensures FirstOccurrences(a[1..], seen, terminals + [a[0]])
  {
    forall x ensures x in a[1..] <==> x !in terminals + [a[0]] && x in seen {
      if x in a[1..] {
        var k :| 0 <= k < |a[1..]| && a[1..][k] == x;
        assert a[k + 1] == x && a[0] != a[k + 1];
      }
      if x in a && x != a[0] {
        var k :| 0 <= k < |a| && a[k] == x;
        assert a[1..][k - 1] == x;
      }
    }
    forall i, j | 0 <= i < j < |a[1..]| ensures a[1..][i] != a[1..][j] {
      assert a[i + 1] != a[j + 1];
    }
    forall i, j, k | 0 <= i < j < |a[1..]| && 0 <= k < |seen| && seen[k] == a[1..][j]
      ensures a[1..][i] in seen[..k]
    {
      assert a[1..][i] == a[i + 1] && a[1..][j] == a[j + 1];
    }
  }

  /** The skeleton of one rule: left side `S`, every nonterminal replaced by `S`,
      terminals kept in place. */
  function SkeletonOf(rule: Rule, nts: seq<Symbol>): Rule {
    Rule(SKELETON_NON_TERMINAL,
         seq(|rule.right|, k requires 0 <= k < |rule.right| =>
               if rule.right[k] in nts then SKELETON_NON_TERMINAL else rule.right[k]))
  }

  predicate IsTrivialSkeleton(rule: Rule) {
    |rule.right| == 1 && rule.right[0] == SKELETON_NON_TERMINAL
  }

  function KeepNonTrivial(rules: seq<Rule>): seq<Rule> {
    if rules == [] then []
    else KeepNonTrivial(rules[..|rules| - 1])
         + (if IsTrivialSkeleton(rules[|rules| - 1]) then [] else [rules[|rules| - 1]])
  }

  /** `skeleton_rules`: the skeleton of every rule, `S ::= S` dropped. */
  function SkeletonRules(rules: seq<Rule>, nts: seq<Symbol>): seq<Rule> {
    KeepNonTrivial(seq(|rules|, k requires 0 <= k < |rules| => SkeletonOf(rules[k], nts)))
  }

  /** The deepcopy-and-rename loop followed by the filtering loop. */
  method BuildSkeleton(rules: seq<Rule>, nts: seq<Symbol>) returns (skeleton: seq<Rule>)
    ensures skeleton == SkeletonRules(rules, nts)
  {
    var renamed: seq<Rule> := [];
    var i := 0;
    while i < |rules|
      invariant 0 <= i <= |rules|
      invariant renamed == seq(i, k requires 0 <= k < i => SkeletonOf(rules[k], nts))
    {
      var newRight: seq<Symbol> := [];
      var k := 0;
      while k < |rules[i].right|
        invariant 0 <= k <= |rules[i].right|
        invariant newRight == SkeletonOf(rules[i], nts).right[..k]
      {
        if rules[i].right[k] in nts {
          newRight := newRight + [SKELETON_NON_TERMINAL];
        } else {
          newRight := newRight + [rules[i].right[k]];
        }
        k := k + 1;
      }
      assert newRight == SkeletonOf(rules[i], nts).right;
      renamed := renamed + [Rule(SKELETON_NON_TERMINAL, newRight)];
      i := i + 1;
    }
    skeleton := [];
    i := 0;
    while i < |renamed|
      invariant 0 <= i <= |renamed|
      invariant skeleton == KeepNonTrivial(renamed[..i])
    {
      assert renamed[..i + 1][..i] == renamed[..i];
      if !IsTrivialSkeleton(renamed[i]) {
        skeleton := skeleton + [renamed[i]];
      }
      i := i + 1;
    }
    assert renamed[..i] == renamed;
  }

  /** Every skeleton rule has left side `S`, is not `S ::= S`, and comes from a
      rule of the same length with nonterminals renamed and terminals kept. */
  lemma {:induction false} KeepNonTrivialSound(rules: seq<Rule>, x: Rule)
    requires x in KeepNonTrivial(rules)
    ensures x in rules && !IsTrivialSkeleton(x)
  {
    if x !in KeepNonTrivial(rules[..|rules| - 1]) {
      assert x == rules[|rules| - 1];
    } else {
      KeepNonTrivialSound(rules[..|rules| - 1], x);
    }
  }

  lemma {:induction false} KeepNonTrivialComplete(rules: seq<Rule>, x: Rule)
    requires x in rules && !IsTrivialSkeleton(x)
    ensures x in KeepNonTrivial(rules)
  {
    var init := rules[..|rules| - 1];
    if x != rules[|rules| - 1] {
      assert x in init;
      KeepNonTrivialComplete(init, x);
    }
  }

  lemma SkeletonRulesShape(rules: seq<Rule>, nts: seq<Symbol>, x: Rule)
    requires x in SkeletonRules(rules, nts)
    ensures x.left == SKELETON_NON_TERMINAL && !IsTrivialSkeleton(x)
    ensures exists r :: r in rules && |r.right| == |x.right|
              && forall k :: 0 <= k < |r.right| ==>
                   x.right[k] == (if r.right[k] in nts then SKELETON_NON_TERMINAL else r.right[k])
  {
    var renamed := seq(|rules|, k requires 0 <= k < |rules| => SkeletonOf(rules[k], nts));
    KeepNonTrivialSound(renamed, x);
    var i :| 0 <= i < |renamed| && renamed[i] == x;
    assert rules[i] in rules;
  }

  /** Conversely every rule whose skeleton is not `S ::= S` has its skeleton kept. */
  lemma SkeletonRulesComplete(rules: seq<Rule>, nts: seq<Symbol>, r: Rule)
    requires r in rules && !IsTrivialSkeleton(SkeletonOf(r, nts))
    ensures SkeletonOf(r, nts) in SkeletonRules(rules, nts)
  {
    var renamed := seq(|rules|, k requires 0 <= k < |rules| => SkeletonOf(rules[k], nts));
    var i :| 0 <= i < |rules| && rules[i] == r;
    assert renamed[i] == SkeletonOf(r, nts);
    KeepNonTrivialComplete(renamed, SkeletonOf(r, nts));
  }
}
