/** `SyntaxAnalyzer.parse` of syntaxanalyzer.py: an operator-precedence
    shift-reduce parser driven by the table and the skeleton rules of a built
    grammar. The functions below say what one step, one reduction and a whole
    run compute; the class `SyntaxAnalyzer` does the same work on its stack,
    with the loops of the source, and is proved to agree with them. */
module SyntaxAnalysis {
  import opened Util
  import opened GrammarRules
  import opened Tokens
  import opened GrammarBuilder

  const CONSTANT_TERMINAL: Symbol := "CONSTANT"
  const IDENTIFIER_TERMINAL: Symbol := "ID"

  /** An entry of the parser stack: a terminal token, or a `GrammarNode`
      labelled with a rule's left side whose content is the reduced handle. */
  datatype StackElement =
    | Leaf(token: Token)
    | Node(symbol: Symbol, children: seq<StackElement>, pos: Position)

  function PosOf(e: StackElement): Position {
    match e
    case Leaf(t) => t.pos
    case Node(_, _, p) => p
  }

  /** What `parse` raises. */
  datatype SyntaxError =
    | PrecedenceError(at: Position)   // `SyntaxPrecedenceError`: no shift or reduce relation
    | RuleError(at: Position)         // `SyntaxRuleError`: no skeleton rule has the handle as right side
    | NotATerminal(name: Symbol)      // `ValueError` of `terminals.index`
    | NoTerminalOnStack               // the stack holds no terminal, so `None.value` fails
    | SentinelInHandle                // `IndexError`: a BEGIN or END token inside a handle
    | InputExhausted                  // `IndexError`: the END token was shifted and the input is empty

  /** The BEGIN token pushed on the stack and the END token appended to the input. */
  const BeginToken: Token := Token(0, 0, (0, 0), BEGIN_TERMINAL)
  const EndToken: Token := Token(0, 0, (0, 0), END_TERMINAL)

  /** What the parser consults: the grammar's terminals, precedence table and
      skeleton rules, and the lexer's constant and identifier tables. */
  datatype Context = Context(terminals: seq<Symbol>, table: seq<seq<string>>, skeleton: seq<Rule>,
                             constants: seq<string>, ids: seq<string>)

  /** The table is square over the terminals and the sentinel. */
  predicate Dims(ctx: Context) {
    |ctx.table| == |ctx.terminals| + 1
    && forall r :: 0 <= r < |ctx.table| ==> |ctx.table[r]| == |ctx.terminals| + 1
  }

  /** The terminal a token value stands for: constants stand for `CONSTANT`,
      identifiers for `ID`, every other value for itself. */
  function ClassName(ctx: Context, x: string): Symbol {
    if x in ctx.constants then CONSTANT_TERMINAL
    else if x in ctx.ids then IDENTIFIER_TERMINAL
    else x
  }

  predicate IsSentinel(ctx: Context, x: string) {
    x !in ctx.constants && x !in ctx.ids && (x == BEGIN_TERMINAL || x == END_TERMINAL)
  }

  /** `get_op_table_index`: the row and column of a token value. */
  function TableIndex(ctx: Context, x: string): (r: Result<nat, SyntaxError>)
    ensures r.Ok? ==> r.value <= |ctx.terminals|
    ensures r == Ok(|ctx.terminals|) <==> IsSentinel(ctx, x)
    ensures r.Ok? && r.value < |ctx.terminals| ==>
              ctx.terminals[r.value] == ClassName(ctx, x)
              && forall k :: 0 <= k < r.value ==> ctx.terminals[k] != ClassName(ctx, x)
    ensures r.Err? <==> !IsSentinel(ctx, x) && ClassName(ctx, x) !in ctx.terminals
    ensures r.Err? ==> r.error == NotATerminal(ClassName(ctx, x))
  {
    if x in ctx.constants then
      if CONSTANT_TERMINAL in ctx.terminals then Ok(IndexOf(ctx.terminals, CONSTANT_TERMINAL))
      else Err(NotATerminal(CONSTANT_TERMINAL))
    else if x in ctx.ids then
      if IDENTIFIER_TERMINAL in ctx.terminals then Ok(IndexOf(ctx.terminals, IDENTIFIER_TERMINAL))
      else Err(NotATerminal(IDENTIFIER_TERMINAL))
    else if x == BEGIN_TERMINAL || x == END_TERMINAL then Ok(|ctx.terminals|)
    else if x in ctx.terminals then Ok(IndexOf(ctx.terminals, x))
    else Err(NotATerminal(x))
  }

  /** `get_op_table_content`: the cell of the row token and the column token. */
  function Cell(ctx: Context, row: Token, col: Token): Result<string, SyntaxError>
    requires Dims(ctx)
  {
    match TableIndex(ctx, row.value)
    case Err(e) => Err(e)
    case Ok(i) =>
      match TableIndex(ctx, col.value)
      case Err(e) => Err(e)
      case Ok(j) => Ok(ctx.table[i][j])
  }

  /** The same lookup when the row token comes from a search that may find
      nothing (`None.value` fails before any index is computed). */
  function CellOf(ctx: Context, row: Option<Token>, col: Token): (r: Result<string, SyntaxError>)
    requires Dims(ctx)
    ensures r.Ok? ==> row.Some?
  {
    if row.None? then Err(NoTerminalOnStack) else Cell(ctx, row.value, col)
  }

  /** `get_token_for_rule`: a terminal stands for its class name, a node for its label. */
  function RuleSymbol(ctx: Context, e: StackElement): (r: Result<Symbol, SyntaxError>)
    ensures e.Node? ==> r == Ok(e.symbol)
    ensures e.Leaf? && r.Ok? ==> r.value == ClassName(ctx, e.token.value) && r.value in ctx.terminals
    ensures e.Leaf? && IsSentinel(ctx, e.token.value) ==> r == Err(SentinelInHandle)
  {
    match e
    case Node(symbol, _, _) => Ok(symbol)
    case Leaf(t) =>
      match TableIndex(ctx, t.value)
      case Err(err) => Err(err)
      case Ok(i) => if i < |ctx.terminals| then Ok(ctx.terminals[i]) else Err(SentinelInHandle)
  }

  /** `list(map(get_token_for_rule, basis))`: the right side a handle spells,
      or the error of its first element that has none. */
  function MapRight(ctx: Context, basis: seq<StackElement>): (r: Result<seq<Symbol>, SyntaxError>)
    ensures r.Ok? ==> |r.value| == |basis|
                       && forall k :: 0 <= k < |basis| ==> RuleSymbol(ctx, basis[k]) == Ok(r.value[k])
    ensures r.Err? ==> exists k :: 0 <= k < |basis| && RuleSymbol(ctx, basis[k]) == Err(r.error)
                                   && forall j :: 0 <= j < k ==> RuleSymbol(ctx, basis[j]).Ok?
  {
    if basis == [] then Ok([])
    else
      match RuleSymbol(ctx, basis[0])
      case Err(e) => Err(e)
      case Ok(x) =>
        match MapRight(ctx, basis[1..])
        case Err(e) =>
          var k :| 0 <= k < |basis[1..]| && RuleSymbol(ctx, basis[1..][k]) == Err(e)
                   && forall j :: 0 <= j < k ==> RuleSymbol(ctx, basis[1..][j]).Ok?;
          assert RuleSymbol(ctx, basis[k + 1]) == Err(e);
          Err(e)
        case Ok(rest) => Ok([x] + rest)
  }

  /** The first rule with the given right side. */
  function FirstWithRight(rules: seq<Rule>, right: seq<Symbol>): (r: Option<Rule>)
    ensures r.Some? ==> exists k :: 0 <= k < |rules| && rules[k] == r.value && r.value.right == right
                                      && forall j :: 0 <= j < k ==> rules[j].right != right
    ensures r.None? <==> forall k :: 0 <= k < |rules| ==> rules[k].right != right
  {
    if rules == [] then None
    else if rules[0].right == right then Some(rules[0])
    else
      var r := FirstWithRight(rules[1..], right);
      if r.Some? then
        var k :| 0 <= k < |rules[1..]| && rules[1..][k] == r.value && r.value.right == right
                 && forall j :: 0 <= j < k ==> rules[1..][j].right != right;
        assert rules[k + 1] == r.value;
        r
      else
        assert forall k :: 1 <= k < |rules| ==> rules[k] == rules[1..][k - 1];
        r
  }

  predicate HasLeaf(s: seq<StackElement>) {
    exists k :: 0 <= k < |s| && s[k].Leaf?
  }

  /** The position of the topmost terminal of a list read from its end. */
  function TopLeaf(s: seq<StackElement>): (r: Option<nat>)
    ensures r.Some? ==> r.value < |s| && s[r.value].Leaf? && forall j :: r.value < j < |s| ==> s[j].Node?
    ensures r.None? <==> !HasLeaf(s)
  {
    if s == [] then None
    else if s[|s| - 1].Leaf? then Some(|s| - 1)
    else
      var r := TopLeaf(s[..|s| - 1]);
      assert forall j :: 0 <= j < |s| - 1 ==> s[j] == s[..|s| - 1][j];
      r
  }

  /** `get_top_terminal`: the topmost terminal token, if any. */
  function TopToken(s: seq<StackElement>): (r: Option<Token>)
    ensures r.Some? <==> HasLeaf(s)
  {
    match TopLeaf(s)
    case None => None
    case Some(k) => Some(s[k].token)
  }

  /** Number of terminals lying directly on a stack. */
  function Leaves(s: seq<StackElement>): nat {
    if s == [] then 0 else Leaves(s[..|s| - 1]) + (if s[|s| - 1].Leaf? then 1 else 0)
  }

  /** The tokens of a stack read bottom to top, nodes opened up. */
  function Flatten(s: seq<StackElement>): seq<Token>
    decreases s
  {
    if s == [] then [] else Flatten(s[..|s| - 1]) + FlattenOne(s[|s| - 1])
  }

  function FlattenOne(e: StackElement): seq<Token>
    decreases e
  {
    match e
    case Leaf(t) => [t]
    case Node(_, children, _) => Flatten(children)
  }

  lemma {:induction false} FlattenAppend(a: seq<StackElement>, b: seq<StackElement>)
    ensures Flatten(a + b) == Flatten(a) + Flatten(b)
    ensures Leaves(a + b) == Leaves(a) + Leaves(b)
    decreases |b|
  {
    if b == [] {
      assert a + b == a;
    } else {
      var init := b[..|b| - 1];
      assert (a + b)[..|a + b| - 1] == a + init;
      assert (a + b)[|a + b| - 1] == b[|b| - 1];
      FlattenAppend(a, init);
    }
  }

  lemma {:induction false} LeavesOfLeaf(s: seq<StackElement>)
    requires HasLeaf(s)
    ensures Leaves(s) > 0
  {
    if s[|s| - 1].Node? {
      var k :| 0 <= k < |s| && s[k].Leaf?;
      assert s[..|s| - 1][k].Leaf?;
      LeavesOfLeaf(s[..|s| - 1]);
    }
  }

  /** Popping one more element below `c` keeps a terminal in the popped part. */
  lemma HasLeafWiden(s: seq<StackElement>, c: nat)
    requires 0 < c <= |s| && HasLeaf(s[c..])
    ensures HasLeaf(s[c - 1..])
  {
    var k :| 0 <= k < |s[c..]| && s[c..][k].Leaf?;
    assert s[c - 1..][k + 1] == s[c..][k];
  }

  /** The popped part `Reverse(s[c..])`, one element longer. */
  lemma PoppedStep(s: seq<StackElement>, c: nat)
    requires 0 < c <= |s|
    ensures Reverse(s[c - 1..]) == Reverse(s[c..]) + [s[c - 1]]
  {
    assert s[c - 1..] == [s[c - 1]] + s[c..];
    ReversePrepend(s[c - 1], s[c..]);
  }

  /** Popping the element at `n - 1`, at or above the topmost terminal: the
      popped part gains it, and holds a terminal exactly when it was that terminal. */
  lemma PopAboveTerminal(s: seq<StackElement>, n: nat)
    requires HasLeaf(s) && TopLeaf(s).value < n <= |s|
    ensures Reverse(s[n - 1..]) == Reverse(s[n..]) + [s[n - 1]]
    ensures HasLeaf(Reverse(s[n - 1..])) <==> n - 1 == TopLeaf(s).value
  {
    PoppedStep(s, n);
    HasLeafReverse(s[n - 1..]);
    if n - 1 != TopLeaf(s).value {
      var popped := s[n - 1..];
      assert forall j :: 0 <= j < |popped| ==> popped[j] == s[n - 1 + j];
    } else {
      assert s[n - 1..][0] == s[n - 1];
    }
  }

  lemma HasLeafReverse(s: seq<StackElement>)
    ensures HasLeaf(Reverse(s)) <==> HasLeaf(s)
  {
    if HasLeaf(s) {
      var k :| 0 <= k < |s| && s[k].Leaf?;
      assert Reverse(s)[|s| - 1 - k] == s[k];
    }
    if HasLeaf(Reverse(s)) {
      var k :| 0 <= k < |s| && Reverse(s)[k].Leaf?;
      assert Reverse(s)[k] == s[|s| - 1 - k];
    }
  }

  /** The precedence the `=`-loop of `reduce` compares when the stack is cut at
      `c`: topmost stack terminal against topmost terminal of the popped basis. */
  function CellAt(ctx: Context, s: seq<StackElement>, c: nat): (r: Result<string, SyntaxError>)
    requires Dims(ctx) && c <= |s| && HasLeaf(s[c..])
    ensures r.Ok? ==> HasLeaf(s[..c]) && c > 0
  {
    HasLeafReverse(s[c..]);
    CellOf(ctx, TopToken(s[..c]), TopToken(Reverse(s[c..])).value)
  }

  /** The cut the `=`-loop of `reduce` stops at: while the precedence is `=`,
      one more element is popped. */
  function EqualRun(ctx: Context, s: seq<StackElement>, c: nat): (r: Result<nat, SyntaxError>)
    requires Dims(ctx) && c <= |s| && HasLeaf(s[c..])
    ensures r.Ok? ==> 0 < r.value <= c && HasLeaf(s[..r.value])
                      && CellAt(ctx, s, r.value).Ok? && CellAt(ctx, s, r.value).value != "="
    decreases c
  {
    match CellAt(ctx, s, c)
    case Err(e) => Err(e)
    case Ok(p) =>
      if p == "=" then
        HasLeafWiden(s, c);
        EqualRun(ctx, s, c - 1)
      else Ok(c)
  }

  /** Where `reduce` cuts the stack: below the topmost terminal, below every
      element the `=`-loop pops, and below one more non-terminal if one lies there. */
  function ReduceCut(ctx: Context, s: seq<StackElement>): (r: Result<nat, SyntaxError>)
    requires Dims(ctx) && HasLeaf(s)
    ensures r.Ok? ==> r.value < |s| && HasLeaf(s[r.value..])
  {
    var t := TopLeaf(s).value;
    assert s[t..][0] == s[t];
    match EqualRun(ctx, s, t)
    case Err(e) => Err(e)
    case Ok(c) =>
      var cut := if s[c - 1].Node? then c - 1 else c;
      assert s[cut..][t - cut] == s[t];
      Ok(cut)
  }

  /** `reduce`: the stack after the handle is replaced by a node for the first
      skeleton rule matching it, or the error raised. */
  function ReduceSpec(ctx: Context, s: seq<StackElement>): Result<seq<StackElement>, SyntaxError>
    requires Dims(ctx) && HasLeaf(s)
  {
    match ReduceCut(ctx, s)
    case Err(e) => Err(e)
    case Ok(c) =>
      var basis := s[c..];
      match MapRight(ctx, basis)
      case Err(e) => Err(e)
      case Ok(right) =>
        match FirstWithRight(ctx.skeleton, right)
        case None => Err(RuleError(PosOf(basis[0])))
        case Some(rule) =>
          Ok(s[..c] + [Node(rule.left, basis, PosOf(basis[0]))])
  }

  /** A reduction replaces a suffix holding a terminal by one node, labelled
      with the left side of a skeleton rule whose right side the suffix spells;
      so the stack's tokens stay the same and fewer terminals lie on it. */
  lemma ReduceSpecShape(ctx: Context, s: seq<StackElement>)
    requires Dims(ctx) && HasLeaf(s) && ReduceSpec(ctx, s).Ok?
    ensures exists c, rule :: 0 <= c < |s| && HasLeaf(s[c..]) && rule in ctx.skeleton
                              && MapRight(ctx, s[c..]) == Ok(rule.right)
                              && ReduceSpec(ctx, s).value == s[..c] + [Node(rule.left, s[c..], PosOf(s[c]))]
    ensures Flatten(ReduceSpec(ctx, s).value) == Flatten(s) && Leaves(ReduceSpec(ctx, s).value) < Leaves(s)
  {
    var c := ReduceCut(ctx, s).value;
    var right := MapRight(ctx, s[c..]).value;
    var rule := FirstWithRight(ctx.skeleton, right).value;
    var node := Node(rule.left, s[c..], PosOf(s[c]));
    ReduceKeeps(s, c, node);
    assert ReduceSpec(ctx, s).value == s[..c] + [node];
    assert rule in ctx.skeleton && MapRight(ctx, s[c..]) == Ok(rule.right);
  }

  lemma ReduceKeeps(s: seq<StackElement>, c: nat, node: StackElement)
    requires c < |s| && HasLeaf(s[c..]) && node.Node? && node.children == s[c..]
    ensures Flatten(s[..c] + [node]) == Flatten(s) && Leaves(s[..c] + [node]) < Leaves(s)
  {
    FlattenAppend(s[..c], [node]);
    FlattenAppend(s[..c], s[c..]);
    assert s[..c] + s[c..] == s;
    assert Flatten([node]) == Flatten(node.children) by {
      assert [node][..0] == [];
    }
    assert Leaves([node]) == 0 by {
      assert [node][..0] == [];
    }
    LeavesOfLeaf(s[c..]);
  }

  /** One turn of the `=`-loop: the cut moves down by one, the popped part
      still holds a terminal, and the loop's outcome is unchanged. */
  lemma EqualStep(ctx: Context, s: seq<StackElement>, n: nat)
    requires Dims(ctx) && n <= |s| && HasLeaf(s[n..]) && CellAt(ctx, s, n) == Ok("=")
    ensures 0 < n && HasLeaf(s[n - 1..]) && HasLeaf(Reverse(s[n - 1..]))
    ensures Reverse(s[n - 1..]) == Reverse(s[n..]) + [s[n - 1]]
    ensures EqualRun(ctx, s, n - 1) == EqualRun(ctx, s, n)
  {
    HasLeafWiden(s, n);
    PoppedStep(s, n);
    HasLeafReverse(s[n - 1..]);
  }

  lemma ReduceCutAt(ctx: Context, s: seq<StackElement>, c: nat)
    requires Dims(ctx) && HasLeaf(s) && EqualRun(ctx, s, TopLeaf(s).value) == Ok(c)
    ensures ReduceCut(ctx, s) == Ok(if s[c - 1].Node? then c - 1 else c)
  {
    var t := TopLeaf(s).value;
    assert 0 < c <= t;
  }

  /** What one turn of the main loop does. */
  datatype StepOutcome =
    | Accept
    | Continue(stack: seq<StackElement>, input: seq<Token>)
    | Reject(error: SyntaxError)

  /** One turn of the main loop: accept when BEGIN meets END, shift on `=` or
      `<`, reduce on `>`, otherwise a precedence error at the input token. */
  function Step(ctx: Context, s: seq<StackElement>, input: seq<Token>): (r: StepOutcome)
    requires Dims(ctx)
    ensures r.Accept? <==> input != [] && TopToken(s) == Some(BeginToken) && input[0] == EndToken
    ensures r.Continue? ==> (r.input == input && Flatten(r.stack) == Flatten(s))
                            || (input != [] && r.input == input[1..] && Flatten(r.stack) == Flatten(s) + [input[0]])
    ensures r.Continue? ==> 2 * |r.input| + Leaves(r.stack) < 2 * |input| + Leaves(s)
  {
    if input == [] then Reject(InputExhausted)
    else
      var sj := TopToken(s);
      var aj := input[0];
      if sj == Some(BeginToken) && aj == EndToken then Accept
      else
        match CellOf(ctx, sj, aj)
        case Err(e) => Reject(e)
        case Ok(p) =>
          if p == "=" || p == "<" then
            ShiftKeeps(s, input);
            Continue(s + [Leaf(aj)], input[1..])
          else if p == ">" then
            match ReduceSpec(ctx, s)
            case Err(e) => Reject(e)
            case Ok(s') =>
              ReduceSpecShape(ctx, s);
              Continue(s', input)
          else Reject(PrecedenceError(aj.pos))
  }

  lemma ShiftKeeps(s: seq<StackElement>, input: seq<Token>)
    requires input != [] && s + [Leaf(input[0])] != s
    ensures Flatten(s + [Leaf(input[0])]) == Flatten(s) + [input[0]]
    ensures Leaves(s + [Leaf(input[0])]) == Leaves(s) + 1
  {
    assert (s + [Leaf(input[0])])[..|s|] == s;
  }

  /** The whole main loop: the stack `parse` returns, or the error it raises. */
  function Run(ctx: Context, s: seq<StackElement>, input: seq<Token>): Result<seq<StackElement>, SyntaxError>
    requires Dims(ctx)
    decreases 2 * |input| + Leaves(s)
  {
    match Step(ctx, s, input)
    case Accept => Ok(s)
    case Reject(e) => Err(e)
    case Continue(s', input') => Run(ctx, s', input')
  }

  /** A run that accepts stops with BEGIN as its topmost terminal. */
  lemma {:induction false} RunAcceptsAtBegin(ctx: Context, s: seq<StackElement>, input: seq<Token>)
    requires Dims(ctx) && Run(ctx, s, input).Ok?
    ensures TopToken(Run(ctx, s, input).value) == Some(BeginToken)
    decreases 2 * |input| + Leaves(s)
  {
    var o := Step(ctx, s, input);
    if o.Continue? {
      RunAcceptsAtBegin(ctx, o.stack, o.input);
    }
  }

  /** The tokens of an accepting run's stack are those of the start stack
      followed by the input up to an END token, in order. */
  lemma {:induction false} RunAcceptsInOrder(ctx: Context, s: seq<StackElement>, input: seq<Token>)
    requires Dims(ctx) && Run(ctx, s, input).Ok?
    ensures exists k :: 0 <= k < |input| && input[k] == EndToken
                        && Flatten(Run(ctx, s, input).value) == Flatten(s) + input[..k]
    decreases 2 * |input| + Leaves(s)
  {
    var o := Step(ctx, s, input);
    var result := Run(ctx, s, input).value;
    if o.Accept? {
      assert input[..0] == [];
      assert Flatten(result) == Flatten(s) + input[..0];
    } else {
      var s', input' := o.stack, o.input;
      RunAcceptsInOrder(ctx, s', input');
      var k' :| 0 <= k' < |input'| && input'[k'] == EndToken
                && Flatten(Run(ctx, s', input').value) == Flatten(s') + input'[..k'];
      assert Run(ctx, s', input').value == result;
      ConsumedPrefix(Flatten(s), Flatten(s'), Flatten(result), input, input', k');
    }
  }

  /** The prefix bookkeeping of one step: a reduction consumes nothing, a
      shift moves one input token behind the stack's tokens. */
  lemma ConsumedPrefix(before: seq<Token>, after: seq<Token>, result: seq<Token>,
                       input: seq<Token>, rest: seq<Token>, k: nat)
    requires (rest == input && after == before) || (input != [] && rest == input[1..] && after == before + [input[0]])
    requires k < |rest| && rest[k] == EndToken && result == after + rest[..k]
    ensures exists j :: 0 <= j < |input| && input[j] == EndToken && result == before + input[..j]
  {
    if rest != input {
      assert input[1 + k] == rest[k];
      assert input[..1 + k] == [input[0]] + rest[..k];
      assert result == before + input[..1 + k];
    } else {
      assert result == before + input[..k];
    }
  }

  /** What an accepting parse gives: BEGIN on top, and the tokens in order behind the start stack. */
  lemma ParseAccepted(ctx: Context, s0: seq<StackElement>, input0: seq<Token>, tokens: seq<Token>)
    requires Dims(ctx) && Run(ctx, s0, input0).Ok? && input0 == tokens + [EndToken]
    ensures TopToken(Run(ctx, s0, input0).value) == Some(BeginToken)
    ensures EndToken !in tokens ==> Flatten(Run(ctx, s0, input0).value) == Flatten(s0) + tokens
  {
    RunAcceptsAtBegin(ctx, s0, input0);
    RunAcceptsInOrder(ctx, s0, input0);
    var k :| 0 <= k < |input0| && input0[k] == EndToken
             && Flatten(Run(ctx, s0, input0).value) == Flatten(s0) + input0[..k];
    if EndToken !in tokens {
      assert forall i :: 0 <= i < |tokens| ==> input0[i] != EndToken;
      assert input0[..k] == tokens;
    }
  }

  /** `SyntaxAnalyzer`: the grammar it was built with and the stack it keeps. */
  class SyntaxAnalyzer {
    const g: Grammar
    var stack: seq<StackElement>

    constructor(g: Grammar)
      ensures this.g == g && stack == []
    {
      this.g := g;
      stack := [];
    }

    function ContextFor(constants: seq<string>, ids: seq<string>): Context {
      Context(g.terminals, g.opTable, g.skeletonRules, constants, ids)
    }

    /** `get_top_terminal` over a list: scan it from its end. */
    static method TopTerminal(s: seq<StackElement>) returns (r: Option<Token>)
      ensures r == TopToken(s)
    {
      var i := |s|;
      while i > 0
        invariant 0 <= i <= |s|
        invariant forall j :: i <= j < |s| ==> s[j].Node?
        invariant TopToken(s) == TopToken(s[..i])
      {
        if s[i - 1].Leaf? {
          return Some(s[i - 1].token);
        }
        assert s[..i][..i - 1] == s[..i - 1];
        i := i - 1;
      }
      return None;
    }

    /** `has_terminal`. */
    static method HasTerminal(s: seq<StackElement>) returns (b: bool)
      ensures b <==> HasLeaf(s)
    {
      for i := 0 to |s|
        invariant forall j :: 0 <= j < i ==> s[j].Node?
      {
        if s[i].Leaf? {
          return true;
        }
      }
      return false;
    }

    /** `find_rule_with_right`: the first rule whose right side matches. */
    static method FindRuleWithRight(rules: seq<Rule>, right: seq<Symbol>) returns (r: Option<Rule>)
      ensures r == FirstWithRight(rules, right)
    {
      for i := 0 to |rules|
        invariant FirstWithRight(rules, right) == FirstWithRight(rules[i..], right)
      {
        if rules[i].right == right {
          return Some(rules[i]);
        }
        assert rules[i..][1..] == rules[i + 1..];
      }
      assert rules[|rules|..] == [];
      return None;
    }

    /** `shift`: the first input token moves to the top of the stack. */
    method Shift(input: seq<Token>) returns (rest: seq<Token>)
      requires input != []
      modifies this
      ensures stack == old(stack) + [Leaf(input[0])] && rest == input[1..]
    {
      stack := stack + [Leaf(input[0])];
      rest := input[1..];
    }

    /** The first loop of `reduce`: pop until the basis holds a terminal. The
        basis is kept in popping order, topmost element first. */
    method PopUntilTerminal() returns (basis: seq<StackElement>)
      requires HasLeaf(stack)
      modifies this
      ensures stack == old(stack)[..TopLeaf(old(stack)).value]
      ensures basis == Reverse(old(stack)[TopLeaf(old(stack)).value..])
    {
      ghost var s := stack;
      ghost var t := TopLeaf(s).value;
      basis := [];
      var found := HasTerminal(basis);
      while !found
        invariant t <= |stack| <= |s| && stack == s[..|stack|] && basis == Reverse(s[|stack|..])
        invariant found <==> |stack| == t
        decreases |stack|
      {
        PopAboveTerminal(s, |stack|);
        basis := PopOnto(s, basis);
        found := HasTerminal(basis);
      }
    }

    /** The second loop of `reduce`: pop one more element while the topmost
        stack terminal and the topmost basis terminal are in relation `=`. */
    method PopWhileEqual(ctx: Context, ghost s: seq<StackElement>, basis0: seq<StackElement>)
      returns (basis: seq<StackElement>, precedence: Result<string, SyntaxError>)
      requires Dims(ctx) && |stack| <= |s| && stack == s[..|stack|] && basis0 == Reverse(s[|stack|..])
      requires HasLeaf(s[|stack|..])
      modifies this
      ensures |stack| <= old(|stack|) && stack == s[..|stack|] && basis == Reverse(s[|stack|..])
      ensures precedence.Err? ==> EqualRun(ctx, s, old(|stack|)) == Err(precedence.error)
      ensures precedence.Ok? ==> EqualRun(ctx, s, old(|stack|)) == Ok(|stack|)
    {
      basis := basis0;
      precedence := Precedence(ctx, s, basis);
      while precedence == Ok("=")
        invariant |stack| <= old(|stack|) && stack == s[..|stack|] && basis == Reverse(s[|stack|..])
        invariant HasLeaf(s[|stack|..])
        invariant precedence == CellAt(ctx, s, |stack|)
        invariant EqualRun(ctx, s, |stack|) == EqualRun(ctx, s, old(|stack|))
        decreases |stack|
      {
        EqualStep(ctx, s, |stack|);
        basis := PopOnto(s, basis);
        precedence := Precedence(ctx, s, basis);
      }
    }

    /** `basis.append(self.stack.pop())`. */
    method PopOnto(ghost s: seq<StackElement>, basis0: seq<StackElement>) returns (basis: seq<StackElement>)
      requires 0 < |stack| <= |s| && stack == s[..|stack|] && basis0 == Reverse(s[|stack|..])
      modifies this
      ensures |stack| == old(|stack|) - 1 && stack == s[..|stack|] && basis == Reverse(s[|stack|..])
    {
      PoppedStep(s, |stack|);
      assert stack[|stack| - 1] == s[|stack| - 1];
      basis := basis0 + [stack[|stack| - 1]];
      stack := stack[..|stack| - 1];
    }

    /** The precedence of the topmost stack terminal and the topmost basis terminal. */
    method Precedence(ctx: Context, ghost s: seq<StackElement>, basis: seq<StackElement>)
      returns (precedence: Result<string, SyntaxError>)
      requires Dims(ctx) && |stack| <= |s| && stack == s[..|stack|] && basis == Reverse(s[|stack|..])
      requires HasLeaf(s[|stack|..])
      ensures precedence == CellAt(ctx, s, |stack|)
    {
      HasLeafReverse(s[|stack|..]);
      var aj := TopTerminal(basis);
      var sj := TopTerminal(stack);
      precedence := CellOf(ctx, sj, aj.value);
    }

    /** `reduce`: find the handle, take an adjacent non-terminal below it, and
        replace it by a node for the first skeleton rule it matches. */
    method Reduce(ctx: Context) returns (err: Option<SyntaxError>)
      requires Dims(ctx) && HasLeaf(stack)
      modifies this
      ensures err.None? <==> ReduceSpec(ctx, old(stack)).Ok?
      ensures err.Some? ==> err.value == ReduceSpec(ctx, old(stack)).error
      ensures err.None? ==> stack == ReduceSpec(ctx, old(stack)).value
    {
      ghost var s := stack;
      ghost var t := TopLeaf(s).value;
      var basis := PopUntilTerminal();
      assert s[t..][0] == s[t];
      var precedence;
      basis, precedence := PopWhileEqual(ctx, s, basis);
      if precedence.Err? {
        return Some(precedence.error);
      }
      ghost var c0 := |stack|;
      ReduceCutAt(ctx, s, c0);
      basis := TakeNonTerminal(s, basis);
      err := ReplaceHandle(ctx, s, basis);
    }

    /** The last pop of `reduce`: a non-terminal directly below the handle
        joins it; then the basis is put back in stack order. */
    method TakeNonTerminal(ghost s: seq<StackElement>, basis0: seq<StackElement>) returns (basis: seq<StackElement>)
      requires 0 < |stack| <= |s| && stack == s[..|stack|] && basis0 == Reverse(s[|stack|..])
      modifies this
      ensures |stack| == if s[old(|stack|) - 1].Node? then old(|stack|) - 1 else old(|stack|)
      ensures stack == s[..|stack|] && basis == s[|stack|..]
    {
      basis := basis0;
      ghost var n := |stack|;
      assert stack[n - 1] == s[n - 1];
      if stack[|stack| - 1].Node? {
        basis := PopOnto(s, basis);
      }
      ghost var c := |stack|;
      assert basis == Reverse(s[c..]);
      ReverseReverse(s[c..]);
      basis := Reverse(basis);
    }

    /** The end of `reduce`: the handle, now in stack order, becomes one node
        for the first skeleton rule whose right side it spells. */
    method ReplaceHandle(ctx: Context, ghost s: seq<StackElement>, basis: seq<StackElement>)
      returns (err: Option<SyntaxError>)
      requires Dims(ctx) && HasLeaf(s) && ReduceCut(ctx, s) == Ok(|stack|)
      requires stack == s[..|stack|] && basis == s[|stack|..]
      modifies this
      ensures err.None? <==> ReduceSpec(ctx, s).Ok?
      ensures err.Some? ==> err.value == ReduceSpec(ctx, s).error
      ensures err.None? ==> stack == ReduceSpec(ctx, s).value
    {
      var right := MapRight(ctx, basis);
      if right.Err? {
        return Some(right.error);
      }
      var rule := FindRuleWithRight(ctx.skeleton, right.value);
      if rule.None? {
        return Some(RuleError(PosOf(basis[0])));
      }
      stack := stack + [Node(rule.value.left, basis, PosOf(basis[0]))];
      return None;
    }

    /** `parse`: push BEGIN, append END, then shift and reduce until BEGIN
        meets END. The stack is returned as it then stands. */
    method Parse(tokens: seq<Token>, constants: seq<string>, ids: seq<string>)
      returns (r: Result<seq<StackElement>, SyntaxError>)
      requires Dims(ContextFor(constants, ids))
      modifies this
      ensures r == Run(ContextFor(constants, ids), old(stack) + [Leaf(BeginToken)], tokens + [EndToken])
      ensures r.Ok? ==> stack == r.value && TopToken(stack) == Some(BeginToken)
      ensures r.Ok? && EndToken !in tokens ==> Flatten(stack) == Flatten(old(stack)) + [BeginToken] + tokens
    {
      var ctx := ContextFor(constants, ids);
      stack := stack + [Leaf(BeginToken)];
      var input := tokens + [EndToken];
      ghost var s0, input0 := stack, input;
      while true
        invariant Run(ctx, stack, input) == Run(ctx, s0, input0)
        decreases 2 * |input| + Leaves(stack)
      {
        var sj := TopTerminal(stack);
        if input == [] {
          return Err(InputExhausted);
        }
        var aj := input[0];
        if sj == Some(BeginToken) && aj == EndToken {
          r := Ok(stack);
          ParseAccepted(ctx, s0, input0, tokens);
          return;
        }
        var precedence := CellOf(ctx, sj, aj);
        if precedence.Err? {
          return Err(precedence.error);
        }
        if precedence.value == "=" || precedence.value == "<" {
          input := Shift(input);
        } else if precedence.value == ">" {
          var err := Reduce(ctx);
          if err.Some? {
            return Err(err.value);
          }
        } else {
          return Err(PrecedenceError(aj.pos));
        }
      }
    }
  }
}
