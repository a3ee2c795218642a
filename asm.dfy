/** asmtranslator.py: the address and label counters of `AsmSyntax`, and
    `AsmTranslator.to_asm`, which turns a token list into assembly items with
    an operator stack ordered by priorities. Switch tokens and the end labels
    they defer are values here: a switch is known by the number of switches
    created before it, and the translation keeps the labels set so far in a
    store indexed by that number. */
module AsmTranslation {
  import opened Util
  import opened Tokens

  /** `"LABEL" + str(n)`, then `"_" + target` when a target is given. */
  function LabelText(n: nat, target: Option<string>): string {
    "LABEL" + NatToString(n) + (if target.Some? then "_" + target.value else "")
  }

  predicate AllDigits(s: string) {
    forall k :: 0 <= k < |s| ==> IsDigit(s[k])
  }

  /** The length of the run of digits that starts a string. */
  function DigitRun(s: string): nat {
    if s == [] || !IsDigit(s[0]) then 0 else 1 + DigitRun(s[1..])
  }

  lemma {:induction false} DigitRunOf(a: string, rest: string)
    requires AllDigits(a)
    requires rest == [] || !IsDigit(rest[0])
    ensures DigitRun(a + rest) == |a|
  {
    if a == [] {
      assert a + rest == rest;
    } else {
      assert (a + rest)[1..] == a[1..] + rest;
      DigitRunOf(a[1..], rest);
    }
  }

  /** Labels never repeat: a label determines the counter value and the
      target it was made from. */
  lemma LabelTextInjective(n: nat, t: Option<string>, m: nat, u: Option<string>)
    requires LabelText(n, t) == LabelText(m, u)
    ensures n == m && t == u
  {
    var a, b := NatToString(n), NatToString(m);
    var r1 := if t.Some? then "_" + t.value else "";
    var r2 := if u.Some? then "_" + u.value else "";
    assert a + r1 == LabelText(n, t)[5..];
    assert b + r2 == LabelText(m, u)[5..];
    DigitRunOf(a, r1);
    DigitRunOf(b, r2);
    assert a == (a + r1)[..|a|] && b == (b + r2)[..|b|];
    NatToStringInjective(n, m);
    assert r1 == (a + r1)[|a|..] && r2 == (b + r2)[|b|..];
    if t.Some? && u.Some? {
      assert t.value == r1[1..] && u.value == r2[1..];
    }
  }

  /** `AsmSyntax`: the next free memory address, the address of each
      identifier seen so far, and the label counter. */
  class AsmSyntax {
    var nextMem: int
    var idMem: map<string, int>
    var nextLabel: nat

    /** The identifiers hold the addresses 500, 501, ... below `nextMem`, one each. */
    ghost predicate Valid()
      reads this
    {
      nextMem == 500 + |idMem|
      && (forall i :: i in idMem ==> 500 <= idMem[i] < nextMem)
      && (forall i, j :: i in idMem && j in idMem && idMem[i] == idMem[j] ==> i == j)
    }

    constructor()
      ensures nextMem == 500 && idMem == map[] && nextLabel == 0
      ensures Valid()
    {
      nextMem := 500;
      idMem := map[];
      nextLabel := 0;
    }

    /** `get_mem_for_id`: an identifier seen before keeps its address, a
        new one gets the next address. */
    method GetMemForId(i: string) returns (m: int)
      requires Valid()
      modifies this
      ensures Valid()
      ensures i in old(idMem) ==> m == old(idMem)[i] && idMem == old(idMem) && nextMem == old(nextMem)
      ensures i !in old(idMem) ==> m == old(nextMem) && idMem == old(idMem)[i := m] && nextMem == old(nextMem) + 1
      ensures nextLabel == old(nextLabel)
    {
      if i in idMem {
        return idMem[i];
      }
      assert idMem[i := nextMem].Keys == idMem.Keys + {i};
      idMem := idMem[i := nextMem];
      nextMem := nextMem + 1;
      return nextMem - 1;
    }

    /** `get_label_for`: a label made from the counter, which moves on. */
    method GetLabelFor(target: Option<string>) returns (l: string)
      modifies this
      ensures l == LabelText(old(nextLabel), target) && nextLabel == old(nextLabel) + 1
      ensures idMem == old(idMem) && nextMem == old(nextMem)
    {
      l := "LABEL" + NatToString(nextLabel);
      if target.Some? {
        l := l + "_" + target.value;
      }
      nextLabel := nextLabel + 1;
    }
  }

  /** `AsmTranslator.input_priority`. */
  const INPUT_PRIORITY: map<string, int> := map[
    "=" := 100, "(" := 100, "switch" := 100, "case" := 1, "for" := 100, "while" := 100,
    "readln" := 100, "writeln" := 100, "{" := 1, ":" := 1, "do" := 1, ")" := 1, "loop" := 1,
    ";" := 1, "}" := 1, "<" := 10, "<=" := 10, ">" := 10, ">=" := 10, "==" := 10, "!=" := 10,
    "+" := 11, "-" := 11, "*" := 12, "/" := 12]

  /** `AsmTranslator.op_stack_priority`. */
  const OP_STACK_PRIORITY: map<string, int> := map[
    "=" := 0, "(" := 0, "{" := 0, "switch" := 0, "case" := 0, "for" := 0, "while" := 0,
    "readln" := 0, "writeln" := 0, "do" := 0, "<" := 10, "<=" := 10, ">" := 10, ">=" := 10,
    "==" := 10, "!=" := 10, "+" := 11, "-" := 11, "*" := 12, "/" := 12]

  /** The input values `to_asm` treats by name rather than by priority. */
  predicate IsSpecial(v: string) {
    v == ")" || v == "loop" || v == ";" || v == "}" || v == "end" || v == ":" || v == "case"
  }

  /** An entry of the operator stack: an operator, or a `SwitchToken` with
      its number and the output length it recorded. */
  datatype OpEntry = Op(op: string) | Switch(id: nat, insertPos: nat)

  /** An item of the output: a token value or operator, a switch token
      popped from the stack, a `JmpToken` to the end label of a switch, an
      `AsmLabel`, or a `CmpToken` with its constant and case label. */
  datatype Out =
    | Str(s: string)
    | SwitchOut(id: nat, insertPos: nat)
    | Jmp(switchId: nat)
    | Label(name: string)
    | Cmp(constant: string, caseLabel: string)

  /** What `to_asm` raises. */
  datatype AsmError =
    | PopFromEmpty                // `IndexError` of `op_stack.pop()` after `loop`
    | NoSwitch                    // `AttributeError`: a `case` outside any switch
    | MissingCaseConstant         // `IndexError`: nothing follows `case`
    | NoStackPriority(op: string) // `KeyError` of `op_stack_priority`

  /** A popped stack entry as an output item. */
  function ToOut(e: OpEntry): Out {
    match e
    case Op(o) => Str(o)
    case Switch(id, p) => SwitchOut(id, p)
  }

  function Outs(s: seq<OpEntry>): (r: seq<Out>)
    ensures |r| == |s| && forall k :: 0 <= k < |s| ==> r[k] == ToOut(s[k])
  {
    seq(|s|, k requires 0 <= k < |s| => ToOut(s[k]))
  }

  /** `str()` of a `FutureLabel`: its label once set, `"undefined"` before. */
  function FutureLabelText(labels: map<nat, string>, id: nat): (r: string)
    ensures id !in labels ==> r == "undefined"
    ensures id in labels ==> r == labels[id]
  {
    if id in labels then labels[id] else "undefined"
  }

  /** The length the stack keeps when popping stops at the topmost entry in
      `xs`: just above it, or nothing when no entry is in `xs`. */
  function StopAt(stack: seq<OpEntry>, xs: seq<OpEntry>): (n: nat)
    ensures n <= |stack|
    ensures n > 0 ==> stack[n - 1] in xs
    ensures forall k :: n <= k < |stack| ==> stack[k] !in xs
  {
    if stack == [] || stack[|stack| - 1] in xs then |stack| else StopAt(stack[..|stack| - 1], xs)
  }

  /** Popping stops just above the topmost entry in `xs`. */
  lemma {:induction false} StopAtTopmost(stack: seq<OpEntry>, xs: seq<OpEntry>, k: nat)
    requires k < |stack| && stack[k] in xs
    requires forall j :: k < j < |stack| ==> stack[j] !in xs
    ensures StopAt(stack, xs) == k + 1
    decreases |stack|
  {
    if k < |stack| - 1 {
      StopAtTopmost(stack[..|stack| - 1], xs, k);
    }
  }

  /** `pop_until_any_of(*xs, extra_pop)` (and `pop_until(x, extra_pop)` with
      `xs == [x]`): the entries above the topmost one in `xs` go to the
      output, topmost first; with `extra_pop` that entry is dropped too. */
  function PopUntilAnyOf(stack: seq<OpEntry>, result: seq<Out>, xs: seq<OpEntry>, extraPop: bool)
    : (r: (seq<OpEntry>, seq<Out>))
    ensures var n := StopAt(stack, xs);
      r.1 == result + Outs(Reverse(stack[n..]))
      && r.0 == if extraPop && n > 0 then stack[..n - 1] else stack[..n]
    decreases |stack|
  {
    if |stack| > 0 && stack[|stack| - 1] !in xs then
      var r := PopUntilAnyOf(stack[..|stack| - 1], result + [ToOut(stack[|stack| - 1])], xs, extraPop);
      PopOneMore(stack, result, xs);
      r
    else if extraPop && |stack| > 0 then (stack[..|stack| - 1], result)
    else (stack, result)
  }

  /** Moving the top entry to the output first and then popping the rest
      outputs what popping the whole stack would. */
  lemma PopOneMore(stack: seq<OpEntry>, result: seq<Out>, xs: seq<OpEntry>)
    requires |stack| > 0 && stack[|stack| - 1] !in xs
    ensures var init := stack[..|stack| - 1]; var n := StopAt(stack, xs);
      n == StopAt(init, xs) && init[..n] == stack[..n]
      && result + [ToOut(stack[|stack| - 1])] + Outs(Reverse(init[n..])) == result + Outs(Reverse(stack[n..]))
  {
    var init := stack[..|stack| - 1];
    var top := stack[|stack| - 1];
    var n := StopAt(stack, xs);
    var s := stack[n..];
    assert s[..|s| - 1] == init[n..];
    assert Reverse(s) == [top] + Reverse(init[n..]);
    assert Outs([top] + Reverse(init[n..])) == [ToOut(top)] + Outs(Reverse(init[n..]));
  }

  /** The topmost switch token on the stack, if any. */
  function NearestSwitch(stack: seq<OpEntry>): (r: Option<nat>)
    ensures r.Some? ==> r.value < |stack| && stack[r.value].Switch?
                        && forall k :: r.value < k < |stack| ==> !stack[k].Switch?
    ensures r.None? ==> forall k :: 0 <= k < |stack| ==> !stack[k].Switch?
  {
    if stack == [] then None
    else if stack[|stack| - 1].Switch? then Some(|stack| - 1)
    else NearestSwitch(stack[..|stack| - 1])
  }

  /** Popping until the nearest switch token stops just above it. */
  lemma NearestSwitchStop(stack: seq<OpEntry>)
    requires NearestSwitch(stack).Some?
    ensures StopAt(stack, [stack[NearestSwitch(stack).value]]) == NearestSwitch(stack).value + 1
  {
    var k := NearestSwitch(stack).value;
    forall j | k < j < |stack| ensures stack[j] !in [stack[k]] {
      assert !stack[j].Switch?;
    }
    StopAtTopmost(stack, [stack[k]], k);
  }

  /** `list.insert(i, x)`: at position `i`, or at the end past it. */
  function Insert(s: seq<Out>, i: nat, x: Out): (r: seq<Out>)
    ensures |r| == |s| + 1
    ensures i <= |s| ==> r[i] == x && r[..i] == s[..i] && r[i + 1..] == s[i..]
    ensures i > |s| ==> r == s + [x]
  {
    if i <= |s| then s[..i] + [x] + s[i..] else s + [x]
  }

  /** What `to_asm` works on: the output, the operator stack, the input,
      the label counter of `asm_syntax`, the number of switch tokens made so
      far and the labels set into their `FutureLabel`s. */
  datatype TState = TState(result: seq<Out>, stack: seq<OpEntry>, tokens: seq<Token>,
                           nextLabel: nat, switches: nat, labels: map<nat, string>)

  /** The measure that every pass of the loop decreases. */
  function Measure(st: TState): nat {
    2 * |st.tokens| + |st.stack|
  }

  /** `)`: pop to the nearest `(` and drop it. */
  function CloseParen(st: TState): (r: TState)
    requires st.tokens != []
  {
    var (s, res) := PopUntilAnyOf(st.stack, st.result, [Op("(")], true);
    st.(result := res, stack := s, tokens := st.tokens[1..])
  }

  /** `loop`: pop to the nearest `while` and move it to the output too. */
  function LoopEnd(st: TState): (r: Result<TState, AsmError>)
    requires st.tokens != []
  {
    var (s, res) := PopUntilAnyOf(st.stack, st.result, [Op("while")], false);
    if s == [] then Err(PopFromEmpty)
    else Ok(st.(result := res + [ToOut(s[|s| - 1])], stack := s[..|s| - 1], tokens := st.tokens[1..]))
  }

  /** `;`: pop to the nearest statement opener and move it to the output too. */
  function StatementEnd(st: TState): (r: TState)
    requires st.tokens != []
  {
    var (s, res) := PopUntilAnyOf(st.stack, st.result,
                                  [Op("for"), Op("while"), Op("switch"), Op("case"), Op("=")], false);
    if s == [] then st.(result := res, stack := s, tokens := st.tokens[1..])
    else st.(result := res + [ToOut(s[|s| - 1])], stack := s[..|s| - 1], tokens := st.tokens[1..])
  }

  /** `case`: pop to the nearest switch token, jump to its end label, place
      a fresh case label, and insert the comparison with the constant that
      follows at the position the switch recorded. */
  function CaseStep(st: TState): (r: Result<TState, AsmError>)
    requires st.tokens != []
    ensures r.Err? <==> NearestSwitch(st.stack).None? || |st.tokens| < 2
    ensures r.Ok? ==>
              var sw := st.stack[NearestSwitch(st.stack).value];
              var n := NearestSwitch(st.stack).value + 1;
              var l := LabelText(st.nextLabel, Some("case"));
              r.value.stack == st.stack[..n]
              && r.value.result == Insert(st.result + Outs(Reverse(st.stack[n..])) + [Jmp(sw.id), Label(l)],
                                          sw.insertPos, Cmp(st.tokens[1].value, l))
              && r.value.tokens == st.tokens[2..] && r.value.nextLabel == st.nextLabel + 1
              && r.value.switches == st.switches && r.value.labels == st.labels
  {
    match NearestSwitch(st.stack)
    case None => Err(NoSwitch)
    case Some(k) =>
      var sw := st.stack[k];
      var (s, res) := PopUntilAnyOf(st.stack, st.result, [sw], false);
      NearestSwitchStop(st.stack);
      var l := LabelText(st.nextLabel, Some("case"));
      var rest := st.tokens[1..];
      if rest == [] then Err(MissingCaseConstant)
      else
        Ok(TState(Insert(res + [Jmp(sw.id), Label(l)], sw.insertPos, Cmp(rest[0].value, l)), s, rest[1..],
                  st.nextLabel + 1, st.switches, st.labels))
  }

  /** Closing switch `id`: a fresh end label goes to the output and into the
      switch's `FutureLabel`, and the `}` is consumed. */
  function CloseSwitch(st: TState, id: nat): TState
    requires st.tokens != []
  {
    var l := LabelText(st.nextLabel, Some("switch_end"));
    TState(st.result + [Label(l)], st.stack, st.tokens[1..], st.nextLabel + 1, st.switches, st.labels[id := l])
  }

  /** `}`: inside a switch, pop to the switch token or an inner `{`; an inner
      `{` is dropped, otherwise the switch is closed with a fresh end label,
      which its `FutureLabel` takes. Outside any switch, pop to the nearest
      `{` and drop it. */
  function CloseBrace(st: TState): (r: TState)
    requires st.tokens != []
    ensures r.tokens == st.tokens[1..] && r.switches == st.switches
  {
    match NearestSwitch(st.stack)
    case Some(k) =>
      assert StopAt(st.stack, [st.stack[k], Op("{")]) > k;
      CloseInSwitch(st, k)
    case None =>
      var (s, res) := PopUntilAnyOf(st.stack, st.result, [Op("{")], true);
      st.(result := res, stack := s, tokens := st.tokens[1..])
  }

  /** The three cases of `}`. */
  lemma CloseBraceCases(st: TState)
    requires st.tokens != []
    ensures var r := CloseBrace(st);
      match NearestSwitch(st.stack)
      // no switch open: everything above the nearest `{` is output and the `{` dropped
      case None =>
        var n := StopAt(st.stack, [Op("{")]);
        r.labels == st.labels && r.nextLabel == st.nextLabel
        && r.result == st.result + Outs(Reverse(st.stack[n..]))
        && r.stack == (if n > 0 then st.stack[..n - 1] else [])
      case Some(k) =>
        var n := StopAt(st.stack, [st.stack[k], Op("{")]);
        k < n
        // an inner `{` above the nearest switch: the same, and the switch stays open
        && (n > k + 1 ==>
              st.stack[n - 1] == Op("{")
              && r.labels == st.labels && r.nextLabel == st.nextLabel
              && r.result == st.result + Outs(Reverse(st.stack[n..])) && r.stack == st.stack[..n - 1])
        // only operators above the nearest switch: they are output, then the
        // switch's fresh end label, which its `FutureLabel` takes
        && (n == k + 1 ==>
              var l := LabelText(st.nextLabel, Some("switch_end"));
              r.labels == st.labels[st.stack[k].id := l] && r.nextLabel == st.nextLabel + 1
              && r.result == st.result + Outs(Reverse(st.stack[k + 1..])) + [Label(l)]
              && r.stack == st.stack[..k + 1])
  {
    match NearestSwitch(st.stack)
    case None =>
    case Some(k) =>
      var n := StopAt(st.stack, [st.stack[k], Op("{")]);
      if n > k + 1 {
        assert !st.stack[n - 1].Switch?;
      }
  }

  /** `}` with the nearest switch token at `k`: an inner `{` above it is
      dropped, otherwise the switch is closed. */
  function CloseInSwitch(st: TState, k: nat): (r: TState)
    requires st.tokens != [] && k < |st.stack| && st.stack[k].Switch?
    requires StopAt(st.stack, [st.stack[k], Op("{")]) > k
    ensures r.tokens == st.tokens[1..] && r.switches == st.switches
    ensures var n := StopAt(st.stack, [st.stack[k], Op("{")]);
      (st.stack[n - 1] == Op("{") ==>
         r.labels == st.labels && r.nextLabel == st.nextLabel
         && r.result == st.result + Outs(Reverse(st.stack[n..])) && r.stack == st.stack[..n - 1])
      && (st.stack[n - 1] != Op("{") ==>
         var l := LabelText(st.nextLabel, Some("switch_end"));
         r.labels == st.labels[st.stack[k].id := l] && r.nextLabel == st.nextLabel + 1
         && r.result == st.result + Outs(Reverse(st.stack[n..])) + [Label(l)]
         && r.stack == st.stack[..n])
  {
    var sw := st.stack[k];
    var (s, res) := PopUntilAnyOf(st.stack, st.result, [sw, Op("{")], false);
    if |s| > 0 && s[|s| - 1] == Op("{") then
      st.(result := res, stack := s[..|s| - 1], tokens := st.tokens[1..])
    else
      CloseSwitch(st.(result := res, stack := s), sw.id)
  }

  /** The priority of the stack top: a switch token counts as -1. */
  function StackPriority(e: OpEntry): Result<int, AsmError> {
    match e
    case Switch(_, _) => Ok(-1)
    case Op(o) => if o in OP_STACK_PRIORITY then Ok(OP_STACK_PRIORITY[o]) else Err(NoStackPriority(o))
  }

  /** An operator is pushed, and consumed, when the stack is empty or its
      input priority beats the priority of the stack top; otherwise the top
      moves to the output and the operator stays in the input. */
  function OperatorStep(st: TState, p: int): (r: Result<TState, AsmError>)
    requires st.tokens != []
    ensures r.Ok? ==>
              var pushes := st.stack == [] || (StackPriority(st.stack[|st.stack| - 1]).Ok?
                                              && p > StackPriority(st.stack[|st.stack| - 1]).value);
              (pushes ==> r.value == st.(stack := st.stack + [Op(st.tokens[0].value)], tokens := st.tokens[1..]))
              && (!pushes ==> r.value == st.(result := st.result + [ToOut(st.stack[|st.stack| - 1])],
                                             stack := st.stack[..|st.stack| - 1]))
    ensures r.Err? <==> st.stack != [] && StackPriority(st.stack[|st.stack| - 1]).Err?
  {
    if st.stack == [] then Ok(st.(stack := [Op(st.tokens[0].value)], tokens := st.tokens[1..]))
    else
      var top := st.stack[|st.stack| - 1];
      match StackPriority(top)
      case Err(e) => Err(e)
      case Ok(sp) =>
        if p > sp then Ok(st.(stack := st.stack + [Op(st.tokens[0].value)], tokens := st.tokens[1..]))
        else
          assert |st.stack[..|st.stack| - 1]| < |st.stack|;
          Ok(st.(result := st.result + [ToOut(top)], stack := st.stack[..|st.stack| - 1]))
  }

  /** One pass of the loop of `to_asm` before the switch check: a value
      that has no priority goes to the output, the named values are handled
      by their own rules, any other operator by its priority. */
  function Step(st: TState): (r: Result<TState, AsmError>)
    requires st.tokens != []
    ensures r.Ok? ==> Measure(r.value) < Measure(st)
  {
    var v := st.tokens[0].value;
    if v !in INPUT_PRIORITY then Ok(st.(result := st.result + [Str(v)], tokens := st.tokens[1..]))
    else if IsSpecial(v) then
      if v == ")" then Ok(CloseParen(st))
      else if v == "loop" then LoopEnd(st)
      else if v == ";" || v == "end" then Ok(StatementEnd(st))
      else if v == "case" then CaseStep(st)
      else if v == "}" then Ok(CloseBrace(st))
      else Ok(st.(tokens := st.tokens[1..]))
    else OperatorStep(st, INPUT_PRIORITY[v])
  }

  /** The check after every pass: `switch` under `{` on top of the stack
      become one switch token recording the output length. */
  function MergeSwitch(st: TState): (r: TState)
    ensures r.tokens == st.tokens && |r.stack| <= |st.stack|
  {
    var n := |st.stack|;
    if n >= 2 && st.stack[n - 2..] == [Op("switch"), Op("{")] then
      st.(stack := st.stack[..n - 2] + [Switch(st.switches, |st.result|)], switches := st.switches + 1)
    else st
  }

  /** The loop of `to_asm`, from `st` until the input is empty. */
  function Run(st: TState): Result<TState, AsmError>
    decreases Measure(st)
  {
    if st.tokens == [] then Ok(st)
    else
      match Step(st)
      case Err(e) => Err(e)
      case Ok(st') => Run(MergeSwitch(st'))
  }

  /** The label counter of `asm_syntax` once the loop of `to_asm` ends or
      raises: a `case` that finds no constant after it has already taken its
      label when it raises. */
  function RunLabel(st: TState): nat
    decreases Measure(st)
  {
    if st.tokens == [] then st.nextLabel
    else
      match Step(st)
      case Err(e) => FailLabel(st.nextLabel, e)
      case Ok(st') => RunLabel(MergeSwitch(st'))
  }

  /** The label counter after a pass that started at `next` raised `e`. */
  function FailLabel(next: nat, e: AsmError): nat {
    if e == MissingCaseConstant then next + 1 else next
  }

  /** A run that finishes leaves the counter of its final state. */
  lemma {:induction false} RunLabelOk(st: TState)
    requires Run(st).Ok?
    ensures RunLabel(st) == Run(st).value.nextLabel
    decreases Measure(st)
  {
    if st.tokens != [] {
      RunLabelOk(MergeSwitch(Step(st).value));
    }
  }

  /** After the switch check the stack never ends in `switch`, `{`; a switch
      token it makes records the output length, and reads `"undefined"`
      while the labels set so far belong to earlier switches. */
  lemma MergeSwitchDone(st: TState)
    requires forall id :: id in st.labels ==> id < st.switches
    ensures var r := MergeSwitch(st); var n := |r.stack|;
      !(n >= 2 && r.stack[n - 2..] == [Op("switch"), Op("{")])
      && (r.switches != st.switches ==>
            r.switches == st.switches + 1 && r.stack[n - 1] == Switch(st.switches, |st.result|)
            && FutureLabelText(r.labels, st.switches) == "undefined")
  {
    var n := |st.stack|;
    if n >= 2 && st.stack[n - 2..] == [Op("switch"), Op("{")] {
      var r := MergeSwitch(st);
      assert r.stack[|r.stack| - 1] == Switch(st.switches, |st.result|);
      if |r.stack| >= 2 {
        assert r.stack[|r.stack| - 2..][1] == r.stack[|r.stack| - 1];
      }
    }
  }

  /** A stack entry the priority branch can read: an operator that has a
      stack priority, or a switch token already made. */
  predicate EntryOk(e: OpEntry, switches: nat) {
    match e
    case Op(o) => o in OP_STACK_PRIORITY
    case Switch(id, _) => id < switches
  }

  ghost predicate StackOk(stack: seq<OpEntry>, switches: nat) {
    forall k :: 0 <= k < |stack| ==> EntryOk(stack[k], switches)
  }

  /** What every reachable state satisfies: the stack entries are readable,
      the labels set belong to switches already made, and the labels in the
      output are distinct labels made from counter values already used. */
  ghost predicate Inv(st: TState) {
    StackOk(st.stack, st.switches)
    && (forall id :: id in st.labels ==> id < st.switches)
    && LabelsIssued(st.result, st.nextLabel)
  }

  /** Every label in `result` is made from a counter value below `next`, and
      no label occurs twice. */
  ghost predicate LabelsIssued(result: seq<Out>, next: nat) {
    (forall k :: 0 <= k < |result| && result[k].Label? ==>
       exists n: nat, t: Option<string> :: n < next && result[k].name == LabelText(n, t))
    && (forall i, j :: 0 <= i < j < |result| && result[i].Label? && result[j].Label? ==> result[i].name != result[j].name)
  }

  lemma LabelsIssuedMore(result: seq<Out>, next: nat, next': nat)
    requires LabelsIssued(result, next) && next <= next'
    ensures LabelsIssued(result, next')
  {
    forall k | 0 <= k < |result| && result[k].Label?
      ensures exists n: nat, t: Option<string> :: n < next' && result[k].name == LabelText(n, t)
    {
      var n: nat, t: Option<string> :| n < next && result[k].name == LabelText(n, t);
    }
  }

  /** Appending items that are not labels keeps the output's labels as they are. */
  lemma LabelsIssuedAppend(result: seq<Out>, more: seq<Out>, next: nat)
    requires LabelsIssued(result, next)
    requires forall k :: 0 <= k < |more| ==> !more[k].Label?
    ensures LabelsIssued(result + more, next)
  {
    var r := result + more;
    forall k | 0 <= k < |r| && r[k].Label?
      ensures exists n: nat, t: Option<string> :: n < next && r[k].name == LabelText(n, t)
    {
      assert k < |result|;
      assert r[k] == result[k];
    }
  }

  /** Appending the label made from the counter keeps labels distinct, with
      the counter moved on. */
  lemma LabelsIssuedNew(result: seq<Out>, next: nat, t: Option<string>)
    requires LabelsIssued(result, next)
    ensures LabelsIssued(result + [Label(LabelText(next, t))], next + 1)
  {
    var r := result + [Label(LabelText(next, t))];
    LabelsIssuedMore(result, next, next + 1);
    forall i, j | 0 <= i < j < |r| && r[i].Label? && r[j].Label? ensures r[i].name != r[j].name {
      if j == |result| {
        assert r[i] == result[i];
        var n: nat, u: Option<string> :| n < next && result[i].name == LabelText(n, u);
        if r[i].name == r[j].name {
          LabelTextInjective(n, u, next, t);
        }
      } else {
        assert r[i] == result[i] && r[j] == result[j];
      }
    }
    forall k | 0 <= k < |r| && r[k].Label?
      ensures exists n: nat, u: Option<string> :: n < next + 1 && r[k].name == LabelText(n, u)
    {
      if k == |result| {
        assert r[k].name == LabelText(next, t);
      } else {
        assert r[k] == result[k];
      }
    }
  }

  /** Inserting a comparison item keeps the labels as they are. */
  lemma LabelsIssuedInsert(result: seq<Out>, i: nat, c: Out, next: nat)
    requires LabelsIssued(result, next) && !c.Label?
    ensures LabelsIssued(Insert(result, i, c), next)
  {
    var r := Insert(result, i, c);
    if i > |result| {
      LabelsIssuedAppend(result, [c], next);
    } else {
      forall a, b | 0 <= a < b < |r| && r[a].Label? && r[b].Label? ensures r[a].name != r[b].name {
        var a' := if a < i then a else a - 1;
        var b' := if b < i then b else b - 1;
        assert a != i && b != i;
        assert r[a] == result[a'] by { if a < i { assert r[a] == r[..i][a]; } else { assert r[a] == r[i + 1..][a - i - 1]; } }
        assert r[b] == result[b'] by { if b < i { assert r[b] == r[..i][b]; } else { assert r[b] == r[i + 1..][b - i - 1]; } }
      }
      forall k | 0 <= k < |r| && r[k].Label?
        ensures exists n: nat, t: Option<string> :: n < next && r[k].name == LabelText(n, t)
      {
        assert k != i;
        var k' := if k < i then k else k - 1;
        assert r[k] == result[k'] by { if k < i { assert r[k] == r[..i][k]; } else { assert r[k] == r[i + 1..][k - i - 1]; } }
      }
    }
  }

  lemma OutsNoLabel(s: seq<OpEntry>)
    ensures forall k :: 0 <= k < |Outs(s)| ==> !Outs(s)[k].Label?
  {
  }

  lemma StackOkPrefix(stack: seq<OpEntry>, n: nat, switches: nat)
    requires StackOk(stack, switches) && n <= |stack|
    ensures StackOk(stack[..n], switches)
  {
    assert forall k :: 0 <= k < n ==> stack[..n][k] == stack[k];
  }

  /** Popping keeps the invariant. */
  lemma PopKeeps(st: TState, xs: seq<OpEntry>, extraPop: bool)
    requires Inv(st)
    ensures var (s, res) := PopUntilAnyOf(st.stack, st.result, xs, extraPop);
      Inv(st.(stack := s, result := res))
  {
    var n := StopAt(st.stack, xs);
    var (s, res) := PopUntilAnyOf(st.stack, st.result, xs, extraPop);
    StackOkPrefix(st.stack, |s|, st.switches);
    assert s == st.stack[..|s|];
    OutsNoLabel(Reverse(st.stack[n..]));
    LabelsIssuedAppend(st.result, Outs(Reverse(st.stack[n..])), st.nextLabel);
  }

  /** Popping, then moving the new top to the output, keeps the invariant. */
  lemma PopMoveKeeps(st: TState, xs: seq<OpEntry>)
    requires Inv(st)
    ensures var (s, res) := PopUntilAnyOf(st.stack, st.result, xs, false);
      s != [] ==> Inv(st.(stack := s[..|s| - 1], result := res + [ToOut(s[|s| - 1])]))
  {
    PopKeeps(st, xs, false);
    var (s, res) := PopUntilAnyOf(st.stack, st.result, xs, false);
    if s != [] {
      StackOkPrefix(s, |s| - 1, st.switches);
      LabelsIssuedAppend(res, [ToOut(s[|s| - 1])], st.nextLabel);
    }
  }

  lemma CaseKeeps(st: TState)
    requires Inv(st) && st.tokens != [] && CaseStep(st).Ok?
    ensures Inv(CaseStep(st).value)
  {
    var k := NearestSwitch(st.stack).value;
    var sw := st.stack[k];
    PopKeeps(st, [sw], false);
    var (s, res) := PopUntilAnyOf(st.stack, st.result, [sw], false);
    var l := LabelText(st.nextLabel, Some("case"));
    LabelsIssuedAppend(res, [Jmp(sw.id)], st.nextLabel);
    assert res + [Jmp(sw.id), Label(l)] == res + [Jmp(sw.id)] + [Label(l)];
    LabelsIssuedNew(res + [Jmp(sw.id)], st.nextLabel, Some("case"));
    LabelsIssuedInsert(res + [Jmp(sw.id), Label(l)], sw.insertPos, Cmp(st.tokens[1].value, l), st.nextLabel + 1);
  }

  lemma BraceKeeps(st: TState)
    requires Inv(st) && st.tokens != []
    ensures Inv(CloseBrace(st))
  {
    match NearestSwitch(st.stack)
    case Some(k) =>
      SwitchBraceKeeps(st, k);
    case None =>
      PopKeeps(st, [Op("{")], true);
  }

  /** `}` inside a switch keeps the invariant. */
  lemma SwitchBraceKeeps(st: TState, k: nat)
    requires Inv(st) && st.tokens != [] && NearestSwitch(st.stack) == Some(k)
    ensures Inv(CloseBrace(st))
  {
    InnerBraceKeeps(st, k);
    SwitchCloseKeeps(st, k);
  }

  /** A `{` inside the switch is dropped. */
  lemma InnerBraceKeeps(st: TState, k: nat)
    requires Inv(st) && st.tokens != [] && NearestSwitch(st.stack) == Some(k)
    ensures var s := PopUntilAnyOf(st.stack, st.result, [st.stack[k], Op("{")], false).0;
      (|s| > 0 && s[|s| - 1] == Op("{")) ==> Inv(CloseBrace(st))
  {
    var sw := st.stack[k];
    PopKeeps(st, [sw, Op("{")], false);
    var (s, res) := PopUntilAnyOf(st.stack, st.result, [sw, Op("{")], false);
    if |s| > 0 && s[|s| - 1] == Op("{") {
      StackOkPrefix(s, |s| - 1, st.switches);
      assert CloseBrace(st) == st.(result := res, stack := s[..|s| - 1], tokens := st.tokens[1..]);
    }
  }

  /** The switch itself is closed. */
  lemma SwitchCloseKeeps(st: TState, k: nat)
    requires Inv(st) && st.tokens != [] && NearestSwitch(st.stack) == Some(k)
    ensures var s := PopUntilAnyOf(st.stack, st.result, [st.stack[k], Op("{")], false).0;
      !(|s| > 0 && s[|s| - 1] == Op("{")) ==> Inv(CloseBrace(st))
  {
    var sw := st.stack[k];
    PopKeeps(st, [sw, Op("{")], false);
    assert sw.id < st.switches by { assert EntryOk(st.stack[k], st.switches); }
    var (s, res) := PopUntilAnyOf(st.stack, st.result, [sw, Op("{")], false);
    SwitchEndKeeps(st.(result := res, stack := s), sw.id);
  }

  /** Closing a switch keeps the invariant. */
  lemma SwitchEndKeeps(st: TState, id: nat)
    requires Inv(st) && id < st.switches && st.tokens != []
    ensures Inv(CloseSwitch(st, id))
  {
    LabelsIssuedNew(st.result, st.nextLabel, Some("switch_end"));
  }

  /** Every operator the priority branch pushes has a stack priority. */
  lemma PushableHasPriority(v: string)
    requires v in INPUT_PRIORITY && !IsSpecial(v)
    ensures v in OP_STACK_PRIORITY
  {
  }

  lemma OperatorKeeps(st: TState)
    requires Inv(st) && st.tokens != [] && st.tokens[0].value in INPUT_PRIORITY && !IsSpecial(st.tokens[0].value)
    requires OperatorStep(st, INPUT_PRIORITY[st.tokens[0].value]).Ok?
    ensures Inv(OperatorStep(st, INPUT_PRIORITY[st.tokens[0].value]).value)
  {
    var v := st.tokens[0].value;
    var r := OperatorStep(st, INPUT_PRIORITY[v]).value;
    if r.stack == st.stack + [Op(v)] {
      PushableHasPriority(v);
      assert EntryOk(Op(v), st.switches);
      assert forall k :: 0 <= k < |st.stack| ==> r.stack[k] == st.stack[k];
    } else {
      StackOkPrefix(st.stack, |st.stack| - 1, st.switches);
      LabelsIssuedAppend(st.result, [ToOut(st.stack[|st.stack| - 1])], st.nextLabel);
    }
  }

  lemma CloseParenKeeps(st: TState)
    requires Inv(st) && st.tokens != []
    ensures Inv(CloseParen(st))
  {
    PopKeeps(st, [Op("(")], true);
  }

  lemma LoopEndKeeps(st: TState)
    requires Inv(st) && st.tokens != [] && LoopEnd(st).Ok?
    ensures Inv(LoopEnd(st).value)
  {
    PopMoveKeeps(st, [Op("while")]);
  }

  lemma StatementEndKeeps(st: TState)
    requires Inv(st) && st.tokens != []
    ensures Inv(StatementEnd(st))
  {
    PopKeeps(st, [Op("for"), Op("while"), Op("switch"), Op("case"), Op("=")], false);
    PopMoveKeeps(st, [Op("for"), Op("while"), Op("switch"), Op("case"), Op("=")]);
  }

  /** One pass keeps the invariant. */
  lemma StepKeeps(st: TState)
    requires Inv(st) && st.tokens != [] && Step(st).Ok?
    ensures Inv(Step(st).value)
  {
    var v := st.tokens[0].value;
    if v !in INPUT_PRIORITY {
      LabelsIssuedAppend(st.result, [Str(v)], st.nextLabel);
    } else if IsSpecial(v) {
      if v == ")" {
        CloseParenKeeps(st);
      } else if v == "loop" {
        LoopEndKeeps(st);
      } else if v == ";" || v == "end" {
        StatementEndKeeps(st);
      } else if v == "case" {
        CaseKeeps(st);
      } else if v == "}" {
        BraceKeeps(st);
      }
    } else {
      OperatorKeeps(st);
    }
  }

  lemma MergeKeeps(st: TState)
    requires Inv(st)
    ensures Inv(MergeSwitch(st))
  {
    var n := |st.stack|;
    if n >= 2 && st.stack[n - 2..] == [Op("switch"), Op("{")] {
      StackOkPrefix(st.stack, n - 2, st.switches);
      var s := MergeSwitch(st).stack;
      assert forall k :: 0 <= k < n - 2 ==> s[k] == st.stack[k];
    }
  }

  /** With the invariant, the priority branch always finds a stack priority. */
  lemma NoPriorityError(st: TState)
    requires Inv(st) && st.tokens != []
    ensures !(Step(st).Err? && Step(st).error.NoStackPriority?)
  {
    var v := st.tokens[0].value;
    if v in INPUT_PRIORITY && !IsSpecial(v) && st.stack != [] {
      assert EntryOk(st.stack[|st.stack| - 1], st.switches);
    }
  }

  /** The translation keeps the invariant to the end, so the lookup of a
      stack priority never fails and no label is emitted twice. */
  lemma {:induction false} RunKeeps(st: TState)
    requires Inv(st)
    ensures Run(st).Ok? ==> Inv(Run(st).value)
    ensures !(Run(st).Err? && Run(st).error.NoStackPriority?)
    decreases Measure(st)
  {
    if st.tokens != [] {
      NoPriorityError(st);
      if Step(st).Ok? {
        StepKeeps(st);
        MergeKeeps(Step(st).value);
        RunKeeps(MergeSwitch(Step(st).value));
      }
    }
  }

  /** The output items of plain values, in order. */
  function Values(tokens: seq<Token>): (r: seq<Out>)
    ensures |r| == |tokens| && forall k :: 0 <= k < |tokens| ==> r[k] == Str(tokens[k].value)
  {
    seq(|tokens|, k requires 0 <= k < |tokens| => Str(tokens[k].value))
  }

  /** Identifiers and constants go to the output unchanged and in order. */
  lemma {:induction false} ValuesPassThrough(st: TState)
    requires st.stack == []
    requires forall k :: 0 <= k < |st.tokens| ==> st.tokens[k].value !in INPUT_PRIORITY
    ensures Run(st) == Ok(st.(result := st.result + Values(st.tokens), tokens := []))
    decreases |st.tokens|
  {
    if st.tokens == [] {
      assert st.result + Values(st.tokens) == st.result;
    } else {
      var next := st.(result := st.result + [Str(st.tokens[0].value)], tokens := st.tokens[1..]);
      assert Step(st) == Ok(next) && MergeSwitch(next) == next;
      assert Run(st) == Run(next);
      ValuesPassThrough(next);
      assert st.result + [Str(st.tokens[0].value)] + Values(st.tokens[1..]) == st.result + Values(st.tokens);
    }
  }

  /** An operand goes straight to the output while the stack is short. */
  lemma OperandStep(st: TState)
    requires st.tokens != [] && st.tokens[0].value !in INPUT_PRIORITY && |st.stack| < 2
    ensures Run(st) == Run(st.(result := st.result + [Str(st.tokens[0].value)], tokens := st.tokens[1..]))
  {
  }

  /** On an empty stack an operator is pushed. */
  lemma PushOnEmpty(st: TState)
    requires st.tokens != [] && st.stack == []
    requires st.tokens[0].value in INPUT_PRIORITY && !IsSpecial(st.tokens[0].value)
    ensures Run(st) == Run(st.(stack := [Op(st.tokens[0].value)], tokens := st.tokens[1..]))
  {
  }

  /** `x = y ;` becomes `x y =`: the assignment operator waits on the
      stack until the statement ends. */
  lemma AssignmentExample(t1: Token, t2: Token, t3: Token, t4: Token)
    requires t1.value !in INPUT_PRIORITY && t3.value !in INPUT_PRIORITY
    requires t2.value == "=" && t4.value == ";"
    ensures Run(Start([t1, t2, t3, t4], 0))
            == Ok(TState([Str(t1.value), Str(t3.value), Str("=")], [], [], 0, 0, map[]))
  {
    AssignmentFirstTwo(t1, t2, t3, t4);
    AssignmentRest(t1.value, t3, t4);
  }

  lemma AssignmentRest(x: string, t3: Token, t4: Token)
    requires t3.value !in INPUT_PRIORITY && t4.value == ";"
    ensures Run(TState([Str(x)], [Op("=")], [t3, t4], 0, 0, map[]))
            == Ok(TState([Str(x), Str(t3.value), Str("=")], [], [], 0, 0, map[]))
  {
    var s3 := TState([Str(x), Str(t3.value)], [Op("=")], [t4], 0, 0, map[]);
    AssignmentThird(x, t3, t4);
    StatementEndExample(s3, t4);
    assert s3.(result := s3.result + [Str("=")], stack := [], tokens := [])
           == TState([Str(x), Str(t3.value), Str("=")], [], [], 0, 0, map[]);
  }

  lemma AssignmentFirstTwo(t1: Token, t2: Token, t3: Token, t4: Token)
    requires t1.value !in INPUT_PRIORITY && t2.value == "="
    ensures Run(Start([t1, t2, t3, t4], 0)) == Run(TState([Str(t1.value)], [Op("=")], [t3, t4], 0, 0, map[]))
  {
    var s0 := Start([t1, t2, t3, t4], 0);
    var s1 := TState([Str(t1.value)], [], [t2, t3, t4], 0, 0, map[]);
    OperandStep(s0);
    assert s0.(result := s0.result + [Str(t1.value)], tokens := s0.tokens[1..]) == s1 by {
      assert [t1, t2, t3, t4][1..] == [t2, t3, t4];
    }
    AssignIsOperator();
    PushOnEmpty(s1);
    assert s1.(stack := [Op("=")], tokens := s1.tokens[1..]) == TState([Str(t1.value)], [Op("=")], [t3, t4], 0, 0, map[]) by {
      assert [t2, t3, t4][1..] == [t3, t4];
    }
  }

  lemma AssignmentThird(x: string, t3: Token, t4: Token)
    requires t3.value !in INPUT_PRIORITY
    ensures Run(TState([Str(x)], [Op("=")], [t3, t4], 0, 0, map[]))
            == Run(TState([Str(x), Str(t3.value)], [Op("=")], [t4], 0, 0, map[]))
  {
    var s2 := TState([Str(x)], [Op("=")], [t3, t4], 0, 0, map[]);
    OperandStep(s2);
    assert s2.(result := s2.result + [Str(t3.value)], tokens := s2.tokens[1..])
           == TState([Str(x), Str(t3.value)], [Op("=")], [t4], 0, 0, map[]) by {
      assert [t3, t4][1..] == [t4];
    }
  }

  lemma AssignIsOperator()
    ensures "=" in INPUT_PRIORITY && !IsSpecial("=")
  {
  }

  lemma StatementEndExample(s3: TState, t4: Token)
    requires t4.value == ";" && s3.stack == [Op("=")] && s3.tokens == [t4]
    ensures Run(s3) == Ok(s3.(result := s3.result + [Str("=")], stack := [], tokens := []))
  {
    assert ";" in INPUT_PRIORITY && IsSpecial(";");
    var xs := [Op("for"), Op("while"), Op("switch"), Op("case"), Op("=")];
    assert Op("=") in xs;
    assert PopUntilAnyOf(s3.stack, s3.result, xs, false) == (s3.stack, s3.result);
    assert [t4][1..] == [] && s3.stack[..0] == [];
  }

  /** The state `to_asm` starts in: empty output and stack, the counter of
      `asm_syntax`, no switch made yet. */
  function Start(tokens: seq<Token>, nextLabel: nat): TState {
    TState([], [], tokens, nextLabel, 0, map[])
  }

  lemma StartInv(tokens: seq<Token>, nextLabel: nat)
    ensures Inv(Start(tokens, nextLabel))
  {
  }

  /** `AsmTranslator`: the priority tables are the constants above. */
  class AsmTranslator {
    const nonOperators: seq<string>
    const asmSyntax: AsmSyntax

    constructor(nonOperators: seq<string>)
      ensures this.nonOperators == nonOperators && fresh(asmSyntax)
      ensures asmSyntax.nextMem == 500 && asmSyntax.idMem == map[] && asmSyntax.nextLabel == 0
    {
      this.nonOperators := nonOperators;
      asmSyntax := new AsmSyntax();
    }

    /** `pop_until(x, extra_pop)`. */
    static method PopUntil(stack0: seq<OpEntry>, result0: seq<Out>, x: OpEntry, extraPop: bool)
      returns (stack: seq<OpEntry>, result: seq<Out>)
      ensures (stack, result) == PopUntilAnyOf(stack0, result0, [x], extraPop)
    {
      stack, result := stack0, result0;
      while |stack| > 0 && stack[|stack| - 1] != x
        invariant PopUntilAnyOf(stack, result, [x], extraPop) == PopUntilAnyOf(stack0, result0, [x], extraPop)
        decreases |stack|
      {
        result := result + [ToOut(stack[|stack| - 1])];
        stack := stack[..|stack| - 1];
      }
      if extraPop && |stack| > 0 {
        stack := stack[..|stack| - 1];
      }
    }

    /** `pop_until_any_of(*xs, extra_pop)`. */
    static method PopUntilAnyOfMethod(stack0: seq<OpEntry>, result0: seq<Out>, xs: seq<OpEntry>, extraPop: bool)
      returns (stack: seq<OpEntry>, result: seq<Out>)
      ensures (stack, result) == PopUntilAnyOf(stack0, result0, xs, extraPop)
    {
      stack, result := stack0, result0;
      while |stack| > 0 && stack[|stack| - 1] !in xs
        invariant PopUntilAnyOf(stack, result, xs, extraPop) == PopUntilAnyOf(stack0, result0, xs, extraPop)
        decreases |stack|
      {
        result := result + [ToOut(stack[|stack| - 1])];
        stack := stack[..|stack| - 1];
      }
      if extraPop && |stack| > 0 {
        stack := stack[..|stack| - 1];
      }
    }

    /** The search for the nearest switch token, from the top of the stack. */
    static method FindSwitch(stack: seq<OpEntry>) returns (r: Option<nat>)
      ensures r == NearestSwitch(stack)
    {
      var k: nat := |stack|;
      while k > 0
        invariant k <= |stack|
        invariant NearestSwitch(stack) == NearestSwitch(stack[..k])
        invariant forall j :: k <= j < |stack| ==> !stack[j].Switch?
      {
        assert stack[..k][..k - 1] == stack[..k - 1];
        if stack[k - 1].Switch? {
          return Some(k - 1);
        }
        k := k - 1;
      }
      return None;
    }

    /** The `case` branch. */
    method Case(st: TState) returns (r: Result<TState, AsmError>)
      requires st.tokens != [] && st.nextLabel == asmSyntax.nextLabel
      modifies asmSyntax
      ensures r == CaseStep(st)
      ensures r.Ok? ==> asmSyntax.nextLabel == r.value.nextLabel
      ensures r.Err? ==> asmSyntax.nextLabel == FailLabel(st.nextLabel, r.error)
      ensures asmSyntax.idMem == old(asmSyntax.idMem) && asmSyntax.nextMem == old(asmSyntax.nextMem)
    {
      var tokens := st.tokens[1..];
      var s := FindSwitch(st.stack);
      if s.None? {
        return Err(NoSwitch);
      }
      var sw := st.stack[s.value];
      var stack, result := PopUntil(st.stack, st.result, sw, false);
      ghost var popped := result;
      result := result + [Jmp(sw.id)];
      var caseLabel := asmSyntax.GetLabelFor(Some("case"));
      if tokens == [] {
        return Err(MissingCaseConstant);
      }
      var constant := tokens[0].value;
      tokens := tokens[1..];
      result := result + [Label(caseLabel)];
      assert result == popped + [Jmp(sw.id), Label(caseLabel)];
      result := Insert(result, sw.insertPos, Cmp(constant, caseLabel));
      r := Ok(TState(result, stack, tokens, asmSyntax.nextLabel, st.switches, st.labels));
    }

    /** The `}` branch. */
    method Brace(st: TState) returns (r: TState)
      requires st.tokens != [] && st.nextLabel == asmSyntax.nextLabel
      modifies asmSyntax
      ensures r == CloseBrace(st)
      ensures asmSyntax.nextLabel == r.nextLabel
      ensures asmSyntax.idMem == old(asmSyntax.idMem) && asmSyntax.nextMem == old(asmSyntax.nextMem)
    {
      var s := FindSwitch(st.stack);
      if s.Some? {
        r := BraceInSwitch(st, s.value);
      } else {
        var stack, result := PopUntil(st.stack, st.result, Op("{"), true);
        r := st.(result := result, stack := stack, tokens := st.tokens[1..]);
      }
    }

    /** The `}` branch inside a switch: pop to the switch token or an inner
        `{`; drop the `{`, or close the switch with a fresh end label. */
    method BraceInSwitch(st: TState, k: nat) returns (r: TState)
      requires st.tokens != [] && st.nextLabel == asmSyntax.nextLabel
      requires k < |st.stack| && st.stack[k].Switch? && StopAt(st.stack, [st.stack[k], Op("{")]) > k
      modifies asmSyntax
      ensures r == CloseInSwitch(st, k)
      ensures asmSyntax.nextLabel == r.nextLabel
      ensures asmSyntax.idMem == old(asmSyntax.idMem) && asmSyntax.nextMem == old(asmSyntax.nextMem)
    {
      var sw := st.stack[k];
      var stack, result := PopUntilAnyOfMethod(st.stack, st.result, [sw, Op("{")], false);
      var labels := st.labels;
      if |stack| > 0 && stack[|stack| - 1] == Op("{") {
        stack := stack[..|stack| - 1];
      } else {
        var endLabel := asmSyntax.GetLabelFor(Some("switch_end"));
        result := result + [Label(endLabel)];
        labels := labels[sw.id := endLabel];
      }
      r := TState(result, stack, st.tokens[1..], asmSyntax.nextLabel, st.switches, labels);
    }

    /** One pass of the loop, before the switch check. */
    method Pass(st: TState) returns (r: Result<TState, AsmError>)
      requires st.tokens != [] && st.nextLabel == asmSyntax.nextLabel
      modifies asmSyntax
      ensures r == Step(st)
      ensures r.Ok? ==> asmSyntax.nextLabel == r.value.nextLabel
      ensures r.Err? ==> asmSyntax.nextLabel == FailLabel(st.nextLabel, r.error)
      ensures asmSyntax.idMem == old(asmSyntax.idMem) && asmSyntax.nextMem == old(asmSyntax.nextMem)
    {
      var v := st.tokens[0].value;
      if v !in INPUT_PRIORITY {
        return Ok(st.(result := st.result + [Str(v)], tokens := st.tokens[1..]));
      }
      if v == ")" || v == "loop" || v == ";" || v == "}" || v == "end" || v == ":" || v == "case" {
        r := Special(st);
      } else {
        r := Prioritized(st);
      }
    }

    /** The branch of the values handled by name. */
    method Special(st: TState) returns (r: Result<TState, AsmError>)
      requires st.tokens != [] && st.tokens[0].value in INPUT_PRIORITY && IsSpecial(st.tokens[0].value)
      requires st.nextLabel == asmSyntax.nextLabel
      modifies asmSyntax
      ensures r == Step(st)
      ensures r.Ok? ==> asmSyntax.nextLabel == r.value.nextLabel
      ensures r.Err? ==> asmSyntax.nextLabel == FailLabel(st.nextLabel, r.error)
      ensures asmSyntax.idMem == old(asmSyntax.idMem) && asmSyntax.nextMem == old(asmSyntax.nextMem)
    {
      var v := st.tokens[0].value;
      if v == ")" {
        var s := Paren(st);
        return Ok(s);
      } else if v == "loop" {
        r := Loop(st);
      } else if v == ";" || v == "end" {
        var s := Semicolon(st);
        return Ok(s);
      } else if v == "case" {
        r := Case(st);
      } else if v == "}" {
        var b := Brace(st);
        return Ok(b);
      } else {
        return Ok(st.(tokens := st.tokens[1..]));
      }
    }

    /** The `)` branch. */
    method Paren(st: TState) returns (r: TState)
      requires st.tokens != []
      ensures r == CloseParen(st)
    {
      var stack, result := PopUntil(st.stack, st.result, Op("("), true);
      r := st.(result := result, stack := stack, tokens := st.tokens[1..]);
    }

    /** The `loop` branch. */
    method Loop(st: TState) returns (r: Result<TState, AsmError>)
      requires st.tokens != []
      ensures r == LoopEnd(st)
    {
      var stack, result := PopUntil(st.stack, st.result, Op("while"), false);
      if stack == [] {
        return Err(PopFromEmpty);
      }
      result := result + [ToOut(stack[|stack| - 1])];
      r := Ok(st.(result := result, stack := stack[..|stack| - 1], tokens := st.tokens[1..]));
    }

    /** The `;` and `end` branch. */
    method Semicolon(st: TState) returns (r: TState)
      requires st.tokens != []
      ensures r == StatementEnd(st)
    {
      var stack, result := PopUntilAnyOfMethod(st.stack, st.result,
                                               [Op("for"), Op("while"), Op("switch"), Op("case"), Op("=")], false);
      if stack != [] {
        result := result + [ToOut(stack[|stack| - 1])];
        stack := stack[..|stack| - 1];
      }
      r := st.(result := result, stack := stack, tokens := st.tokens[1..]);
    }

    /** The priority branch: push the operator or move the stack top to the output. */
    method Prioritized(st: TState) returns (r: Result<TState, AsmError>)
      requires st.tokens != [] && st.tokens[0].value in INPUT_PRIORITY && !IsSpecial(st.tokens[0].value)
      ensures r == Step(st)
    {
      var v := st.tokens[0].value;
      var p := INPUT_PRIORITY[v];
      if |st.stack| > 0 {
        var lastOp := st.stack[|st.stack| - 1];
        var stackPriority := -1;
        if lastOp.Op? {
          if lastOp.op !in OP_STACK_PRIORITY {
            return Err(NoStackPriority(lastOp.op));
          }
          stackPriority := OP_STACK_PRIORITY[lastOp.op];
        }
        if p > stackPriority {
          return Ok(st.(stack := st.stack + [Op(v)], tokens := st.tokens[1..]));
        } else {
          return Ok(st.(result := st.result + [ToOut(lastOp)], stack := st.stack[..|st.stack| - 1]));
        }
      } else {
        return Ok(st.(stack := [Op(v)], tokens := st.tokens[1..]));
      }
    }

    /** The check after every pass: `switch` under `{` on top of the stack
        become one switch token recording the output length. */
    method Merge(st: TState) returns (r: TState)
      ensures r == MergeSwitch(st)
    {
      r := st;
      var n := |r.stack|;
      if n >= 2 && r.stack[n - 2..] == [Op("switch"), Op("{")] {
        r := r.(stack := r.stack[..n - 2] + [Switch(r.switches, |r.result|)], switches := r.switches + 1);
      }
    }

    /** `to_asm`: translate the whole input; the output comes with the
        labels the switch tokens' `FutureLabel`s hold at the end. */
    method ToAsm(tokens: seq<Token>) returns (r: Result<(seq<Out>, map<nat, string>), AsmError>)
      modifies asmSyntax
      ensures var run := Run(Start(tokens, old(asmSyntax.nextLabel)));
        r.Ok? == run.Ok? && (r.Err? ==> r.error == run.error)
        && (r.Ok? ==> r.value == (run.value.result, run.value.labels) && asmSyntax.nextLabel == run.value.nextLabel)
      ensures asmSyntax.nextLabel == RunLabel(Start(tokens, old(asmSyntax.nextLabel)))
      ensures asmSyntax.idMem == old(asmSyntax.idMem) && asmSyntax.nextMem == old(asmSyntax.nextMem)
    {
      var st := Start(tokens, asmSyntax.nextLabel);
      ghost var total := Run(st);
      ghost var totalLabel := RunLabel(st);
      while |st.tokens| > 0
        invariant Run(st) == total && RunLabel(st) == totalLabel && st.nextLabel == asmSyntax.nextLabel
        invariant asmSyntax.idMem == old(asmSyntax.idMem) && asmSyntax.nextMem == old(asmSyntax.nextMem)
        decreases Measure(st)
      {
        var next := Pass(st);
        if next.Err? {
          return Err(next.error);
        }
        st := Merge(next.value);
      }
      RunLabelOk(st);
      return Ok((st.result, st.labels));
    }
  }
}
