/** semanticanalyzer.py: the definition-before-use check. The walk goes
    over the parse tree breadth first; three callbacks say which
    identifiers a node defines, which it uses, and whether its children are
    visited. Here the tree is the parser's tree, and the children callback
    chooses between a node's own content and nothing. */
module Semantic {
  import opened Util
  import opened Tokens
  import S = SyntaxAnalysis

  type Tree = S.StackElement

  /** What `parse_tree` raises at a use of an identifier not defined yet:
      `UndefinedIdentifierError` with the node's position, or, on a token
      leaf, which has no `get_line_pos`, an `AttributeError`. */
  datatype SemanticError =
    | UndefinedIdentifier(identifier: string, at: Position)
    | NoLinePos(identifier: string)

  /** `get_node_children`, `get_identifiers_def` and `get_identifiers_used`;
      `None` stands for nothing. */
  datatype Callbacks = Callbacks(expand: Tree -> bool,
                                 defs: Tree -> Option<seq<string>>,
                                 uses: Tree -> Option<seq<string>>)

  function OrNothing(o: Option<seq<string>>): (r: seq<string>)
    ensures o.None? ==> r == []
    ensures o.Some? ==> r == o.value
  {
    if o.Some? then o.value else []
  }

  function DefsOf(cb: Callbacks, e: Tree): seq<string> {
    OrNothing(cb.defs(e))
  }

  function UsesOf(cb: Callbacks, e: Tree): seq<string> {
    OrNothing(cb.uses(e))
  }

  /** The nodes the walk queues after `e`. */
  function Kids(cb: Callbacks, e: Tree): (r: seq<Tree>)
    ensures r == [] || (e.Node? && r == e.children)
  {
    if e.Node? && cb.expand(e) then e.children else []
  }

  /** The children of every node of `q`, in order. */
  function AllKids(cb: Callbacks, q: seq<Tree>): seq<Tree> {
    if q == [] then [] else Kids(cb, q[0]) + AllKids(cb, q[1..])
  }

  function Size(e: Tree): nat
    decreases e
  {
    match e
    case Leaf(_) => 1
    case Node(_, children, _) => 1 + SumSizes(children)
  }

  function SumSizes(q: seq<Tree>): nat
    decreases q
  {
    if q == [] then 0 else Size(q[0]) + SumSizes(q[1..])
  }

  lemma {:induction false} SumSizesAppend(a: seq<Tree>, b: seq<Tree>)
    ensures SumSizes(a + b) == SumSizes(a) + SumSizes(b)
  {
    if a == [] {
      assert a + b == b;
    } else {
      assert (a + b)[1..] == a[1..] + b;
      SumSizesAppend(a[1..], b);
    }
  }

  lemma {:induction false} AllKidsSmaller(cb: Callbacks, q: seq<Tree>)
    requires q != []
    ensures SumSizes(AllKids(cb, q)) < SumSizes(q)
    decreases |q|
  {
    SumSizesAppend(Kids(cb, q[0]), AllKids(cb, q[1..]));
    KidsSmaller(cb, q[0]);
    if q[1..] != [] {
      AllKidsSmaller(cb, q[1..]);
    }
  }

  lemma KidsSmaller(cb: Callbacks, e: Tree)
    ensures SumSizes(Kids(cb, e)) < Size(e)
  {
  }

  /** The queue after dequeuing its front node is smaller. */
  lemma QueueShrinks(cb: Callbacks, q: seq<Tree>)
    requires q != []
    ensures SumSizes(q[1..] + Kids(cb, q[0])) < SumSizes(q)
  {
    SumSizesAppend(q[1..], Kids(cb, q[0]));
    KidsSmaller(cb, q[0]);
  }

  /** The order in which the walk dequeues nodes, starting from queue `q`:
      the front node, then the rest of the queue with its children behind. */
  function BfsOrder(cb: Callbacks, q: seq<Tree>): seq<Tree>
    decreases SumSizes(q)
  {
    if q == [] then []
    else
      QueueShrinks(cb, q);
      [q[0]] + BfsOrder(cb, q[1..] + Kids(cb, q[0]))
  }

  /** Level order: the queue, then all children of its nodes, then theirs. */
  function Levels(cb: Callbacks, q: seq<Tree>): seq<Tree>
    decreases SumSizes(q)
  {
    if q == [] then []
    else
      AllKidsSmaller(cb, q);
      q + Levels(cb, AllKids(cb, q))
  }

  lemma BfsCons(cb: Callbacks, x: Tree, s: seq<Tree>)
    ensures BfsOrder(cb, [x] + s) == [x] + BfsOrder(cb, s + Kids(cb, x))
  {
    assert ([x] + s)[0] == x && ([x] + s)[1..] == s;
  }

  /** Everything in the queue is dequeued before anything queued behind it. */
  lemma {:induction false} BfsShift(cb: Callbacks, q: seq<Tree>, r: seq<Tree>)
    ensures BfsOrder(cb, q + r) == q + BfsOrder(cb, r + AllKids(cb, q))
    decreases |q|
  {
    if q == [] {
      assert q + r == r && r + AllKids(cb, q) == r;
    } else {
      var x, t := q[0], q[1..];
      var a := r + Kids(cb, x);
      var b := BfsOrder(cb, r + AllKids(cb, q));
      assert q + r == [x] + (t + r);
      BfsCons(cb, x, t + r);
      assert (t + r) + Kids(cb, x) == t + a;
      BfsShift(cb, t, a);
      assert a + AllKids(cb, t) == r + AllKids(cb, q);
      assert [x] + (t + b) == q + b;
    }
  }

  /** The FIFO queue visits the tree level by level. */
  lemma {:induction false} BfsIsLevelOrder(cb: Callbacks, q: seq<Tree>)
    ensures BfsOrder(cb, q) == Levels(cb, q)
    decreases SumSizes(q)
  {
    if q != [] {
      BfsShift(cb, q, []);
      assert q + [] == q && [] + AllKids(cb, q) == AllKids(cb, q);
      AllKidsSmaller(cb, q);
      BfsIsLevelOrder(cb, AllKids(cb, q));
    }
  }

  /** The first use that is not defined yet. */
  function FirstUndefined(uses: seq<string>, defined: seq<string>): (r: Option<nat>)
    ensures r.None? <==> forall k :: 0 <= k < |uses| ==> uses[k] in defined
    ensures r.Some? ==> r.value < |uses| && uses[r.value] !in defined
                        && forall k :: 0 <= k < r.value ==> uses[k] in defined
  {
    if uses == [] then None
    else if uses[0] !in defined then Some(0)
    else match FirstUndefined(uses[1..], defined)
      case None => None
      case Some(k) => Some(k + 1)
  }

  /** The error the check of `uses` raises at node `e`, if any. */
  function UseError(uses: seq<string>, defined: seq<string>, e: Tree): (r: Option<SemanticError>)
    ensures r.None? <==> forall k :: 0 <= k < |uses| ==> uses[k] in defined
    ensures r.Some? ==> var k := FirstUndefined(uses, defined).value;
      r.value == if e.Node? then UndefinedIdentifier(uses[k], e.pos) else NoLinePos(uses[k])
  {
    match FirstUndefined(uses, defined)
    case None => None
    case Some(k) => Some(if e.Node? then UndefinedIdentifier(uses[k], e.pos) else NoLinePos(uses[k]))
  }

  /** One visit: the uses are checked against what is defined before the
      node's own definitions are added, so a node cannot define what it uses. */
  function Visit(cb: Callbacks, e: Tree, defined: seq<string>): (r: Result<seq<string>, SemanticError>)
    ensures r.Ok? <==> forall u :: u in UsesOf(cb, e) ==> u in defined
    ensures r.Ok? ==> r.value == defined + DefsOf(cb, e)
    ensures r.Err? ==> Some(r.error) == UseError(UsesOf(cb, e), defined, e)
  {
    match UseError(UsesOf(cb, e), defined, e)
    case Some(err) => Err(err)
    case None => Ok(defined + DefsOf(cb, e))
  }

  /** The loop of `parse_tree` from queue `q`: the identifiers defined when
      it stops, and the error it stops with, if any. */
  function Walk(cb: Callbacks, q: seq<Tree>, defined: seq<string>): (seq<string>, Option<SemanticError>)
    decreases SumSizes(q)
  {
    if q == [] then (defined, None)
    else
      match Visit(cb, q[0], defined)
      case Err(e) => (defined, Some(e))
      case Ok(d) =>
        QueueShrinks(cb, q);
        Walk(cb, q[1..] + Kids(cb, q[0]), d)
  }

  /** The same check over a list of nodes taken in order. */
  function Scan(cb: Callbacks, order: seq<Tree>, defined: seq<string>): (seq<string>, Option<SemanticError>) {
    if order == [] then (defined, None)
    else
      match Visit(cb, order[0], defined)
      case Err(e) => (defined, Some(e))
      case Ok(d) => Scan(cb, order[1..], d)
  }

  /** The identifiers defined by `nodes`, in order. */
  function AllDefs(cb: Callbacks, nodes: seq<Tree>): seq<string> {
    if nodes == [] then [] else DefsOf(cb, nodes[0]) + AllDefs(cb, nodes[1..])
  }

  /** The walk is a scan of the nodes in breadth-first order. */
  lemma {:induction false} WalkIsScan(cb: Callbacks, q: seq<Tree>, defined: seq<string>)
    ensures Walk(cb, q, defined) == Scan(cb, BfsOrder(cb, q), defined)
    decreases SumSizes(q)
  {
    if q != [] {
      var order := BfsOrder(cb, q);
      assert order[0] == q[0] && order[1..] == BfsOrder(cb, q[1..] + Kids(cb, q[0]));
      if Visit(cb, q[0], defined).Ok? {
        QueueShrinks(cb, q);
        WalkIsScan(cb, q[1..] + Kids(cb, q[0]), Visit(cb, q[0], defined).value);
      }
    }
  }

  /** What is defined when node `order[i]` is visited. */
  function DefinedBefore(cb: Callbacks, order: seq<Tree>, defined: seq<string>, i: nat): seq<string>
    requires i <= |order|
  {
    defined + AllDefs(cb, order[..i])
  }

  /** Every use of node `e` is defined. */
  predicate UsesDefined(cb: Callbacks, e: Tree, defined: seq<string>) {
    forall u :: u in UsesOf(cb, e) ==> u in defined
  }

  /** Every node of `order` uses only identifiers defined before it. */
  ghost predicate AllDefinedInTime(cb: Callbacks, order: seq<Tree>, defined: seq<string>) {
    forall i :: 0 <= i < |order| ==> UsesDefined(cb, order[i], DefinedBefore(cb, order, defined, i))
  }

  /** Node `order[i]` is the first that uses an identifier not defined before it. */
  ghost predicate FailsFirstAt(cb: Callbacks, order: seq<Tree>, defined: seq<string>, i: nat) {
    i < |order|
    && !UsesDefined(cb, order[i], DefinedBefore(cb, order, defined, i))
    && forall j :: 0 <= j < i ==> UsesDefined(cb, order[j], DefinedBefore(cb, order, defined, j))
  }

  lemma DefinedBeforeCons(cb: Callbacks, order: seq<Tree>, defined: seq<string>, i: nat)
    requires 0 < i <= |order|
    ensures DefinedBefore(cb, order, defined, i)
            == DefinedBefore(cb, order[1..], defined + DefsOf(cb, order[0]), i - 1)
  {
    assert order[..i][0] == order[0] && order[..i][1..] == order[1..][..i - 1];
  }

  lemma DefinedBeforeAll(cb: Callbacks, order: seq<Tree>, defined: seq<string>)
    ensures DefinedBefore(cb, order, defined, 0) == defined
  {
    assert order[..0] == [];
  }

  lemma AllDefinedCons(cb: Callbacks, order: seq<Tree>, defined: seq<string>)
    requires order != []
    ensures AllDefinedInTime(cb, order, defined)
            <==> UsesDefined(cb, order[0], defined)
                 && AllDefinedInTime(cb, order[1..], defined + DefsOf(cb, order[0]))
  {
    var d1 := defined + DefsOf(cb, order[0]);
    DefinedBeforeAll(cb, order, defined);
    forall i | 0 < i < |order|
      ensures DefinedBefore(cb, order, defined, i) == DefinedBefore(cb, order[1..], d1, i - 1)
    {
      DefinedBeforeCons(cb, order, defined, i);
    }
    assert forall i :: 0 < i < |order| ==> order[i] == order[1..][i - 1];
  }

  lemma FailsFirstCons(cb: Callbacks, order: seq<Tree>, defined: seq<string>, i: nat)
    requires order != [] && UsesDefined(cb, order[0], defined)
    requires FailsFirstAt(cb, order[1..], defined + DefsOf(cb, order[0]), i)
    ensures FailsFirstAt(cb, order, defined, i + 1)
    ensures DefinedBefore(cb, order, defined, i + 1) == DefinedBefore(cb, order[1..], defined + DefsOf(cb, order[0]), i)
  {
    var d1 := defined + DefsOf(cb, order[0]);
    DefinedBeforeAll(cb, order, defined);
    forall j | 0 < j <= i + 1
      ensures DefinedBefore(cb, order, defined, j) == DefinedBefore(cb, order[1..], d1, j - 1)
    {
      DefinedBeforeCons(cb, order, defined, j);
    }
    assert forall j :: 0 < j <= i + 1 ==> order[j] == order[1..][j - 1];
  }

  /** A scan succeeds exactly when every node uses only identifiers defined
      before it, and then it has appended every definition; when it fails,
      it fails at the first node that uses an undefined identifier, raising
      for that node's first such use, with the definitions of the nodes
      before it appended. */
  lemma {:induction false} ScanSpec(cb: Callbacks, order: seq<Tree>, defined: seq<string>)
    ensures Scan(cb, order, defined).1.None? <==> AllDefinedInTime(cb, order, defined)
    ensures Scan(cb, order, defined).1.None? ==> Scan(cb, order, defined).0 == DefinedBefore(cb, order, defined, |order|)
    ensures Scan(cb, order, defined).1.Some? ==>
              exists i: nat :: FailsFirstAt(cb, order, defined, i)
                && Scan(cb, order, defined).0 == DefinedBefore(cb, order, defined, i)
                && Scan(cb, order, defined).1 == UseError(UsesOf(cb, order[i]), Scan(cb, order, defined).0, order[i])
  {
    if order == [] {
      assert order[..0] == [];
    } else {
      var x := order[0];
      DefinedBeforeAll(cb, order, defined);
      AllDefinedCons(cb, order, defined);
      if Visit(cb, x, defined).Err? {
        assert FailsFirstAt(cb, order, defined, 0);
      } else {
        var d1 := defined + DefsOf(cb, x);
        ScanSpec(cb, order[1..], d1);
        var (d, err) := Scan(cb, order[1..], d1);
        if err.None? {
          DefinedBeforeCons(cb, order, defined, |order|);
          assert order[1..][..|order| - 1] == order[1..];
        } else {
          var i: nat :| FailsFirstAt(cb, order[1..], d1, i) && d == DefinedBefore(cb, order[1..], d1, i)
                        && err == UseError(UsesOf(cb, order[1..][i]), d, order[1..][i]);
          FailsFirstCons(cb, order, defined, i);
          assert order[i + 1] == order[1..][i];
        }
      }
    }
  }

  /** One pass of the loop of `parse_tree`. */
  lemma WalkStep(cb: Callbacks, q: seq<Tree>, defined: seq<string>)
    requires q != []
    ensures UseError(UsesOf(cb, q[0]), defined, q[0]).Some? ==>
              Walk(cb, q, defined) == (defined, UseError(UsesOf(cb, q[0]), defined, q[0]))
    ensures UseError(UsesOf(cb, q[0]), defined, q[0]).None? ==>
              Walk(cb, q, defined) == Walk(cb, q[1..] + Kids(cb, q[0]), defined + DefsOf(cb, q[0]))
  {
  }

  /** `SemanticAnalyzer`: the callbacks, and the identifiers defined so far. */
  class SemanticAnalyzer {
    var definedIdentifiers: seq<string>
    const expand: Tree -> bool
    const identifiersDef: Tree -> Option<seq<string>>
    const identifiersUsed: Tree -> Option<seq<string>>

    constructor(expand: Tree -> bool, identifiersDef: Tree -> Option<seq<string>>,
                identifiersUsed: Tree -> Option<seq<string>>)
      ensures definedIdentifiers == []
      ensures this.expand == expand && this.identifiersDef == identifiersDef
      ensures this.identifiersUsed == identifiersUsed
    {
      definedIdentifiers := [];
      this.expand := expand;
      this.identifiersDef := identifiersDef;
      this.identifiersUsed := identifiersUsed;
    }

    function Cbs(): Callbacks {
      Callbacks(expand, identifiersDef, identifiersUsed)
    }

    /** The check of one node's uses. */
    method CheckUses(used: seq<string>, node: Tree) returns (err: Option<SemanticError>)
      ensures err == UseError(used, definedIdentifiers, node)
    {
      for i := 0 to |used|
        invariant forall k :: 0 <= k < i ==> used[k] in definedIdentifiers
      {
        if used[i] !in definedIdentifiers {
          assert FirstUndefined(used, definedIdentifiers) == Some(i);
          if node.Node? {
            return Some(UndefinedIdentifier(used[i], node.pos));
          }
          return Some(NoLinePos(used[i]));
        }
      }
      return None;
    }

    /** `parse_tree`: walk the tree from its root; `true` when every use
        is defined in time. The identifiers defined before an error stay
        defined. */
    method ParseTree(tree: Tree) returns (r: Result<bool, SemanticError>)
      modifies this
      ensures var (defined, err) := Walk(Cbs(), [tree], old(definedIdentifiers));
        definedIdentifiers == defined
        && (err.None? ==> r == Ok(true))
        && (err.Some? ==> r == Err(err.value))
    {
      var queue := [tree];
      while |queue| > 0
        invariant Walk(Cbs(), queue, definedIdentifiers) == Walk(Cbs(), [tree], old(definedIdentifiers))
        decreases SumSizes(queue)
      {
        ghost var q0, d0 := queue, definedIdentifiers;
        var current := queue[0];
        queue := queue[1..];
        var currentIdDefs := identifiersDef(current);
        var currentIdUsed := identifiersUsed(current);
        if currentIdUsed.Some? {
          var err := CheckUses(currentIdUsed.value, current);
          if err.Some? {
            WalkStep(Cbs(), q0, d0);
            return Err(err.value);
          }
        }
        if currentIdDefs.Some? {
          definedIdentifiers := definedIdentifiers + currentIdDefs.value;
        }
        if current.Node? && expand(current) {
          queue := queue + current.children;
        }
        assert UsesOf(Cbs(), current) == OrNothing(currentIdUsed);
        assert UseError(UsesOf(Cbs(), current), d0, current).None?;
        assert definedIdentifiers == d0 + DefsOf(Cbs(), current);
        assert queue == q0[1..] + Kids(Cbs(), current);
        WalkStep(Cbs(), q0, d0);
        QueueShrinks(Cbs(), q0);
      }
      return Ok(true);
    }
  }

  /** The whole check in one statement: `parse_tree` returns `true` exactly
      when, in level order, every node uses only identifiers that the nodes
      before it define, and otherwise raises at the first node that does not. */
  lemma ParseTreeSpec(cb: Callbacks, tree: Tree, defined: seq<string>)
    ensures var order := Levels(cb, [tree]);
      (Walk(cb, [tree], defined).1.None? <==> AllDefinedInTime(cb, order, defined))
      && (Walk(cb, [tree], defined).1.None? ==> Walk(cb, [tree], defined).0 == DefinedBefore(cb, order, defined, |order|))
      && (Walk(cb, [tree], defined).1.Some? ==>
            exists i: nat :: FailsFirstAt(cb, order, defined, i)
              && Walk(cb, [tree], defined).0 == DefinedBefore(cb, order, defined, i)
              && Walk(cb, [tree], defined).1 == UseError(UsesOf(cb, order[i]), Walk(cb, [tree], defined).0, order[i]))
  {
    WalkIsScan(cb, [tree], defined);
    BfsIsLevelOrder(cb, [tree]);
    ScanSpec(cb, Levels(cb, [tree]), defined);
  }
}
