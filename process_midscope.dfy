/**
 * The declaration-placement analyzer: inside a { ... } block, a
 * declaration that follows any other kind of statement is reported at its
 * first identifier.
 */
module ProcessMidscope {
  import opened Wrappers
  import opened Lists
  import opened Syntax
  import opened Message
  import opened ParseUtils
  import opened Parser

  const LATE_DECLARATION := "Declares should be done at the start of a body"

  /** The index of the first child at or after i that is not a declaration (a comment counts), or |children|. */
  function FirstOther(children: seq<Node>, i: nat): (k: nat)
    requires i <= |children|
    ensures i <= k <= |children|
    ensures k < |children| ==> children[k].sym != Declaration
    ensures forall j :: i <= j < k ==> children[j].sym == Declaration
    decreases |children| - i
  {
    if i == |children| || children[i].sym != Declaration then i else FirstOther(children, i + 1)
  }

  /** A non-declaration comes before child i + 1 iff one comes before child i or child i is one. */
  lemma OtherStep(children: seq<Node>, i: nat, first: nat)
    requires i < |children| && first == FirstOther(children, 0)
    ensures first < i + 1 <==> first < i || children[i].sym != Declaration
  {
  }

  /** Child i of a body is a declaration placed after another statement. */
  predicate LateDeclaration(children: seq<Node>, i: nat)
    requires i < |children|
  {
    children[i].sym == Declaration && FirstOther(children, 0) < i
  }

  /** The finding for a late declaration: at its first identifier, if it has one. */
  function LateFinding(n: Node): (r: seq<Problem>)
    ensures r != [] <==> FirstNodeId(n, Identifier).1
    ensures r != [] ==> r == [NodeProblem(FirstNodeId(n, Identifier).0, LATE_DECLARATION)]
  {
    var symbol := FirstNodeId(n, Identifier);
    if symbol.1 then [NodeProblem(symbol.0, LATE_DECLARATION)] else []
  }

  /** The finding each child of a body contributes. */
  function LateCheck(children: seq<Node>): nat -> seq<Problem>
  {
    (k: nat) => if k < |children| && LateDeclaration(children, k) then LateFinding(children[k]) else []
  }

  /** The findings check_midscope prepends for node current, in discovery order. */
  function MidscopeFindings(current: Node): seq<Problem>
  {
    if current.sym != CompoundStatement then [] else ConcatRange(LateCheck(current.children), 0, |current.children|)
  }

  /**
   * A body reports exactly its late declarations that have an identifier,
   * each at that identifier; declarations before the first other statement
   * are never reported, and nodes other than bodies report nothing.
   */
  lemma MidscopeMembers(current: Node, p: Problem)
    ensures p in MidscopeFindings(current) <==>
            current.sym == CompoundStatement &&
            exists k :: 0 <= k < |current.children| && LateDeclaration(current.children, k) &&
                        FirstNodeId(current.children[k], Identifier).1 &&
                        p == NodeProblem(FirstNodeId(current.children[k], Identifier).0, LATE_DECLARATION)
  {
    var children := current.children;
    ConcatRangeMembers(LateCheck(children), 0, |children|, p);
    forall k | 0 <= k < |children|
      ensures p in LateCheck(children)(k) <==>
              LateDeclaration(children, k) && FirstNodeId(children[k], Identifier).1 &&
              p == NodeProblem(FirstNodeId(children[k], Identifier).0, LATE_DECLARATION)
    {
    }
  }

  /** Child i of a body is reported: a late declaration with an identifier. */
  predicate Reportable(children: seq<Node>, i: nat)
    requires i < |children|
  {
    LateDeclaration(children, i) && FirstNodeId(children[i], Identifier).1
  }

  /** The indices of the reported children of a body. */
  function Reported(children: seq<Node>): set<nat>
  {
    set k: nat | k < |children| && Reportable(children, k)
  }

  /** Each reported child gives exactly one finding: the count is theirs. */
  lemma MidscopeCount(current: Node)
    requires current.sym == CompoundStatement
    ensures |MidscopeFindings(current)| == |Reported(current.children)|
  {
    var children := current.children;
    var f := LateCheck(children);
    ConcatRangeCount(f, 0, |children|);
    assert Contributing(f, 0, |children|) == Reported(children);
  }

  /**
   * One pass of the loop of check_midscope: other tells whether a
   * non-declaration came before child i, and next whether one came before
   * child i + 1.
   */
  method CheckChild(children: seq<Node>, i: nat, ghost first: nat, other: bool, problems: seq<Problem>)
    returns (res: seq<Problem>, next: bool)
    requires i < |children| && first == FirstOther(children, 0)
    requires other <==> first < i
    ensures res == Reversed(LateCheck(children)(i)) + problems
    ensures next <==> first < i + 1
  {
    OtherStep(children, i, first);
    res := problems;
    next := other;
    var n := children[i];
    if n.sym == Declaration {
      if other {
        var symbol := FirstNodeId(n, Identifier);
        if symbol.1 {
          res := [NodeProblem(symbol.0, LATE_DECLARATION)] + res;
        }
      }
    } else {
      next := true;
    }
  }

  /** check_midscope: one pass over the body's children with the "other seen" flag. */
  method CheckMidscope(content: string, current: Node, problems: seq<Problem>) returns (res: seq<Problem>)
    ensures res == Reversed(MidscopeFindings(current)) + problems
  {
    res := problems;
    if current.sym != CompoundStatement {
      return;
    }
    var children := current.children;
    ghost var f := LateCheck(children);
    ghost var first := FirstOther(children, 0);
    var other := false;
    var i := 0;
    while i < |children|
      invariant 0 <= i <= |children|
      invariant other <==> first < i
      invariant Reversed(ConcatRange(f, 0, |children|)) + problems == Reversed(ConcatRange(f, i, |children|)) + res
    {
      ConcatRangeStep(f, i, |children|, res);
      res, other := CheckChild(children, i, first, other, res);
      i := i + 1;
    }
  }

  /** check_midscope as the check recurse_check applies at each node. */
  function MidscopeCheck(): Node -> seq<Problem>
  {
    n => MidscopeFindings(n)
  }

  /** recurse_check: prepends the findings of every body below p, in pre-order. */
  method RecurseCheck(content: string, p: Node, problems: seq<Problem>) returns (res: seq<Problem>)
    ensures res == Reversed(Visit(MidscopeCheck(), p)) + problems
    decreases p
  {
    res := problems;
    var i := 0;
    while i < |p.children|
      invariant 0 <= i <= |p.children|
      invariant Reversed(Visit(MidscopeCheck(), p)) + problems ==
                Reversed(VisitFrom(MidscopeCheck(), p, i)) + res
    {
      var n := p.children[i];
      ghost var here := MidscopeCheck()(n);
      ghost var below := Visit(MidscopeCheck(), n);
      ghost var rest := VisitFrom(MidscopeCheck(), p, i + 1);
      assert VisitFrom(MidscopeCheck(), p, i) == (here + below) + rest;
      PrependStep(here + below, rest, res);
      PrependStep(here, below, res);
      res := CheckMidscope(content, n, res);
      res := RecurseCheck(content, n, res);
      i := i + 1;
    }
  }

  /**
   * The result of process_midscope: nothing for messages other than
   * diagnostic, open and change; for those, the findings of every body
   * below the root, last found first. None stands for the failed
   * g_assert(content) when the handle has no text.
   */
  function MidscopeResult(h: ParseHandle): (r: Option<seq<Problem>>)
    ensures !IsAnalysisType(h.message.Type()) ==> r == Some([])
    ensures r.None? <==> IsAnalysisType(h.message.Type()) && h.source.None?
  {
    if !IsAnalysisType(h.message.Type()) then Some([])
    else if h.source.None? then None
    else Some(Reversed(Visit(MidscopeCheck(), h.source.value.root)))
  }

  /** process_midscope. */
  method ProcessMidscope(h: ParseHandle) returns (res: Option<seq<Problem>>)
    ensures res == MidscopeResult(h)
  {
    if h.message.Type() == Diagnostic || h.message.Type() == Open || h.message.Type() == Change {
      if h.source.None? {
        return None;
      }
      var r := RecurseCheck(h.source.value.content, h.source.value.root, []);
      assert r == Reversed(Visit(MidscopeCheck(), h.source.value.root)) + [];
      assert r == Reversed(Visit(MidscopeCheck(), h.source.value.root));
      return Some(r);
    }
    return Some([]);
  }

  /**
   * Every finding of process_midscope is a late declaration of some body
   * below the root, each body judged on its own children only, and every
   * such declaration with an identifier is reported.
   */
  lemma MidscopeResultCovers(h: ParseHandle, p: Problem)
    requires IsAnalysisType(h.message.Type()) && h.source.Some?
    ensures p in MidscopeResult(h).value <==>
            exists b, k :: IsDescendant(b, h.source.value.root) && b.sym == CompoundStatement &&
                           0 <= k < |b.children| && LateDeclaration(b.children, k) &&
                           FirstNodeId(b.children[k], Identifier).1 &&
                           p == NodeProblem(FirstNodeId(b.children[k], Identifier).0, LATE_DECLARATION)
  {
    var root := h.source.value.root;
    ReversedMembers(Visit(MidscopeCheck(), root), p);
    VisitMembers(MidscopeCheck(), root, p);
    forall b | IsDescendant(b, root)
      ensures p in MidscopeFindings(b) <==>
              b.sym == CompoundStatement &&
              exists k :: 0 <= k < |b.children| && LateDeclaration(b.children, k) &&
                          FirstNodeId(b.children[k], Identifier).1 &&
                          p == NodeProblem(FirstNodeId(b.children[k], Identifier).0, LATE_DECLARATION)
    {
      MidscopeMembers(b, p);
    }
  }

  /**
   * A block nested in a body starts with a fresh flag: in
   * { call(); if (c) { int d; } } the declaration d follows a statement of
   * the outer body but opens its own block, so nothing is reported.
   */
  lemma NestedBlockFresh()
    ensures var id := Node(Identifier, 0, 1, Point(1, 4), Point(1, 5), [], map[]);
            var decl := Node(Declaration, 0, 2, Point(1, 0), Point(1, 6), [id], map[]);
            var call := Node(Other(0), 0, 1, Point(0, 0), Point(0, 7), [], map[]);
            var inner := Node(CompoundStatement, 0, 3, Point(1, 0), Point(1, 8), [decl], map[]);
            var ifStmt := Node(Other(1), 0, 3, Point(1, 0), Point(1, 8), [inner], map[]);
            && MidscopeFindings(Node(CompoundStatement, 0, 4, Point(0, 0), Point(2, 0), [call, ifStmt], map[])) == []
            && MidscopeFindings(inner) == []
  {
  }

  /** In { call(); int d; } the declaration d is reported at its identifier. */
  lemma LateAfterCall()
    ensures var id := Node(Identifier, 0, 1, Point(1, 4), Point(1, 5), [], map[]);
            var decl := Node(Declaration, 0, 2, Point(1, 0), Point(1, 6), [id], map[]);
            var call := Node(Other(0), 0, 1, Point(0, 0), Point(0, 7), [], map[]);
            MidscopeFindings(Node(CompoundStatement, 0, 4, Point(0, 0), Point(2, 0), [call, decl], map[])) ==
            [NodeProblem(id, LATE_DECLARATION)]
  {
    var id := Node(Identifier, 0, 1, Point(1, 4), Point(1, 5), [], map[]);
    var decl := Node(Declaration, 0, 2, Point(1, 0), Point(1, 6), [id], map[]);
    var call := Node(Other(0), 0, 1, Point(0, 0), Point(0, 7), [], map[]);
    assert FirstOther([call, decl], 0) == 0;
    assert FirstNodeId(decl, Identifier).0 == id;
  }
}
