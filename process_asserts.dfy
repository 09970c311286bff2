/**
 * The unchecked-pointer analyzer: in every static function definition,
 * each pointer parameter must be asserted, mentioned together with "null"
 * in a comment, or renamed by a cast into a name that is asserted.
 */
module ProcessAsserts {
  import opened Wrappers
  import opened Lists
  import opened Syntax
  import opened Message
  import opened ParseUtils
  import opened Parser

  /*
   * collect_asserts
   */

  /** The argument text collect_asserts records for a call node: `g_assert...(x)` with one argument. */
  function AssertArg(content: string, n: Node): (r: Option<string>)
    ensures r.Some? <==> Field(n, "function").Some? && Field(n, "arguments").Some? &&
                         |Field(n, "arguments").value.children| == 1 &&
                         NodeEq(content, Field(n, "function").value, "g_assert")
    ensures r.Some? ==> r.value == NodeGetString(content, Field(n, "arguments").value.children[0])
  {
    var callee := Field(n, "function");
    var args := Field(n, "arguments");
    if callee.None? || args.None? then None
    else if |args.value.children| != 1 then None
    else if !NodeEq(content, callee.value, "g_assert") then None
    else Some(NodeGetString(content, args.value.children[0]))
  }

  /** The names collect_asserts gathers below n. */
  function AssertsIn(content: string, n: Node): set<string>
    decreases n, |n.children| + 1
  {
    AssertsFrom(content, n, 0)
  }

  /** The loop of collect_asserts from child i on: the first call child ends it. */
  function AssertsFrom(content: string, n: Node, i: nat): set<string>
    requires i <= |n.children|
    decreases n, |n.children| - i
  {
    if i == |n.children| then {}
    else if n.children[i].sym != CallExpression then AssertsIn(content, n.children[i]) + AssertsFrom(content, n, i + 1)
    else if AssertArg(content, n.children[i]).Some? then {AssertArg(content, n.children[i]).value}
    else {}
  }

  /** No call expression among children i .. k-1 of n. */
  predicate NoCallBetween(n: Node, i: nat, k: nat)
    requires i <= k <= |n.children|
  {
    forall j :: i <= j < k ==> n.children[j].sym != CallExpression
  }

  /**
   * d is looked at by collect_asserts started at n: a child with no call
   * before it, or looked at from such a child that is not itself a call.
   */
  ghost predicate Scanned(d: Node, n: Node)
    decreases n, 1
  {
    ScannedFrom(d, n, 0)
  }

  /** Scanned, starting at child i. */
  ghost predicate ScannedFrom(d: Node, n: Node, i: nat)
    requires i <= |n.children|
    decreases n, 0
  {
    exists k :: i <= k < |n.children| && NoCallBetween(n, i, k) &&
                (n.children[k] == d || (n.children[k].sym != CallExpression && Scanned(d, n.children[k])))
  }

  /** Every recorded name is the argument of a g_assert call that is looked at. */
  lemma {:induction false} AssertsFromSound(content: string, n: Node, i: nat, x: string) returns (d: Node)
    requires i <= |n.children|
    requires x in AssertsFrom(content, n, i)
    ensures ScannedFrom(d, n, i) && d.sym == CallExpression && AssertArg(content, d) == Some(x)
    decreases n, |n.children| - i
  {
    var c := n.children[i];
    if c.sym == CallExpression {
      d := c;
      assert NoCallBetween(n, i, i);
    } else if x in AssertsIn(content, c) {
      d := AssertsFromSound(content, c, 0, x);
      assert Scanned(d, c);
      assert NoCallBetween(n, i, i);
    } else {
      d := AssertsFromSound(content, n, i + 1, x);
      var k :| i + 1 <= k < |n.children| && NoCallBetween(n, i + 1, k) &&
               (n.children[k] == d || (n.children[k].sym != CallExpression && Scanned(d, n.children[k])));
      assert NoCallBetween(n, i, k);
    }
  }

  /** Every g_assert call that is looked at has its argument recorded. */
  lemma {:induction false} AssertsFromComplete(content: string, n: Node, i: nat, d: Node)
    requires i <= |n.children|
    requires ScannedFrom(d, n, i) && d.sym == CallExpression && AssertArg(content, d).Some?
    ensures AssertArg(content, d).value in AssertsFrom(content, n, i)
    decreases n, |n.children| - i
  {
    var k :| i <= k < |n.children| && NoCallBetween(n, i, k) &&
             (n.children[k] == d || (n.children[k].sym != CallExpression && Scanned(d, n.children[k])));
    var c := n.children[i];
    if k == i {
      if c != d {
        AssertsFromComplete(content, c, 0, d);
      }
    } else {
      assert c.sym != CallExpression;
      assert NoCallBetween(n, i + 1, k);
      assert ScannedFrom(d, n, i + 1);
      AssertsFromComplete(content, n, i + 1, d);
    }
  }

  /**
   * collect_asserts records exactly the arguments of the one-argument
   * g_assert calls it looks at: the search stops at the first call child
   * of each node, and never enters a call.
   */
  lemma AssertsInIff(content: string, n: Node, x: string)
    ensures x in AssertsIn(content, n) <==>
            exists d :: Scanned(d, n) && d.sym == CallExpression && AssertArg(content, d) == Some(x)
  {
    if x in AssertsIn(content, n) {
      var d := AssertsFromSound(content, n, 0, x);
    }
    if exists d :: Scanned(d, n) && d.sym == CallExpression && AssertArg(content, d) == Some(x) {
      var d :| Scanned(d, n) && d.sym == CallExpression && AssertArg(content, d) == Some(x);
      AssertsFromComplete(content, n, 0, d);
    }
  }

  /** collect_asserts: adds the names gathered below check to res0. */
  method CollectAsserts(content: string, check: Node, res0: set<string>) returns (res: set<string>)
    ensures res == res0 + AssertsIn(content, check)
    decreases check
  {
    res := res0;
    var i := 0;
    while i < |check.children|
      invariant 0 <= i <= |check.children|
      invariant res + AssertsFrom(content, check, i) == res0 + AssertsIn(content, check)
    {
      var n := check.children[i];
      if n.sym != CallExpression {
        res := CollectAsserts(content, n, res);
        i := i + 1;
        continue;
      }
      var callee := Field(n, "function");
      var args := Field(n, "arguments");
      if callee.None? || args.None? {
        return;
      }
      if |args.value.children| != 1 {
        return;
      }
      if !NodeEq(content, callee.value, "g_assert") {
        return;
      }
      var arg := args.value.children[0];
      res := res + {NodeGetString(content, arg)};
      return;
    }
  }

  /*
   * The local get_first_node_id
   */

  /** The first of elements of s with symbol id. */
  function FirstWith(s: seq<Node>, id: Symbol): (r: Option<Node>)
    ensures r.Some? ==> r.value in s && r.value.sym == id
    ensures r.None? ==> forall k :: 0 <= k < |s| ==> s[k].sym != id
    decreases |s|
  {
    if s == [] then None else if s[0].sym == id then Some(s[0]) else FirstWith(s[1..], id)
  }

  /** The first match in a concatenation is in the first part if it has one. */
  lemma {:induction false} FirstWithAppend(a: seq<Node>, b: seq<Node>, id: Symbol)
    ensures FirstWith(a + b, id) == if FirstWith(a, id).Some? then FirstWith(a, id) else FirstWith(b, id)
    decreases |a|
  {
    if a == [] {
      assert a + b == b;
    } else {
      assert (a + b)[0] == a[0];
      assert (a + b)[1..] == a[1..] + b;
      FirstWithAppend(a[1..], b, id);
    }
  }

  /** The search of the local get_first_node_id: each child, then that child's subtree. */
  function LocalSearch(check: Node, id: Symbol): (r: Option<Node>)
    decreases check, |check.children| + 1
  {
    LocalFrom(check, id, 0)
  }

  /** LocalSearch from child i on. */
  function LocalFrom(check: Node, id: Symbol, i: nat): (r: Option<Node>)
    requires i <= |check.children|
    decreases check, |check.children| - i
  {
    if i == |check.children| then None
    else if check.children[i].sym == id then Some(check.children[i])
    else
      var n := LocalSearch(check.children[i], id);
      if n.Some? then n else LocalFrom(check, id, i + 1)
  }

  /** The local get_first_node_id: the match, or check itself when there is none. */
  function LocalFirstNodeId(check: Node, id: Symbol): (r: Node)
    ensures r.sym == id || r == check
  {
    var n := LocalSearch(check, id);
    PreOrderFirst(check, id);
    if n.Some? then n.value else check
  }

  /**
   * The local search is a pre-order search: it finds the first node
   * below check, in pre-order, with the symbol.
   */
  lemma {:induction false} PreOrderFirst(check: Node, id: Symbol)
    ensures LocalSearch(check, id) == FirstWith(PreOrder(check), id)
    decreases check, |check.children| + 1
  {
    PreOrderFromFirst(check, id, 0);
  }

  /** LocalFrom is the pre-order search over PreOrderFrom. */
  lemma {:induction false} PreOrderFromFirst(check: Node, id: Symbol, i: nat)
    requires i <= |check.children|
    ensures LocalFrom(check, id, i) == FirstWith(PreOrderFrom(check, i), id)
    decreases check, |check.children| - i
  {
    if i < |check.children| {
      var c := check.children[i];
      PreOrderFirst(c, id);
      PreOrderFromFirst(check, id, i + 1);
      FirstWithAppend([c] + PreOrder(c), PreOrderFrom(check, i + 1), id);
      FirstWithAppend([c], PreOrder(c), id);
    }
  }

  /** A match found lies below check. */
  lemma LocalFirstBelow(check: Node, id: Symbol)
    requires LocalSearch(check, id).Some?
    ensures IsDescendant(LocalFirstNodeId(check, id), check)
  {
    PreOrderFirst(check, id);
    PreOrderDescendants(check, LocalSearch(check, id).value);
  }

  /**
   * Unlike parse_utils_get_first_node_id, which prefers a direct child, the
   * local search takes the first node in pre-order: here an identifier
   * nested in the first child wins over an identifier that is the second
   * child.
   */
  lemma SearchOrdersDiffer()
    ensures var inner := Node(Identifier, 0, 1, Point(0, 0), Point(0, 1), [], map[]);
            var outer := Node(Identifier, 4, 5, Point(0, 4), Point(0, 5), [], map[]);
            var first := Node(PointerDeclarator, 0, 2, Point(0, 0), Point(0, 2), [inner], map[]);
            var check := Node(Declaration, 0, 6, Point(0, 0), Point(0, 6), [first, outer], map[]);
            LocalFirstNodeId(check, Identifier) == inner && FirstNodeId(check, Identifier).0 == outer
  {
  }

  /*
   * collect_renames
   */

  /**
   * The rename a declaration records: the first identifier inside its
   * cast expression (from) and the first identifier of its declarator (to).
   */
  function DeclarationRename(content: string, n: Node): (r: Option<(string, string)>)
    ensures r.Some? ==> Field(n, "declarator").Some? &&
                        var decl := Field(n, "declarator").value;
                        var cast := LocalFirstNodeId(decl, CastExpression);
                        && cast.sym == CastExpression
                        && r.value.0 == NodeGetString(content, LocalFirstNodeId(cast, Identifier))
                        && r.value.1 == NodeGetString(content, LocalFirstNodeId(decl, Identifier))
                        && LocalFirstNodeId(cast, Identifier).sym == Identifier
                        && LocalFirstNodeId(decl, Identifier).sym == Identifier
  {
    var decl := Field(n, "declarator");
    if decl.None? then None
    else
      var to := LocalFirstNodeId(decl.value, Identifier);
      var from := LocalFirstNodeId(decl.value, CastExpression);
      if from.sym != CastExpression then None
      else
        var from := LocalFirstNodeId(from, Identifier);
        if from.sym != Identifier || to.sym != Identifier then None
        else Some((NodeGetString(content, from), NodeGetString(content, to)))
  }

  /** The map collect_renames leaves after scanning below n, starting from acc. */
  function RenamesIn(content: string, n: Node, acc: map<string, string>): map<string, string>
    decreases n, |n.children| + 1
  {
    RenamesFrom(content, n, 0, acc)
  }

  /** The loop of collect_renames from child i on: the first recorded rename ends it. */
  function RenamesFrom(content: string, n: Node, i: nat, acc: map<string, string>): map<string, string>
    requires i <= |n.children|
    decreases n, |n.children| - i
  {
    if i == |n.children| then acc
    else if n.children[i].sym != Declaration then RenamesFrom(content, n, i + 1, RenamesIn(content, n.children[i], acc))
    else
      var r := DeclarationRename(content, n.children[i]);
      if r.None? then RenamesFrom(content, n, i + 1, acc)
      else acc[r.value.0 := r.value.1]
  }

  /**
   * Every entry of the map is either inherited from acc or recorded from
   * a declaration below n.
   */
  lemma {:induction false} RenamesFromSound(content: string, n: Node, i: nat, acc: map<string, string>, key: string)
    requires i <= |n.children|
    requires key in RenamesFrom(content, n, i, acc)
    ensures (key in acc && RenamesFrom(content, n, i, acc)[key] == acc[key]) ||
            exists d :: IsDescendant(d, n) && d.sym == Declaration &&
                        DeclarationRename(content, d) == Some((key, RenamesFrom(content, n, i, acc)[key]))
    decreases n, |n.children| - i
  {
    if i == |n.children| {
      return;
    }
    var c := n.children[i];
    var res := RenamesFrom(content, n, i, acc);
    if c.sym != Declaration {
      var mid := RenamesIn(content, c, acc);
      RenamesFromSound(content, n, i + 1, mid, key);
      if key in mid && res[key] == mid[key] {
        RenamesFromSound(content, c, 0, acc, key);
        if !(key in acc && mid[key] == acc[key]) {
          var d :| IsDescendant(d, c) && d.sym == Declaration && DeclarationRename(content, d) == Some((key, mid[key]));
          ChildDescendant(d, n, i);
        }
      }
    } else if DeclarationRename(content, c).None? {
      RenamesFromSound(content, n, i + 1, acc, key);
    } else if key == DeclarationRename(content, c).value.0 {
      ChildDescendant(c, n, i);
    }
  }

  /** Every rename recorded below a function comes from a declaration in it. */
  lemma RenamesSound(content: string, fn: Node, key: string)
    requires key in RenamesIn(content, fn, map[])
    ensures exists d :: IsDescendant(d, fn) && d.sym == Declaration &&
                        DeclarationRename(content, d) == Some((key, RenamesIn(content, fn, map[])[key]))
  {
    RenamesFromSound(content, fn, 0, map[], key);
  }

  /** No child among i .. k-1 of n records a rename. */
  predicate NoRenameBetween(content: string, n: Node, i: nat, k: nat)
    requires i <= k <= |n.children|
  {
    forall j :: i <= j < k ==> n.children[j].sym != Declaration || DeclarationRename(content, n.children[j]).None?
  }

  /**
   * d is looked at by collect_renames started at n: a child with no
   * recorded rename before it, or looked at from such a child that is not
   * itself a declaration.
   */
  ghost predicate RenameScanned(content: string, d: Node, n: Node)
    decreases n, 1
  {
    RenameScannedFrom(content, d, n, 0)
  }

  /** RenameScanned, starting at child i. */
  ghost predicate RenameScannedFrom(content: string, d: Node, n: Node, i: nat)
    requires i <= |n.children|
    decreases n, 0
  {
    exists k :: i <= k < |n.children| && NoRenameBetween(content, n, i, k) &&
                (n.children[k] == d || (n.children[k].sym != Declaration && RenameScanned(content, d, n.children[k])))
  }

  /** The scan only adds entries: every key of acc stays a key. */
  lemma {:induction false} RenamesFromGrows(content: string, n: Node, i: nat, acc: map<string, string>)
    requires i <= |n.children|
    ensures acc.Keys <= RenamesFrom(content, n, i, acc).Keys
    decreases n, |n.children| - i
  {
    if i < |n.children| {
      var c := n.children[i];
      if c.sym != Declaration {
        RenamesFromGrows(content, c, 0, acc);
        RenamesFromGrows(content, n, i + 1, RenamesIn(content, c, acc));
      } else if DeclarationRename(content, c).None? {
        RenamesFromGrows(content, n, i + 1, acc);
      }
    }
  }

  /** A node looked at after child i is looked at from child i + 1 on. */
  lemma RenameScannedNext(content: string, d: Node, n: Node, i: nat, k: nat)
    requires i < k < |n.children| && NoRenameBetween(content, n, i, k)
    requires n.children[k] == d || (n.children[k].sym != Declaration && RenameScanned(content, d, n.children[k]))
    ensures RenameScannedFrom(content, d, n, i + 1)
  {
    assert NoRenameBetween(content, n, i + 1, k);
  }

  /** Every cast declaration the scan looks at has its rename recorded. */
  lemma {:induction false} RenamesFromComplete(content: string, n: Node, i: nat, acc: map<string, string>, d: Node)
    requires i <= |n.children|
    requires RenameScannedFrom(content, d, n, i) && d.sym == Declaration && DeclarationRename(content, d).Some?
    ensures DeclarationRename(content, d).value.0 in RenamesFrom(content, n, i, acc)
    decreases n, |n.children| - i
  {
    var k :| i <= k < |n.children| && NoRenameBetween(content, n, i, k) &&
             (n.children[k] == d || (n.children[k].sym != Declaration && RenameScanned(content, d, n.children[k])));
    var c := n.children[i];
    if k == i {
      if c != d {
        RenamesFromComplete(content, c, 0, acc, d);
        RenamesFromGrows(content, n, i + 1, RenamesIn(content, c, acc));
      }
    } else {
      RenameScannedNext(content, d, n, i, k);
      var next := if c.sym != Declaration then RenamesIn(content, c, acc) else acc;
      RenamesFromComplete(content, n, i + 1, next, d);
    }
  }

  /**
   * collect_renames misses no rename it looks at: a cast declaration
   * reached before any sibling on its path recorded a rename gets its key.
   */
  lemma RenamesComplete(content: string, fn: Node, d: Node)
    requires RenameScanned(content, d, fn) && d.sym == Declaration && DeclarationRename(content, d).Some?
    ensures DeclarationRename(content, d).value.0 in RenamesIn(content, fn, map[])
  {
    RenamesFromComplete(content, fn, 0, map[], d);
  }

  /**
   * Only the first cast rename among the children of one node is
   * recorded: once child k records a rename, children after k are not
   * looked at.
   */
  lemma {:induction false} RenamesStopAtFirst(content: string, n: Node, i: nat, k: nat, acc: map<string, string>,
                                              later: seq<Node>)
    requires i <= k < |n.children|
    requires forall j :: i <= j < k ==> n.children[j].sym != Declaration || DeclarationRename(content, n.children[j]).None?
    requires n.children[k].sym == Declaration && DeclarationRename(content, n.children[k]).Some?
    ensures var m := n.(children := n.children[..k + 1] + later);
            RenamesFrom(content, n, i, acc) == RenamesFrom(content, m, i, acc)
    decreases k - i
  {
    var m := n.(children := n.children[..k + 1] + later);
    assert m.children[i] == n.children[i];
    if i < k {
      var c := n.children[i];
      var next := if c.sym != Declaration then RenamesIn(content, c, acc) else acc;
      RenamesStopAtFirst(content, n, i + 1, k, next, later);
    }
  }

  /** collect_renames: records into res0 the renames found below check. */
  method CollectRenames(content: string, check: Node, res0: map<string, string>) returns (res: map<string, string>)
    ensures res == RenamesIn(content, check, res0)
    decreases check
  {
    res := res0;
    var i := 0;
    while i < |check.children|
      invariant 0 <= i <= |check.children|
      invariant RenamesFrom(content, check, i, res) == RenamesIn(content, check, res0)
    {
      var n := check.children[i];
      if n.sym != Declaration {
        res := CollectRenames(content, n, res);
        i := i + 1;
        continue;
      }
      var decl := Field(n, "declarator");
      if decl.None? {
        i := i + 1;
        continue;
      }
      var to := LocalFirstNodeId(decl.value, Identifier);
      var from := LocalFirstNodeId(decl.value, CastExpression);
      if from.sym != CastExpression {
        i := i + 1;
        continue;
      }
      from := LocalFirstNodeId(from, Identifier);
      if from.sym != Identifier || to.sym != Identifier {
        i := i + 1;
        continue;
      }
      res := res[NodeGetString(content, from) := NodeGetString(content, to)];
      return;
    }
  }

  /*
   * mentioned_with_null
   */

  /** A comment node whose lower-cased text contains both the lower-cased name and "null". */
  predicate CommentMentions(content: string, c: Node, name: string)
  {
    c.sym == Comment &&
    var text := Lower(NodeGetString(content, c));
    Contains(text, Lower(name)) && Contains(text, "null")
  }

  /** mentioned_with_null: a search of every node below fn. */
  function MentionedWithNull(content: string, name: string, fn: Node): (r: bool)
    ensures r ==> fn.children != []
    ensures (exists j :: 0 <= j < |fn.children| && CommentMentions(content, fn.children[j], name)) ==> r
    decreases fn, |fn.children| + 1
  {
    MentionedFrom(content, name, fn, 0)
  }

  /** The loop of mentioned_with_null from child i on. */
  function MentionedFrom(content: string, name: string, n: Node, i: nat): (r: bool)
    requires i <= |n.children|
    ensures r ==> i < |n.children|
    ensures (exists j :: i <= j < |n.children| && CommentMentions(content, n.children[j], name)) ==> r
    decreases n, |n.children| - i
  {
    if i == |n.children| then false
    else if CommentMentions(content, n.children[i], name) then true
    else if MentionedWithNull(content, name, n.children[i]) then true
    else MentionedFrom(content, name, n, i + 1)
  }

  /** mentioned_with_null holds exactly when some comment below the function mentions the name and "null". */
  lemma {:induction false} MentionedIff(content: string, name: string, fn: Node)
    ensures MentionedWithNull(content, name, fn) <==>
            exists d :: IsDescendant(d, fn) && CommentMentions(content, d, name)
    decreases fn, |fn.children| + 1
  {
    MentionedFromIff(content, name, fn, 0);
  }

  /** MentionedFrom holds exactly when a mentioning comment lies in the subtree of a child from i on. */
  lemma {:induction false} MentionedFromIff(content: string, name: string, n: Node, i: nat)
    requires i <= |n.children|
    ensures MentionedFrom(content, name, n, i) <==>
            exists d, k :: i <= k < |n.children| && (n.children[k] == d || IsDescendant(d, n.children[k])) &&
                           CommentMentions(content, d, name)
    decreases n, |n.children| - i
  {
    if i < |n.children| {
      var c := n.children[i];
      MentionedIff(content, name, c);
      MentionedFromIff(content, name, n, i + 1);
      if exists d, k :: i <= k < |n.children| && (n.children[k] == d || IsDescendant(d, n.children[k])) &&
                        CommentMentions(content, d, name) {
        var d, k :| i <= k < |n.children| && (n.children[k] == d || IsDescendant(d, n.children[k])) &&
                    CommentMentions(content, d, name);
        if k == i && c != d {
          assert IsDescendant(d, c);
        }
      }
    }
  }

  /*
   * renamed_assert
   */

  /** The name reached from p after k steps through the rename map, if the steps exist. */
  function Follow(renames: map<string, string>, p: string, k: nat): Option<string>
    decreases k
  {
    if k == 0 then Some(p) else if p in renames then Follow(renames, renames[p], k - 1) else None
  }

  /**
   * renamed_assert, with a bound on the steps: fuel 0 answers false. The
   * analyzer passes |renames|, which loses nothing (RenamedAssertExact).
   */
  function RenamedAssert(asserts: set<string>, renames: map<string, string>, param: string, fuel: nat): (r: bool)
    ensures r ==> fuel > 0 && param in renames
    decreases fuel
  {
    if fuel == 0 then false
    else if param !in renames then false
    else if renames[param] in asserts then true
    else RenamedAssert(asserts, renames, renames[param], fuel - 1)
  }

  /** More fuel never loses a clearance. */
  lemma {:induction false} RenamedAssertMonotone(asserts: set<string>, renames: map<string, string>, param: string, fuel: nat)
    ensures RenamedAssert(asserts, renames, param, fuel) ==> RenamedAssert(asserts, renames, param, fuel + 1)
    decreases fuel
  {
    if fuel > 0 && param in renames && renames[param] !in asserts {
      RenamedAssertMonotone(asserts, renames, renames[param], fuel - 1);
    }
  }

  /**
   * renamed_assert as written, which recurses with no bound: the answer
   * after at most steps calls, or None while it is still recursing.
   */
  function RenamedAssertAsWritten(asserts: set<string>, renames: map<string, string>, param: string, steps: nat): Option<bool>
    decreases steps
  {
    if steps == 0 then None
    else if param !in renames then Some(false)
    else if renames[param] in asserts then Some(true)
    else RenamedAssertAsWritten(asserts, renames, renames[param], steps - 1)
  }

  /**
   * Wherever renamed_assert as written answers within steps calls, the
   * bounded version gives the same answer with any fuel from steps on.
   */
  lemma {:induction false} RenamedAssertAsWrittenAgrees(asserts: set<string>, renames: map<string, string>, param: string,
                                                        steps: nat, fuel: nat)
    requires RenamedAssertAsWritten(asserts, renames, param, steps).Some? && steps <= fuel
    ensures RenamedAssert(asserts, renames, param, fuel) == RenamedAssertAsWritten(asserts, renames, param, steps).value
    decreases steps
  {
    if param in renames && renames[param] !in asserts {
      RenamedAssertAsWrittenAgrees(asserts, renames, renames[param], steps - 1, fuel - 1);
    }
  }

  /** The two-name rename cycle b to a, a to b, with nothing asserted. */
  function CyclicRenames(): map<string, string>
  {
    map["b" := "a", "a" := "b"]
  }

  /**
   * On a rename cycle that never reaches an asserted name, renamed_assert
   * as written never returns, however many calls it is given.
   */
  lemma {:induction false} CyclicRenameNeverAnswers(steps: nat)
    ensures RenamedAssertAsWritten({}, CyclicRenames(), "b", steps).None?
    ensures RenamedAssertAsWritten({}, CyclicRenames(), "a", steps).None?
    decreases steps
  {
    if steps > 0 {
      CyclicRenameNeverAnswers(steps - 1);
      assert CyclicRenames()["b"] == "a" && CyclicRenames()["a"] == "b";
    }
  }

  /** The bounded version answers false on the same cycle: the parameter is not cleared. */
  lemma CyclicRenameCleared()
    ensures !RenamedAssert({}, CyclicRenames(), "b", |CyclicRenames()|)
  {
    var m := CyclicRenames();
    assert m.Keys == {"a", "b"};
    assert |m| == 2;
    assert m["b"] == "a" && m["a"] == "b";
  }

  /** Bounded renamed_assert holds iff within fuel steps the chain reaches an asserted name. */
  lemma {:induction false} RenamedAssertChain(asserts: set<string>, renames: map<string, string>, param: string, fuel: nat)
    ensures RenamedAssert(asserts, renames, param, fuel) <==>
            exists k :: 1 <= k <= fuel && Follow(renames, param, k).Some? && Follow(renames, param, k).value in asserts
    decreases fuel
  {
    if fuel > 0 && param in renames {
      var next := renames[param];
      RenamedAssertChain(asserts, renames, next, fuel - 1);
      assert Follow(renames, param, 1) == Some(next);
      assert RenamedAssert(asserts, renames, param, fuel) == (next in asserts || RenamedAssert(asserts, renames, next, fuel - 1));
      if RenamedAssert(asserts, renames, param, fuel) {
        if next in asserts {
          assert 1 <= 1 <= fuel && Follow(renames, param, 1).Some? && Follow(renames, param, 1).value in asserts;
        } else {
          var k :| 1 <= k <= fuel - 1 && Follow(renames, next, k).Some? && Follow(renames, next, k).value in asserts;
          assert Follow(renames, param, k + 1) == Follow(renames, next, k);
        }
      } else {
        assert next !in asserts && !RenamedAssert(asserts, renames, next, fuel - 1);
        forall k | 1 <= k <= fuel
          ensures !(Follow(renames, param, k).Some? && Follow(renames, param, k).value in asserts)
        {
          assert Follow(renames, param, k) == Follow(renames, next, k - 1);
          if k > 1 {
            assert !(Follow(renames, next, k - 1).Some? && Follow(renames, next, k - 1).value in asserts);
          } else {
            assert Follow(renames, next, 0) == Some(next);
          }
        }
      }
    } else if fuel > 0 {
      forall k | 1 <= k <= fuel
        ensures Follow(renames, param, k).None?
      {
      }
    }
  }

  /** Steps compose: a + b steps are a steps, then b steps. */
  lemma {:induction false} FollowCompose(renames: map<string, string>, p: string, a: nat, b: nat)
    ensures Follow(renames, p, a + b) == if Follow(renames, p, a).Some? then Follow(renames, Follow(renames, p, a).value, b) else None
    decreases a
  {
    if a > 0 {
      if p in renames {
        FollowCompose(renames, renames[p], a - 1, b);
      } else {
        assert b + a > 0;
      }
    }
  }

  /** Before a chain of k steps ends, every name on it is a key of the map. */
  lemma FollowPrefix(renames: map<string, string>, p: string, j: nat, k: nat)
    requires j < k && Follow(renames, p, k).Some?
    ensures Follow(renames, p, j).Some? && Follow(renames, p, j).value in renames
  {
    FollowCompose(renames, p, j, k - j);
  }

  /** The name after j steps, "" where the chain has ended. */
  function NameAt(renames: map<string, string>, p: string, j: nat): string
  {
    var f := Follow(renames, p, j);
    if f.Some? then f.value else ""
  }

  /** A chain that reaches an asserted name does so within |renames| steps. */
  lemma {:induction false} ShortenChain(asserts: set<string>, renames: map<string, string>, param: string, k: nat)
    requires k >= 1 && Follow(renames, param, k).Some? && Follow(renames, param, k).value in asserts
    ensures exists k' :: 1 <= k' <= |renames| && Follow(renames, param, k').Some? && Follow(renames, param, k').value in asserts
    decreases k
  {
    if k > |renames| {
      var names := seq(k, j requires 0 <= j < k => NameAt(renames, param, j));
      forall j | 0 <= j < k
        ensures names[j] in renames.Keys
      {
        FollowPrefix(renames, param, j, k);
      }
      Pigeonhole(names, renames.Keys);
      var i, j :| 0 <= i < j < |names| && names[i] == names[j];
      FollowPrefix(renames, param, i, k);
      FollowPrefix(renames, param, j, k);
      FollowCompose(renames, param, j, k - j);
      FollowCompose(renames, param, i, k - j);
      ShortenChain(asserts, renames, param, i + (k - j));
    }
  }

  /**
   * With |renames| steps, bounded renamed_assert answers exactly
   * "following the map one or more steps from param reaches an asserted
   * name", the answer renamed_assert gives whenever it returns.
   */
  lemma RenamedAssertExact(asserts: set<string>, renames: map<string, string>, param: string)
    ensures RenamedAssert(asserts, renames, param, |renames|) <==>
            exists k :: k >= 1 && Follow(renames, param, k).Some? && Follow(renames, param, k).value in asserts
  {
    RenamedAssertChain(asserts, renames, param, |renames|);
    if exists k :: k >= 1 && Follow(renames, param, k).Some? && Follow(renames, param, k).value in asserts {
      var k :| k >= 1 && Follow(renames, param, k).Some? && Follow(renames, param, k).value in asserts;
      ShortenChain(asserts, renames, param, k);
    }
  }

  /** Renames chain: a parameter cast into a name that is itself cast into an asserted name is covered. */
  lemma RenameTransitive(asserts: set<string>, renames: map<string, string>, p: string, q: string, r: string)
    requires p in renames && renames[p] == q && q in renames && renames[q] == r && r in asserts
    ensures RenamedAssert(asserts, renames, p, |renames|)
  {
    assert Follow(renames, p, 2) == Some(r);
    RenamedAssertExact(asserts, renames, p);
  }

  /*
   * check_asserts
   */

  /** The message of an unasserted-parameter finding. */
  function UnassertedMessage(name: string): string
  {
    "Parameter " + name + " should be asserted"
  }

  /** Different names give different messages. */
  lemma UnassertedMessageInjective(a: string, b: string)
    requires UnassertedMessage(a) == UnassertedMessage(b)
    ensures a == b
  {
    var m := UnassertedMessage(a);
    assert |m| == |a| + 29 == |b| + 29;
    assert m[10..|m| - 19] == a;
    assert UnassertedMessage(b)[10..|m| - 19] == b;
  }

  /** What check_asserts consults for one function: the asserted names and the renames. */
  datatype Facts = Facts(asserts: set<string>, renames: map<string, string>)

  /** The name of a parameter check_asserts reports, if it reports it. */
  function Unchecked(content: string, fn: Node, facts: Facts, param: Node): Option<string>
  {
    if ParameterIsUnused(content, param) then None
    else
      var name := ParameterIsPointer(content, param);
      if name.None? then None
      else if name.value in facts.asserts || MentionedWithNull(content, name.value, fn) ||
              RenamedAssert(facts.asserts, facts.renames, name.value, |facts.renames|) then None
      else name
  }

  /** The findings of the parameter loop from parameter i on, in parameter order. */
  function ParamFindings(content: string, fn: Node, facts: Facts, params: seq<Node>, i: nat): (r: seq<Problem>)
    requires i <= |params|
    ensures |r| <= |params| - i
    decreases |params| - i
  {
    if i == |params| then []
    else
      var name := Unchecked(content, fn, facts, params[i]);
      (if name.Some? then [NodeProblem(params[i], UnassertedMessage(name.value))] else []) +
      ParamFindings(content, fn, facts, params, i + 1)
  }

  /** The facts check_asserts gathers for a fn. */
  function FunctionFacts(content: string, fn: Node): Facts
  {
    Facts(AssertsIn(content, fn), RenamesIn(content, fn, map[]))
  }

  /** The parameter list check_asserts walks: the "parameters" field of the "declarator" field. */
  function ParameterList(fn: Node): Option<Node>
  {
    var decl := Field(fn, "declarator");
    if decl.None? then None else Field(decl.value, "parameters")
  }

  /** A static function definition, the only node check_asserts looks into. */
  predicate IsStaticDefinition(content: string, n: Node)
  {
    n.sym == FunctionDefinition && IsFunctionStatic(content, n)
  }

  /** check_asserts, in discovery order. */
  function AssertFindings(content: string, fn: Node): (r: seq<Problem>)
    ensures !IsStaticDefinition(content, fn) ==> r == []
    ensures ParameterList(fn).None? ==> r == []
    ensures forall p :: p in r ==> p.severity == 3
  {
    if !IsStaticDefinition(content, fn) then []
    else
      var params := ParameterList(fn);
      if params.None? then []
      else
        ParamFindingsSevere(content, fn, FunctionFacts(content, fn), params.value.children, 0);
        ParamFindings(content, fn, FunctionFacts(content, fn), params.value.children, 0)
  }

  /** Every finding has severity 3. */
  lemma ParamFindingsSevere(content: string, fn: Node, facts: Facts, params: seq<Node>, i: nat)
    requires i <= |params|
    ensures forall p :: p in ParamFindings(content, fn, facts, params, i) ==> p.severity == 3
  {
    forall p | p in ParamFindings(content, fn, facts, params, i)
      ensures p.severity == 3
    {
      ParamFindingsSound(content, fn, facts, params, i, p);
    }
  }

  /** Each finding is at a parameter that is reported, and names it. */
  lemma {:induction false} ParamFindingsSound(content: string, fn: Node, facts: Facts, params: seq<Node>, i: nat, p: Problem)
    requires i <= |params|
    requires p in ParamFindings(content, fn, facts, params, i)
    ensures exists k :: i <= k < |params| && Unchecked(content, fn, facts, params[k]).Some? &&
                        p == NodeProblem(params[k], UnassertedMessage(Unchecked(content, fn, facts, params[k]).value))
    decreases |params| - i
  {
    var name := Unchecked(content, fn, facts, params[i]);
    if !(name.Some? && p == NodeProblem(params[i], UnassertedMessage(name.value))) {
      ParamFindingsSound(content, fn, facts, params, i + 1, p);
    }
  }

  /** Each reported parameter yields its finding. */
  lemma {:induction false} ParamFindingsComplete(content: string, fn: Node, facts: Facts, params: seq<Node>, i: nat, k: nat)
    requires i <= k < |params|
    requires Unchecked(content, fn, facts, params[k]).Some?
    ensures NodeProblem(params[k], UnassertedMessage(Unchecked(content, fn, facts, params[k]).value))
            in ParamFindings(content, fn, facts, params, i)
    decreases k - i
  {
    var name := Unchecked(content, fn, facts, params[i]);
    var step := if name.Some? then [NodeProblem(params[i], UnassertedMessage(name.value))] else [];
    assert ParamFindings(content, fn, facts, params, i) == step + ParamFindings(content, fn, facts, params, i + 1);
    if i < k {
      ParamFindingsComplete(content, fn, facts, params, i + 1, k);
    } else {
      assert step[0] in ParamFindings(content, fn, facts, params, i);
    }
  }

  /** The finding parameter k contributes, if any. */
  function ParamCheck(content: string, fn: Node, facts: Facts, params: seq<Node>): nat -> seq<Problem>
  {
    (k: nat) =>
      if k < |params| && Unchecked(content, fn, facts, params[k]).Some?
      then [NodeProblem(params[k], UnassertedMessage(Unchecked(content, fn, facts, params[k]).value))]
      else []
  }

  /** The parameter loop is the concatenation of the per-parameter contributions. */
  lemma {:induction false} ParamFindingsRange(content: string, fn: Node, facts: Facts, params: seq<Node>, i: nat)
    requires i <= |params|
    ensures ParamFindings(content, fn, facts, params, i) == ConcatRange(ParamCheck(content, fn, facts, params), i, |params|)
    decreases |params| - i
  {
    if i < |params| {
      var f := ParamCheck(content, fn, facts, params);
      ParamFindingsRange(content, fn, facts, params, i + 1);
      assert ConcatRange(f, i, |params|) == f(i) + ConcatRange(f, i + 1, |params|);
    }
  }

  /** The indices of the parameters check_asserts reports. */
  function UncheckedParams(content: string, fn: Node, facts: Facts, params: seq<Node>): set<nat>
  {
    set k: nat | k < |params| && Unchecked(content, fn, facts, params[k]).Some?
  }

  /** One finding per reported parameter: the count is exactly theirs. */
  lemma ParamFindingsCount(content: string, fn: Node, facts: Facts, params: seq<Node>)
    ensures |ParamFindings(content, fn, facts, params, 0)| == |UncheckedParams(content, fn, facts, params)|
  {
    var f := ParamCheck(content, fn, facts, params);
    ParamFindingsRange(content, fn, facts, params, 0);
    ConcatRangeCount(f, 0, |params|);
    assert Contributing(f, 0, |params|) == UncheckedParams(content, fn, facts, params);
  }

  /**
   * check_asserts reports exactly the pointer parameters that are not
   * G_GNUC_UNUSED, not asserted, not mentioned with "null" and not
   * renamed into an asserted name: one finding each, with severity 3,
   * spanning the parameter, naming it.
   */
  lemma AssertFindingsExact(content: string, fn: Node, p: Problem)
    requires IsStaticDefinition(content, fn) && ParameterList(fn).Some?
    ensures var params := ParameterList(fn).value.children;
            var facts := FunctionFacts(content, fn);
            p in AssertFindings(content, fn) <==>
            exists k :: 0 <= k < |params| && Unchecked(content, fn, facts, params[k]).Some? &&
                        p == NodeProblem(params[k], UnassertedMessage(Unchecked(content, fn, facts, params[k]).value))
  {
    var params := ParameterList(fn).value.children;
    var facts := FunctionFacts(content, fn);
    if p in AssertFindings(content, fn) {
      ParamFindingsSound(content, fn, facts, params, 0, p);
    }
    if exists k :: 0 <= k < |params| && Unchecked(content, fn, facts, params[k]).Some? &&
                   p == NodeProblem(params[k], UnassertedMessage(Unchecked(content, fn, facts, params[k]).value)) {
      var k :| 0 <= k < |params| && Unchecked(content, fn, facts, params[k]).Some? &&
               p == NodeProblem(params[k], UnassertedMessage(Unchecked(content, fn, facts, params[k]).value));
      ParamFindingsComplete(content, fn, facts, params, 0, k);
    }
  }

  /**
   * A name that is asserted, mentioned with "null" in a comment, or
   * renamed into an asserted name is never reported.
   */
  lemma ClearedNeverReported(content: string, fn: Node, name: string)
    requires var facts := FunctionFacts(content, fn);
             name in facts.asserts || MentionedWithNull(content, name, fn) ||
             exists k :: k >= 1 && Follow(facts.renames, name, k).Some? && Follow(facts.renames, name, k).value in facts.asserts
    ensures forall p :: p in AssertFindings(content, fn) ==> p.msg != UnassertedMessage(name)
  {
    forall p | p in AssertFindings(content, fn)
      ensures p.msg != UnassertedMessage(name)
    {
      ClearedFindingNotNamed(content, fn, name, p);
    }
  }

  /** ClearedNeverReported for one finding p. */
  lemma ClearedFindingNotNamed(content: string, fn: Node, name: string, p: Problem)
    requires var facts := FunctionFacts(content, fn);
             name in facts.asserts || MentionedWithNull(content, name, fn) ||
             exists k :: k >= 1 && Follow(facts.renames, name, k).Some? && Follow(facts.renames, name, k).value in facts.asserts
    requires p in AssertFindings(content, fn)
    ensures p.msg != UnassertedMessage(name)
  {
    var facts := FunctionFacts(content, fn);
    RenamedAssertExact(facts.asserts, facts.renames, name);
    var params := ParameterList(fn).value.children;
    ParamFindingsSound(content, fn, facts, params, 0, p);
    var k :| 0 <= k < |params| && Unchecked(content, fn, facts, params[k]).Some? &&
             p == NodeProblem(params[k], UnassertedMessage(Unchecked(content, fn, facts, params[k]).value));
    if p.msg == UnassertedMessage(name) {
      UnassertedMessageInjective(Unchecked(content, fn, facts, params[k]).value, name);
      UncheckedNotCleared(content, fn, facts, params[k], name);
    }
  }

  /** A reported name is neither asserted, nor mentioned with "null", nor renamed into an asserted name. */
  lemma UncheckedNotCleared(content: string, fn: Node, facts: Facts, param: Node, name: string)
    requires Unchecked(content, fn, facts, param) == Some(name)
    ensures name !in facts.asserts && !MentionedWithNull(content, name, fn)
    ensures !RenamedAssert(facts.asserts, facts.renames, name, |facts.renames|)
  {
  }

  /** The test check_asserts applies to one parameter: the name it reports, if any. */
  method CheckParam(content: string, fn: Node, asserts: set<string>, renames: map<string, string>,
                    paramNode: Node) returns (r: Option<string>)
    ensures r == Unchecked(content, fn, Facts(asserts, renames), paramNode)
  {
    r := None;
    if !ParameterIsUnused(content, paramNode) {
      var param := ParameterIsPointer(content, paramNode);
      if param.Some? && param.value !in asserts && !MentionedWithNull(content, param.value, fn) &&
         !RenamedAssert(asserts, renames, param.value, |renames|) {
        r := param;
      }
    }
  }

  /**
   * The parameter loop of check_asserts: prepends one finding for each
   * reported parameter of ps, in parameter order.
   */
  method CheckParams(content: string, fn: Node, asserts: set<string>, renames: map<string, string>,
                     ps: seq<Node>, problems: seq<Problem>) returns (res: seq<Problem>)
    ensures res == Reversed(ParamFindings(content, fn, Facts(asserts, renames), ps, 0)) + problems
  {
    ghost var facts := Facts(asserts, renames);
    res := problems;
    var i := 0;
    while i < |ps|
      invariant 0 <= i <= |ps|
      invariant Reversed(ParamFindings(content, fn, facts, ps, 0)) + problems ==
                Reversed(ParamFindings(content, fn, facts, ps, i)) + res
    {
      res := CheckParamAt(content, fn, asserts, renames, ps, i, res);
      i := i + 1;
    }
  }

  /** One pass of the parameter loop: parameter i's finding, if any, is prepended. */
  method CheckParamAt(content: string, fn: Node, asserts: set<string>, renames: map<string, string>,
                      ps: seq<Node>, i: nat, problems: seq<Problem>) returns (res: seq<Problem>)
    requires i < |ps|
    ensures Reversed(ParamFindings(content, fn, Facts(asserts, renames), ps, i)) + problems ==
            Reversed(ParamFindings(content, fn, Facts(asserts, renames), ps, i + 1)) + res
  {
    ghost var facts := Facts(asserts, renames);
    var paramNode := ps[i];
    var u := CheckParam(content, fn, asserts, renames, paramNode);
    ghost var step := if u.Some? then [NodeProblem(paramNode, UnassertedMessage(u.value))] else [];
    ghost var rest := ParamFindings(content, fn, facts, ps, i + 1);
    assert ParamFindings(content, fn, facts, ps, i) == step + rest;
    PrependStep(step, rest, problems);
    res := problems;
    if u.Some? {
      var p := NodeProblem(paramNode, UnassertedMessage(u.value));
      assert Reversed(step) == [p];
      res := [p] + res;
    }
    assert res == Reversed(step) + problems;
  }

  /** check_asserts: prepends the findings for fn to problems. */
  method CheckAsserts(content: string, fn: Node, problems: seq<Problem>) returns (res: seq<Problem>)
    ensures res == Reversed(AssertFindings(content, fn)) + problems
  {
    res := problems;
    if fn.sym != FunctionDefinition {
      return;
    }
    if !IsFunctionStatic(content, fn) {
      return;
    }
    var asserts := CollectAsserts(content, fn, {});
    var renames := CollectRenames(content, fn, map[]);
    var decl := Field(fn, "declarator");
    if decl.None? {
      return;
    }
    var params := Field(decl.value, "parameters");
    if params.None? {
      return;
    }
    assert Facts(asserts, renames) == FunctionFacts(content, fn);
    res := CheckParams(content, fn, asserts, renames, params.value.children, problems);
  }

  /*
   * recurse_check and process_asserts
   */

  /** check_asserts as a per-node check. */
  function AssertCheck(content: string): Node -> seq<Problem>
  {
    n => AssertFindings(content, n)
  }

  /** recurse_check: prepends, in discovery order, the findings of every node below p. */
  method RecurseCheck(content: string, p: Node, problems: seq<Problem>) returns (res: seq<Problem>)
    ensures res == Reversed(Visit(AssertCheck(content), p)) + problems
    decreases p
  {
    res := problems;
    var i := 0;
    while i < |p.children|
      invariant 0 <= i <= |p.children|
      invariant Reversed(Visit(AssertCheck(content), p)) + problems ==
                Reversed(VisitFrom(AssertCheck(content), p, i)) + res
    {
      var n := p.children[i];
      ghost var here := AssertCheck(content)(n);
      ghost var below := Visit(AssertCheck(content), n);
      ghost var rest := VisitFrom(AssertCheck(content), p, i + 1);
      assert VisitFrom(AssertCheck(content), p, i) == (here + below) + rest;
      PrependStep(here + below, rest, res);
      PrependStep(here, below, res);
      res := CheckAsserts(content, n, res);
      res := RecurseCheck(content, n, res);
      i := i + 1;
    }
  }

  /**
   * The result of process_asserts: nothing for messages other than
   * diagnostic, open and change; for those, the findings of every node
   * below the root, last found first. None stands for the failed
   * g_assert(content) when the handle has no text.
   */
  function AssertsResult(h: ParseHandle): (r: Option<seq<Problem>>)
    ensures !IsAnalysisType(h.message.Type()) ==> r == Some([])
    ensures r.None? <==> IsAnalysisType(h.message.Type()) && h.source.None?
  {
    if !IsAnalysisType(h.message.Type()) then Some([])
    else if h.source.None? then None
    else Some(Reversed(Visit(AssertCheck(h.source.value.content), h.source.value.root)))
  }

  /** process_asserts. */
  method ProcessAsserts(h: ParseHandle) returns (res: Option<seq<Problem>>)
    ensures res == AssertsResult(h)
  {
    if h.message.Type() == Diagnostic || h.message.Type() == Open || h.message.Type() == Change {
      if h.source.None? {
        return None;
      }
      var r := RecurseCheck(h.source.value.content, h.source.value.root, []);
      assert r == Reversed(Visit(AssertCheck(h.source.value.content), h.source.value.root)) + [];
      assert r == Reversed(Visit(AssertCheck(h.source.value.content), h.source.value.root));
      return Some(r);
    }
    return Some([]);
  }

  /**
   * Every finding of process_asserts belongs to a static function
   * definition below the root, and every finding of every such definition
   * is in the result.
   */
  lemma AssertsResultCovers(h: ParseHandle, p: Problem)
    requires IsAnalysisType(h.message.Type()) && h.source.Some?
    ensures var s := h.source.value;
            p in AssertsResult(h).value <==>
            exists f :: IsDescendant(f, s.root) && IsStaticDefinition(s.content, f) && p in AssertFindings(s.content, f)
  {
    var s := h.source.value;
    ReversedMembers(Visit(AssertCheck(s.content), s.root), p);
    VisitMembers(AssertCheck(s.content), s.root, p);
  }
}
