/**
 * Tree-query helpers shared by the analyzers: first-descendant search,
 * prefix tests on a node's text, and the parameter and cast predicates.
 */
module ParseUtils {
  import opened Wrappers
  import opened Syntax
  import opened Message

  /**
   * parse_utils_node_get_string: the text of the node's byte span. A copy
   * stops at the end of the text, so a span running past it is cut there.
   */
  function NodeGetString(content: string, n: Node): (r: string)
    ensures n.startByte <= n.endByte <= |content| ==> r == content[n.startByte..n.endByte]
    ensures |r| <= |content|
  {
    var s := if n.startByte <= |content| then n.startByte else |content|;
    var e := if n.endByte <= |content| then n.endByte else |content|;
    if s <= e then content[s..e] else []
  }

  /** The text from the node's start to the end of the whole text. */
  function FromStart(content: string, n: Node): string
  {
    if n.startByte <= |content| then content[n.startByte..] else []
  }

  /**
   * parse_utils_node_eq: needle is a prefix of the text starting at the
   * node's start byte; the node's end plays no part.
   */
  predicate NodeEq(content: string, n: Node, needle: string)
  {
    StartsWith(FromStart(content, n), needle)
  }

  /**
   * Against the node's own text, node_eq is a prefix test as long as the
   * needle fits in the node; a longer needle may still match by running
   * on into the text after the node.
   */
  lemma NodeEqText(content: string, n: Node, needle: string)
    requires n.startByte <= n.endByte <= |content|
    ensures |needle| <= n.endByte - n.startByte ==>
              (NodeEq(content, n, needle) <==> StartsWith(NodeGetString(content, n), needle))
    ensures StartsWith(NodeGetString(content, n), needle) ==> NodeEq(content, n, needle)
  {
    var t := NodeGetString(content, n);
    var f := FromStart(content, n);
    assert t == f[..n.endByte - n.startByte];
    if |needle| <= |t| {
      assert f[..|needle|] == t[..|needle|];
    }
  }

  /** node_eq is not bounded by the node's end: a one-byte node can match "gpointer". */
  lemma NodeEqUnbounded()
    ensures var n := Node(TypeIdentifier, 0, 1, Point(0, 0), Point(0, 1), [], map[]);
            NodeEq("gpointer p", n, "gpointer") && NodeGetString("gpointer p", n) == "g"
  {
    var n := Node(TypeIdentifier, 0, 1, Point(0, 0), Point(0, 1), [], map[]);
    assert FromStart("gpointer p", n)[..8] == "gpointer";
  }

  /** Some node strictly below n has symbol id. */
  predicate HasDescendantWith(n: Node, id: Symbol)
    decreases n
  {
    exists k :: 0 <= k < |n.children| && (n.children[k].sym == id || HasDescendantWith(n.children[k], id))
  }

  /** A node with the symbol below n, when HasDescendantWith says there is one. */
  lemma {:induction false} DescendantWith(n: Node, id: Symbol) returns (d: Node)
    requires HasDescendantWith(n, id)
    ensures IsDescendant(d, n) && d.sym == id
    decreases n
  {
    var k :| 0 <= k < |n.children| && (n.children[k].sym == id || HasDescendantWith(n.children[k], id));
    if n.children[k].sym == id {
      d := n.children[k];
    } else {
      d := DescendantWith(n.children[k], id);
    }
    ChildDescendant(d, n, k);
  }

  /** A node with the symbol below n makes HasDescendantWith hold. */
  lemma {:induction false} HasDescendantWithOf(n: Node, id: Symbol, d: Node)
    requires IsDescendant(d, n) && d.sym == id
    ensures HasDescendantWith(n, id)
    decreases n
  {
    var k :| 0 <= k < |n.children| && (n.children[k] == d || IsDescendant(d, n.children[k]));
    if n.children[k] != d {
      HasDescendantWithOf(n.children[k], id, d);
    }
    assert n.children[k].sym == id || HasDescendantWith(n.children[k], id);
  }

  /** HasDescendantWith says exactly what it should about the descendants. */
  lemma HasDescendantWithIff(n: Node, id: Symbol)
    ensures HasDescendantWith(n, id) <==> exists d :: IsDescendant(d, n) && d.sym == id
  {
    if HasDescendantWith(n, id) {
      var d := DescendantWith(n, id);
    }
    forall d | IsDescendant(d, n) && d.sym == id
      ensures HasDescendantWith(n, id)
    {
      HasDescendantWithOf(n, id, d);
    }
  }

  /** The index of the first of children[i..] with symbol id, or |children|. */
  function FirstChildWith(children: seq<Node>, id: Symbol, i: nat): (k: nat)
    requires i <= |children|
    ensures i <= k <= |children|
    ensures k < |children| ==> children[k].sym == id
    ensures forall j :: i <= j < k ==> children[j].sym != id
    decreases |children| - i
  {
    if i == |children| then i
    else if children[i].sym == id then i
    else FirstChildWith(children, id, i + 1)
  }

  /**
   * parse_utils_get_first_node_id: the node it returns and the value it
   * leaves in *found. Direct children are tried first, then each child's
   * subtree in order. The lemmas below state where the node lies.
   */
  function FirstNodeId(check: Node, id: Symbol): (r: (Node, bool))
    ensures r.1 ==> r.0.sym == id
    ensures !r.1 ==> r.0 == check
    decreases check, 1
  {
    var k := FirstChildWith(check.children, id, 0);
    if k < |check.children| then (check.children[k], true)
    else DeeperWith(check, id, 0)
  }

  /** The second loop of parse_utils_get_first_node_id, from child i on. */
  function DeeperWith(check: Node, id: Symbol, i: nat): (r: (Node, bool))
    requires i <= |check.children|
    requires forall j :: 0 <= j < |check.children| ==> check.children[j].sym != id
    ensures r.1 ==> r.0.sym == id
    ensures !r.1 ==> r.0 == check
    decreases check, 0, |check.children| - i
  {
    if i == |check.children| then (check, false)
    else
      var n := FirstNodeId(check.children[i], id);
      if n.0.sym == id then n else DeeperWith(check, id, i + 1)
  }

  /** The node found lies below check. */
  lemma {:induction false} FirstNodeIdBelow(check: Node, id: Symbol)
    ensures FirstNodeId(check, id).1 ==> IsDescendant(FirstNodeId(check, id).0, check)
    decreases check, 1
  {
    var k := FirstChildWith(check.children, id, 0);
    if k < |check.children| {
      ChildDescendant(check.children[k], check, k);
    } else {
      DeeperWithBelow(check, id, 0);
    }
  }

  /** The node DeeperWith finds lies below check. */
  lemma {:induction false} DeeperWithBelow(check: Node, id: Symbol, i: nat)
    requires i <= |check.children|
    requires forall j :: 0 <= j < |check.children| ==> check.children[j].sym != id
    ensures DeeperWith(check, id, i).1 ==> IsDescendant(DeeperWith(check, id, i).0, check)
    decreases check, 0, |check.children| - i
  {
    if i < |check.children| {
      var n := FirstNodeId(check.children[i], id);
      if n.1 {
        FirstNodeIdBelow(check.children[i], id);
        ChildDescendant(n.0, check, i);
      } else {
        DeeperWithBelow(check, id, i + 1);
      }
    }
  }

  /** A node with the symbol below check is never missed. */
  lemma {:induction false} FirstNodeIdComplete(check: Node, id: Symbol, d: Node)
    requires IsDescendant(d, check) && d.sym == id
    ensures FirstNodeId(check, id).1
    decreases check, 1
  {
    var k := FirstChildWith(check.children, id, 0);
    if k == |check.children| {
      var j :| 0 <= j < |check.children| && (check.children[j] == d || IsDescendant(d, check.children[j]));
      DeeperWithComplete(check, id, 0, j, d);
    }
  }

  /** DeeperWith from child i on finds something when child j >= i has d below it. */
  lemma {:induction false} DeeperWithComplete(check: Node, id: Symbol, i: nat, j: nat, d: Node)
    requires i <= j < |check.children|
    requires forall j :: 0 <= j < |check.children| ==> check.children[j].sym != id
    requires d.sym == id && (check.children[j] == d || IsDescendant(d, check.children[j]))
    ensures DeeperWith(check, id, i).1
    decreases check, 0, |check.children| - i
  {
    if i < j {
      if !FirstNodeId(check.children[i], id).1 {
        DeeperWithComplete(check, id, i + 1, j, d);
      }
    } else {
      FirstNodeIdComplete(check.children[i], id, d);
    }
  }

  /** Something is found exactly when some node below check has the symbol. */
  lemma FirstNodeIdFound(check: Node, id: Symbol)
    ensures FirstNodeId(check, id).1 <==> HasDescendantWith(check, id)
  {
    if FirstNodeId(check, id).1 {
      FirstNodeIdBelow(check, id);
      HasDescendantWithOf(check, id, FirstNodeId(check, id).0);
    }
    if HasDescendantWith(check, id) {
      var d := DescendantWith(check, id);
      FirstNodeIdComplete(check, id, d);
    }
  }

  /** A direct child with the symbol, the first of them, wins over any deeper node. */
  lemma FirstNodeIdPrefersChild(check: Node, id: Symbol, k: nat)
    requires k < |check.children| && check.children[k].sym == id
    requires forall j :: 0 <= j < k ==> check.children[j].sym != id
    ensures FirstNodeId(check, id) == (check.children[k], true)
  {
    var f := FirstChildWith(check.children, id, 0);
    assert f == k by {
      if f < k {
      } else if f > k {
      }
    }
  }

  /** When nothing is found, no descendant at all has the symbol. */
  lemma NotFoundMeansAbsent(check: Node, id: Symbol)
    requires !FirstNodeId(check, id).1
    ensures forall d :: IsDescendant(d, check) ==> d.sym != id
  {
    FirstNodeIdFound(check, id);
    HasDescendantWithIff(check, id);
  }

  /** Caseless prefix test against a lower-case needle (g_ascii_strncasecmp). */
  predicate NodeEqCaseless(content: string, n: Node, needle: string)
  {
    StartsWith(Lower(FromStart(content, n)), needle)
  }

  /** A direct child that marks its function static. */
  predicate StaticMarker(content: string, n: Node)
  {
    n.sym == StorageClassSpecifier && NodeEqCaseless(content, n, "static")
  }

  /** The loop of parse_utils_is_function_static from child i on. */
  function StaticFrom(content: string, children: seq<Node>, i: nat): (r: bool)
    requires i <= |children|
    ensures r <==> exists k :: i <= k < |children| && StaticMarker(content, children[k])
    decreases |children| - i
  {
    if i == |children| then false
    else if StaticMarker(content, children[i]) then true
    else StaticFrom(content, children, i + 1)
  }

  /**
   * parse_utils_is_function_static: some direct child is a storage-class
   * specifier whose text begins with "static" in any letter case.
   */
  function IsFunctionStatic(content: string, p: Node): (r: bool)
    ensures r <==> exists k :: 0 <= k < |p.children| && p.children[k].sym == StorageClassSpecifier &&
                              NodeEqCaseless(content, p.children[k], "static")
  {
    StaticFrom(content, p.children, 0)
  }

  /** Both spellings the source relies on are recognised. */
  lemma StaticSpellings(content: string, n: Node)
    requires n.sym == StorageClassSpecifier
    requires NodeEq(content, n, "static") || NodeEq(content, n, "STATIC")
    ensures StaticMarker(content, n)
  {
    var f := FromStart(content, n);
    assert Lower(f)[..6] == Lower(f[..6]);
  }

  /**
   * The first-child walk of parse_utils_parameter_is_pointer: from c,
   * follow first named children until an identifier; a childless
   * non-identifier ends the walk empty-handed.
   */
  function WalkFirstChild(c: Node): (r: Option<Node>)
    ensures r.Some? ==> r.value.sym == Identifier && (r.value == c || IsDescendant(r.value, c))
    ensures c.sym == Identifier ==> r == Some(c)
    decreases c
  {
    if c.sym == Identifier then Some(c)
    else if |c.children| == 0 then None
    else
      var r := WalkFirstChild(c.children[0]);
      if r.Some? then ChildDescendant(r.value, c, 0); r else r
  }

  /** A type child naming an untyped pointer. */
  predicate SecretPointerType(content: string, n: Node)
  {
    n.sym == TypeIdentifier && (NodeEq(content, n, "gpointer") || NodeEq(content, n, "gconstpointer"))
  }

  /** A child of a parameter declaration that makes it a pointer. */
  predicate PointerMarker(content: string, n: Node)
  {
    SecretPointerType(content, n) || n.sym == PointerDeclarator
  }

  /**
   * Where the name walk starts for marker child k: the next sibling for
   * gpointer/gconstpointer, the first child for a pointer declarator.
   * None when that node does not exist.
   */
  function WalkStart(content: string, children: seq<Node>, k: nat): Option<Node>
    requires k < |children|
  {
    if SecretPointerType(content, children[k]) then
      if k + 1 < |children| then Some(children[k + 1]) else None
    else if |children[k].children| > 0 then Some(children[k].children[0])
    else None
  }

  /** The name the walk from WalkStart finds, if any. */
  function NameFrom(content: string, start: Option<Node>): Option<string>
  {
    if start.None? then None
    else
      var id := WalkFirstChild(start.value);
      if id.Some? then Some(NodeGetString(content, id.value)) else None
  }

  /** The loop of parse_utils_parameter_is_pointer from child i on (corrected; see PointerFromAsWritten). */
  function PointerFrom(content: string, children: seq<Node>, i: nat): (r: Option<string>)
    requires i <= |children|
    ensures r.Some? ==> exists k :: i <= k < |children| && PointerMarker(content, children[k])
    decreases |children| - i
  {
    if i == |children| then None
    else if PointerMarker(content, children[i]) then NameFrom(content, WalkStart(content, children, i))
    else PointerFrom(content, children, i + 1)
  }

  /** The outcome is decided by the first marker child alone. */
  lemma {:induction false} PointerFromFirstMarker(content: string, children: seq<Node>, i: nat, k: nat)
    requires i <= k < |children|
    requires PointerMarker(content, children[k])
    requires forall j :: i <= j < k ==> !PointerMarker(content, children[j])
    ensures PointerFrom(content, children, i) == NameFrom(content, WalkStart(content, children, k))
    decreases k - i
  {
    if i < k {
      PointerFromFirstMarker(content, children, i + 1, k);
    }
  }

  /** A name found is the text of an identifier inside the parameter. */
  lemma {:induction false} PointerFromNamesIdentifier(content: string, param: Node, i: nat)
    requires i <= |param.children|
    requires PointerFrom(content, param.children, i).Some?
    ensures exists x :: IsDescendant(x, param) && x.sym == Identifier &&
                        PointerFrom(content, param.children, i).value == NodeGetString(content, x)
    decreases |param.children| - i
  {
    var ch := param.children;
    if PointerMarker(content, ch[i]) {
      var s := WalkStart(content, ch, i);
      var x := WalkFirstChild(s.value).value;
      if SecretPointerType(content, ch[i]) {
        ChildDescendant(x, param, i + 1);
      } else {
        assert x == ch[i].children[0] || IsDescendant(x, ch[i].children[0]);
        ChildDescendant(x, ch[i], 0);
        ChildDescendant(x, param, i);
      }
    } else {
      PointerFromNamesIdentifier(content, param, i + 1);
    }
  }

  /**
   * parse_utils_parameter_is_pointer: the parameter's name when it is a
   * pointer, None (FALSE) otherwise.
   */
  function ParameterIsPointer(content: string, param: Node): (r: Option<string>)
    ensures param.sym != ParameterDeclaration ==> r.None?
    ensures r.Some? ==> exists k :: 0 <= k < |param.children| && PointerMarker(content, param.children[k])
  {
    if param.sym != ParameterDeclaration then None else PointerFrom(content, param.children, 0)
  }

  /** Whatever name is returned belongs to an identifier inside the parameter. */
  lemma ParameterNameIsIdentifier(content: string, param: Node)
    requires ParameterIsPointer(content, param).Some?
    ensures exists x :: IsDescendant(x, param) && x.sym == Identifier &&
                        ParameterIsPointer(content, param).value == NodeGetString(content, x)
  {
    PointerFromNamesIdentifier(content, param, 0);
  }

  /**
   * The loop as written, where a missing node is still asked for its
   * symbol: None stands for that read of a null node, which ends the
   * process. Some(v) is the value the function returns.
   */
  function PointerFromAsWritten(content: string, children: seq<Node>, i: nat): Option<Option<string>>
    requires i <= |children|
    decreases |children| - i
  {
    if i == |children| then Some(None)
    else if PointerMarker(content, children[i]) then
      var s := WalkStart(content, children, i);
      if s.None? then None else Some(NameFrom(content, s))
    else PointerFromAsWritten(content, children, i + 1)
  }

  /** parse_utils_parameter_is_pointer as written. */
  function ParameterIsPointerAsWritten(content: string, param: Node): Option<Option<string>>
  {
    if param.sym != ParameterDeclaration then Some(None) else PointerFromAsWritten(content, param.children, 0)
  }

  /** Wherever the code as written returns, the corrected version returns the same. */
  lemma {:induction false} AsWrittenAgrees(content: string, children: seq<Node>, i: nat)
    requires i <= |children|
    requires PointerFromAsWritten(content, children, i).Some?
    ensures PointerFromAsWritten(content, children, i).value == PointerFrom(content, children, i)
    decreases |children| - i
  {
    if i < |children| && !PointerMarker(content, children[i]) {
      AsWrittenAgrees(content, children, i + 1);
    }
  }

  /**
   * An unnamed gpointer parameter, as in `static void f(gpointer) { }`:
   * the type has no next sibling, so the code as written reads the
   * symbol of the null node; the corrected version answers FALSE.
   */
  lemma UnnamedGpointerCrashes()
    ensures var t := Node(TypeIdentifier, 16, 24, Point(0, 16), Point(0, 24), [], map[]);
            var p := Node(ParameterDeclaration, 16, 24, Point(0, 16), Point(0, 24), [t], map["type" := 0]);
            var content := "static void f(  gpointer) { }";
            ParameterIsPointerAsWritten(content, p).None? && ParameterIsPointer(content, p).None?
  {
    var t := Node(TypeIdentifier, 16, 24, Point(0, 16), Point(0, 24), [], map[]);
    var content := "static void f(  gpointer) { }";
    assert FromStart(content, t)[..8] == "gpointer";
  }

  /**
   * parse_utils_parameter_is_unused: the parameter has a "type" field
   * whose text begins with G_GNUC_UNUSED.
   */
  function ParameterIsUnused(content: string, param: Node): (r: bool)
    ensures r ==> Field(param, "type").Some?
  {
    var t := Field(param, "type");
    t.Some? && NodeEq(content, t.value, "G_GNUC_UNUSED")
  }

  /**
   * In terms of the type node's own text: a type whose text begins with
   * G_GNUC_UNUSED marks the parameter unused, and for a type node at least
   * as long as the marker that is the only way. A shorter type node may
   * still match by running on past its end, as NodeEqUnbounded shows.
   */
  lemma ParameterIsUnusedText(content: string, param: Node)
    ensures ParameterIsUnused(content, param) ==> Field(param, "type").Some?
    ensures var t := Field(param, "type");
            t.Some? && t.value.startByte <= t.value.endByte <= |content| ==>
              && (StartsWith(NodeGetString(content, t.value), "G_GNUC_UNUSED") ==> ParameterIsUnused(content, param))
              && (|"G_GNUC_UNUSED"| <= t.value.endByte - t.value.startByte ==>
                    (ParameterIsUnused(content, param) <==> StartsWith(NodeGetString(content, t.value), "G_GNUC_UNUSED")))
  {
    var t := Field(param, "type");
    if t.Some? && t.value.startByte <= t.value.endByte <= |content| {
      NodeEqText(content, t.value, "G_GNUC_UNUSED");
    }
  }

  /** s with every occurrence of c removed (g_string_replace with ""). */
  function RemoveAll(s: string, c: char): (r: string)
    ensures c !in r
    ensures forall x :: x in r ==> x in s
    decreases |s|
  {
    if s == [] then []
    else if s[0] == c then RemoveAll(s[1..], c)
    else [s[0]] + RemoveAll(s[1..], c)
  }

  /** Removal works piecewise: the pieces of a concatenation keep their order. */
  lemma {:induction false} RemoveAllAppend(a: string, b: string, c: char)
    ensures RemoveAll(a + b, c) == RemoveAll(a, c) + RemoveAll(b, c)
    decreases |a|
  {
    if a == [] {
      assert a + b == b;
    } else {
      assert (a + b)[0] == a[0];
      assert (a + b)[1..] == a[1..] + b;
      RemoveAllAppend(a[1..], b, c);
    }
  }

  /** One character is dropped iff it is c; with RemoveAllAppend this fixes the result. */
  lemma RemoveAllSingle(x: char, c: char)
    ensures RemoveAll([x], c) == (if x == c then [] else [x])
  {
  }

  /** Every character other than c is kept as often as it occurs; c is gone. */
  lemma {:induction false} RemoveAllCount(s: string, c: char)
    ensures multiset(RemoveAll(s, c)) == multiset(s)[c := 0]
    decreases |s|
  {
    if s != [] {
      RemoveAllCount(s[1..], c);
      assert s == [s[0]] + s[1..];
      assert multiset(s) == multiset{s[0]} + multiset(s[1..]);
    }
  }

  /**
   * parse_utils_is_gobject_cast: Some((to, from)) when the declaration has
   * a type, a pointer declarator with an identifier, and a call whose
   * callee, upper-cased with its underscores removed, equals the
   * upper-cased type name and whose argument list has an identifier.
   * None (FALSE, outputs untouched) otherwise.
   */
  function IsGobjectCast(content: string, decl: Node): (r: Option<(string, string)>)
    ensures r.Some? ==> HasDescendantWith(decl, TypeIdentifier) && HasDescendantWith(decl, PointerDeclarator) &&
                        HasDescendantWith(decl, CallExpression)
    ensures r.Some? ==> '_' !in Upper(NodeGetString(content, FirstNodeId(decl, TypeIdentifier).0))
  {
    FirstNodeIdFound(decl, TypeIdentifier);
    FirstNodeIdFound(decl, PointerDeclarator);
    FirstNodeIdFound(decl, CallExpression);
    var ty := FirstNodeId(decl, TypeIdentifier);
    var pdecl := FirstNodeId(decl, PointerDeclarator);
    var call := FirstNodeId(decl, CallExpression);
    if !ty.1 || !pdecl.1 || !call.1 then None
    else
      var to := FirstNodeId(pdecl.0, Identifier);
      var fname := FirstNodeId(call.0, Identifier);
      var args := FirstNodeId(call.0, ArgumentList);
      if !to.1 || !fname.1 || !args.1 then None
      else
        var from := FirstNodeId(args.0, Identifier);
        if !from.1 then None
        else if Upper(NodeGetString(content, ty.0)) != RemoveAll(Upper(NodeGetString(content, fname.0)), '_') then None
        else Some((NodeGetString(content, to.0), NodeGetString(content, from.0)))
  }

  /**
   * A cast is reported only when the upper-cased type name equals the
   * upper-cased callee with its underscores removed; to is the text of an
   * identifier under the pointer declarator and from the text of one under
   * the call's argument list, all of them below the declaration.
   */
  lemma IsGobjectCastSound(content: string, decl: Node)
    requires IsGobjectCast(content, decl).Some?
    ensures var ty := FirstNodeId(decl, TypeIdentifier).0;
            var pdecl := FirstNodeId(decl, PointerDeclarator).0;
            var call := FirstNodeId(decl, CallExpression).0;
            var args := FirstNodeId(call, ArgumentList).0;
            var to := FirstNodeId(pdecl, Identifier).0;
            var from := FirstNodeId(args, Identifier).0;
            && IsDescendant(ty, decl) && ty.sym == TypeIdentifier
            && IsDescendant(pdecl, decl) && pdecl.sym == PointerDeclarator
            && IsDescendant(call, decl) && call.sym == CallExpression
            && IsDescendant(to, pdecl) && to.sym == Identifier
            && IsDescendant(args, call) && IsDescendant(from, args) && from.sym == Identifier
            && Upper(NodeGetString(content, ty)) ==
               RemoveAll(Upper(NodeGetString(content, FirstNodeId(call, Identifier).0)), '_')
            && IsGobjectCast(content, decl).value == (NodeGetString(content, to), NodeGetString(content, from))
  {
    var pdecl := FirstNodeId(decl, PointerDeclarator).0;
    var call := FirstNodeId(decl, CallExpression).0;
    FirstNodeIdBelow(decl, TypeIdentifier);
    FirstNodeIdBelow(decl, PointerDeclarator);
    FirstNodeIdBelow(decl, CallExpression);
    FirstNodeIdBelow(pdecl, Identifier);
    FirstNodeIdBelow(call, ArgumentList);
    FirstNodeIdBelow(FirstNodeId(call, ArgumentList).0, Identifier);
  }

  /** The normalisation pairs a type with its cast macro: MyT with MY_T. */
  lemma CastNameExample()
    ensures RemoveAll(Upper("MY_T"), '_') == Upper("MyT")
  {
    assert Upper("MY_T") == "MY_T";
  }

  /**
   * A finding at node n's start and end points, with severity 3, the
   * convention of every analyzer.
   */
  function NodeProblem(n: Node, msg: string): (p: Problem)
    ensures p.severity == 3 && p.msg == msg
    ensures p.range.start == Position(n.startPoint.row, n.startPoint.column)
    ensures p.range.end == Position(n.endPoint.row, n.endPoint.column)
  {
    ProblemNew(3, n.startPoint.row, n.startPoint.column, n.endPoint.row, n.endPoint.column, msg)
  }
}
