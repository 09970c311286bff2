/**
 * The concrete syntax tree the C grammar produces, as an immutable value,
 * and the byte-string helpers the analyzers apply to node slices.
 * The grammar itself is not part of this model: a tree is an input.
 */
module Syntax {
  import opened Wrappers

  /**
   * Symbol kinds the analyzers test for. The numeric ids the sources
   * name are given beside each kind; every other kind is Other.
   */
  datatype Symbol =
    | Identifier             // SYMBOL_IDENTIFIER, 1
    | FunctionDefinition     // SYMBOL_FUNCTION, 196
    | PointerDeclarator      // SYMBOL_POINTER_DECLARATION, 226
    | StorageClassSpecifier  // SYMBOL_STORAGE_SPEC, 242
    | ParameterList          // the literal 258 of validate_arg_list
    | ParameterDeclaration   // SYMBOL_PARAM_DECLARATION, 260
    | CallExpression         // SYMBOL_CALL_EXPRESSION, 299
    | TypeIdentifier         // SYMBOL_TYPE, 362
    | Declaration            // SYMBOL_DECLARATION
    | CastExpression         // SYMBOL_CAST_EXPRESSION
    | Comment                // SYMBOL_COMMENT
    | ArgumentList           // SYMBOL_ARG_LIST
    | FunctionDeclarator     // SYMBOL_FUNC_DECLARATION
    | StructSpecifier        // SYMBOL_STRUCT_SPEC
    | FieldDeclarationList   // SYMBOL_FIELD_DECL_LIST
    | FieldDeclaration       // SYMBOL_FIELD_DECL
    | FieldIdentifier        // SYMBOL_FIELD_IDENT
    | CompoundStatement      // SYMBOL_BODY, a { ... } block
    | Other(id: nat)

  /** A line/column position, as the grammar reports it. */
  datatype Point = Point(row: nat, column: nat)

  /**
   * A node: its symbol, its byte span [startByte, endByte) in the text, its
   * start and end points, its NAMED children in order, and its field
   * names, each mapped to the index of the named child it labels.
   */
  datatype Node = Node(
    sym: Symbol,
    startByte: nat,
    endByte: nat,
    startPoint: Point,
    endPoint: Point,
    children: seq<Node>,
    fields: map<string, nat>)

  /** ts_node_child_by_field_name: the child labelled name, or the null node. */
  function Field(n: Node, name: string): (r: Option<Node>)
    ensures r.Some? <==> name in n.fields && n.fields[name] < |n.children|
    ensures r.Some? ==> r.value == n.children[n.fields[name]]
  {
    if name in n.fields && n.fields[name] < |n.children| then Some(n.children[n.fields[name]]) else None
  }

  /** d lies strictly below n: a child of n, or below one. */
  ghost predicate IsDescendant(d: Node, n: Node)
    decreases n
  {
    exists k :: 0 <= k < |n.children| && (n.children[k] == d || IsDescendant(d, n.children[k]))
  }

  /** A descendant of a child is a descendant. */
  lemma ChildDescendant(d: Node, n: Node, k: nat)
    requires k < |n.children|
    requires n.children[k] == d || IsDescendant(d, n.children[k])
    ensures IsDescendant(d, n)
  {
  }

  /** The nodes strictly below n, each before its own descendants, children in order. */
  function PreOrder(n: Node): (r: seq<Node>)
    decreases n, |n.children| + 1
  {
    PreOrderFrom(n, 0)
  }

  /** The pre-order of the subtrees of children i, i+1, ... of n. */
  function PreOrderFrom(n: Node, i: nat): (r: seq<Node>)
    requires i <= |n.children|
    decreases n, |n.children| - i
  {
    if i == |n.children| then [] else [n.children[i]] + PreOrder(n.children[i]) + PreOrderFrom(n, i + 1)
  }

  /** The pre-order visits exactly the descendants. */
  lemma {:induction false} PreOrderDescendants(n: Node, d: Node)
    ensures d in PreOrder(n) <==> IsDescendant(d, n)
    decreases n
  {
    PreOrderFromDescendants(n, 0, d);
  }

  /** The pre-order of children i, i+1, ... visits exactly their subtrees. */
  lemma {:induction false} PreOrderFromDescendants(n: Node, i: nat, d: Node)
    requires i <= |n.children|
    ensures d in PreOrderFrom(n, i) <==>
            exists k :: i <= k < |n.children| && (n.children[k] == d || IsDescendant(d, n.children[k]))
    decreases n, |n.children| - i
  {
    if i < |n.children| {
      PreOrderDescendants(n.children[i], d);
      PreOrderFromDescendants(n, i + 1, d);
    }
  }

  /** The results of f on each node of nodes, concatenated in order. */
  function ConcatMap<T>(f: Node -> seq<T>, nodes: seq<Node>): (r: seq<T>)
    decreases |nodes|
  {
    if nodes == [] then [] else f(nodes[0]) + ConcatMap(f, nodes[1..])
  }

  /** ConcatMap distributes over concatenation. */
  lemma {:induction false} ConcatMapAppend<T>(f: Node -> seq<T>, a: seq<Node>, b: seq<Node>)
    ensures ConcatMap(f, a + b) == ConcatMap(f, a) + ConcatMap(f, b)
    decreases |a|
  {
    if a == [] {
      assert a + b == b;
    } else {
      assert (a + b)[0] == a[0];
      assert (a + b)[1..] == a[1..] + b;
      ConcatMapAppend(f, a[1..], b);
    }
  }

  /** x is produced by ConcatMap exactly when f produces it for one of the nodes. */
  lemma {:induction false} ConcatMapMembers<T>(f: Node -> seq<T>, nodes: seq<Node>, x: T)
    ensures x in ConcatMap(f, nodes) <==> exists d :: d in nodes && x in f(d)
    decreases |nodes|
  {
    if nodes != [] {
      ConcatMapMembers(f, nodes[1..], x);
      assert forall d :: d in nodes <==> d == nodes[0] || d in nodes[1..];
    }
  }

  /**
   * The shape every analyzer's recurse_check has: for each child in
   * order, the check on the child, then the walk below the child.
   */
  function Visit<T>(f: Node -> seq<T>, p: Node): (r: seq<T>)
    decreases p, |p.children| + 1
  {
    VisitFrom(f, p, 0)
  }

  /** Visit over children i, i+1, ... of p. */
  function VisitFrom<T>(f: Node -> seq<T>, p: Node, i: nat): (r: seq<T>)
    requires i <= |p.children|
    decreases p, |p.children| - i
  {
    if i == |p.children| then [] else f(p.children[i]) + Visit(f, p.children[i]) + VisitFrom(f, p, i + 1)
  }

  /** The walk applies the check to every node below p, in pre-order. */
  lemma {:induction false} VisitPreOrder<T>(f: Node -> seq<T>, p: Node)
    ensures Visit(f, p) == ConcatMap(f, PreOrder(p))
    decreases p, |p.children| + 1
  {
    VisitFromPreOrder(f, p, 0);
  }

  /** VisitFrom is the check over PreOrderFrom. */
  lemma {:induction false} VisitFromPreOrder<T>(f: Node -> seq<T>, p: Node, i: nat)
    requires i <= |p.children|
    ensures VisitFrom(f, p, i) == ConcatMap(f, PreOrderFrom(p, i))
    decreases p, |p.children| - i
  {
    if i < |p.children| {
      var c := p.children[i];
      VisitPreOrder(f, c);
      VisitFromPreOrder(f, p, i + 1);
      ConcatMapAppend(f, [c] + PreOrder(c), PreOrderFrom(p, i + 1));
      ConcatMapAppend(f, [c], PreOrder(c));
      assert ConcatMap(f, [c]) == f(c) + ConcatMap(f, []);
    }
  }

  /** The walk reports exactly what the check reports at some node below p. */
  lemma VisitMembers<T>(f: Node -> seq<T>, p: Node, x: T)
    ensures x in Visit(f, p) <==> exists d :: IsDescendant(d, p) && x in f(d)
  {
    VisitPreOrder(f, p);
    ConcatMapMembers(f, PreOrder(p), x);
    forall d
      ensures d in PreOrder(p) <==> IsDescendant(d, p)
    {
      PreOrderDescendants(p, d);
    }
  }

  /** p is a prefix of s (strncmp(s, p, strlen(p)) == 0 on NUL-free text). */
  predicate StartsWith(s: string, p: string)
  {
    |p| <= |s| && s[..|p|] == p
  }

  /** sub occurs in s at offset i. */
  predicate OccursAt(s: string, sub: string, i: nat)
  {
    i + |sub| <= |s| && s[i..i + |sub|] == sub
  }

  /** g_strstr_len(s, -1, sub) != NULL, as a scan from the front. */
  function Contains(s: string, sub: string): bool
    decreases |s|
  {
    StartsWith(s, sub) || (|s| > 0 && Contains(s[1..], sub))
  }

  /** An occurrence anywhere is found by the scan. */
  lemma {:induction false} OccursContains(s: string, sub: string, i: nat)
    requires OccursAt(s, sub, i)
    ensures Contains(s, sub)
    decreases i
  {
    if i == 0 {
      assert s[..|sub|] == s[0..|sub|];
    } else {
      assert s[1..][i - 1..i - 1 + |sub|] == s[i..i + |sub|];
      OccursContains(s[1..], sub, i - 1);
    }
  }

  /** The scan finds sub exactly when sub occurs somewhere in s. */
  lemma {:induction false} ContainsOccurs(s: string, sub: string)
    ensures Contains(s, sub) <==> exists i: nat :: OccursAt(s, sub, i)
    decreases |s|
  {
    if exists i: nat :: OccursAt(s, sub, i) {
      var i: nat :| OccursAt(s, sub, i);
      OccursContains(s, sub, i);
    }
    if Contains(s, sub) {
      if StartsWith(s, sub) {
        assert OccursAt(s, sub, 0);
      } else {
        ContainsOccurs(s[1..], sub);
        var i: nat :| OccursAt(s[1..], sub, i);
        assert s[1..][i..i + |sub|] == s[i + 1..i + 1 + |sub|];
        assert OccursAt(s, sub, i + 1);
      }
    }
  }

  /** ASCII lower-casing of one byte. */
  function LowerChar(c: char): char
  {
    if 'A' <= c <= 'Z' then (c as int + 32) as char else c
  }

  /** ASCII lower-casing of a string. */
  function Lower(s: string): (r: string)
    ensures |r| == |s|
    ensures forall i :: 0 <= i < |s| ==> r[i] == LowerChar(s[i])
  {
    seq(|s|, i requires 0 <= i < |s| => LowerChar(s[i]))
  }

  /** ASCII upper-casing of one byte. */
  function UpperChar(c: char): char
  {
    if 'a' <= c <= 'z' then (c as int - 32) as char else c
  }

  /** g_ascii_strup: ASCII upper-casing of a string. */
  function Upper(s: string): (r: string)
    ensures |r| == |s|
    ensures forall i :: 0 <= i < |s| ==> r[i] == UpperChar(s[i])
  {
    seq(|s|, i requires 0 <= i < |s| => UpperChar(s[i]))
  }

  /** g_strsplit(s, [sep], -1): the pieces of s between the separators. */
  function Split(s: string, sep: char): (r: seq<string>)
    ensures |r| >= 1
    ensures forall k :: 0 <= k < |r| ==> sep !in r[k]
    decreases |s|
  {
    if s == [] then [""]
    else if s[0] == sep then [""] + Split(s[1..], sep)
    else
      var rest := Split(s[1..], sep);
      [[s[0]] + rest[0]] + rest[1..]
  }

  /** The pieces joined back with the separator. */
  function Join(parts: seq<string>, sep: char): string
    requires |parts| >= 1
    decreases |parts|
  {
    if |parts| == 1 then parts[0] else parts[0] + [sep] + Join(parts[1..], sep)
  }

  /** Splitting loses nothing: joining the pieces gives the text back. */
  lemma {:induction false} SplitJoin(s: string, sep: char)
    ensures Join(Split(s, sep), sep) == s
    decreases |s|
  {
    if s == [] {
    } else if s[0] == sep {
      SplitJoin(s[1..], sep);
      assert Split(s, sep)[1..] == Split(s[1..], sep);
    } else {
      SplitJoin(s[1..], sep);
      var rest := Split(s[1..], sep);
      var r := Split(s, sep);
      assert r[0] == [s[0]] + rest[0];
      if |rest| == 1 {
        assert s == [s[0]] + s[1..];
      } else {
        assert r[1..] == rest[1..];
        assert Join(r, sep) == [s[0]] + rest[0] + [sep] + Join(rest[1..], sep);
        assert s == [s[0]] + s[1..];
      }
    }
  }
}
