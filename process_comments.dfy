/**
 * The documentation analyzer: top-level non-static function declarations
 * need a preceding comment with @brief, an @return that agrees with the
 * return type and @param lines that agree with the parameter names; struct
 * fields need a documentation comment before them (PRE_MARK) or a
 * trailing one after them (POST_MARK).
 */
module ProcessComments {
  import opened Wrappers
  import opened Lists
  import opened Syntax
  import opened Message
  import opened ParseUtils
  import opened Parser

  const NO_RETURN_TYPE := "Function should have a return value"
  const VOID_RETURN_DOC := "Void functions should not document @return"
  const MISSING_RETURN_DOC := "Functions return value should be documented with @return"
  const UNDOCUMENTED := "Function should be documented"
  const NO_BRIEF := "Comment should contain a @brief"
  const EXTRA_PARAMS := "Extra params are documented"
  const FIELD_UNCOMMENTED := "Struct field should be commented"

  /** The opening of a trailing field comment: slash, two stars, '<', space. */
  const POST_MARK := ['/', '*', '*', '<', ' ']
  /** The opening of a documentation comment: slash, two stars, space. */
  const PRE_MARK := ['/', '*', '*', ' ']

  /** The message for a parameter missing from the @param lines. */
  function NotDocumentedMessage(name: string): (m: string)
    ensures StartsWith(m, "Parameter ")
  {
    "Parameter " + name + " is not documented"
  }

  /** The fixed messages differ from each other and from the "Parameter ..." ones. */
  lemma MessagesDistinct()
    ensures !StartsWith(EXTRA_PARAMS, "Parameter ") && !StartsWith(FIELD_UNCOMMENTED, "Parameter ") &&
            !StartsWith(NO_BRIEF, "Parameter ")
    ensures FIELD_UNCOMMENTED !in {NO_RETURN_TYPE, VOID_RETURN_DOC, MISSING_RETURN_DOC, EXTRA_PARAMS, UNDOCUMENTED, NO_BRIEF}
    ensures NO_BRIEF !in {NO_RETURN_TYPE, VOID_RETURN_DOC, MISSING_RETURN_DOC, EXTRA_PARAMS, UNDOCUMENTED}
  {
    NotParameterMessages();
    FieldMessageDistinct();
    BriefMessageDistinct();
  }

  /** None of the fixed messages starts like an undocumented-parameter one. */
  lemma NotParameterMessages()
    ensures !StartsWith(EXTRA_PARAMS, "Parameter ") && !StartsWith(FIELD_UNCOMMENTED, "Parameter ") &&
            !StartsWith(NO_BRIEF, "Parameter ")
  {
    assert EXTRA_PARAMS[0] == 'E' && FIELD_UNCOMMENTED[0] == 'S' && NO_BRIEF[0] == 'C';
  }

  /** The struct-field message is none of the function messages. */
  lemma FieldMessageDistinct()
    ensures FIELD_UNCOMMENTED !in {NO_RETURN_TYPE, VOID_RETURN_DOC, MISSING_RETURN_DOC, EXTRA_PARAMS, UNDOCUMENTED, NO_BRIEF}
  {
    assert |FIELD_UNCOMMENTED| == 32 && |UNDOCUMENTED| == 29 && |EXTRA_PARAMS| == 27;
    assert FIELD_UNCOMMENTED[31] == 'd' && NO_RETURN_TYPE[|NO_RETURN_TYPE| - 1] == 'e';
    assert VOID_RETURN_DOC[|VOID_RETURN_DOC| - 1] == 'n' && MISSING_RETURN_DOC[|MISSING_RETURN_DOC| - 1] == 'n';
    assert NO_BRIEF[|NO_BRIEF| - 1] == 'f';
  }

  /** The missing-@brief message is none of the other function messages. */
  lemma BriefMessageDistinct()
    ensures NO_BRIEF !in {NO_RETURN_TYPE, VOID_RETURN_DOC, MISSING_RETURN_DOC, EXTRA_PARAMS, UNDOCUMENTED}
  {
    assert NO_BRIEF[|NO_BRIEF| - 1] == 'f' && NO_RETURN_TYPE[|NO_RETURN_TYPE| - 1] == 'e';
    assert VOID_RETURN_DOC[|VOID_RETURN_DOC| - 1] == 'n' && MISSING_RETURN_DOC[|MISSING_RETURN_DOC| - 1] == 'n';
    assert EXTRA_PARAMS[|EXTRA_PARAMS| - 1] == 'd' && UNDOCUMENTED[|UNDOCUMENTED| - 1] == 'd';
  }

  /*
   * validate_return
   */

  /** The findings validate_return prepends for declaration n documented by comment. */
  function ReturnFindings(content: string, n: Node, comment: string): seq<Problem>
  {
    var retType := Field(n, "type");
    if retType.None? then [NodeProblem(n, NO_RETURN_TYPE)]
    else if NodeEq(content, retType.value, "void") then
      if Contains(comment, "@return") then [NodeProblem(n, VOID_RETURN_DOC)] else []
    else if !Contains(comment, "@return") then [NodeProblem(n, MISSING_RETURN_DOC)]
    else []
  }

  /**
   * validate_return reports at most one finding, at n's span, and none
   * exactly when there is a return type and it is void exactly when
   * @return is absent; a missing return type is always reported.
   */
  lemma ReturnFindingsExact(content: string, n: Node, comment: string)
    ensures var r := ReturnFindings(content, n, comment);
            && |r| <= 1
            && (r == [] <==>
                Field(n, "type").Some? && (NodeEq(content, Field(n, "type").value, "void") <==> !Contains(comment, "@return")))
            && (Field(n, "type").None? ==> r == [NodeProblem(n, NO_RETURN_TYPE)])
            && (forall p :: p in r ==> p == NodeProblem(n, p.msg) &&
                                       p.msg in {NO_RETURN_TYPE, VOID_RETURN_DOC, MISSING_RETURN_DOC})
  {
  }

  /** validate_return. */
  method ValidateReturn(content: string, n: Node, comment: string, problems: seq<Problem>)
    returns (res: seq<Problem>)
    ensures res == ReturnFindings(content, n, comment) + problems
  {
    res := problems;
    var retType := Field(n, "type");
    if retType.None? {
      res := [NodeProblem(n, NO_RETURN_TYPE)] + res;
      return;
    }
    var returnDoc := Contains(comment, "@return");
    if NodeEq(content, retType.value, "void") {
      if returnDoc {
        res := [NodeProblem(n, VOID_RETURN_DOC)] + res;
      }
    } else {
      if !returnDoc {
        res := [NodeProblem(n, MISSING_RETURN_DOC)] + res;
      }
    }
  }

  /*
   * parse_param_docs
   */

  /** The index of the first word equal to "@param" at or after i, or |words|. */
  function FirstTag(words: seq<string>, i: nat): (k: nat)
    requires i <= |words|
    ensures i <= k <= |words|
    ensures k < |words| ==> words[k] == "@param"
    ensures forall j :: i <= j < k ==> words[j] != "@param"
    decreases |words| - i
  {
    if i == |words| || words[i] == "@param" then i else FirstTag(words, i + 1)
  }

  /** The index of the first non-empty word other than "@param" at or after i, or |words|. */
  function FirstName(words: seq<string>, i: nat): (k: nat)
    requires i <= |words|
    ensures i <= k <= |words|
    ensures k < |words| ==> words[k] != "" && words[k] != "@param"
    ensures forall j :: i <= j < k ==> words[j] == "" || words[j] == "@param"
    decreases |words| - i
  {
    if i == |words| || (words[i] != "" && words[i] != "@param") then i else FirstName(words, i + 1)
  }

  /**
   * The name one line documents: the first non-empty word after the first
   * word "@param" that is not itself "@param", words being the pieces
   * between single spaces.
   */
  function LineParam(line: string): Option<string>
  {
    WordsParam(Split(line, ' '))
  }

  /** The name a line split into words documents. */
  function WordsParam(words: seq<string>): Option<string>
  {
    var k := FirstTag(words, 0);
    if k == |words| then None
    else
      var j := FirstName(words, k + 1);
      if j == |words| then None else Some(words[j])
  }

  /** The names the lines i, i+1, ... document. */
  function DocsFrom(lines: seq<string>, i: nat): set<string>
    requires i <= |lines|
    decreases |lines| - i
  {
    if i == |lines| then {}
    else
      (if Contains(lines[i], "@param") && LineParam(lines[i]).Some? then {LineParam(lines[i]).value} else {}) +
      DocsFrom(lines, i + 1)
  }

  /** The set parse_param_docs builds from a comment's text. */
  function ParamDocs(comment: string): set<string>
  {
    DocsFrom(Split(comment, '\n'), 0)
  }

  /**
   * Word k is the first "@param" of the line and word j, after it, is the
   * first word that is neither empty nor "@param": it is w.
   */
  predicate TagThenName(words: seq<string>, k: nat, j: nat, w: string)
  {
    && k < j < |words| && words[k] == "@param"
    && (forall i :: 0 <= i < k ==> words[i] != "@param")
    && words[j] == w && w != "" && w != "@param"
    && (forall i :: k < i < j ==> words[i] == "" || words[i] == "@param")
  }

  /** The indices TagThenName speaks of are the ones the scan finds. */
  lemma TagThenNameScan(words: seq<string>, k: nat, j: nat, w: string)
    requires TagThenName(words, k, j, w)
    ensures FirstTag(words, 0) == k && FirstName(words, k + 1) == j
  {
  }

  /**
   * A line names w exactly when it has a word "@param" with no earlier
   * one, and w is the first word after it that is neither empty nor
   * "@param".
   */
  lemma LineParamWords(line: string, w: string)
    ensures LineParam(line) == Some(w) <==> exists k, j :: TagThenName(Split(line, ' '), k, j, w)
  {
    assert LineParam(line) == WordsParam(Split(line, ' '));
    WordsParamNames(Split(line, ' '), w);
  }

  /** LineParamWords on the words of the line. */
  lemma WordsParamNames(words: seq<string>, w: string)
    ensures WordsParam(words) == Some(w) <==> exists k, j :: TagThenName(words, k, j, w)
  {
    if WordsParam(words) == Some(w) {
      var k := FirstTag(words, 0);
      var j := FirstName(words, k + 1);
      assert TagThenName(words, k, j, w);
    }
    if exists k, j :: TagThenName(words, k, j, w) {
      var k, j :| TagThenName(words, k, j, w);
      TagThenNameScan(words, k, j, w);
    }
  }

  /** Each piece of a split text occurs in the text. */
  lemma {:induction false} JoinOccurs(parts: seq<string>, sep: char, k: nat)
    requires |parts| >= 1 && k < |parts|
    ensures exists i: nat :: OccursAt(Join(parts, sep), parts[k], i)
    decreases |parts|
  {
    var s := Join(parts, sep);
    if |parts| == 1 {
      assert OccursAt(s, parts[k], 0);
    } else if k == 0 {
      assert s == parts[0] + ([sep] + Join(parts[1..], sep));
      assert s[0..|parts[0]|] == parts[0];
      assert OccursAt(s, parts[k], 0);
    } else {
      JoinOccurs(parts[1..], sep, k - 1);
      var rest := Join(parts[1..], sep);
      var i: nat :| OccursAt(rest, parts[1..][k - 1], i);
      var off := |parts[0]| + 1;
      assert s == (parts[0] + [sep]) + rest;
      assert s[off + i..off + i + |parts[k]|] == rest[i..i + |parts[k]|];
      assert OccursAt(s, parts[k], off + i);
    }
  }

  /**
   * A line that names a parameter contains "@param", so the substring
   * filter of parse_param_docs never drops a name.
   */
  lemma LineParamHasTag(line: string)
    requires LineParam(line).Some?
    ensures Contains(line, "@param")
  {
    var words := Split(line, ' ');
    var k := FirstTag(words, 0);
    JoinOccurs(words, ' ', k);
    SplitJoin(line, ' ');
    var i: nat :| OccursAt(line, "@param", i);
    OccursContains(line, "@param", i);
  }

  /** w is documented exactly when some line of the comment names it. */
  lemma {:induction false} DocsFromMembers(lines: seq<string>, i: nat, w: string)
    requires i <= |lines|
    ensures w in DocsFrom(lines, i) <==> exists k :: i <= k < |lines| && LineParam(lines[k]) == Some(w)
    decreases |lines| - i
  {
    if i < |lines| {
      DocsFromMembers(lines, i + 1, w);
      var named := LineParam(lines[i]);
      if named.Some? {
        LineParamHasTag(lines[i]);
      }
      assert w in DocsFrom(lines, i) <==> named == Some(w) || w in DocsFrom(lines, i + 1);
      if named == Some(w) {
        assert i <= i < |lines| && LineParam(lines[i]) == Some(w);
      }
      if exists k :: i <= k < |lines| && LineParam(lines[k]) == Some(w) {
        var k :| i <= k < |lines| && LineParam(lines[k]) == Some(w);
        assert k == i || (i + 1 <= k < |lines| && LineParam(lines[k]) == Some(w));
      }
    }
  }

  /** The documented names are the names the comment's lines give. */
  lemma ParamDocsMembers(comment: string, w: string)
    ensures w in ParamDocs(comment) <==> exists line :: line in Split(comment, '\n') && LineParam(line) == Some(w)
  {
    var lines := Split(comment, '\n');
    DocsFromMembers(lines, 0, w);
    if exists line :: line in lines && LineParam(line) == Some(w) {
      var line :| line in lines && LineParam(line) == Some(w);
      var k :| 0 <= k < |lines| && lines[k] == line;
    }
  }

  /** The inner loop of parse_param_docs: the name one line gives, if any. */
  method LineWord(line: string) returns (w: Option<string>)
    ensures w == LineParam(line)
  {
    var words := Split(line, ' ');
    var next := false;
    var j := 0;
    while j < |words|
      invariant 0 <= j <= |words|
      invariant !next ==> FirstTag(words, 0) >= j
      invariant next ==> FirstTag(words, 0) < j && FirstName(words, FirstTag(words, 0) + 1) >= j
    {
      if words[j] == "@param" {
        next := true;
      } else if next && |words[j]| > 0 {
        return Some(words[j]);
      }
      j := j + 1;
    }
    return None;
  }

  /** parse_param_docs. */
  method ParseParamDocs(comment: string) returns (docs: set<string>)
    ensures docs == ParamDocs(comment)
  {
    var lines := Split(comment, '\n');
    docs := {};
    var i := 0;
    while i < |lines|
      invariant 0 <= i <= |lines|
      invariant docs + DocsFrom(lines, i) == ParamDocs(comment)
    {
      if Contains(lines[i], "@param") {
        var w := LineWord(lines[i]);
        if w.Some? {
          docs := docs + {w.value};
        }
      }
      i := i + 1;
    }
  }

  /*
   * validate_arg and validate_arg_list
   */

  /** The name validate_arg looks up: the text of the parameter's first identifier. */
  function ArgName(content: string, arg: Node): Option<string>
  {
    var id := FirstNodeId(arg, Identifier);
    if id.1 then Some(NodeGetString(content, id.0)) else None
  }

  /** The finding for an undocumented parameter, at its first identifier. */
  function ArgProblem(content: string, arg: Node): Problem
  {
    var id := FirstNodeId(arg, Identifier);
    NodeProblem(id.0, NotDocumentedMessage(NodeGetString(content, id.0)))
  }

  /**
   * validate_arg as a value: the documented names left and the finding for
   * arg. A documented name is used up; an undocumented one is reported.
   */
  function ArgStep(content: string, arg: Node, docs: set<string>): (r: (set<string>, seq<Problem>))
    ensures r.0 <= docs && |r.1| <= 1
    ensures ArgName(content, arg).None? ==> r == (docs, [])
    ensures ArgName(content, arg).Some? ==>
              r.0 == docs - {ArgName(content, arg).value} &&
              (r.1 != [] <==> ArgName(content, arg).value !in docs)
    ensures r.1 != [] ==> r.1 == [ArgProblem(content, arg)]
  {
    var name := ArgName(content, arg);
    if name.None? then (docs, [])
    else if name.value in docs then (docs - {name.value}, [])
    else (docs, [ArgProblem(content, arg)])
  }

  /** The loop of validate_arg_list over args[i..], from the names docs. */
  function ArgsFrom(content: string, args: seq<Node>, i: nat, docs: set<string>): (set<string>, seq<Problem>)
    requires i <= |args|
    decreases |args| - i
  {
    if i == |args| then (docs, [])
    else
      var s := ArgStep(content, args[i], docs);
      var rest := ArgsFrom(content, args, i + 1, s.0);
      (rest.0, s.1 + rest.1)
  }

  /** The parameter loop reports only undocumented parameters. */
  lemma {:induction false} ArgsFromKinds(content: string, args: seq<Node>, i: nat, docs: set<string>)
    requires i <= |args|
    ensures forall p :: p in ArgsFrom(content, args, i, docs).1 ==> StartsWith(p.msg, "Parameter ")
    decreases |args| - i
  {
    if i < |args| {
      ArgsFromKinds(content, args, i + 1, ArgStep(content, args[i], docs).0);
    }
  }

  /** The names of args[i..] that have an identifier. */
  function ArgNames(content: string, args: seq<Node>, i: nat): set<string>
    requires i <= |args|
    decreases |args| - i
  {
    if i == |args| then {}
    else (if ArgName(content, args[i]).Some? then {ArgName(content, args[i]).value} else {}) + ArgNames(content, args, i + 1)
  }

  /** The names left over are the documented names no parameter has. */
  lemma {:induction false} ArgsRemaining(content: string, args: seq<Node>, i: nat, docs: set<string>)
    requires i <= |args|
    ensures ArgsFrom(content, args, i, docs).0 == docs - ArgNames(content, args, i)
    decreases |args| - i
  {
    if i < |args| {
      ArgsRemaining(content, args, i + 1, ArgStep(content, args[i], docs).0);
    }
  }

  /** Parameter names are distinct, as C demands of one parameter list. */
  predicate DistinctNames(content: string, args: seq<Node>)
  {
    forall a, b :: 0 <= a < b < |args| && ArgName(content, args[a]).Some? ==> ArgName(content, args[a]) != ArgName(content, args[b])
  }

  /**
   * With distinct names, a parameter is reported exactly when it has an
   * identifier whose text is not documented.
   */
  lemma {:induction false} ArgsReported(content: string, args: seq<Node>, i: nat, docs: set<string>, p: Problem)
    requires i <= |args|
    requires DistinctNames(content, args)
    ensures p in ArgsFrom(content, args, i, docs).1 <==>
            exists k :: i <= k < |args| && ArgName(content, args[k]).Some? &&
                        ArgName(content, args[k]).value !in docs && p == ArgProblem(content, args[k])
    decreases |args| - i
  {
    if i < |args| {
      var s := ArgStep(content, args[i], docs);
      ArgsReported(content, args, i + 1, s.0, p);
      var name := ArgName(content, args[i]);
      if name.Some? {
        assert forall k :: i < k < |args| && ArgName(content, args[k]).Some? ==>
                             (ArgName(content, args[k]).value in s.0 <==> ArgName(content, args[k]).value in docs);
      }
    }
  }

  /**
   * The findings validate_arg_list prepends for declaration n, in
   * discovery order: one per undocumented parameter of its first
   * parameter list, then one for the names left over.
   */
  function ArgListFindings(content: string, n: Node, comment: string): seq<Problem>
  {
    var list := FirstNodeId(n, ParameterList);
    if !list.1 then []
    else
      var s := ArgsFrom(content, list.0.children, 0, ParamDocs(comment));
      s.1 + (if |s.0| > 0 then [NodeProblem(list.0, EXTRA_PARAMS)] else [])
  }

  /** validate_arg_list reports undocumented parameters and extra documented names only. */
  lemma ArgListKinds(content: string, n: Node, comment: string)
    ensures forall p :: p in ArgListFindings(content, n, comment) ==> StartsWith(p.msg, "Parameter ") || p.msg == EXTRA_PARAMS
  {
    var list := FirstNodeId(n, ParameterList);
    if list.1 {
      ArgsFromKinds(content, list.0.children, 0, ParamDocs(comment));
    }
  }

  /**
   * "Extra params are documented" is reported exactly when the comment
   * documents a name no parameter has.
   */
  lemma ExtraParamsIff(content: string, n: Node, comment: string)
    requires FirstNodeId(n, ParameterList).1
    ensures var list := FirstNodeId(n, ParameterList).0;
            NodeProblem(list, EXTRA_PARAMS) in ArgListFindings(content, n, comment) <==>
            exists d :: d in ParamDocs(comment) && d !in ArgNames(content, list.children, 0)
  {
    var list := FirstNodeId(n, ParameterList).0;
    var s := ArgsFrom(content, list.children, 0, ParamDocs(comment));
    ArgsRemaining(content, list.children, 0, ParamDocs(comment));
    if NodeProblem(list, EXTRA_PARAMS) in s.1 {
      ArgsFromKinds(content, list.children, 0, ParamDocs(comment));
      MessagesDistinct();
    }
    if |s.0| > 0 {
      var d :| d in s.0;
    }
  }

  /** validate_arg: uses up the parameter's name or prepends its finding. */
  method ValidateArg(content: string, arg: Node, params: set<string>, problems: seq<Problem>)
    returns (left: set<string>, res: seq<Problem>)
    ensures left == ArgStep(content, arg, params).0
    ensures res == ArgStep(content, arg, params).1 + problems
  {
    left := params;
    res := problems;
    var id := FirstNodeId(arg, Identifier);
    if !id.1 {
      return;
    }
    var name := NodeGetString(content, id.0);
    if name in left {
      left := left - {name};
    } else {
      res := [NodeProblem(id.0, NotDocumentedMessage(name))] + res;
    }
  }

  /** The loop of validate_arg_list: the names left and the findings prepended. */
  method ValidateArgs(content: string, args: seq<Node>, docs: set<string>, problems: seq<Problem>)
    returns (left: set<string>, res: seq<Problem>)
    ensures left == ArgsFrom(content, args, 0, docs).0
    ensures res == Reversed(ArgsFrom(content, args, 0, docs).1) + problems
  {
    ghost var total := ArgsFrom(content, args, 0, docs);
    left := docs;
    res := problems;
    var i := 0;
    while i < |args|
      invariant 0 <= i <= |args|
      invariant total.0 == ArgsFrom(content, args, i, left).0
      invariant Reversed(total.1) + problems == Reversed(ArgsFrom(content, args, i, left).1) + res
    {
      ghost var step := ArgStep(content, args[i], left);
      ghost var rest := ArgsFrom(content, args, i + 1, step.0);
      assert ArgsFrom(content, args, i, left) == (rest.0, step.1 + rest.1);
      PrependStep(step.1, rest.1, res);
      assert Reversed(step.1) == step.1;
      left, res := ValidateArg(content, args[i], left, res);
      i := i + 1;
    }
  }

  /** validate_arg_list. */
  method ValidateArgList(content: string, n: Node, comment: string, problems: seq<Problem>)
    returns (res: seq<Problem>)
    ensures res == Reversed(ArgListFindings(content, n, comment)) + problems
  {
    res := problems;
    var list := FirstNodeId(n, ParameterList);
    if !list.1 {
      return;
    }
    var params := ParseParamDocs(comment);
    ghost var total := ArgsFrom(content, list.0.children, 0, params);
    params, res := ValidateArgs(content, list.0.children, params, res);
    ghost var extra := if |params| > 0 then [NodeProblem(list.0, EXTRA_PARAMS)] else [];
    PrependStep(total.1, extra, problems);
    assert Reversed(extra) == extra;
    if |params| > 0 {
      res := [NodeProblem(list.0, EXTRA_PARAMS)] + res;
    }
  }

  /*
   * check_function_comments
   */

  /** A storage-class specifier below n starts with "static" or "STATIC". */
  predicate StaticDeclaration(content: string, n: Node)
  {
    var stat := FirstNodeId(n, StorageClassSpecifier);
    stat.1 && (NodeEq(content, stat.0, "static") || NodeEq(content, stat.0, "STATIC"))
  }

  /** A top-level node check_function_comments looks at: a non-static declaration of a function. */
  predicate Documentable(content: string, n: Node)
  {
    n.sym == Declaration && !StaticDeclaration(content, n) && FirstNodeId(n, FunctionDeclarator).1
  }

  /**
   * The findings for the top-level child i, in discovery order. A
   * function declaration with no comment right before it gets the one
   * finding "Function should be documented"; otherwise the comment is
   * checked for @brief, @return and @param.
   */
  function DeclFindings(content: string, children: seq<Node>, i: nat): seq<Problem>
    requires i < |children|
  {
    var n := children[i];
    if !Documentable(content, n) then []
    else if i == 0 || children[i - 1].sym != Comment then [NodeProblem(n, UNDOCUMENTED)]
    else CommentFindings(content, n, children[i - 1])
  }

  /** The findings for declaration n documented by comment node c: @brief, @return, @param. */
  function CommentFindings(content: string, n: Node, c: Node): seq<Problem>
  {
    var text := NodeGetString(content, c);
    (if !Contains(text, "@brief") then [NodeProblem(c, NO_BRIEF)] else []) +
    ReturnFindings(content, n, text) + ArgListFindings(content, n, text)
  }

  /** What validate_return and validate_arg_list report never says "@brief" or "Struct field". */
  lemma CommentChecksKinds(content: string, n: Node, text: string)
    ensures forall p :: p in ReturnFindings(content, n, text) + ArgListFindings(content, n, text) ==>
                          p.msg != NO_BRIEF && p.msg != FIELD_UNCOMMENTED
  {
    ReturnFindingsExact(content, n, text);
    ArgListKinds(content, n, text);
    MessagesDistinct();
  }

  /** A top-level declaration never yields a struct-field finding. */
  lemma DeclFindingsKinds(content: string, children: seq<Node>, i: nat)
    requires i < |children|
    ensures forall p :: p in DeclFindings(content, children, i) ==> p.msg != FIELD_UNCOMMENTED
  {
    if Documentable(content, children[i]) && 0 < i && children[i - 1].sym == Comment {
      CommentChecksKinds(content, children[i], NodeGetString(content, children[i - 1]));
    }
    MessagesDistinct();
  }

  /**
   * A missing @brief is reported, at the comment, exactly for a
   * documentable declaration right after a comment without "@brief".
   */
  lemma DeclBrief(content: string, children: seq<Node>, i: nat)
    requires 0 < i < |children|
    ensures NodeProblem(children[i - 1], NO_BRIEF) in DeclFindings(content, children, i) <==>
            Documentable(content, children[i]) && children[i - 1].sym == Comment &&
            !Contains(NodeGetString(content, children[i - 1]), "@brief")
  {
    if Documentable(content, children[i]) && children[i - 1].sym == Comment {
      CommentChecksKinds(content, children[i], NodeGetString(content, children[i - 1]));
    }
    MessagesDistinct();
  }

  /** DeclFindings as the contribution of each index of the loop. */
  function DeclCheck(content: string, children: seq<Node>): nat -> seq<Problem>
  {
    (k: nat) => if k < |children| then DeclFindings(content, children, k) else []
  }

  /** The findings check_function_comments prepends for the top-level children, in discovery order. */
  function FunctionFindings(content: string, children: seq<Node>): seq<Problem>
  {
    ConcatRange(DeclCheck(content, children), 0, |children|)
  }

  /** Every finding of check_function_comments belongs to one top-level child, and all of theirs are made. */
  lemma FunctionFindingsMembers(content: string, children: seq<Node>, p: Problem)
    ensures p in FunctionFindings(content, children) <==>
            exists k :: 0 <= k < |children| && p in DeclFindings(content, children, k)
  {
    ConcatRangeMembers(DeclCheck(content, children), 0, |children|, p);
    assert forall k :: 0 <= k < |children| ==> DeclCheck(content, children)(k) == DeclFindings(content, children, k);
  }

  /**
   * check_function_comments as written: None where it reads the symbol of
   * the null node ts_node_prev_named_sibling returns for a first child,
   * which it does for a first child that is a documentable declaration.
   */
  function DeclFindingsAsWritten(content: string, children: seq<Node>, i: nat): Option<seq<Problem>>
    requires i < |children|
  {
    if Documentable(content, children[i]) && i == 0 then None
    else Some(DeclFindings(content, children, i))
  }

  /**
   * A header whose first top-level node is a function declaration, with
   * no include line before it, makes the code as written read a null
   * node, where the evident intent is "Function should be documented".
   */
  lemma FirstDeclarationCrashes()
    ensures var fd := Node(FunctionDeclarator, 0, 8, Point(0, 0), Point(0, 8), [], map[]);
            var decl := Node(Declaration, 0, 9, Point(0, 0), Point(0, 9), [fd], map[]);
            && DeclFindingsAsWritten("void f();", [decl], 0).None?
            && DeclFindings("void f();", [decl], 0) == [NodeProblem(decl, UNDOCUMENTED)]
  {
    var fd := Node(FunctionDeclarator, 0, 8, Point(0, 0), Point(0, 8), [], map[]);
    var decl := Node(Declaration, 0, 9, Point(0, 0), Point(0, 9), [fd], map[]);
    assert FirstNodeId(decl, FunctionDeclarator).1;
    assert FirstChildWith(decl.children, StorageClassSpecifier, 0) == 1;
    assert FirstChildWith(fd.children, StorageClassSpecifier, 0) == 0;
    assert DeeperWith(fd, StorageClassSpecifier, 0) == (fd, false);
    assert FirstNodeId(fd, StorageClassSpecifier) == (fd, false);
    assert DeeperWith(decl, StorageClassSpecifier, 1) == (decl, false);
    assert !FirstNodeId(decl, StorageClassSpecifier).1;
  }

  /** Wherever the code as written returns, it returns what the model does. */
  lemma AsWrittenAgrees(content: string, children: seq<Node>, i: nat)
    requires i < |children|
    requires DeclFindingsAsWritten(content, children, i).Some?
    ensures DeclFindingsAsWritten(content, children, i).value == DeclFindings(content, children, i)
    ensures i > 0 || !Documentable(content, children[0])
  {
  }

  /** The checks check_function_comments makes on the comment before declaration n. */
  method CheckComment(content: string, n: Node, comment: Node, problems: seq<Problem>)
    returns (res: seq<Problem>)
    ensures res == Reversed(CommentFindings(content, n, comment)) + problems
  {
    var commentStr := NodeGetString(content, comment);
    ghost var brief := if !Contains(commentStr, "@brief") then [NodeProblem(comment, NO_BRIEF)] else [];
    ghost var ret := ReturnFindings(content, n, commentStr);
    ghost var args := ArgListFindings(content, n, commentStr);
    res := problems;
    if !Contains(commentStr, "@brief") {
      res := [NodeProblem(comment, NO_BRIEF)] + res;
    }
    assert res == Reversed(brief) + problems;
    res := ValidateReturn(content, n, commentStr, res);
    ReturnFindingsExact(content, n, commentStr);
    assert Reversed(ret) == ret;
    PrependStep(brief, ret, problems);
    res := ValidateArgList(content, n, commentStr, res);
    PrependStep(brief + ret, args, problems);
  }

  /** One pass of the loop of check_function_comments. */
  method CheckDeclaration(content: string, children: seq<Node>, i: nat, problems: seq<Problem>)
    returns (res: seq<Problem>)
    requires i < |children|
    ensures res == Reversed(DeclCheck(content, children)(i)) + problems
  {
    res := problems;
    var n := children[i];
    if n.sym != Declaration {
      return;
    }
    var stat := FirstNodeId(n, StorageClassSpecifier);
    if stat.1 && (NodeEq(content, stat.0, "static") || NodeEq(content, stat.0, "STATIC")) {
      return;
    }
    var fd := FirstNodeId(n, FunctionDeclarator);
    if !fd.1 {
      return;
    }
    if i == 0 || children[i - 1].sym != Comment {
      res := [NodeProblem(n, UNDOCUMENTED)] + res;
      return;
    }
    res := CheckComment(content, n, children[i - 1], res);
  }

  /** check_function_comments: prepends the findings of the direct children of current. */
  method CheckFunctionComments(content: string, current: Node, problems: seq<Problem>)
    returns (res: seq<Problem>)
    ensures res == Reversed(FunctionFindings(content, current.children)) + problems
  {
    var children := current.children;
    ghost var f := DeclCheck(content, children);
    res := problems;
    var i := 0;
    while i < |children|
      invariant 0 <= i <= |children|
      invariant Reversed(ConcatRange(f, 0, |children|)) + problems == Reversed(ConcatRange(f, i, |children|)) + res
    {
      ConcatRangeStep(f, i, |children|, res);
      res := CheckDeclaration(content, children, i, res);
      i := i + 1;
    }
  }

  /*
   * is_post_comment, is_pre_comment and check_struct_comments
   */

  /** is_post_comment: c is a comment starting with POST_MARK. */
  predicate IsPostComment(content: string, c: Option<Node>)
  {
    c.Some? && c.value.sym == Comment && StartsWith(NodeGetString(content, c.value), POST_MARK)
  }

  /**
   * is_pre_comment: c is a comment starting with PRE_MARK. No comment is
   * both kinds: the two prefixes differ in their fourth byte.
   */
  predicate IsPreComment(content: string, c: Option<Node>): (r: bool)
    ensures r ==> !IsPostComment(content, c)
  {
    c.Some? && c.value.sym == Comment &&
    var s := NodeGetString(content, c.value);
    assert StartsWith(s, POST_MARK) ==> s[3] == POST_MARK[3];
    StartsWith(s, PRE_MARK)
  }

  /** ts_node_next_named_sibling within a parent's named children. */
  function NextSibling(children: seq<Node>, i: nat): Option<Node>
  {
    if i + 1 < |children| then Some(children[i + 1]) else None
  }

  /** ts_node_prev_named_sibling within a parent's named children. */
  function PrevSibling(children: seq<Node>, i: nat): Option<Node>
    requires i <= |children|
  {
    if 0 < i then Some(children[i - 1]) else None
  }

  /** A field declaration with no comment on either side. */
  predicate Uncommented(content: string, fields: seq<Node>, i: nat)
    requires i < |fields|
  {
    fields[i].sym == FieldDeclaration &&
    !IsPostComment(content, NextSibling(fields, i)) && !IsPreComment(content, PrevSibling(fields, i))
  }

  /**
   * The finding for entry i of a field list: one, at its field identifier,
   * exactly when it is an uncommented field declaration with a field
   * identifier.
   */
  function FieldFindings(content: string, fields: seq<Node>, i: nat): seq<Problem>
    requires i < |fields|
  {
    if !Uncommented(content, fields, i) then []
    else
      var ident := FirstNodeId(fields[i], FieldIdentifier);
      if ident.1 then [NodeProblem(ident.0, FIELD_UNCOMMENTED)] else []
  }

  /** FieldFindings as the contribution of each index of the loop. */
  function FieldCheck(content: string, fields: seq<Node>): nat -> seq<Problem>
  {
    (k: nat) => if k < |fields| then FieldFindings(content, fields, k) else []
  }

  /** The findings for the entries of a field list, in discovery order. */
  function FieldsFindings(content: string, fields: seq<Node>): seq<Problem>
  {
    ConcatRange(FieldCheck(content, fields), 0, |fields|)
  }

  /** The findings check_struct_comments prepends for node current, in discovery order. */
  function StructFindings(content: string, current: Node): seq<Problem>
  {
    if current.sym != StructSpecifier then []
    else
      var list := FirstNodeId(current, FieldDeclarationList);
      if !list.1 then [] else FieldsFindings(content, list.0.children)
  }

  /** Entry k of a field list is reported exactly when it is uncommented and has a field identifier. */
  lemma FieldFindingsExact(content: string, fields: seq<Node>, k: nat, p: Problem)
    requires k < |fields|
    ensures p in FieldFindings(content, fields, k) <==>
            Uncommented(content, fields, k) && FirstNodeId(fields[k], FieldIdentifier).1 &&
            p == NodeProblem(FirstNodeId(fields[k], FieldIdentifier).0, FIELD_UNCOMMENTED)
  {
  }

  /** A field list reports exactly its uncommented fields that have a field identifier. */
  lemma FieldsFindingsMembers(content: string, fields: seq<Node>, p: Problem)
    ensures p in FieldsFindings(content, fields) <==>
            exists k :: 0 <= k < |fields| && Uncommented(content, fields, k) && FirstNodeId(fields[k], FieldIdentifier).1 &&
                        p == NodeProblem(FirstNodeId(fields[k], FieldIdentifier).0, FIELD_UNCOMMENTED)
  {
    ConcatRangeMembers(FieldCheck(content, fields), 0, |fields|, p);
    forall k | 0 <= k < |fields|
      ensures p in FieldCheck(content, fields)(k) <==>
              Uncommented(content, fields, k) && FirstNodeId(fields[k], FieldIdentifier).1 &&
              p == NodeProblem(FirstNodeId(fields[k], FieldIdentifier).0, FIELD_UNCOMMENTED)
    {
      FieldFindingsExact(content, fields, k, p);
    }
  }

  /** Only structs with a field list are looked into, and they yield only field findings. */
  lemma StructFindingsKinds(content: string, current: Node)
    ensures current.sym != StructSpecifier || !FirstNodeId(current, FieldDeclarationList).1 ==>
            StructFindings(content, current) == []
    ensures forall p :: p in StructFindings(content, current) ==> p.msg == FIELD_UNCOMMENTED
  {
    if current.sym == StructSpecifier && FirstNodeId(current, FieldDeclarationList).1 {
      var fields := FirstNodeId(current, FieldDeclarationList).0.children;
      forall p | p in StructFindings(content, current)
        ensures p.msg == FIELD_UNCOMMENTED
      {
        FieldsFindingsMembers(content, fields, p);
      }
    }
  }

  /** One pass of the loop of check_struct_comments. */
  method CheckField(content: string, fields: seq<Node>, i: nat, problems: seq<Problem>) returns (res: seq<Problem>)
    requires i < |fields|
    ensures res == Reversed(FieldFindings(content, fields, i)) + problems
  {
    res := problems;
    var n := fields[i];
    if n.sym == FieldDeclaration && !IsPostComment(content, NextSibling(fields, i)) &&
       !IsPreComment(content, PrevSibling(fields, i)) {
      var ident := FirstNodeId(n, FieldIdentifier);
      if ident.1 {
        res := [NodeProblem(ident.0, FIELD_UNCOMMENTED)] + res;
      }
    }
  }

  /** check_struct_comments. */
  method CheckStructComments(content: string, current: Node, problems: seq<Problem>)
    returns (res: seq<Problem>)
    ensures res == Reversed(StructFindings(content, current)) + problems
  {
    res := problems;
    if current.sym != StructSpecifier {
      return;
    }
    var list := FirstNodeId(current, FieldDeclarationList);
    if !list.1 {
      return;
    }
    var fields := list.0.children;
    ghost var f := FieldCheck(content, fields);
    var i := 0;
    while i < |fields|
      invariant 0 <= i <= |fields|
      invariant Reversed(ConcatRange(f, 0, |fields|)) + problems == Reversed(ConcatRange(f, i, |fields|)) + res
    {
      ConcatRangeStep(f, i, |fields|, res);
      res := CheckField(content, fields, i, res);
      i := i + 1;
    }
  }

  /*
   * recurse_check and process_comments
   */

  /** check_struct_comments as the check recurse_check applies at each node. */
  function StructCheck(content: string): Node -> seq<Problem>
  {
    n => StructFindings(content, n)
  }

  /** recurse_check: prepends the struct findings of every node below p, in pre-order. */
  method RecurseCheck(content: string, p: Node, problems: seq<Problem>) returns (res: seq<Problem>)
    ensures res == Reversed(Visit(StructCheck(content), p)) + problems
    decreases p
  {
    res := problems;
    var i := 0;
    while i < |p.children|
      invariant 0 <= i <= |p.children|
      invariant Reversed(Visit(StructCheck(content), p)) + problems ==
                Reversed(VisitFrom(StructCheck(content), p, i)) + res
    {
      var n := p.children[i];
      ghost var here := StructCheck(content)(n);
      ghost var below := Visit(StructCheck(content), n);
      ghost var rest := VisitFrom(StructCheck(content), p, i + 1);
      assert VisitFrom(StructCheck(content), p, i) == (here + below) + rest;
      PrependStep(here + below, rest, res);
      PrependStep(here, below, res);
      res := CheckStructComments(content, n, res);
      res := RecurseCheck(content, n, res);
      i := i + 1;
    }
  }

  /**
   * The result of process_comments: nothing for messages other than
   * diagnostic, open and change; for those, the function findings of the
   * root's children, last found first, in front of the struct findings
   * of every node below the root, last found first. None stands for the
   * failed g_assert(content) when the handle has no text.
   */
  function CommentsResult(h: ParseHandle): (r: Option<seq<Problem>>)
    ensures !IsAnalysisType(h.message.Type()) ==> r == Some([])
    ensures r.None? <==> IsAnalysisType(h.message.Type()) && h.source.None?
  {
    if !IsAnalysisType(h.message.Type()) then Some([])
    else if h.source.None? then None
    else
      var s := h.source.value;
      Some(Reversed(FunctionFindings(s.content, s.root.children)) + Reversed(Visit(StructCheck(s.content), s.root)))
  }

  /** process_comments. */
  method ProcessComments(h: ParseHandle) returns (res: Option<seq<Problem>>)
    ensures res == CommentsResult(h)
  {
    if h.message.Type() == Diagnostic || h.message.Type() == Open || h.message.Type() == Change {
      if h.source.None? {
        return None;
      }
      var r := RecurseCheck(h.source.value.content, h.source.value.root, []);
      r := CheckFunctionComments(h.source.value.content, h.source.value.root, r);
      assert Reversed(Visit(StructCheck(h.source.value.content), h.source.value.root)) + [] ==
             Reversed(Visit(StructCheck(h.source.value.content), h.source.value.root));
      return Some(r);
    }
    return Some([]);
  }

  /** check_function_comments never reports a struct field. */
  lemma FunctionFindingsKinds(content: string, children: seq<Node>)
    ensures forall p :: p in FunctionFindings(content, children) ==> p.msg != FIELD_UNCOMMENTED
  {
    forall p | p in FunctionFindings(content, children)
      ensures p.msg != FIELD_UNCOMMENTED
    {
      FunctionFindingsMembers(content, children, p);
      var i :| 0 <= i < |children| && p in DeclFindings(content, children, i);
      DeclFindingsKinds(content, children, i);
    }
  }

  /** The walk of recurse_check reports struct fields only. */
  lemma StructWalkKinds(content: string, root: Node)
    ensures forall p :: p in Visit(StructCheck(content), root) ==> p.msg == FIELD_UNCOMMENTED
  {
    forall p | p in Visit(StructCheck(content), root)
      ensures p.msg == FIELD_UNCOMMENTED
    {
      VisitMembers(StructCheck(content), root, p);
      var d :| IsDescendant(d, root) && p in StructCheck(content)(d);
      StructFindingsKinds(content, d);
    }
  }

  /** Other findings followed by field findings: once a field finding appears, the rest are too. */
  lemma FieldsLast(a: seq<Problem>, b: seq<Problem>)
    requires forall p :: p in a ==> p.msg != FIELD_UNCOMMENTED
    requires forall p :: p in b ==> p.msg == FIELD_UNCOMMENTED
    ensures var r := a + b;
            forall k, j :: 0 <= k < j < |r| && r[k].msg == FIELD_UNCOMMENTED ==> r[j].msg == FIELD_UNCOMMENTED
  {
    var r := a + b;
    forall k, j | 0 <= k < j < |r| && r[k].msg == FIELD_UNCOMMENTED
      ensures r[j].msg == FIELD_UNCOMMENTED
    {
      if k < |a| {
        assert false;
      }
      assert r[j] == b[j - |a|];
    }
  }

  /**
   * All function findings come before all struct findings: once a field
   * finding appears in the result, every later finding is one too.
   */
  lemma CommentsOrder(h: ParseHandle)
    requires CommentsResult(h).Some?
    ensures var r := CommentsResult(h).value;
            forall k, j :: 0 <= k < j < |r| && r[k].msg == FIELD_UNCOMMENTED ==> r[j].msg == FIELD_UNCOMMENTED
  {
    if IsAnalysisType(h.message.Type()) {
      var s := h.source.value;
      var f := FunctionFindings(s.content, s.root.children);
      var v := Visit(StructCheck(s.content), s.root);
      FunctionFindingsKinds(s.content, s.root.children);
      StructWalkKinds(s.content, s.root);
      forall p | p in Reversed(f)
        ensures p.msg != FIELD_UNCOMMENTED
      {
        ReversedMembers(f, p);
      }
      forall p | p in Reversed(v)
        ensures p.msg == FIELD_UNCOMMENTED
      {
        ReversedMembers(v, p);
      }
      FieldsLast(Reversed(f), Reversed(v));
    }
  }

  /**
   * Every finding of process_comments comes from a top-level function
   * declaration or from a struct below the root, and every such finding
   * is in the result.
   */
  lemma CommentsResultCovers(h: ParseHandle, p: Problem)
    requires IsAnalysisType(h.message.Type()) && h.source.Some?
    ensures var s := h.source.value;
            p in CommentsResult(h).value <==>
            (exists k :: 0 <= k < |s.root.children| && p in DeclFindings(s.content, s.root.children, k)) ||
            (exists d :: IsDescendant(d, s.root) && p in StructFindings(s.content, d))
  {
    var s := h.source.value;
    var f := FunctionFindings(s.content, s.root.children);
    var v := Visit(StructCheck(s.content), s.root);
    ReversedMembers(f, p);
    ReversedMembers(v, p);
    FunctionFindingsMembers(s.content, s.root.children, p);
    VisitMembers(StructCheck(s.content), s.root, p);
  }
}
