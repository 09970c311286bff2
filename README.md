# glib-lsp analyzers in Dafny

This project models the core of glib-lsp, a small language server for C code written against GLib. It also proves what that core promises.

For every document it receives, the server builds a syntax tree. It then runs a list of lint analyzers over that tree and sends the findings back as diagnostics. The model covers five parts:

- **Tree queries** (`ParseUtils`, modelling `src/parse_utils.c`):
  - the "first node with symbol K" search, which tries the direct children before any deeper node;
  - the prefix comparison of a node's text;
  - static-function, pointer-parameter and `G_GNUC_UNUSED` detection;
  - the GObject-cast name test.
- **The three analyzers:**
  - `ProcessAsserts` reports pointer parameters of static functions that are never `g_assert`ed, never mentioned with "null" in a comment, and not renamed by a cast into an asserted name.
  - `ProcessComments` checks the `@brief`, `@return` and `@param` documentation of top-level non-static function declarations, and the comments on struct fields.
  - `ProcessMidscope` reports declarations that come after a statement inside a `{ ... }` body.
- **The document cache** (`Parser`, modelling `src/parser.c`): the handle gets its text from the message or from the uri-to-text table, and new text overwrites the table entry.
- **The dispatcher** (`Processor`, modelling `src/processor.c`):
  - the analyzers run in registration order;
  - their lists are concatenated;
  - each message type decides which payload is queued for the writer.
- **Messages** (`Message`, modelling `src/message.c`):
  - request and notification dispatch by method name;
  - the choice of document text;
  - the range layout;
  - the shape of the diagnostics payload.

Support modules:
- `Syntax` holds the tree datatype, the pre-order walk and the string helpers.
- `Lists` holds the prepend-built lists.
- `Wrappers` holds `Option` and `Result`.

Every analyzer prepends its findings, so its result is the reverse of the order in which it finds them. Each analyzer is modelled twice:
- a function that gives the findings in discovery order;
- the imperative loop, proved to return `Reversed(findings) + problems`.

The lemmas then state the analyzer's rules about that function.

Process aborts are modelled as `None`. These are `g_assert` failures and most reads of a null tree node. Three such reads are handled differently: the two null-sibling reads listed under "## Findings" are modelled as written and corrected, and `ProcessAsserts.DeclarationRename` under "## Left out" records no rename where the source crashes. A finding's span is the start and end point of one node, with severity 3, as `src/process_asserts.c:208-211` builds it.

## Model

| member | source | states |
|---|---|---|
| ParseUtils.NodeGetString | src/parse_utils.c:45-52 | for a span within the text, the result is exactly the bytes from the node's start to its end |
| ParseUtils.NodeEqText | src/parse_utils.c:32-43 | node_eq is a prefix test of the text from the node's start: it agrees with "the node's text starts with the needle" whenever the needle fits in the node |
| ParseUtils.NodeEqUnbounded | src/parse_utils.c:40-42 | node_eq is not bounded by the node's end: a one-byte node whose text is "g" matches "gpointer" |
| ParseUtils.FirstNodeId | src/parse_utils.c:6-30 | when found, the node returned has the requested symbol; when not found, the node returned is check itself |
| ParseUtils.FirstChildWith | src/parse_utils.c:9-17 | the first loop stops at the first direct child with the symbol; no earlier child has it |
| ParseUtils.DeeperWith | src/parse_utils.c:18-25 | the second loop returns a node with the symbol when found, and check otherwise |
| ParseUtils.FirstNodeIdBelow | src/parse_utils.c:9-24 | the node found is a proper descendant of check |
| ParseUtils.DeeperWithBelow | src/parse_utils.c:18-25 | the node the recursive loop finds is a proper descendant of check |
| ParseUtils.FirstNodeIdComplete | src/parse_utils.c:6-30 | if any node below check has the symbol, the search finds one |
| ParseUtils.DeeperWithComplete | src/parse_utils.c:18-25 | a node with the symbol under child j >= i makes the recursive loop from child i find something |
| ParseUtils.FirstNodeIdFound | src/parse_utils.c:6-30 | found is TRUE exactly when some node below check has the symbol |
| ParseUtils.FirstNodeIdPrefersChild | src/parse_utils.c:9-17 | the first direct child with the symbol is returned, whatever deeper nodes have it |
| ParseUtils.NotFoundMeansAbsent | src/parse_utils.c:26-29 | when nothing is found, no descendant at all has the symbol |
| ParseUtils.DescendantWith | src/parse_utils.c:6-30 | the recursive existence test yields a witness below n with the symbol |
| ParseUtils.HasDescendantWithOf | src/parse_utils.c:6-30 | a witness below n with the symbol makes the recursive existence test true |
| ParseUtils.HasDescendantWithIff | src/parse_utils.c:6-30 | the recursive existence test holds iff some descendant has the symbol |
| ParseUtils.StaticFrom | src/parse_utils.c:137-151 | the loop from child i answers TRUE iff a later direct child is a storage-class specifier whose text starts with "static", ignoring ASCII case |
| ParseUtils.IsFunctionStatic | src/parse_utils.c:133-152 | TRUE iff some direct child is a storage-class specifier whose text starts with "static", compared ASCII case-insensitively |
| ParseUtils.StaticSpellings | src/parse_utils.c:144-148 | both "static" and "STATIC" count as static |
| ParseUtils.WalkFirstChild | src/parse_utils.c:173-178 | the first-child walk ends at an identifier at or below its start, and stops at once on an identifier |
| ParseUtils.PointerFrom | src/parse_utils.c:164-199 | a name is returned only when some child from i on is a gpointer/gconstpointer type or a pointer declarator |
| ParseUtils.PointerFromFirstMarker | src/parse_utils.c:164-197 | the first such marker child alone decides the answer, through the walk from its sibling or first child |
| ParseUtils.PointerFromNamesIdentifier | src/parse_utils.c:179-193 | a returned name is the text of an identifier inside the parameter |
| ParseUtils.ParameterIsPointer | src/parse_utils.c:154-200 | FALSE for anything that is not a parameter declaration; TRUE only with a pointer marker among the children |
| ParseUtils.ParameterNameIsIdentifier | src/parse_utils.c:179-193 | the name given is the text of an identifier below the parameter |
| ParseUtils.AsWrittenAgrees | src/parse_utils.c:164-199 | wherever the code as written returns, the corrected loop returns the same value |
| ParseUtils.UnnamedGpointerCrashes | src/parse_utils.c:172-177 | an unnamed `gpointer` parameter makes the code as written read a null node, while the corrected version answers FALSE |
| ParseUtils.ParameterIsUnused | src/parse_utils.c:206-209 | FALSE when the parameter has no "type" field |
| ParseUtils.ParameterIsUnusedText | src/parse_utils.c:201-213 | a type node whose own text begins with G_GNUC_UNUSED marks the parameter unused; for a type node at least as long as the marker, this is the only way |
| ParseUtils.RemoveAll | src/parse_utils.c:111 | the result has no occurrence of the character and only characters of the input |
| ParseUtils.RemoveAllAppend | src/parse_utils.c:111 | removal works piecewise over a concatenation, so the kept characters stay in order |
| ParseUtils.RemoveAllSingle | src/parse_utils.c:111 | a single character is dropped iff it is the removed one |
| ParseUtils.RemoveAllCount | src/parse_utils.c:111 | every other character is kept as often as it occurs, and the removed one occurs zero times |
| ParseUtils.IsGobjectCast | src/parse_utils.c:54-131 | Some only when the declaration has a type, a pointer declarator and a call below it, and then the upper-cased type name holds no underscore |
| ParseUtils.IsGobjectCastSound | src/parse_utils.c:66-130 | on TRUE, the upper-cased type equals the upper-cased callee with its underscores removed; to is the first identifier under the pointer declarator, and from is the first identifier in the call's argument list; all of these lie below the declaration |
| ParseUtils.CastNameExample | src/parse_utils.c:108-113 | the normalisation pairs the type MyT with the macro MY_T |
| ParseUtils.NodeProblem | src/process_asserts.c:208-211 | a finding spans the node's start and end points, with severity 3 and the given message |
| ProcessAsserts.AssertArg | src/process_asserts.c:25-44 | a call is recorded iff it has function and arguments fields, exactly one argument, and a callee starting with "g_assert"; the text recorded is that argument's text |
| ProcessAsserts.AssertsFromSound | src/process_asserts.c:17-46 | every recorded name is the argument of a g_assert call that the scan reaches |
| ProcessAsserts.AssertsFromComplete | src/process_asserts.c:17-46 | every g_assert call the scan reaches has its argument recorded |
| ProcessAsserts.AssertsInIff | src/process_asserts.c:11-47 | a name is collected iff it is the argument of a reached g_assert call; a node's scan stops at its first call child, and call arguments are never searched |
| ProcessAsserts.CollectAsserts | src/process_asserts.c:11-47 | the imperative scan adds exactly the collected names to the table |
| ProcessAsserts.FirstWith | src/process_asserts.c:49-64 | the first element with the symbol, or none when no element has it |
| ProcessAsserts.FirstWithAppend | src/process_asserts.c:49-64 | the first match in a concatenation is in the first part when that part has one |
| ProcessAsserts.LocalFirstNodeId | src/process_asserts.c:49-64 | the local search returns a node with the symbol, or check itself |
| ProcessAsserts.PreOrderFirst | src/process_asserts.c:49-64 | the local search returns the first node with the symbol in pre-order |
| ProcessAsserts.PreOrderFromFirst | src/process_asserts.c:52-62 | the loop from child i is the pre-order search over the subtrees of the later children |
| ProcessAsserts.LocalFirstBelow | src/process_asserts.c:49-64 | a match found lies below check |
| ProcessAsserts.SearchOrdersDiffer | src/process_asserts.c:49-64 | the local search is depth-first and can return a different identifier than parse_utils_get_first_node_id |
| ProcessAsserts.DeclarationRename | src/process_asserts.c:80-96 | a rename maps the first identifier of the declarator's first cast expression to the declarator's first identifier |
| ProcessAsserts.RenamesFromSound | src/process_asserts.c:72-98 | every key of the resulting map was already in the table, or comes from a declaration below the node |
| ProcessAsserts.RenamesSound | src/process_asserts.c:66-99 | every rename collected for a function comes from a declaration inside it |
| ProcessAsserts.RenamesFromGrows | src/process_asserts.c:72-98 | the scan only adds entries: every key already in the table stays |
| ProcessAsserts.RenamesFromComplete | src/process_asserts.c:72-98 | every cast declaration the loop from child i looks at has its key recorded |
| ProcessAsserts.RenamesComplete | src/process_asserts.c:66-99 | every cast declaration reached before a sibling on its path recorded a rename has its key in the function's rename table |
| ProcessAsserts.RenamesStopAtFirst | src/process_asserts.c:95-97 | after recording one rename the scan of the node's children stops: later children change nothing |
| ProcessAsserts.CollectRenames | src/process_asserts.c:66-99 | the imperative scan leaves exactly the modelled map |
| ProcessAsserts.MentionedWithNull | src/process_asserts.c:101-140 | a comment directly in the body that mentions the name and "null" clears it; a body without children never does |
| ProcessAsserts.MentionedFrom | src/process_asserts.c:114-132 | the loop from child i holds when a later child is such a comment, and never once past the last child |
| ProcessAsserts.MentionedIff | src/process_asserts.c:101-140 | mentioned_with_null holds iff some comment below the function contains the lower-cased name and "null" once lower-cased |
| ProcessAsserts.MentionedFromIff | src/process_asserts.c:114-132 | the loop from child i holds iff such a comment lies in the subtree of a child from i on |
| ProcessAsserts.RenamedAssert | src/process_asserts.c:142-162 | only a name with a rename can be cleared, and never with no steps left |
| ProcessAsserts.RenamedAssertMonotone | src/process_asserts.c:142-162 | one more step of fuel never loses a clearance |
| ProcessAsserts.RenamedAssertChain | src/process_asserts.c:142-162 | with fuel steps, renamed_assert holds iff following the map 1..fuel steps reaches an asserted name |
| ProcessAsserts.FollowCompose | src/process_asserts.c:155-161 | a + b steps along the map are a steps followed by b steps |
| ProcessAsserts.FollowPrefix | src/process_asserts.c:151-155 | every name before the end of a chain is a key of the map |
| ProcessAsserts.ShortenChain | src/process_asserts.c:142-162 | a chain that reaches an asserted name does so within as many steps as the map has keys |
| ProcessAsserts.RenamedAssertAsWrittenAgrees | src/process_asserts.c:142-162 | wherever the unbounded recursion answers within n calls, the bounded version with fuel n or more gives the same answer |
| ProcessAsserts.CyclicRenameNeverAnswers | src/process_asserts.c:151-161 | on the cycle b to a, a to b with nothing asserted, the recursion as written has not answered after any number of calls |
| ProcessAsserts.CyclicRenameCleared | src/process_asserts.c:142-162 | on the same cycle the bounded version answers FALSE |
| ProcessAsserts.RenamedAssertExact | src/process_asserts.c:142-162 | with fuel equal to the map's size, renamed_assert holds iff one or more steps reach an asserted name |
| ProcessAsserts.RenameTransitive | src/process_asserts.c:157-161 | a two-step rename into an asserted name clears the parameter |
| ProcessAsserts.UnassertedMessageInjective | src/process_asserts.c:210-211 | different parameter names give different "Parameter %s should be asserted" messages |
| ProcessAsserts.ParamFindings | src/process_asserts.c:197-216 | the loop from parameter i yields no more findings than there are parameters left |
| ProcessAsserts.ParamFindingsSevere | src/process_asserts.c:210 | every finding has severity 3 |
| ProcessAsserts.ParamFindingsSound | src/process_asserts.c:197-216 | each finding is at a parameter that fails all three checks, spans that parameter and names it |
| ProcessAsserts.ParamFindingsComplete | src/process_asserts.c:197-216 | each used pointer parameter that fails all three checks yields its finding |
| ProcessAsserts.ParamFindingsRange | src/process_asserts.c:197-216 | the loop's findings are the per-parameter contributions concatenated in parameter order |
| ProcessAsserts.ParamFindingsCount | src/process_asserts.c:197-216 | there are exactly as many findings as reported parameters: one each, never a finding twice in place of another |
| ProcessAsserts.AssertFindings | src/process_asserts.c:164-221 | nothing unless the node is a static function definition with a parameter list; every finding has severity 3 |
| ProcessAsserts.AssertFindingsExact | src/process_asserts.c:197-216 | a finding is produced iff some parameter is unused-free, a pointer, and neither asserted, nor mentioned with null, nor renamed into an asserted name |
| ProcessAsserts.ClearedNeverReported | src/process_asserts.c:204-206 | an asserted, null-mentioned or renamed-into-asserted name is never reported |
| ProcessAsserts.UncheckedNotCleared | src/process_asserts.c:202-206 | a reported name is not asserted, not mentioned with null, and not renamed into an asserted name |
| ProcessAsserts.CheckParam | src/process_asserts.c:201-206 | the per-parameter test gives the reported name exactly when the model does |
| ProcessAsserts.CheckParams | src/process_asserts.c:197-216 | the loop prepends the parameter findings in reverse order onto the list |
| ProcessAsserts.CheckAsserts | src/process_asserts.c:164-221 | check_asserts prepends the function's findings in reverse discovery order |
| ProcessAsserts.RecurseCheck | src/process_asserts.c:223-252 | recurse_check prepends the findings of every node below p, visited in pre-order |
| ProcessAsserts.AssertsResult | src/process_asserts.c:254-264 | nothing for message types other than diagnostic, open and change; an abort only when such a message has no text |
| ProcessAsserts.ProcessAsserts | src/process_asserts.c:254-264 | process_asserts returns the modelled result |
| ProcessAsserts.AssertsResultCovers | src/process_asserts.c:254-264 | a finding is returned iff it is a finding of some static function definition below the root |
| ProcessComments.NotDocumentedMessage | src/process_comments.c:112 | the undocumented-parameter message starts with "Parameter " |
| ProcessComments.MessagesDistinct | src/process_comments.c:27-197 | the fixed messages differ from each other and from the "Parameter ..." messages |
| ProcessComments.ReturnFindingsExact | src/process_comments.c:10-48 | at most one finding: none iff a type exists and (void iff no @return); no type gives "should have a return value"; each finding spans the declaration |
| ProcessComments.ValidateReturn | src/process_comments.c:10-48 | validate_return prepends exactly the modelled finding |
| ProcessComments.FirstTag | src/process_comments.c:70-74 | the first word exactly equal to "@param" from i on |
| ProcessComments.FirstName | src/process_comments.c:76-79 | the first non-empty word other than "@param" from i on |
| ProcessComments.LineParamWords | src/process_comments.c:69-80 | a line documents w iff w is the first non-empty word after the first word "@param" |
| ProcessComments.JoinOccurs | src/process_comments.c:60 | each piece of the newline split occurs in the comment |
| ProcessComments.LineParamHasTag | src/process_comments.c:65-67 | a line that names a parameter contains "@param", so the substring pre-test loses nothing |
| ProcessComments.DocsFromMembers | src/process_comments.c:62-82 | the lines from i on document w iff one of them names w |
| ProcessComments.ParamDocsMembers | src/process_comments.c:50-86 | the documented set is exactly the names that some line of the comment gives |
| ProcessComments.LineWord | src/process_comments.c:69-80 | the inner word loop with its next flag gives the name the line documents |
| ProcessComments.ParseParamDocs | src/process_comments.c:50-86 | parse_param_docs builds exactly the documented set |
| ProcessComments.ArgStep | src/process_comments.c:88-117 | a parameter without an identifier changes nothing; otherwise its name is removed, and it is reported iff the name was not documented |
| ProcessComments.ArgsFromKinds | src/process_comments.c:139-142 | the parameter loop reports only "Parameter ..." findings |
| ProcessComments.ArgsRemaining | src/process_comments.c:139-142 | the names left are the documented names that no parameter has |
| ProcessComments.ArgsReported | src/process_comments.c:139-142 | with distinct parameter names, a parameter is reported iff it has an identifier whose name is undocumented |
| ProcessComments.ArgListKinds | src/process_comments.c:119-151 | validate_arg_list reports only undocumented parameters and extra documentation |
| ProcessComments.ExtraParamsIff | src/process_comments.c:144-148 | "Extra params are documented" is reported at the list iff a documented name matches no parameter |
| ProcessComments.ValidateArg | src/process_comments.c:88-117 | validate_arg uses up the name or prepends its finding, as the model does |
| ProcessComments.ValidateArgs | src/process_comments.c:139-142 | the loop leaves the modelled names and prepends the findings in reverse order |
| ProcessComments.ValidateArgList | src/process_comments.c:119-151 | validate_arg_list prepends the modelled findings in reverse order |
| ProcessComments.CommentChecksKinds | src/process_comments.c:201-202 | validate_return and validate_arg_list never report a missing @brief or a struct field |
| ProcessComments.DeclFindingsKinds | src/process_comments.c:159-205 | a top-level declaration never yields a struct-field finding |
| ProcessComments.DeclBrief | src/process_comments.c:186-199 | "Comment should contain a @brief" is reported at the comment iff the declaration is documentable and the comment lacks "@brief" |
| ProcessComments.FunctionFindingsMembers | src/process_comments.c:153-206 | every finding belongs to one top-level child, and all of theirs are made |
| ProcessComments.FirstDeclarationCrashes | src/process_comments.c:186-187 | a first top-level function declaration makes the code as written read a null node, where the corrected model reports "Function should be documented" |
| ProcessComments.AsWrittenAgrees | src/process_comments.c:159-205 | wherever the code as written returns, it returns the corrected findings; it returns only when the first child is not documentable |
| ProcessComments.CheckComment | src/process_comments.c:193-202 | the @brief, @return and @param checks prepend the modelled findings |
| ProcessComments.CheckDeclaration | src/process_comments.c:160-204 | one pass of the loop prepends that declaration's findings |
| ProcessComments.CheckFunctionComments | src/process_comments.c:153-206 | check_function_comments prepends the findings of the root's direct children in reverse discovery order |
| ProcessComments.IsPreComment | src/process_comments.c:208-259 | is_pre_comment never holds for a comment that is_post_comment accepts: no comment is both a trailing and a leading field comment |
| ProcessComments.FieldFindingsExact | src/process_comments.c:281-301 | a field entry is reported iff it is a field declaration with no comment on either side and has a field identifier, at that identifier |
| ProcessComments.FieldsFindingsMembers | src/process_comments.c:281-302 | a field list reports exactly its uncommented fields that have a field identifier |
| ProcessComments.StructFindingsKinds | src/process_comments.c:261-303 | only structs with a field list are looked into, and they yield only field findings |
| ProcessComments.CheckField | src/process_comments.c:282-301 | one pass of the loop prepends that field's finding |
| ProcessComments.CheckStructComments | src/process_comments.c:261-303 | check_struct_comments prepends the modelled findings in reverse order |
| ProcessComments.RecurseCheck | src/process_comments.c:305-317 | recurse_check prepends the struct findings of every node below p, in pre-order |
| ProcessComments.CommentsResult | src/process_comments.c:319-330 | nothing for other message types; an abort only when an analysis message has no text |
| ProcessComments.ProcessComments | src/process_comments.c:319-330 | process_comments returns the modelled result |
| ProcessComments.FunctionFindingsKinds | src/process_comments.c:153-206 | check_function_comments never reports a struct field |
| ProcessComments.StructWalkKinds | src/process_comments.c:305-317 | the struct walk reports struct fields only |
| ProcessComments.FieldsLast | src/process_comments.c:326-327 | in other findings followed by field findings, every finding after a field finding is a field finding |
| ProcessComments.CommentsOrder | src/process_comments.c:319-330 | in the result, all function findings come before all struct-field findings |
| ProcessComments.CommentsResultCovers | src/process_comments.c:319-330 | a finding is returned iff it belongs to a top-level declaration or to a struct below the root |
| ProcessMidscope.FirstOther | src/process_midscope.c:23-45 | the index of the first non-declaration child; every child before it is a declaration |
| ProcessMidscope.OtherStep | src/process_midscope.c:43-45 | a non-declaration precedes child i + 1 iff one precedes child i or child i is one; the flag never resets |
| ProcessMidscope.LateFinding | src/process_midscope.c:32-41 | a late declaration gives a finding iff it has an identifier, and the finding is placed at that identifier |
| ProcessMidscope.MidscopeMembers | src/process_midscope.c:10-47 | a body reports exactly its declarations that follow a non-declaration and have an identifier; nodes other than bodies report nothing |
| ProcessMidscope.MidscopeCount | src/process_midscope.c:23-46 | a body yields exactly one finding per reported declaration |
| ProcessMidscope.CheckChild | src/process_midscope.c:24-45 | one pass of the loop prepends the child's finding and updates the flag |
| ProcessMidscope.CheckMidscope | src/process_midscope.c:10-47 | check_midscope prepends the body's findings in reverse discovery order |
| ProcessMidscope.RecurseCheck | src/process_midscope.c:49-61 | recurse_check prepends the findings of every body below p, in pre-order |
| ProcessMidscope.MidscopeResult | src/process_midscope.c:63-73 | nothing for other message types; an abort only when an analysis message has no text |
| ProcessMidscope.ProcessMidscope | src/process_midscope.c:63-73 | process_midscope returns the modelled result |
| ProcessMidscope.MidscopeResultCovers | src/process_midscope.c:49-73 | a finding is returned iff it is a late declaration with an identifier in some body below the root, each body judged on its own children |
| ProcessMidscope.NestedBlockFresh | src/process_midscope.c:49-61 | a block nested after a statement starts with a fresh flag: its leading declaration is not reported |
| ProcessMidscope.LateAfterCall | src/process_midscope.c:27-41 | a declaration after a call in the same body is reported at its identifier |
| Parser.Document | src/parser.c:31-47 | only open, change and diagnostic messages carry a document |
| Parser.Resolve | src/parser.c:26-71 | the handle keeps the message and its uri; new text overwrites the table entry; otherwise the text comes from the table and the table is unchanged; a tree exists exactly with the text; an abort only for text without a uri |
| Parser.OtherTypesUntouched | src/parser.c:44-47 | other message types leave the table alone and get neither uri nor text |
| Parser.LastTextWins | src/parser.c:49-54 | after an open or change, other entries are unchanged, and a later message for that uri without text reads the new text |
| Parser.TreeIffText | src/parser.c:56-68 | a handle has a tree iff the message had text or the table had text for its uri |
| Parser.DocumentCache.ParserNew | src/parser.c:26-71 | parser_new returns the modelled handle and leaves the modelled table |
| Parser.DocumentCache.constructor | src/processor.c:108 | the table starts empty |
| Message.ParseRange | src/message.c:33-53 | a message without a range reads as the zero range, as the json-glib accessors give 0 |
| Message.RangeToJson | src/message.c:233-254 | the object built is one that parse_range reads back to the same range |
| Message.RangeRoundTrip | src/message.c:33-53 | parse_range reads back exactly what range_to_json wrote |
| Message.ParseDocument | src/message.c:55-88 | for a params object, textDocument.text is taken when present; otherwise a text is found only when contentChanges has exactly one element |
| Message.DidOpenRoundTrip | src/message.c:55-88 | every field of a didOpen document is recovered |
| Message.DidChangeText | src/message.c:73-85 | a didChange yields its text iff it carries exactly one change |
| Message.ParseRequest | src/message.c:90-133 | with an id, only initialize and diagnostic messages come out, with that id; it aborts iff an initialize has no params.clientInfo object or a diagnostic request has no params object |
| Message.ParseNotification | src/message.c:135-171 | without an id, only initialized, change and open messages come out; it aborts iff a didChange or didOpen has no params object |
| Message.MessageParse | src/message.c:173-219 | a message comes out only from an object with jsonrpc and method; it is a request iff it has an id; never a save |
| Message.DispatchTable | src/message.c:90-171 | a message comes out iff the method is in the table for its kind, an initialize names its client, and every method but initialized comes with a params object; it has the type the table gives; other methods are errors that name them |
| Message.DidSaveRejected | src/message.c:146-170 | didSave is never accepted |
| Message.ProblemNew | src/message.c:258-282 | the coordinates and the severity are stored verbatim |
| Message.ProblemsJson | src/message.c:284-306 | one diagnostics element per finding |
| Message.ProblemsJsonReadBack | src/message.c:284-306 | element k reads back finding k's range, severity and message, in list order |
| Message.DiagnosticsToJson | src/message.c:284-306 | the loop builds the modelled array |
| Message.InitResponse | src/message.c:341-403 | the reply reads back the request id, the sync kind and the server name and version through the json-glib accessors |
| Message.MessageDiagnostic | src/message.c:308-339 | message_diagnostic builds the modelled payload |
| Message.DiagnosticShape | src/message.c:308-339 | id > 0 gives a response with that id and the items; otherwise a publishDiagnostics notification with the uri; the items keep list order |
| Processor.RunAnalyzer | src/processor.c:42-43 | an analyzer never aborts on messages other than diagnostic, open and change |
| Processor.RunAnalyzerFindings | src/processor.c:42-43 | outside an initialize request an analyzer's list holds findings only |
| Processor.RunOnInitialize | src/process_init.c:7-20 | on initialize, process_init_do gives its reply and the other analyzers nothing |
| Processor.Combine | src/processor.c:44 | the concatenation keeps the first list as its prefix and the second as its suffix; it aborts iff either does |
| Processor.CombineAssoc | src/processor.c:44 | concatenation is associative, aborts included |
| Processor.Aggregate | src/processor.c:38-45 | the list of all analyzers ends the process iff one of the registered analyzers does |
| Processor.AggregateConcat | src/processor.c:38-45 | the list for a + b is a's list followed by b's |
| Processor.AggregateStep | src/processor.c:38-45 | one more analyzer appends its list |
| Processor.AggregateCrashStays | src/processor.c:38-45 | once an analyzer aborts, the run aborts |
| Processor.AggregateDefined | src/processor.c:38-45 | messages other than diagnostic, open and change never abort the run |
| Processor.AggregateFindingsOnly | src/processor.c:38-45 | outside initialize the list holds findings only |
| Processor.AggregateInitialize | src/processor.c:63-66 | for initialize the list holds replies only |
| Processor.NoInitDoStep | src/processor.c:38-45 | process_init_do is absent from a registration list iff it is absent from the front and not last |
| Processor.AggregateInitializeEmpty | src/processor.c:63-66 | for initialize the list is empty iff process_init_do is not registered |
| Processor.AggregateInitializeFirst | src/processor.c:63-66 | with process_init_do registered first, its reply heads the list |
| Processor.Payloads | src/processor.c:48-66 | one payload for diagnostic, open and change; none for initialized and save; on initialize, an abort iff the list is empty or does not start with a reply |
| Processor.OnePayloadForAnalysis | src/processor.c:48-61 | diagnostic, open and change queue exactly one payload, with the request's id or 0, holding every finding in list order |
| Processor.QuietTypes | src/processor.c:48-66 | initialized and save queue nothing |
| Processor.InitializeReply | src/processor.c:63-66 | initialize queues the first registered process_init_do's reply, and aborts when none is registered |
| Processor.ServerAnswers | src/main.c:27-28 | the server as registered answers initialize with its handshake, and analysis messages with exactly the unchecked-pointer findings |
| Processor.Server.constructor | src/processor.c:93-110 | a new processor has no analyzers, nothing pending and nothing queued |
| Processor.Server.AddProcess | src/processor.c:131-140 | one entry is appended at the end; earlier entries, pending work and the queue are unchanged |
| Processor.Server.HandleMessage | src/processor.c:112-129 | the result is the pool's answer; the handle is pending only if the pool accepted it; the table is updated as parser_new does |
| Processor.Server.Run | src/processor.c:42-43 | one analyzer call gives the modelled list |
| Processor.Server.RunAll | src/processor.c:38-45 | the loop gives the concatenation of the analyzers' lists in registration order, or the abort |
| Processor.Server.ThreadFunc | src/processor.c:27-69 | the handle leaves the pending work, and exactly the payloads the message type selects are appended to the queue |
| Syntax.VisitMembers | src/process_asserts.c:223-252 | the walk reports exactly what the check reports at some node below the root |
| Syntax.VisitPreOrder | src/process_asserts.c:234-250 | the walk applies the check to every node below the root, in pre-order |
| Syntax.PreOrderDescendants | src/process_asserts.c:234-250 | the pre-order visits exactly the descendants |
| Syntax.Split | src/process_comments.c:69 | splitting on a separator gives at least one piece, and no piece contains the separator |
| Syntax.SplitJoin | src/process_comments.c:60 | splitting on a separator loses nothing: joining the pieces gives the text back |
| Syntax.ContainsOccurs | src/process_comments.c:195 | the substring scan succeeds iff the needle occurs in the text |
| Lists.ReversedAt | src/process_asserts.c:212 | position k of the prepend-built list holds the element found k-th from last |
| Lists.ReversedMembers | src/process_asserts.c:212 | prepending keeps exactly the same elements |

## Left out

- Tree-sitter parsing is left out. The syntax tree is an input (`parse` in `Parser.Resolve`), and field names map to the index of the child they label.
- JSON text parsing and generation through json-glib are left out. Messages start from an abstract `Json` value, and payloads stay `Json` values. For example, `Message.InitResponse` is the object that `message_init_response` builds, without its serialisation.
- The Content-Length framing of `src/rpc.c` is left out; it is stream I/O.
- The thread pool, the writer thread, the blocking queue and the mutex are left out. The pool is a list of pending handles that `ThreadFunc` takes from in any order, and the queue is a sequence that `ThreadFunc` appends to.
- Reference counting and freeing are left out, and so is the release after `return` in `processor_handle_message`, which never runs.
- `src/main.c`, `tools/` and `main.go` are process, command-line and test plumbing. Only the server's registration list is kept, as `Processor.ServerProcessors`.
- `g_utf8_strdown` is modelled as ASCII lower-casing. `g_ascii_strup` and `g_ascii_strncasecmp` are ASCII operations, as modelled.
- Integers are unbounded. The `gint64` and `guint` widths of ids, positions and byte offsets are not modelled.
- `g_strsplit` is modelled as a split on one separator character, which is all the source uses. `g_strsplit` gives an empty vector for the empty string, while `Syntax.Split` gives one empty piece. An empty piece names no parameter, so `parse_param_docs` builds the same set either way.
- Message text is NUL-free, so `strncmp` and `g_str_has_prefix` are plain prefix tests.
- The json-glib accessors return NULL when a member is missing or has the wrong kind. The integer accessor returns 0 in that case, and 1 or 0 for a boolean (`Message.IntMember`). The `Json` value has no floating-point numbers, so the accessor's truncation of a double to an integer is not modelled.
- The analyzers have no special case for `GError **` parameters, and never call `parse_utils_is_gobject_cast` when collecting renames. The model follows the code on both points, not the test fixtures `test/assert/gerror_ok.c` and `test/assert/cast.c`.
- ProcessAsserts.RenamedAssert: renamed_assert recurses without a bound and does not terminate on a cyclic rename chain that never reaches an asserted name (see Findings). The model stops after as many steps as the map has keys. `ProcessAsserts.RenamedAssertExact` proves that this bound loses no chain that does reach an asserted name.
- ProcessAsserts.DeclarationRename: the model reads the "declarator" field through `Field`. A declaration without that field records no rename. In the source (src/process_asserts.c:80-82), the file-local `get_first_node_id` then counts the children of the null node with `ts_node_named_child_count`, which dereferences NULL and crashes the process.
- ProcessComments.ArgsReported: the iff is stated for parameter lists with distinct names, as C requires. With a repeated name, the second occurrence is reported because the first removed the name from the set.
- `message_problem_new(3, &n, &n, msg)`: `src/process_comments.c` and `src/process_midscope.c` call it with this signature, which does not match the five-coordinate prototype in `src/message.h`. It is modelled as the node's span, as `src/process_asserts.c:208-211` builds it.
- The table of documented parameter names that `validate_arg` removes from is threaded through the model as a set value, not updated in place.
- Processor.Server.ThreadFunc: an analyzer that aborts ends the whole process. The model reports this as `completed == false` and appends nothing; the work after an abort is not modelled.
- Processor.Server.constructor: the output stream, the pool and the writer thread of `processor_new` are not modelled.

## Findings

| source | as written | input that shows it | evidently intended | confidence | as-written member | corrected member |
|---|---|---|---|---|---|---|
| src/parse_utils.c:172-177 | for a `gpointer` or `gconstpointer` type child, the next named sibling is asked for its symbol without a null check. For a pointer declarator without a named child, the same happens at lines 186-188, where the null check comes after the read | `static void f(gpointer) { }`: the parameter declaration has only the type child | answer FALSE: the parameter has no name | not executed | ParseUtils.ParameterIsPointerAsWritten (shown by ParseUtils.UnnamedGpointerCrashes) | ParseUtils.ParameterIsPointer |
| src/process_comments.c:186-187 | the previous named sibling of the declaration is asked for its symbol, and it is the null node when the declaration is the root's first named child | a header whose first line is `void f();` | report "Function should be documented" for that declaration | not executed | ProcessComments.DeclFindingsAsWritten (shown by ProcessComments.FirstDeclarationCrashes) | ProcessComments.DeclFindings |
| src/process_asserts.c:151-161 | renamed_assert follows the rename table with no bound and no visited set, so a rename cycle that never reaches an asserted name recurses forever | `static void f(gpointer b) { { Foo *a = (Foo *) b; } { Foo *b = (Foo *) a; } }`: the two blocks record the renames b to a and a to b | answer FALSE, so the unchecked parameter is reported | not executed | ProcessAsserts.RenamedAssertAsWritten (shown by ProcessAsserts.CyclicRenameNeverAnswers) | ProcessAsserts.RenamedAssert (with ProcessAsserts.RenamedAssertExact and ProcessAsserts.CyclicRenameCleared) |
