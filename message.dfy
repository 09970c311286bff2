/**
 * Messages of the editor protocol: classifying an incoming JSON-RPC object
 * into a message, and building the outgoing diagnostic payloads. JSON
 * values are abstract; text encoding and decoding are not part of this
 * model.
 */
module Message {
  import opened Wrappers

  /** A JSON value. */
  datatype Json =
    | JNull
    | JBool(b: bool)
    | JInt(i: int)
    | JString(s: string)
    | JArray(elems: seq<Json>)
    | JObject(members: map<string, Json>)

  /** A JsonObject pointer, which json-glib accessors may give as NULL. */
  type JsonObject = Option<map<string, Json>>

  /** json_object_has_member; FALSE on a NULL object. */
  predicate HasMember(o: JsonObject, name: string)
  {
    o.Some? && name in o.value
  }

  /** json_object_get_object_member: NULL unless the member holds an object. */
  function ObjectMember(o: JsonObject, name: string): JsonObject
  {
    if HasMember(o, name) && o.value[name].JObject? then Some(o.value[name].members) else None
  }

  /** json_object_get_string_member: NULL unless the member holds a string. */
  function StringMember(o: JsonObject, name: string): Option<string>
  {
    if HasMember(o, name) && o.value[name].JString? then Some(o.value[name].s) else None
  }

  /**
   * json_object_get_int_member: the integer a member holds, 1 or 0 for a
   * boolean (json_node_get_int converts it), and 0 for anything else.
   */
  function IntMember(o: JsonObject, name: string): (r: int)
    ensures HasMember(o, name) && o.value[name].JInt? ==> r == o.value[name].i
    ensures HasMember(o, name) && o.value[name].JBool? ==> r == (if o.value[name].b then 1 else 0)
    ensures !HasMember(o, name) ==> r == 0
  {
    if !HasMember(o, name) then 0
    else match o.value[name]
      case JInt(i) => i
      case JBool(b) => if b then 1 else 0
      case _ => 0
  }

  /** json_object_get_array_member: NULL unless the member holds an array. */
  function ArrayMember(o: JsonObject, name: string): Option<seq<Json>>
  {
    if HasMember(o, name) && o.value[name].JArray? then Some(o.value[name].elems) else None
  }

  /** json_array_get_length; 0 on a NULL array. */
  function ArrayLength(a: Option<seq<Json>>): nat
  {
    if a.Some? then |a.value| else 0
  }

  /** json_array_get_object_element: NULL unless element k is an object. */
  function ObjectElement(a: Option<seq<Json>>, k: nat): JsonObject
  {
    if a.Some? && k < |a.value| && a.value[k].JObject? then Some(a.value[k].members) else None
  }

  /** enum message_type. */
  datatype MessageType = Initialize | Initialized | Open | Change | Diagnostic | Save

  /** A protocol position: zero-based line and character. */
  datatype Position = Position(line: int, character: int)

  /** struct range. */
  datatype Range = Range(start: Position, end: Position)

  /** struct problem: one finding. */
  datatype Problem = Problem(range: Range, severity: int, msg: string)

  /** struct document_change; a field the message lacks stays NULL (or 0). */
  datatype DocumentChange = DocumentChange(
    uri: Option<string>,
    language: Option<string>,
    version: int,
    text: Option<string>)

  /** message_t, one constructor per message type. */
  datatype Msg =
    | InitializeMsg(id: int, clientName: Option<string>, clientVersion: Option<string>)
    | InitializedMsg
    | OpenMsg(open: DocumentChange)
    | ChangeMsg(change: DocumentChange)
    | DiagnosticMsg(id: int, document: DocumentChange, range: Range)
    | SaveMsg
  {
    function Type(): MessageType
    {
      match this
      case InitializeMsg(_, _, _) => Initialize
      case InitializedMsg => Initialized
      case OpenMsg(_) => Open
      case ChangeMsg(_) => Change
      case DiagnosticMsg(_, _, _) => Diagnostic
      case SaveMsg => Save
    }
  }

  /**
   * Why message_parse returned NULL. Abort stands for a failed g_assert,
   * which ends the process: g_assert(client) when an initialize request
   * names no client, and g_assert(params) in parse_document when a
   * diagnostic request, a didChange or a didOpen has no params object.
   */
  datatype ParseError =
    | RootNotObject
    | InvalidRequestMethod(name: Option<string>)
    | InvalidNotificationMethod(name: Option<string>)
    | DidNotRecognize
    | Abort

  const INITIALIZE := "initialize"
  const INITIALIZED := "initialized"
  const DIDOPEN := "textDocument/didOpen"
  const DIDCHANGE := "textDocument/didChange"
  const DIDSAVE := "textDocument/didSave"
  const DIAGNOSTIC := "textDocument/diagnostic"

  /** parse_range: the four coordinates under params.range.start/end. */
  function ParseRange(params: map<string, Json>): (r: Range)
    ensures "range" !in params ==> r == Range(Position(0, 0), Position(0, 0))
  {
    var range := ObjectMember(Some(params), "range");
    var start := ObjectMember(range, "start");
    var end := ObjectMember(range, "end");
    Range(Position(IntMember(start, "line"), IntMember(start, "character")),
          Position(IntMember(end, "line"), IntMember(end, "character")))
  }

  /** range_to_json. */
  function RangeToJson(r: Range): (j: Json)
    ensures j.JObject? && ParseRange(map["range" := j]) == r
  {
    JObject(map[
      "end" := JObject(map["line" := JInt(r.end.line), "character" := JInt(r.end.character)]),
      "start" := JObject(map["line" := JInt(r.start.line), "character" := JInt(r.start.character)])])
  }

  /** parse_range reads back exactly what range_to_json wrote. */
  lemma RangeRoundTrip(params: map<string, Json>, r: Range)
    requires "range" in params && params["range"] == RangeToJson(r)
    ensures ParseRange(params) == r
  {
  }

  /**
   * parse_document: uri, languageId and version from params.textDocument;
   * the text from textDocument.text, or else from contentChanges[0].text
   * when contentChanges has exactly one element. The params object is
   * never NULL here: its callers abort first, as g_assert(params) does.
   */
  function ParseDocument(params: map<string, Json>): (d: DocumentChange)
    ensures HasMember(ObjectMember(Some(params), "textDocument"), "text") ==>
              d.text == StringMember(ObjectMember(Some(params), "textDocument"), "text")
    ensures !HasMember(ObjectMember(Some(params), "textDocument"), "text") && d.text.Some? ==>
              ArrayLength(ArrayMember(Some(params), "contentChanges")) == 1
  {
    var td := ObjectMember(Some(params), "textDocument");
    DocumentChange(
      StringMember(td, "uri"),
      if HasMember(td, "languageId") then StringMember(td, "languageId") else None,
      if HasMember(td, "version") then IntMember(td, "version") else 0,
      if HasMember(td, "text") then StringMember(td, "text")
      else if HasMember(Some(params), "contentChanges") then
        var a := ArrayMember(Some(params), "contentChanges");
        if ArrayLength(a) == 1 then StringMember(ObjectElement(a, 0), "text") else None
      else None)
  }

  /** The params of a didOpen notification as a client sends them. */
  function DidOpenParams(uri: string, language: string, version: int, text: string): map<string, Json>
  {
    map["textDocument" := JObject(map[
      "uri" := JString(uri), "languageId" := JString(language),
      "version" := JInt(version), "text" := JString(text)])]
  }

  /** The params of a full-text didChange notification as a client sends them. */
  function DidChangeParams(uri: string, version: int, texts: seq<string>): map<string, Json>
  {
    map["textDocument" := JObject(map["uri" := JString(uri), "version" := JInt(version)]),
        "contentChanges" := JArray(seq(|texts|, k requires 0 <= k < |texts| => JObject(map["text" := JString(texts[k])])))]
  }

  /** parse_document recovers every field a didOpen carries. */
  lemma DidOpenRoundTrip(uri: string, language: string, version: int, text: string)
    ensures ParseDocument(DidOpenParams(uri, language, version, text))
         == DocumentChange(Some(uri), Some(language), version, Some(text))
  {
  }

  /** A didChange yields its text only when it carries exactly one change. */
  lemma DidChangeText(uri: string, version: int, texts: seq<string>)
    ensures var d := ParseDocument(DidChangeParams(uri, version, texts));
            d.uri == Some(uri) && d.version == version && d.language == None &&
            d.text == (if |texts| == 1 then Some(texts[0]) else None)
  {
  }

  /**
   * parse_request: the messages that carry an id. It aborts when an
   * initialize request has no params.clientInfo object, or a diagnostic
   * request has no params object.
   */
  function ParseRequest(root: map<string, Json>): (r: Result<Msg, ParseError>)
    ensures r.Ok? ==> r.value.InitializeMsg? || r.value.DiagnosticMsg?
    ensures r.Ok? ==> r.value.id == IntMember(Some(root), "id")
    ensures r == Err(Abort) <==>
              (StringMember(Some(root), "method") == Some(INITIALIZE) &&
               ObjectMember(ObjectMember(Some(root), "params"), "clientInfo").None?) ||
              (StringMember(Some(root), "method") == Some(DIAGNOSTIC) && ObjectMember(Some(root), "params").None?)
  {
    var name := StringMember(Some(root), "method");
    if name == Some(INITIALIZE) then
      var client := ObjectMember(ObjectMember(Some(root), "params"), "clientInfo");
      if client.None? then Err(Abort)
      else Ok(InitializeMsg(IntMember(Some(root), "id"), StringMember(client, "name"), StringMember(client, "version")))
    else if name == Some(DIAGNOSTIC) then
      var params := ObjectMember(Some(root), "params");
      if params.None? then Err(Abort)
      else Ok(DiagnosticMsg(IntMember(Some(root), "id"), ParseDocument(params.value), ParseRange(params.value)))
    else Err(InvalidRequestMethod(name))
  }

  /**
   * parse_notification: the messages without an id. It aborts when a
   * didChange or a didOpen has no params object.
   */
  function ParseNotification(root: map<string, Json>): (r: Result<Msg, ParseError>)
    ensures r.Ok? ==> r.value.InitializedMsg? || r.value.ChangeMsg? || r.value.OpenMsg?
    ensures r == Err(Abort) <==>
              (StringMember(Some(root), "method") == Some(DIDCHANGE) || StringMember(Some(root), "method") == Some(DIDOPEN)) &&
              ObjectMember(Some(root), "params").None?
  {
    var name := StringMember(Some(root), "method");
    var params := ObjectMember(Some(root), "params");
    if name == Some(INITIALIZED) then Ok(InitializedMsg)
    else if name == Some(DIDCHANGE) then
      if params.None? then Err(Abort) else Ok(ChangeMsg(ParseDocument(params.value)))
    else if name == Some(DIDOPEN) then
      if params.None? then Err(Abort) else Ok(OpenMsg(ParseDocument(params.value)))
    else Err(InvalidNotificationMethod(name))
  }

  /**
   * message_parse, from the parsed JSON root on: only an object with both
   * "jsonrpc" and "method" yields a message; "id" selects request or
   * notification.
   */
  function MessageParse(root: Json): (r: Result<Msg, ParseError>)
    ensures r.Ok? ==> root.JObject? && "jsonrpc" in root.members && "method" in root.members
    ensures r.Ok? ==> ("id" in root.members <==> r.value.InitializeMsg? || r.value.DiagnosticMsg?)
    ensures r.Ok? ==> !r.value.SaveMsg?
  {
    if !root.JObject? then Err(RootNotObject)
    else if "jsonrpc" in root.members && "method" in root.members then
      if "id" in root.members then ParseRequest(root.members) else ParseNotification(root.members)
    else Err(DidNotRecognize)
  }

  /** The methods accepted with an id, and the type each gives. */
  function RequestType(name: string): Option<MessageType>
  {
    if name == INITIALIZE then Some(Initialize)
    else if name == DIAGNOSTIC then Some(Diagnostic)
    else None
  }

  /** The methods accepted without an id, and the type each gives. */
  function NotificationType(name: string): Option<MessageType>
  {
    if name == INITIALIZED then Some(Initialized)
    else if name == DIDCHANGE then Some(Change)
    else if name == DIDOPEN then Some(Open)
    else None
  }

  /**
   * The dispatch table: an object with "jsonrpc" and a string "method"
   * becomes a message exactly when the method is in the table for its
   * kind, an initialize request names its client and every other method
   * but initialized comes with a params object; the message has the type
   * the table gives. Every other method is an error that names it.
   */
  lemma DispatchTable(root: map<string, Json>, name: string)
    requires "jsonrpc" in root && "method" in root && root["method"] == JString(name)
    ensures var r := MessageParse(JObject(root));
            var table := if "id" in root then RequestType(name) else NotificationType(name);
            && (r.Ok? <==>
                  (table.Some? && !(name == INITIALIZE && "id" in root &&
                                    ObjectMember(ObjectMember(Some(root), "params"), "clientInfo").None?)
                               && !(name != INITIALIZE && name != INITIALIZED &&
                                    ObjectMember(Some(root), "params").None?)))
            && (r.Ok? ==> r.value.Type() == table.value)
            && (table.None? ==> r == Err(if "id" in root then InvalidRequestMethod(Some(name))
                                         else InvalidNotificationMethod(Some(name))))
  {
  }

  /** didSave is named by the protocol but never accepted. */
  lemma DidSaveRejected(root: map<string, Json>)
    requires "jsonrpc" in root && "method" in root && root["method"] == JString(DIDSAVE)
    ensures MessageParse(JObject(root)).Err?
  {
    DispatchTable(root, DIDSAVE);
  }

  /** message_problem_new: a finding with its coordinates and severity as given. */
  function ProblemNew(severity: int, startLine: int, startChar: int, endLine: int, endChar: int, msg: string): (p: Problem)
    ensures p.range.start == Position(startLine, startChar) && p.range.end == Position(endLine, endChar)
    ensures p.severity == severity && p.msg == msg
  {
    Problem(Range(Position(startLine, startChar), Position(endLine, endChar)), severity, msg)
  }

  /** One element of a diagnostics array. */
  function ProblemToJson(p: Problem): Json
  {
    JObject(map["range" := RangeToJson(p.range), "severity" := JInt(p.severity), "message" := JString(p.msg)])
  }

  /** The array diagnostics_to_json builds: one element per finding, in list order. */
  function ProblemsJson(issues: seq<Problem>): (r: seq<Json>)
    ensures |r| == |issues|
  {
    seq(|issues|, k requires 0 <= k < |issues| => ProblemToJson(issues[k]))
  }

  /**
   * Every element of the array reads back, with the same keys parse_range
   * uses, as the finding at the same position.
   */
  lemma ProblemsJsonReadBack(issues: seq<Problem>, k: nat)
    requires k < |issues|
    ensures var e := ProblemsJson(issues)[k];
            && e.JObject?
            && ParseRange(e.members) == issues[k].range
            && IntMember(Some(e.members), "severity") == issues[k].severity
            && StringMember(Some(e.members), "message") == Some(issues[k].msg)
  {
    RangeRoundTrip(ProblemToJson(issues[k]).members, issues[k].range);
  }

  /** diagnostics_to_json: walks the list, appending one object per finding. */
  method DiagnosticsToJson(issues: seq<Problem>) returns (dia: seq<Json>)
    ensures dia == ProblemsJson(issues)
  {
    dia := [];
    var rest := issues;
    while rest != []
      invariant |dia| + |rest| == |issues|
      invariant rest == issues[|dia|..]
      invariant forall k :: 0 <= k < |dia| ==> dia[k] == ProblemToJson(issues[k])
    {
      var p := rest[0];
      dia := dia + [ProblemToJson(p)];
      rest := rest[1..];
    }
  }

  /**
   * The payload message_diagnostic serializes: a response carrying the id,
   * kind "full" and the items when id > 0; otherwise a
   * textDocument/publishDiagnostics notification for uri.
   */
  function DiagnosticPayload(id: int, uri: Option<string>, items: seq<Json>): Json
  {
    if id > 0 then
      JObject(map["jsonrpc" := JString("2.0"), "id" := JInt(id),
                  "kind" := JString("full"), "items" := JArray(items)])
    else
      JObject(map["jsonrpc" := JString("2.0"),
                  "method" := JString("textDocument/publishDiagnostics"),
                  "params" := JObject(map["uri" := if uri.Some? then JString(uri.value) else JNull,
                                          "diagnostics" := JArray(items)])])
  }

  /** message_diagnostic. */
  method MessageDiagnostic(id: int, uri: Option<string>, issues: seq<Problem>) returns (j: Json)
    ensures j == DiagnosticPayload(id, uri, ProblemsJson(issues))
  {
    var dia := DiagnosticsToJson(issues);
    j := DiagnosticPayload(id, uri, dia);
  }

  /**
   * The shape is chosen by the id alone, and in both shapes the findings
   * appear in list order.
   */
  lemma DiagnosticShape(id: int, uri: Option<string>, issues: seq<Problem>)
    ensures var j := DiagnosticPayload(id, uri, ProblemsJson(issues));
            && j.JObject?
            && (id > 0 ==> j.members["id"] == JInt(id) && "method" !in j.members &&
                           j.members["items"] == JArray(ProblemsJson(issues)))
            && (id <= 0 ==> "id" !in j.members &&
                            j.members["method"] == JString("textDocument/publishDiagnostics") &&
                            StringMember(ObjectMember(Some(j.members), "params"), "uri") == uri &&
                            ObjectMember(Some(j.members), "params").value["diagnostics"] == JArray(ProblemsJson(issues)))
  {
  }

  /** message_init_response: the fixed handshake reply. */
  function InitResponse(id: int, sync: int, serverName: string, version: string): (r: Json)
    ensures r.JObject? && IntMember(Some(r.members), "id") == id
    ensures var result := ObjectMember(Some(r.members), "result");
            IntMember(ObjectMember(result, "capabilities"), "textDocumentSync") == sync &&
            StringMember(ObjectMember(result, "serverInfo"), "name") == Some(serverName) &&
            StringMember(ObjectMember(result, "serverInfo"), "version") == Some(version)
  {
    JObject(map[
      "jsonrpc" := JString("2.0"),
      "id" := JInt(id),
      "result" := JObject(map[
        "serverInfo" := JObject(map["name" := JString(serverName), "version" := JString(version)]),
        "capabilities" := JObject(map[
          "textDocumentSync" := JInt(sync),
          "workspaceFolders" := JString("utf-16"),
          "codeActionProvider" := JObject(map[
            "workDoneProgress" := JBool(false),
            "codeActionKinds" := JArray([JString("quickfix")])])])])])
  }
}
