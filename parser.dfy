/**
 * Parse handles: the text a message is about, resolved from the message
 * itself or from the cache of last-seen texts, and its syntax tree.
 */
module Parser {
  import opened Wrappers
  import opened Syntax
  import opened Message

  /** A text together with the tree the grammar built for it. */
  datatype Source = Source(content: string, root: Node)

  /** parser_t: the originating message, its uri, and the resolved text with its tree. */
  datatype ParseHandle = ParseHandle(message: Msg, file: Option<string>, source: Option<Source>)

  /** The message types the analyzers look at. */
  predicate IsAnalysisType(t: MessageType)
  {
    t == Diagnostic || t == Open || t == Change
  }

  /** The document part of an open, change or diagnostic message. */
  function Document(msg: Msg): (d: Option<DocumentChange>)
    ensures d.Some? <==> IsAnalysisType(msg.Type())
  {
    match msg
    case OpenMsg(d) => Some(d)
    case ChangeMsg(d) => Some(d)
    case DiagnosticMsg(_, d, _) => Some(d)
    case _ => None
  }

  /** The text the message carries: present only for the analysis types. */
  function MessageText(msg: Msg): Option<string>
  {
    if Document(msg).Some? then Document(msg).value.text else None
  }

  /** The uri the message carries: present only for the analysis types. */
  function MessageUri(msg: Msg): Option<string>
  {
    if Document(msg).Some? then Document(msg).value.uri else None
  }

  /**
   * parser_new, as a value: the handle and the new cache. None stands for
   * inserting a NULL uri as a hash key, which ends the process; it happens
   * when the message has a text but no uri.
   */
  function Resolve(msg: Msg, files: map<string, string>, parse: string -> Node):
    (r: (Option<ParseHandle>, map<string, string>))
    ensures r.0.None? <==> MessageText(msg).Some? && MessageUri(msg).None?
    ensures r.0.Some? ==> r.0.value.message == msg && r.0.value.file == MessageUri(msg)
    ensures MessageText(msg).Some? && MessageUri(msg).Some? ==>
              r.1 == files[MessageUri(msg).value := MessageText(msg).value] &&
              r.0.value.source == Some(Source(MessageText(msg).value, parse(MessageText(msg).value)))
    ensures MessageText(msg).None? ==>
              r.1 == files &&
              r.0.value.source == (if MessageUri(msg).Some? && MessageUri(msg).value in files
                                   then Some(Source(files[MessageUri(msg).value], parse(files[MessageUri(msg).value])))
                                   else None)
  {
    var text := MessageText(msg);
    var uri := MessageUri(msg);
    if text.Some? then
      if uri.None? then (None, files)
      else (Some(ParseHandle(msg, uri, Some(Source(text.value, parse(text.value))))), files[uri.value := text.value])
    else
      var cached := if uri.Some? && uri.value in files then Some(files[uri.value]) else None;
      (Some(ParseHandle(msg, uri, if cached.Some? then Some(Source(cached.value, parse(cached.value))) else None)), files)
  }

  /** Messages other than open, change and diagnostic leave the cache alone and get no text. */
  lemma OtherTypesUntouched(msg: Msg, files: map<string, string>, parse: string -> Node)
    requires !IsAnalysisType(msg.Type())
    ensures Resolve(msg, files, parse) == (Some(ParseHandle(msg, None, None)), files)
  {
  }

  /**
   * An update changes only the entry for its uri, and a later message for
   * that uri without text is resolved to the text just stored.
   */
  lemma LastTextWins(m1: Msg, m2: Msg, files: map<string, string>, parse: string -> Node)
    requires MessageText(m1).Some? && MessageUri(m1).Some?
    requires MessageText(m2).None? && MessageUri(m2) == MessageUri(m1)
    ensures var files1 := Resolve(m1, files, parse).1;
            && (forall u :: u in files && u != MessageUri(m1).value ==> u in files1 && files1[u] == files[u])
            && Resolve(m2, files1, parse).0.value.source.value.content == MessageText(m1).value
  {
  }

  /** A handle has a tree exactly when it has a text (by construction of Source). */
  lemma TreeIffText(msg: Msg, files: map<string, string>, parse: string -> Node)
    requires Resolve(msg, files, parse).0.Some?
    ensures var h := Resolve(msg, files, parse).0.value;
            h.source.Some? <==> MessageText(msg).Some? || (MessageUri(msg).Some? && MessageUri(msg).value in files)
  {
  }

  /** The uri-to-text table shared by all parse handles. */
  class DocumentCache {
    var files: map<string, string>

    constructor ()
      ensures files == map[]
    {
      files := map[];
    }

    /** parser_new: fills a handle for msg and updates the table in place. */
    method ParserNew(msg: Msg, parse: string -> Node) returns (h: Option<ParseHandle>)
      modifies this
      ensures (h, files) == Resolve(msg, old(files), parse)
    {
      var content: Option<string> := None;
      var file: Option<string> := None;
      match msg {
        case OpenMsg(d) =>
          content := d.text;
          file := d.uri;
        case ChangeMsg(d) =>
          content := d.text;
          file := d.uri;
        case DiagnosticMsg(_, d, _) =>
          content := d.text;
          file := d.uri;
        case _ =>
      }
      if content.Some? {
        if file.None? {
          h := None;
          return;
        }
        files := files[file.value := content.value];
      } else if file.Some? {
        content := if file.value in files then Some(files[file.value]) else None;
      }
      var source: Option<Source> := None;
      if content.Some? {
        source := Some(Source(content.value, parse(content.value)));
      }
      h := Some(ParseHandle(msg, file, source));
    }
  }
}
