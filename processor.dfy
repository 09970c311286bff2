/**
 * The dispatch of one parse handle: every registered analyzer runs on it
 * in registration order, their lists are concatenated, and one payload
 * (or none) is queued for the writer according to the message type.
 */
module Processor {
  import opened Wrappers
  import opened Syntax
  import opened Message
  import opened Parser
  import ProcessAsserts
  import ProcessComments
  import ProcessMidscope

  /** The analyzer functions a processor can register. */
  datatype Analyzer = InitDo | Asserts | Comments | Midscope

  /** process_ctx: the server's name and version and the sync kind it announces. */
  datatype ProcessCtx = ProcessCtx(name: string, version: string, sync: int)

  /**
   * An element of an analyzer's list: a finding, or the text of a reply
   * (the initialize response process_init_do returns).
   */
  datatype Item = Finding(problem: Problem) | Reply(payload: Json)

  /** Findings as list elements. */
  function AsItems(ps: seq<Problem>): (r: seq<Item>)
    ensures |r| == |ps|
    ensures forall k :: 0 <= k < |ps| ==> r[k] == Finding(ps[k])
  {
    seq(|ps|, k requires 0 <= k < |ps| => Finding(ps[k]))
  }

  /** The findings of a list, in order. */
  function ProblemsOf(items: seq<Item>): seq<Problem>
    decreases |items|
  {
    if items == [] then [] else (if items[0].Finding? then [items[0].problem] else []) + ProblemsOf(items[1..])
  }

  /** Reading the findings back from a list of findings gives them all, in order. */
  lemma {:induction false} ProblemsOfItems(ps: seq<Problem>)
    ensures ProblemsOf(AsItems(ps)) == ps
    decreases |ps|
  {
    if ps != [] {
      assert AsItems(ps)[1..] == AsItems(ps[1..]);
      ProblemsOfItems(ps[1..]);
    }
  }

  /** An analyzer's result as list elements; None stays None. */
  function Lift(r: Option<seq<Problem>>): (l: Option<seq<Item>>)
    ensures l.None? <==> r.None?
    ensures l.Some? ==> l.value == AsItems(r.value)
  {
    if r.None? then None else Some(AsItems(r.value))
  }

  /** process_init_do: the handshake reply for an initialize request, nothing otherwise. */
  function InitDoResult(h: ParseHandle, ctx: ProcessCtx): seq<Item>
  {
    if h.message.InitializeMsg? then [Reply(InitResponse(h.message.id, ctx.sync, ctx.name, ctx.version))] else []
  }

  /** One analyzer's list for h; None where the analyzer ends the process. */
  function RunAnalyzer(a: Analyzer, ctx: ProcessCtx, h: ParseHandle): (r: Option<seq<Item>>)
    ensures !IsAnalysisType(h.message.Type()) ==> r.Some?
  {
    match a
    case InitDo => Some(InitDoResult(h, ctx))
    case Asserts => Lift(ProcessAsserts.AssertsResult(h))
    case Comments => Lift(ProcessComments.CommentsResult(h))
    case Midscope => Lift(ProcessMidscope.MidscopeResult(h))
  }

  /** Outside an initialize request an analyzer's list holds only findings. */
  lemma RunAnalyzerFindings(a: Analyzer, ctx: ProcessCtx, h: ParseHandle)
    requires !h.message.InitializeMsg? && RunAnalyzer(a, ctx, h).Some?
    ensures forall k :: 0 <= k < |RunAnalyzer(a, ctx, h).value| ==> RunAnalyzer(a, ctx, h).value[k].Finding?
  {
  }

  /** On an initialize request process_init_do gives its reply and every other analyzer nothing. */
  lemma RunOnInitialize(a: Analyzer, ctx: ProcessCtx, h: ParseHandle)
    requires h.message.InitializeMsg?
    ensures RunAnalyzer(a, ctx, h) ==
            Some(if a == InitDo then [Reply(InitResponse(h.message.id, ctx.sync, ctx.name, ctx.version))] else [])
  {
  }

  /** Two lists concatenated; None where either ends the process. */
  function Combine(x: Option<seq<Item>>, y: Option<seq<Item>>): (r: Option<seq<Item>>)
    ensures r.Some? <==> x.Some? && y.Some?
    ensures r.Some? ==> |r.value| == |x.value| + |y.value| && r.value[..|x.value|] == x.value && r.value[|x.value|..] == y.value
  {
    if x.None? || y.None? then None else Some(x.value + y.value)
  }

  /** Concatenating lists is associative, crashes included. */
  lemma CombineAssoc(x: Option<seq<Item>>, y: Option<seq<Item>>, z: Option<seq<Item>>)
    ensures Combine(Combine(x, y), z) == Combine(x, Combine(y, z))
  {
    if x.Some? && y.Some? && z.Some? {
      assert (x.value + y.value) + z.value == x.value + (y.value + z.value);
    }
  }

  /**
   * The list thread_func builds for h: the lists of procs concatenated in
   * registration order. None where one of them ends the process.
   */
  function Aggregate(procs: seq<(Analyzer, ProcessCtx)>, h: ParseHandle): (r: Option<seq<Item>>)
    ensures r.None? <==> exists k :: 0 <= k < |procs| && RunAnalyzer(procs[k].0, procs[k].1, h).None?
    decreases |procs|
  {
    if procs == [] then Some([])
    else
      var init := procs[..|procs| - 1];
      assert forall k :: 0 <= k < |init| ==> init[k] == procs[k];
      Combine(Aggregate(init, h), RunAnalyzer(procs[|procs| - 1].0, procs[|procs| - 1].1, h))
  }

  /** Registering b after a concatenates b's list after a's. */
  lemma {:induction false} AggregateConcat(a: seq<(Analyzer, ProcessCtx)>, b: seq<(Analyzer, ProcessCtx)>, h: ParseHandle)
    ensures var x := Aggregate(a, h);
            var y := Aggregate(b, h);
            Aggregate(a + b, h) == Combine(x, y)
    decreases |b|
  {
    if b == [] {
      assert a + b == a;
      assert Aggregate(b, h) == Some([]);
      if Aggregate(a, h).Some? {
        assert Aggregate(a, h).value + [] == Aggregate(a, h).value;
      }
    } else {
      var b' := b[..|b| - 1];
      var last := RunAnalyzer(b[|b| - 1].0, b[|b| - 1].1, h);
      assert (a + b)[..|a + b| - 1] == a + b';
      assert (a + b)[|a + b| - 1] == b[|b| - 1];
      AggregateConcat(a, b', h);
      CombineAssoc(Aggregate(a, h), Aggregate(b', h), last);
    }
  }

  /** The list of the first i + 1 analyzers is that of the first i followed by analyzer i's. */
  lemma AggregateStep(procs: seq<(Analyzer, ProcessCtx)>, i: nat, h: ParseHandle)
    requires i < |procs|
    ensures Aggregate(procs[..i + 1], h) == Combine(Aggregate(procs[..i], h), RunAnalyzer(procs[i].0, procs[i].1, h))
  {
    assert procs[..i + 1][..i] == procs[..i];
  }

  /** Once an analyzer has ended the process, the later ones change nothing. */
  lemma AggregateCrashStays(procs: seq<(Analyzer, ProcessCtx)>, i: nat, h: ParseHandle)
    requires i <= |procs| && Aggregate(procs[..i], h).None?
    ensures Aggregate(procs, h).None?
  {
    AggregateConcat(procs[..i], procs[i..], h);
    assert procs[..i] + procs[i..] == procs;
  }

  /** Messages other than open, change and diagnostic never end the process in an analyzer. */
  lemma {:induction false} AggregateDefined(procs: seq<(Analyzer, ProcessCtx)>, h: ParseHandle)
    requires !IsAnalysisType(h.message.Type())
    ensures Aggregate(procs, h).Some?
    decreases |procs|
  {
    if procs != [] {
      AggregateDefined(procs[..|procs| - 1], h);
    }
  }

  /** Only an initialize request puts anything but findings in the list. */
  lemma {:induction false} AggregateFindingsOnly(procs: seq<(Analyzer, ProcessCtx)>, h: ParseHandle)
    requires !h.message.InitializeMsg? && Aggregate(procs, h).Some?
    ensures forall k :: 0 <= k < |Aggregate(procs, h).value| ==> Aggregate(procs, h).value[k].Finding?
    decreases |procs|
  {
    if procs != [] {
      AggregateFindingsOnly(procs[..|procs| - 1], h);
      RunAnalyzerFindings(procs[|procs| - 1].0, procs[|procs| - 1].1, h);
    }
  }

  /** For an initialize request every list element is a reply. */
  lemma {:induction false} AggregateInitialize(procs: seq<(Analyzer, ProcessCtx)>, h: ParseHandle)
    requires h.message.InitializeMsg?
    ensures Aggregate(procs, h).Some?
    ensures forall k :: 0 <= k < |Aggregate(procs, h).value| ==> Aggregate(procs, h).value[k].Reply?
    decreases |procs|
  {
    if procs != [] {
      AggregateInitialize(procs[..|procs| - 1], h);
      RunOnInitialize(procs[|procs| - 1].0, procs[|procs| - 1].1, h);
    }
  }

  /** No process_init_do is registered in procs. */
  predicate NoInitDo(procs: seq<(Analyzer, ProcessCtx)>)
  {
    forall k :: 0 <= k < |procs| ==> procs[k].0 != InitDo
  }

  /** procs has no process_init_do exactly when neither its front nor its last one is. */
  lemma NoInitDoStep(procs: seq<(Analyzer, ProcessCtx)>)
    requires procs != []
    ensures NoInitDo(procs) <==> NoInitDo(procs[..|procs| - 1]) && procs[|procs| - 1].0 != InitDo
  {
    var front := procs[..|procs| - 1];
    assert forall k :: 0 <= k < |front| ==> front[k] == procs[k];
  }

  /**
   * For an initialize request only process_init_do contributes: the list
   * is empty exactly when none is registered.
   */
  lemma {:induction false} AggregateInitializeEmpty(procs: seq<(Analyzer, ProcessCtx)>, h: ParseHandle)
    requires h.message.InitializeMsg?
    ensures Aggregate(procs, h) == Some([]) <==> NoInitDo(procs)
    decreases |procs|
  {
    if procs != [] {
      var front := procs[..|procs| - 1];
      AggregateInitializeEmpty(front, h);
      AggregateInitialize(front, h);
      RunOnInitialize(procs[|procs| - 1].0, procs[|procs| - 1].1, h);
      NoInitDoStep(procs);
    }
  }

  /** When process_init_do is registered first, its reply heads the list of an initialize request. */
  lemma AggregateInitializeFirst(procs: seq<(Analyzer, ProcessCtx)>, h: ParseHandle)
    requires h.message.InitializeMsg? && |procs| > 0 && procs[0].0 == InitDo
    ensures Aggregate(procs, h).Some? && |Aggregate(procs, h).value| > 0
    ensures Aggregate(procs, h).value[0] == Reply(InitResponse(h.message.id, procs[0].1.sync, procs[0].1.name, procs[0].1.version))
  {
    AggregateInitialize(procs, h);
    AggregateInitialize(procs[1..], h);
    RunOnInitialize(procs[0].0, procs[0].1, h);
    assert procs[..1][..0] == [] && procs[..1][0] == procs[0];
    assert Aggregate(procs[..1], h) == Some([Reply(InitResponse(h.message.id, procs[0].1.sync, procs[0].1.name, procs[0].1.version))]);
    AggregateConcat(procs[..1], procs[1..], h);
    assert procs[..1] + procs[1..] == procs;
  }

  /** The id a diagnostics payload is built with: the request's, or 0 for a notification. */
  function DiagnosticId(msg: Msg): int
  {
    if msg.DiagnosticMsg? then msg.id else 0
  }

  /**
   * The payloads thread_func queues for h once it has the list items;
   * None where it ends the process (an initialize request whose list is
   * empty, when dia->data dereferences NULL).
   */
  function Payloads(h: ParseHandle, items: seq<Item>): (r: Option<seq<Json>>)
    ensures IsAnalysisType(h.message.Type()) ==> r.Some? && |r.value| == 1
    ensures h.message.Type() == Initialized || h.message.Type() == Save ==> r == Some([])
    ensures h.message.InitializeMsg? ==> (r.None? <==> items == [] || !items[0].Reply?)
  {
    match h.message
    case DiagnosticMsg(id, _, _) => Some([DiagnosticPayload(id, h.file, ProblemsJson(ProblemsOf(items)))])
    case OpenMsg(_) => Some([DiagnosticPayload(0, h.file, ProblemsJson(ProblemsOf(items)))])
    case ChangeMsg(_) => Some([DiagnosticPayload(0, h.file, ProblemsJson(ProblemsOf(items)))])
    case InitializeMsg(_, _, _) => if items != [] && items[0].Reply? then Some([items[0].payload]) else None
    case _ => Some([])
  }

  /** Everything handling h queues with the analyzers procs; None where the process ends. */
  function Outcome(procs: seq<(Analyzer, ProcessCtx)>, h: ParseHandle): Option<seq<Json>>
  {
    var items := Aggregate(procs, h);
    if items.None? then None else Payloads(h, items.value)
  }

  /**
   * Open, change and diagnostic messages queue exactly one diagnostics
   * payload, with the request's id or 0, holding every finding of the
   * concatenated list in order.
   */
  lemma OnePayloadForAnalysis(procs: seq<(Analyzer, ProcessCtx)>, h: ParseHandle)
    requires IsAnalysisType(h.message.Type()) && Aggregate(procs, h).Some?
    ensures var items := Aggregate(procs, h).value;
            && |ProblemsOf(items)| == |items|
            && Outcome(procs, h) == Some([DiagnosticPayload(DiagnosticId(h.message), h.file, ProblemsJson(ProblemsOf(items)))])
  {
    var items := Aggregate(procs, h).value;
    AggregateFindingsOnly(procs, h);
    ProblemsOfAllFindings(items);
  }

  /** A list of findings keeps all of them. */
  lemma {:induction false} ProblemsOfAllFindings(items: seq<Item>)
    requires forall k :: 0 <= k < |items| ==> items[k].Finding?
    ensures |ProblemsOf(items)| == |items|
    decreases |items|
  {
    if items != [] {
      ProblemsOfAllFindings(items[1..]);
    }
  }

  /** Initialized notifications and saves queue nothing. */
  lemma QuietTypes(procs: seq<(Analyzer, ProcessCtx)>, h: ParseHandle)
    requires h.message.InitializedMsg? || h.message.SaveMsg?
    ensures Outcome(procs, h) == Some([])
  {
    AggregateDefined(procs, h);
  }

  /**
   * An initialize request queues the reply of the first registered
   * analyzer when that is process_init_do, and ends the process when no
   * process_init_do is registered.
   */
  lemma InitializeReply(procs: seq<(Analyzer, ProcessCtx)>, h: ParseHandle)
    requires h.message.InitializeMsg?
    ensures |procs| > 0 && procs[0].0 == InitDo ==>
              Outcome(procs, h) == Some([InitResponse(h.message.id, procs[0].1.sync, procs[0].1.name, procs[0].1.version)])
    ensures NoInitDo(procs) ==> Outcome(procs, h).None?
  {
    AggregateInitialize(procs, h);
    AggregateInitializeEmpty(procs, h);
    if |procs| > 0 && procs[0].0 == InitDo {
      AggregateInitializeFirst(procs, h);
    }
  }

  /** The analyzers the server registers, in order, and the context it gives them. */
  function ServerProcessors(): seq<(Analyzer, ProcessCtx)>
  {
    var ctx := ProcessCtx("glib_lsp", "0.0.1", 1);
    [(InitDo, ctx), (Asserts, ctx)]
  }

  /**
   * The server answers an initialize request with its handshake reply,
   * and an analysis message with exactly the unchecked-pointer findings.
   */
  lemma ServerAnswers(h: ParseHandle)
    ensures h.message.InitializeMsg? ==> Outcome(ServerProcessors(), h) == Some([InitResponse(h.message.id, 1, "glib_lsp", "0.0.1")])
    ensures IsAnalysisType(h.message.Type()) && h.source.Some? ==>
              Outcome(ServerProcessors(), h) ==
              Some([DiagnosticPayload(DiagnosticId(h.message), h.file, ProblemsJson(ProcessAsserts.AssertsResult(h).value))])
    ensures IsAnalysisType(h.message.Type()) && h.source.None? ==> Outcome(ServerProcessors(), h).None?
  {
    var procs := ServerProcessors();
    if h.message.InitializeMsg? {
      InitializeReply(procs, h);
    }
    if IsAnalysisType(h.message.Type()) && h.source.Some? {
      var ps := ProcessAsserts.AssertsResult(h).value;
      assert procs[..1][..0] == [];
      assert procs[..1][0] == procs[0];
      assert InitDoResult(h, procs[0].1) == [];
      assert RunAnalyzer(procs[0].0, procs[0].1, h) == Some([]);
      assert Aggregate(procs[..1], h) == Some([]);
      assert RunAnalyzer(procs[1].0, procs[1].1, h) == Some(AsItems(ps));
      assert [] + AsItems(ps) == AsItems(ps);
      assert Aggregate(procs, h) == Some(AsItems(ps));
      ProblemsOfItems(ps);
      assert Outcome(procs, h) == Payloads(h, AsItems(ps));
    }
    if IsAnalysisType(h.message.Type()) && h.source.None? {
      assert RunAnalyzer(procs[1].0, procs[1].1, h).None?;
    }
  }

  /** processor_t: its registered analyzers, the uri-to-text table, the pool's work and the writer's queue. */
  class Server {
    const cache: DocumentCache
    var processors: seq<(Analyzer, ProcessCtx)>
    /** Handles the pool has accepted and not yet run; the pool picks any of them. */
    var pending: seq<ParseHandle>
    /** The payloads queued for the writer, oldest first. */
    var messages: seq<Json>

    /** processor_new, without the streams and threads. */
    constructor ()
      ensures fresh(cache) && cache.files == map[]
      ensures processors == [] && pending == [] && messages == []
    {
      cache := new DocumentCache();
      processors := [];
      pending := [];
      messages := [];
    }

    /** processor_add_process: registers one analyzer after the others. */
    method AddProcess(a: Analyzer, ctx: ProcessCtx)
      modifies this
      ensures processors == old(processors) + [(a, ctx)]
      ensures pending == old(pending) && messages == old(messages)
    {
      processors := processors + [(a, ctx)];
    }

    /**
     * processor_handle_message: builds the handle and hands it to the
     * pool. poolAccepts is the pool's answer. None where building the
     * handle ends the process.
     */
    method HandleMessage(msg: Msg, parse: string -> Node, poolAccepts: bool) returns (r: Option<bool>)
      modifies this, cache
      ensures var res := Resolve(msg, old(cache.files), parse);
              && cache.files == res.1
              && (r.None? <==> res.0.None?)
              && (r.Some? ==> r.value == poolAccepts &&
                              pending == old(pending) + (if poolAccepts then [res.0.value] else []))
      ensures processors == old(processors) && messages == old(messages)
    {
      var h := cache.ParserNew(msg, parse);
      if h.None? {
        return None;
      }
      if !poolAccepts {
        return Some(false);
      }
      pending := pending + [h.value];
      return Some(true);
    }

    /** One analyzer run, as the function pointer call of thread_func. */
    static method Run(a: Analyzer, ctx: ProcessCtx, h: ParseHandle) returns (r: Option<seq<Item>>)
      ensures r == RunAnalyzer(a, ctx, h)
    {
      match a {
        case InitDo =>
          r := Some(InitDoResult(h, ctx));
        case Asserts =>
          var p := ProcessAsserts.ProcessAsserts(h);
          r := Lift(p);
        case Comments =>
          var p := ProcessComments.ProcessComments(h);
          r := Lift(p);
        case Midscope =>
          var p := ProcessMidscope.ProcessMidscope(h);
          r := Lift(p);
      }
    }

    /**
     * The loop of thread_func: runs every analyzer of procs in order and
     * concatenates their lists; None as soon as one ends the process.
     */
    static method RunAll(procs: seq<(Analyzer, ProcessCtx)>, h: ParseHandle) returns (r: Option<seq<Item>>)
      ensures r == Aggregate(procs, h)
    {
      var dia: seq<Item> := [];
      var i := 0;
      while i < |procs|
        invariant 0 <= i <= |procs|
        invariant Aggregate(procs[..i], h) == Some(dia)
      {
        var resp := Run(procs[i].0, procs[i].1, h);
        AggregateStep(procs, i, h);
        if resp.None? {
          AggregateCrashStays(procs, i + 1, h);
          return None;
        }
        dia := dia + resp.value;
        i := i + 1;
      }
      assert procs[..i] == procs;
      return Some(dia);
    }

    /**
     * thread_func on the pending handle k: runs every analyzer, then
     * queues the payloads Outcome gives. completed is false where the
     * process ends.
     */
    method ThreadFunc(k: nat) returns (completed: bool)
      requires k < |pending|
      modifies this
      ensures pending == old(pending[..k] + pending[k + 1..])
      ensures processors == old(processors)
      ensures var o := Outcome(old(processors), old(pending[k]));
              && completed == o.Some?
              && messages == old(messages) + (if o.Some? then o.value else [])
    {
      var h := pending[k];
      pending := pending[..k] + pending[k + 1..];
      var items := RunAll(processors, h);
      if items.None? {
        return false;
      }
      var dia := items.value;
      match h.message {
        case DiagnosticMsg(id, _, _) =>
          var msg := MessageDiagnostic(id, h.file, ProblemsOf(dia));
          messages := messages + [msg];
        case OpenMsg(_) =>
          var msg := MessageDiagnostic(0, h.file, ProblemsOf(dia));
          messages := messages + [msg];
        case ChangeMsg(_) =>
          var msg := MessageDiagnostic(0, h.file, ProblemsOf(dia));
          messages := messages + [msg];
        case InitializeMsg(_, _, _) =>
          if dia == [] || !dia[0].Reply? {
            return false;
          }
          messages := messages + [dia[0].payload];
        case _ =>
      }
      return true;
    }
  }
}
