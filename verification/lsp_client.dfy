/**
 * The language-server client (LSPClient): the JSON-RPC 2.0 envelopes it
 * writes, the shared request-id counter and the id-to-handler map, and how
 * the messages cut out of the server's output are dispatched.
 *
 * Handlers and callbacks are opaque tags.  What the client does that can be
 * seen from outside (frames written, handlers installed, callbacks invoked)
 * is kept in a ghost trace.  JSON text is produced and read by `dump` and
 * `parse`, which belong to the JSON library and are given to the client.
 */
module Lsp {
  import opened Strings
  import opened JsonValue
  import opened FrameCodec

  datatype CompletionItem = CompletionItem(itemLabel: string, detail: string, insertText: string)

  datatype Diagnostic = Diagnostic(
    line: Int32, rangeStart: Int32, rangeEnd: Int32, message: string, severity: Int32)

  /** A callback, known only by its identity. */
  type Callback = nat

  /** What the client does that can be observed from outside. */
  datatype Action =
    | Wrote(msg: Json, frame: string)                           // WriteToPipe of the dumped message
    | Registered(id: int, cb: Callback)                         // a response handler installed under `id`
    | Completed(cb: Callback, items: seq<CompletionItem>)       // a completion callback invoked
    | Diagnosed(cb: Callback, uri: string, diags: seq<Diagnostic>)  // the diagnostics callback invoked

  // ---------------------------------------------------------------------
  // Document URIs and request parameters

  const FilePrefix: string := "file:///"

  /** "file:///" followed by the path with every backslash turned into '/'. */
  function FileUri(path: string): (uri: string)
    ensures |uri| == 8 + |path| && uri[..8] == FilePrefix
    ensures forall i :: 0 <= i < |path| ==> uri[8 + i] == if path[i] == '\\' then '/' else path[i]
  {
    FilePrefix + ReplaceChar(path, '\\', '/')
  }

  /** No document URI the client sends contains a backslash. */
  lemma {:induction false} FileUriHasNoBackslash(path: string)
    ensures '\\' !in FileUri(path)
  {
    var uri := FileUri(path);
    forall k | 0 <= k < |uri| ensures uri[k] != '\\' {
      if k < 8 {
        assert uri[k] == uri[..8][k] == FilePrefix[k];
      } else {
        assert uri[8 + (k - 8)] == if path[k - 8] == '\\' then '/' else path[k - 8];
      }
    }
  }

  function RequestMessage(id: int, name: string, params: Json): Json {
    JObj(map["jsonrpc" := JStr("2.0"), "id" := JNum(id), "method" := JStr(name), "params" := params])
  }

  function NotificationMessage(name: string, params: Json): Json {
    JObj(map["jsonrpc" := JStr("2.0"), "method" := JStr(name), "params" := params])
  }

  function InitializeParams(processId: int, rootPath: string): Json {
    JObj(map[
      "processId" := JNum(processId),
      "rootPath" := JStr(ReplaceChar(rootPath, '\\', '/')),
      "rootUri" := JStr(FileUri(rootPath)),
      "capabilities" := JObj(map[])])
  }

  function DidOpenParams(path: string, text: string): Json {
    JObj(map["textDocument" := JObj(map[
      "uri" := JStr(FileUri(path)),
      "languageId" := JStr("cpp"),
      "version" := JNum(1),
      "text" := JStr(text)])])
  }

  /** The version is always 2, whatever was sent before. */
  function DidChangeParams(path: string, text: string): Json {
    JObj(map[
      "textDocument" := JObj(map["uri" := JStr(FileUri(path)), "version" := JNum(2)]),
      "contentChanges" := JArr([JObj(map["text" := JStr(text)])])])
  }

  function CompletionParams(path: string, line: int, character: int): Json {
    JObj(map[
      "textDocument" := JObj(map["uri" := JStr(FileUri(path))]),
      "position" := JObj(map["line" := JNum(line), "character" := JNum(character)])])
  }

  /** The document URI inside the parameters of a notification or request. */
  function DocumentUri(params: Json): Option<string> {
    if Contains(params, "textDocument") && Contains(Member(params, "textDocument"), "uri")
       && Member(Member(params, "textDocument"), "uri").JStr?
    then Some(Member(Member(params, "textDocument"), "uri").s)
    else None
  }

  /** Every document the client names is named by the file URI of its path. */
  lemma {:induction false} DocumentUrisAreFileUris(path: string, text: string, line: int, character: int)
    ensures DocumentUri(DidOpenParams(path, text)) == Some(FileUri(path))
    ensures DocumentUri(DidChangeParams(path, text)) == Some(FileUri(path))
    ensures DocumentUri(CompletionParams(path, line, character)) == Some(FileUri(path))
    ensures '\\' !in FileUri(path)
  {
    FileUriHasNoBackslash(path);
  }

  /** A request carries the id it was sent with; a notification carries none. */
  lemma {:induction false} NotificationHasNoId(name: string, params: Json, id: int)
    ensures !Contains(NotificationMessage(name, params), "id")
    ensures Member(RequestMessage(id, name, params), "id") == JNum(id)
  {
  }

  // ---------------------------------------------------------------------
  // Completion results

  /** The items of a completion result: CompletionItem[] itself, or the `items` of a CompletionList. */
  function CompletionList(result: Json): (list: seq<Json>)
    ensures result.JArr? ==> list == result.elems
    ensures !result.JArr? && Contains(result, "items") && Member(result, "items").JArr? ==>
      list == Member(result, "items").elems
    ensures !result.JArr? && !(Contains(result, "items") && Member(result, "items").JArr?) ==> list == []
  {
    if result.JArr? then result.elems
    else if Contains(result, "items") && Member(result, "items").JArr? then Member(result, "items").elems
    else []
  }

  /**
   * One element of the list: `label` defaults to "???", `detail` to "" and
   * `insertText` to the label; a non-object element or a member that is
   * not a string throws (`None`).
   */
  function ItemOf(i: Json): (r: Option<CompletionItem>)
    ensures r.Some? <==> i.JObj? && forall k :: k in {"label", "detail", "insertText"} && k in i.members ==> i.members[k].JStr?
    ensures r.Some? ==> r.value.itemLabel == (if "label" in i.members then i.members["label"].s else "???")
    ensures r.Some? ==> r.value.detail == (if "detail" in i.members then i.members["detail"].s else "")
    ensures r.Some? ==> r.value.insertText == (if "insertText" in i.members then i.members["insertText"].s else r.value.itemLabel)
  {
    match StringValue(i, "label", "???")
    case None => None
    case Some(itemLabel) =>
      match StringValue(i, "detail", "")
      case None => None
      case Some(detail) =>
        match StringValue(i, "insertText", itemLabel)
        case None => None
        case Some(insertText) => Some(CompletionItem(itemLabel, detail, insertText))
  }

  /** All elements converted, in order; one that throws aborts the whole conversion. */
  function ItemsOf(list: seq<Json>): (r: Option<seq<CompletionItem>>)
    ensures r.Some? <==> forall k :: 0 <= k < |list| ==> ItemOf(list[k]).Some?
    ensures r.Some? ==> |r.value| == |list|
    ensures r.Some? ==> forall k :: 0 <= k < |list| ==> r.value[k] == ItemOf(list[k]).value
    decreases |list|
  {
    if list == [] then Some([])
    else
      var init := list[..|list| - 1];
      match ItemsOf(init)
      case None => None
      case Some(items) =>
        match ItemOf(list[|list| - 1])
        case None => None
        case Some(item) => Some(items + [item])
  }

  /** What a completion handler does with a response's result. */
  function CompletionActions(cb: Callback, result: Json): (acts: seq<Action>)
    ensures ItemsOf(CompletionList(result)).Some? ==> acts == [Completed(cb, ItemsOf(CompletionList(result)).value)]
    ensures ItemsOf(CompletionList(result)).None? ==> acts == []
  {
    match ItemsOf(CompletionList(result))
    case None => []
    case Some(items) => [Completed(cb, items)]
  }

  /** A result of any other shape calls back with no items. */
  lemma {:induction false} OtherShapeGivesNoItems(cb: Callback, result: Json)
    requires !result.JArr? && !(Contains(result, "items") && Member(result, "items").JArr?)
    ensures CompletionActions(cb, result) == [Completed(cb, [])]
  {
  }

  /** A list holding one element that throws: the callback never fires. */
  lemma {:induction false} ConversionErrorSkipsCallback(cb: Callback, result: Json, k: nat)
    requires k < |CompletionList(result)| && ItemOf(CompletionList(result)[k]).None?
    ensures CompletionActions(cb, result) == []
  {
  }

  /** The handler's conversion loop. */
  method ConvertCompletion(result: Json) returns (items: Option<seq<CompletionItem>>)
    ensures items == ItemsOf(CompletionList(result))
  {
    var list := CompletionList(result);
    var acc: seq<CompletionItem> := [];
    var k := 0;
    while k < |list|
      invariant k <= |list|
      invariant ItemsOf(list[..k]) == Some(acc)
    {
      var item := ItemOf(list[k]);
      if item.None? {
        // the exception is caught in the handler and the callback is skipped
        assert !ItemOf(list[k]).Some?;
        return None;
      }
      assert list[..k + 1][..k] == list[..k];
      acc := acc + [item.value];
      k := k + 1;
    }
    assert list[..k] == list;
    items := Some(acc);
  }

  // ---------------------------------------------------------------------
  // Diagnostics

  predicate HasRange(d: Json) {
    Contains(d, "range") && Member(d, "range").JObj?
  }

  /**
   * A ranged entry whose three positions are integers, and whose `message`
   * and `severity`, when present, have the right type.
   */
  predicate Convertible(d: Json) {
    HasRange(d) &&
    var range := Member(d, "range");
    PathInt(range, "start", "line").Some? && PathInt(range, "start", "character").Some?
    && PathInt(range, "end", "character").Some?
    && StringValue(d, "message", "").Some? && IntValue(d, "severity", 1).Some?
  }

  /**
   * One diagnostic with a range object.  The three positions are read
   * through `range.start.line`, `range.start.character` and
   * `range.end.character`, and any of them missing throws; `message`
   * defaults to "" and `severity` to 1.  Entries without a range object
   * never get here: they are skipped first (see Ranged).
   */
  function DiagnosticOf(d: Json): (r: Option<Diagnostic>)
    ensures r.Some? <==> Convertible(d)
    ensures r.Some? ==> r.value.message == (if "message" in d.members then d.members["message"].s else "")
    ensures r.Some? && "severity" !in d.members ==> r.value.severity == 1
    ensures r.Some? && "severity" in d.members ==> r.value.severity == AsInt(d.members["severity"]).value
    ensures r.Some? ==> var range := Member(d, "range");
      r.value.line == PathInt(range, "start", "line").value &&
      r.value.rangeStart == PathInt(range, "start", "character").value &&
      r.value.rangeEnd == PathInt(range, "end", "character").value
  {
    if Convertible(d) then
      var range := Member(d, "range");
      Some(Diagnostic(PathInt(range, "start", "line").value, PathInt(range, "start", "character").value,
                      PathInt(range, "end", "character").value,
                      StringValue(d, "message", "").value, IntValue(d, "severity", 1).value))
    else None
  }

  /** The entries that have a range object, in order. */
  function Ranged(list: seq<Json>): (r: seq<Json>)
    ensures |r| <= |list|
    ensures forall k :: 0 <= k < |r| ==> HasRange(r[k])
    decreases |list|
  {
    if list == [] then []
    else
      var last := list[|list| - 1];
      Ranged(list[..|list| - 1]) + if HasRange(last) then [last] else []
  }

  /** Every entry with a range object is kept, and nothing else is. */
  lemma {:induction false} RangedMembers(list: seq<Json>, x: Json)
    ensures x in Ranged(list) <==> x in list && HasRange(x)
    decreases |list|
  {
    if list != [] {
      var init := list[..|list| - 1];
      var last := list[|list| - 1];
      assert list == init + [last];
      RangedMembers(init, x);
    }
  }

  /** Every ranged entry converted, in order; one that throws aborts the whole message. */
  function DiagnosticsOf(list: seq<Json>): Option<seq<Diagnostic>> {
    ConvertRanged(Ranged(list))
  }

  function ConvertRanged(ranged: seq<Json>): (r: Option<seq<Diagnostic>>)
    ensures r.Some? <==> forall k :: 0 <= k < |ranged| ==> DiagnosticOf(ranged[k]).Some?
    ensures r.Some? ==> |r.value| == |ranged|
    ensures r.Some? ==> forall k :: 0 <= k < |ranged| ==> r.value[k] == DiagnosticOf(ranged[k]).value
    decreases |ranged|
  {
    if ranged == [] then Some([])
    else
      var init := ranged[..|ranged| - 1];
      match ConvertRanged(init)
      case None => None
      case Some(ds) =>
        match DiagnosticOf(ranged[|ranged| - 1])
        case None => None
        case Some(d) => Some(ds + [d])
  }

  /** The diagnostics loop of the read thread. */
  method CollectDiagnostics(list: seq<Json>) returns (diags: Option<seq<Diagnostic>>)
    ensures diags == DiagnosticsOf(list)
  {
    var acc: seq<Diagnostic> := [];
    var k := 0;
    while k < |list|
      invariant k <= |list|
      invariant DiagnosticsOf(list[..k]) == Some(acc)
    {
      var d := list[k];
      CollectStep(list, k, acc);
      if HasRange(d) {
        var diag := DiagnosticOf(d);
        if diag.None? {
          return None;
        }
        acc := acc + [diag.value];
      }
      k := k + 1;
    }
    assert list[..k] == list;
    diags := Some(acc);
  }

  /** One more entry of the diagnostics loop: skipped, converted, or the throw that aborts the message. */
  lemma CollectStep(list: seq<Json>, k: nat, acc: seq<Diagnostic>)
    requires k < |list| && DiagnosticsOf(list[..k]) == Some(acc)
    ensures !HasRange(list[k]) ==> DiagnosticsOf(list[..k + 1]) == Some(acc)
    ensures HasRange(list[k]) && DiagnosticOf(list[k]).Some? ==>
      DiagnosticsOf(list[..k + 1]) == Some(acc + [DiagnosticOf(list[k]).value])
    ensures HasRange(list[k]) && DiagnosticOf(list[k]).None? ==> DiagnosticsOf(list) == None
  {
    RangedStep(list, k);
    if HasRange(list[k]) {
      if DiagnosticOf(list[k]).Some? {
        ConvertStep(Ranged(list[..k]), list[k], acc);
      } else {
        DiagnosticsAbort(list, k);
      }
    }
  }

  lemma {:induction false} ConvertStep(ranged: seq<Json>, d: Json, acc: seq<Diagnostic>)
    requires DiagnosticOf(d).Some? && ConvertRanged(ranged) == Some(acc)
    ensures ConvertRanged(ranged + [d]) == Some(acc + [DiagnosticOf(d).value])
  {
    assert (ranged + [d])[..|ranged|] == ranged;
  }

  lemma {:induction false} RangedStep(list: seq<Json>, k: nat)
    requires k < |list|
    ensures HasRange(list[k]) ==> Ranged(list[..k + 1]) == Ranged(list[..k]) + [list[k]]
    ensures !HasRange(list[k]) ==> Ranged(list[..k + 1]) == Ranged(list[..k])
  {
    assert list[..k + 1][..k] == list[..k];
    assert Ranged(list[..k]) + [] == Ranged(list[..k]);
  }

  /** An entry that throws makes the conversion of every longer list throw. */
  lemma {:induction false} DiagnosticsAbort(list: seq<Json>, k: nat)
    requires k < |list| && HasRange(list[k]) && DiagnosticOf(list[k]).None?
    ensures DiagnosticsOf(list) == None
  {
    RangedMembers(list, list[k]);
    var j :| 0 <= j < |Ranged(list)| && Ranged(list)[j] == list[k];
  }

  /** The diagnostics array of a params object; a missing or non-array member reads as none. */
  function DiagnosticList(params: Json): (list: seq<Json>)
    ensures Contains(params, "diagnostics") && Member(params, "diagnostics").JArr? ==>
      list == Member(params, "diagnostics").elems
    ensures !(Contains(params, "diagnostics") && Member(params, "diagnostics").JArr?) ==> list == []
  {
    if Contains(params, "diagnostics") && Member(params, "diagnostics").JArr? then Member(params, "diagnostics").elems
    else []
  }

  /** textDocument/publishDiagnostics, the one notification the client reads. */
  predicate IsPublishDiagnostics(msg: Json) {
    Contains(msg, "method") && Member(msg, "method") == JStr("textDocument/publishDiagnostics")
  }

  /** What a publishDiagnostics notification does: call the callback, if one is set, with the uri and the list. */
  function PublishActions(msg: Json, diagCallback: Option<Callback>): (acts: seq<Action>)
    ensures |acts| <= 1
    ensures acts != [] ==> acts[0].Diagnosed? && diagCallback == Some(acts[0].cb)
    ensures acts != [] <==>
      Contains(msg, "params") && Member(msg, "params").JObj? &&
      Contains(Member(msg, "params"), "uri") && Member(Member(msg, "params"), "uri").JStr? &&
      DiagnosticsOf(DiagnosticList(Member(msg, "params"))).Some? && diagCallback.Some?
    ensures acts != [] ==>
      acts[0].uri == Member(Member(msg, "params"), "uri").s &&
      acts[0].diags == DiagnosticsOf(DiagnosticList(Member(msg, "params"))).value
  {
    if Contains(msg, "params") && Member(msg, "params").JObj? then
      var params := Member(msg, "params");
      if Contains(params, "uri") && Member(params, "uri").JStr? then
        match DiagnosticsOf(DiagnosticList(params))
        case None => []
        case Some(ds) =>
          if diagCallback.Some? then [Diagnosed(diagCallback.value, Member(params, "uri").s, ds)] else []
      else []
    else []
  }

  // ---------------------------------------------------------------------
  // Responses

  /** A message with an id that is a number or a string. */
  predicate HasResponseId(msg: Json) {
    Contains(msg, "id") && (Member(msg, "id").JNum? || Member(msg, "id").JStr?)
  }

  /** The id as an int: a number converts, a string goes through stoi; -1 when stoi fails. */
  function ResponseId(idValue: Json): (id: Int32)
    ensures idValue.JNum? && INT_MIN <= idValue.n <= INT_MAX ==> id == idValue.n
    ensures idValue.JStr? && Stoi(idValue.s).Some? ==> id == Stoi(idValue.s).value
    ensures idValue.JStr? && Stoi(idValue.s).None? ==> id == -1
  {
    match idValue
    case JNum(n) => ToInt32(n)
    case JStr(s) => (match Stoi(s) case None => -1 case Some(v) => v)
    case _ => -1
  }

  /** Both kinds of callback action; a dispatch never writes or registers. */
  predicate IsCallback(a: Action) {
    a.Completed? || a.Diagnosed?
  }

  /**
   * Dispatching one parsed message against the handler map: the new map
   * and the callbacks invoked.
   */
  function Dispatch(msg: Json, handlers: map<int, Callback>, diagCallback: Option<Callback>)
    : (r: (map<int, Callback>, seq<Action>))
    ensures r.0.Keys <= handlers.Keys && forall id :: id in r.0 ==> r.0[id] == handlers[id]
    ensures |r.1| <= 1 && forall k :: 0 <= k < |r.1| ==> IsCallback(r.1[k])
  {
    if IsPublishDiagnostics(msg) then (handlers, PublishActions(msg, diagCallback))
    else if HasResponseId(msg) then Respond(msg, handlers)
    else (handlers, [])
  }

  /** A message with an id: the handler under that id, if any, is taken out and given the result. */
  function Respond(msg: Json, handlers: map<int, Callback>): (r: (map<int, Callback>, seq<Action>))
    requires HasResponseId(msg)
    ensures r.0.Keys <= handlers.Keys && forall id :: id in r.0 ==> r.0[id] == handlers[id]
    ensures |r.1| <= 1 && forall k :: 0 <= k < |r.1| ==> r.1[k].Completed?
  {
    var id := ResponseId(Member(msg, "id"));
    if id != -1 && id in handlers then
      (handlers - {id}, if Contains(msg, "result") then CompletionActions(handlers[id], Member(msg, "result")) else [])
    else (handlers, [])
  }

  /** publishDiagnostics is checked before the id, so it never touches the handlers. */
  lemma {:induction false} DiagnosticsCheckedFirst(msg: Json, handlers: map<int, Callback>, diagCallback: Option<Callback>)
    requires IsPublishDiagnostics(msg)
    ensures Dispatch(msg, handlers, diagCallback) == (handlers, PublishActions(msg, diagCallback))
  {
  }

  /**
   * A response whose id has a handler removes it, and invokes it only when
   * the response has a `result`.
   */
  lemma {:induction false} ResponseConsumesHandler(msg: Json, handlers: map<int, Callback>, diagCallback: Option<Callback>)
    requires !IsPublishDiagnostics(msg) && HasResponseId(msg)
    requires ResponseId(Member(msg, "id")) != -1 && ResponseId(Member(msg, "id")) in handlers
    ensures var id := ResponseId(Member(msg, "id"));
      Dispatch(msg, handlers, diagCallback) ==
        (handlers - {id}, if Contains(msg, "result") then CompletionActions(handlers[id], Member(msg, "result")) else [])
  {
  }

  /** A message whose id is unknown, unparseable or missing changes nothing. */
  lemma {:induction false} UnknownIdIgnored(msg: Json, handlers: map<int, Callback>, diagCallback: Option<Callback>)
    requires !IsPublishDiagnostics(msg)
    requires !HasResponseId(msg) || ResponseId(Member(msg, "id")) !in handlers || ResponseId(Member(msg, "id")) == -1
    ensures Dispatch(msg, handlers, diagCallback) == (handlers, [])
  {
  }

  /** A handler is consumed exactly once: the same response again does nothing. */
  lemma {:induction false} ResponseHandledOnce(msg: Json, handlers: map<int, Callback>, diagCallback: Option<Callback>)
    requires !IsPublishDiagnostics(msg)
    ensures var after := Dispatch(msg, handlers, diagCallback).0;
      Dispatch(msg, after, diagCallback) == (after, [])
  {
    var after := Dispatch(msg, handlers, diagCallback).0;
    if HasResponseId(msg) {
      var id := ResponseId(Member(msg, "id"));
      assert id !in after || id == -1;
    }
  }

  /** The id of a response that names a pending handler. */
  predicate AnswersPending(msg: Json, handlers: map<int, Callback>) {
    !IsPublishDiagnostics(msg) && HasResponseId(msg)
    && ResponseId(Member(msg, "id")) != -1 && ResponseId(Member(msg, "id")) in handlers
  }

  /**
   * Matching is by id, not by arrival order: two responses to different
   * pending requests invoke the same callbacks with the same items, and
   * leave the same map, whichever arrives first.
   */
  lemma {:induction false} ResponsesInAnyOrder(m1: Json, m2: Json, handlers: map<int, Callback>, diagCallback: Option<Callback>)
    requires AnswersPending(m1, handlers) && AnswersPending(m2, handlers)
    requires ResponseId(Member(m1, "id")) != ResponseId(Member(m2, "id"))
    ensures var a1 := Dispatch(m1, handlers, diagCallback);
      var a2 := Dispatch(m2, handlers, diagCallback);
      var b2 := Dispatch(m2, a1.0, diagCallback);
      var b1 := Dispatch(m1, a2.0, diagCallback);
      b2.0 == b1.0 && b2.1 == a2.1 && b1.1 == a1.1
  {
    var id1 := ResponseId(Member(m1, "id"));
    var id2 := ResponseId(Member(m2, "id"));
    var a1 := Dispatch(m1, handlers, diagCallback);
    var a2 := Dispatch(m2, handlers, diagCallback);
    assert a1.0 == handlers - {id1};
    assert a2.0 == handlers - {id2};
    assert id2 in a1.0 && a1.0[id2] == handlers[id2];
    assert id1 in a2.0 && a2.0[id1] == handlers[id1];
    assert a1.0 - {id2} == a2.0 - {id1};
  }

  /** A string id that is the decimal form of a number finds the same handler as that number. */
  lemma {:induction false} StringIdMatchesNumber(n: Int32)
    ensures ResponseId(JStr(IntToString(n))) == ResponseId(JNum(n)) == n
  {
    StoiOfIntToString(n);
  }

  // ---------------------------------------------------------------------
  // Bodies

  /** One frame body: a body that does not parse is dropped. */
  function DispatchBody(body: string, handlers: map<int, Callback>, diagCallback: Option<Callback>,
                        parse: string -> Option<Json>): (r: (map<int, Callback>, seq<Action>))
    ensures r.0.Keys <= handlers.Keys
    ensures forall k :: 0 <= k < |r.1| ==> IsCallback(r.1[k])
  {
    match parse(body)
    case None => (handlers, [])
    case Some(msg) => Dispatch(msg, handlers, diagCallback)
  }

  /** Dispatching the bodies one after another: the final map and all callbacks, in order. */
  function DispatchBodies(bodies: seq<string>, handlers: map<int, Callback>, diagCallback: Option<Callback>,
                          parse: string -> Option<Json>): (r: (map<int, Callback>, seq<Action>))
    ensures r.0.Keys <= handlers.Keys
    ensures forall k :: 0 <= k < |r.1| ==> IsCallback(r.1[k])
    decreases |bodies|
  {
    if bodies == [] then (handlers, [])
    else
      var prev := DispatchBodies(bodies[..|bodies| - 1], handlers, diagCallback, parse);
      var step := DispatchBody(bodies[|bodies| - 1], prev.0, diagCallback, parse);
      (step.0, prev.1 + step.1)
  }

  /** Dispatching `a + b` is dispatching `a`, then `b` against the map `a` leaves. */
  lemma {:induction false} DispatchBodiesAppend(a: seq<string>, b: seq<string>, handlers: map<int, Callback>,
                                                diagCallback: Option<Callback>, parse: string -> Option<Json>)
    ensures var ra := DispatchBodies(a, handlers, diagCallback, parse);
      var rb := DispatchBodies(b, ra.0, diagCallback, parse);
      DispatchBodies(a + b, handlers, diagCallback, parse) == (rb.0, ra.1 + rb.1)
    decreases |b|
  {
    var ra := DispatchBodies(a, handlers, diagCallback, parse);
    if b == [] {
      assert a + b == a;
      assert ra.1 + [] == ra.1;
    } else {
      var init := b[..|b| - 1];
      var last := b[|b| - 1];
      assert (a + b)[..|a + b| - 1] == a + init;
      assert (a + b)[|a + b| - 1] == last;
      DispatchBodiesAppend(a, init, handlers, diagCallback, parse);
      var ri := DispatchBodies(init, ra.0, diagCallback, parse);
      var step := DispatchBody(last, ri.0, diagCallback, parse);
      AppendAssoc(ra.1, ri.1, step.1);
    }
  }

  /** A body that fails to parse is dropped without disturbing the bodies after it. */
  lemma {:induction false} UnparseableBodySkipped(a: seq<string>, bad: string, b: seq<string>,
                                                  handlers: map<int, Callback>, diagCallback: Option<Callback>,
                                                  parse: string -> Option<Json>)
    requires parse(bad) == None
    ensures DispatchBodies(a + [bad] + b, handlers, diagCallback, parse) == DispatchBodies(a + b, handlers, diagCallback, parse)
  {
    var ra := DispatchBodies(a, handlers, diagCallback, parse);
    DispatchBodiesAppend(a, [bad], handlers, diagCallback, parse);
    assert DispatchBodies([bad], ra.0, diagCallback, parse) == (ra.0, []) by {
      assert [bad][..0] == [];
    }
    assert ra.1 + [] == ra.1;
    DispatchBodiesAppend(a + [bad], b, handlers, diagCallback, parse);
    DispatchBodiesAppend(a, b, handlers, diagCallback, parse);
  }

  /** The reads ReadLoop consumes: everything before the first empty read. */
  function Received(incoming: seq<string>): (r: seq<string>)
    ensures |r| <= |incoming| && r == incoming[..|r|]
    ensures forall k :: 0 <= k < |r| ==> incoming[k] != []
    ensures |r| < |incoming| ==> incoming[|r|] == []
    decreases |incoming|
  {
    if incoming == [] || incoming[0] == [] then [] else [incoming[0]] + Received(incoming[1..])
  }

  /** The frames cut out of read `i` extend those of the reads before it. */
  lemma FeedNext(incoming: seq<string>, i: nat, done: seq<string>, carried: string, bodies: seq<string>, rest: string)
    requires i < |incoming| && (done, carried) == FeedAll([], incoming[..i])
    requires (bodies, rest) == Drain(carried + incoming[i])
    ensures (done + bodies, rest) == FeedAll([], incoming[..i + 1])
  {
    FeedAllSnoc(incoming[..i], incoming[i]);
    assert incoming[..i] + [incoming[i]] == incoming[..i + 1];
  }

  /** A non-empty read at position `i` of the reads received so far is itself received. */
  lemma ReceivedGoesOn(incoming: seq<string>, i: nat)
    requires i <= |Received(incoming)| && i < |incoming| && incoming[i] != []
    ensures i < |Received(incoming)|
  {
  }

  /**
   * However the server's frames are split across reads, the read loop
   * dispatches exactly the server's messages, in the order they were sent.
   */
  lemma {:induction false} StreamDispatchedInOrder(ps: seq<string>, incoming: seq<string>,
                                                   handlers: map<int, Callback>, diagCallback: Option<Callback>,
                                                   parse: string -> Option<Json>)
    requires forall i :: 0 <= i < |ps| ==> Decodable(ps[i])
    requires forall k :: 0 <= k < |incoming| ==> incoming[k] != []
    requires Flatten(incoming) == Stream(ps)
    ensures DispatchBodies(FeedAll([], Received(incoming)).0, handlers, diagCallback, parse)
         == DispatchBodies(ps, handlers, diagCallback, parse)
  {
    assert Received(incoming) == incoming;
    ChunkingInvariance(ps, incoming);
  }

  // ---------------------------------------------------------------------
  // The client

  /** The ids carried by the requests in a trace, in the order they were written. */
  function SentIds(trace: seq<Action>): seq<int>
    decreases |trace|
  {
    if trace == [] then []
    else
      SentIds(trace[..|trace| - 1]) + WireId(trace[|trace| - 1])
  }

  predicate Increasing(s: seq<int>) {
    forall i, j :: 0 <= i < j < |s| ==> s[i] < s[j]
  }

  /** The ids on the wire are strictly increasing and all below `next`. */
  predicate IdsBelow(trace: seq<Action>, next: int) {
    Increasing(SentIds(trace)) && forall k :: 0 <= k < |SentIds(trace)| ==> SentIds(trace)[k] < next
  }

  /** The id a message carries on the wire, if it is a request. */
  function WireId(a: Action): seq<int> {
    if a.Wrote? && Contains(a.msg, "id") && Member(a.msg, "id").JNum? then [Member(a.msg, "id").n] else []
  }

  lemma {:induction false} SentIdsAppend(trace: seq<Action>, a: Action)
    ensures SentIds(trace + [a]) == SentIds(trace) + WireId(a)
  {
    assert (trace + [a])[..|trace|] == trace;
  }

  /** Writing a request under `next` keeps the ids increasing, below `next + 1`. */
  lemma {:induction false} IdsBelowRequest(trace: seq<Action>, next: int, name: string, params: Json, frame: string)
    requires IdsBelow(trace, next)
    ensures IdsBelow(trace + [Wrote(RequestMessage(next, name, params), frame)], next + 1)
  {
    var a := Wrote(RequestMessage(next, name, params), frame);
    SentIdsAppend(trace, a);
    assert WireId(a) == [next];
  }

  /** An action that writes no request id keeps the bound. */
  lemma {:induction false} IdsBelowQuiet(trace: seq<Action>, next: int, a: Action)
    requires IdsBelow(trace, next) && WireId(a) == []
    ensures IdsBelow(trace + [a], next)
  {
    SentIdsAppend(trace, a);
    assert SentIds(trace) + [] == SentIds(trace);
  }

  /** Callbacks add no request ids to a trace. */
  lemma {:induction false} IdsBelowCallbacks(trace: seq<Action>, acts: seq<Action>, next: int)
    requires IdsBelow(trace, next)
    requires forall k :: 0 <= k < |acts| ==> IsCallback(acts[k])
    ensures IdsBelow(trace + acts, next)
    decreases |acts|
  {
    if acts == [] {
      assert trace + acts == trace;
    } else {
      var init := acts[..|acts| - 1];
      IdsBelowCallbacks(trace, init, next);
      IdsBelowQuiet(trace + init, next, acts[|acts| - 1]);
      assert trace + init + [acts[|acts| - 1]] == trace + acts;
    }
  }

  /**
   * Every id in the map was handed out before `nextId`, and the ids on
   * the wire are strictly increasing and below `nextId`.
   */
  ghost predicate Consistent(nextId: int, handlers: map<int, Callback>, trace: seq<Action>) {
    1 <= nextId && (forall id :: id in handlers ==> id < nextId) && IdsBelow(trace, nextId)
  }

  /** Handling a message only removes handlers and only calls back, so it keeps the client consistent. */
  lemma DispatchKeepsConsistent(msg: Json, nextId: int, handlers: map<int, Callback>,
                                diagCallback: Option<Callback>, trace: seq<Action>)
    requires Consistent(nextId, handlers, trace)
    ensures var r := Dispatch(msg, handlers, diagCallback);
      Consistent(nextId, r.0, trace + r.1)
  {
    var r := Dispatch(msg, handlers, diagCallback);
    IdsBelowCallbacks(trace, r.1, nextId);
  }

  class LspClient {
    const dump: Json -> string
    const parse: string -> Option<Json>
    var running: bool
    var nextId: int
    var handlers: map<int, Callback>
    var diagCallback: Option<Callback>
    ghost var trace: seq<Action>

    ghost predicate Valid()
      reads this
    {
      Consistent(nextId, handlers, trace)
    }

    constructor (dump: Json -> string, parse: string -> Option<Json>)
      ensures this.dump == dump && this.parse == parse
      ensures !running && nextId == 1 && handlers == map[] && diagCallback == None && trace == []
      ensures Valid()
    {
      this.dump := dump;
      this.parse := parse;
      running := false;
      nextId := 1;
      handlers := map[];
      diagCallback := None;
      trace := [];
    }

    /** `launched`: the pipes and the server process were created. */
    method Start(launched: bool) returns (ok: bool)
      modifies this
      ensures ok == launched
      ensures running == (old(running) || launched)
      ensures nextId == old(nextId) && handlers == old(handlers) && diagCallback == old(diagCallback)
      ensures trace == old(trace)
    {
      if !launched {
        return false;
      }
      running := true;
      return true;
    }

    /** Stopping clears the running flag only: pending handlers stay in the map. */
    method Stop()
      modifies this
      ensures !running
      ensures nextId == old(nextId) && handlers == old(handlers) && diagCallback == old(diagCallback)
      ensures trace == old(trace)
    {
      running := false;
    }

    method SetDiagnosticsCallback(cb: Option<Callback>)
      modifies this
      ensures diagCallback == cb
      ensures running == old(running) && nextId == old(nextId) && handlers == old(handlers) && trace == old(trace)
    {
      diagCallback := cb;
    }

    /** Frames the dumped message and writes it to the server's stdin. */
    method WriteToPipe(ghost msg: Json, data: string)
      requires data == dump(msg)
      modifies this`trace
      ensures trace == old(trace) + [Wrote(msg, Encode(data))]
    {
      var frame := "Content-Length: " + NatToString(|data|) + "\r\n\r\n" + data;
      trace := trace + [Wrote(msg, frame)];
    }

    /** A request under the next id; no handler is installed. */
    method SendRequest(name: string, params: Json)
      requires Valid()
      modifies this
      ensures Valid()
      ensures nextId == old(nextId) + 1
      ensures running == old(running) && handlers == old(handlers) && diagCallback == old(diagCallback)
      ensures var req := RequestMessage(old(nextId), name, params);
        trace == old(trace) + [Wrote(req, Encode(dump(req)))]
    {
      var req := RequestMessage(nextId, name, params);
      IdsBelowRequest(trace, nextId, name, params, Encode(dump(req)));
      nextId := nextId + 1;
      WriteToPipe(req, dump(req));
    }

    method SendNotification(name: string, params: Json)
      requires Valid()
      modifies this
      ensures Valid()
      ensures running == old(running) && nextId == old(nextId) && handlers == old(handlers)
      ensures diagCallback == old(diagCallback)
      ensures var n := NotificationMessage(name, params);
        trace == old(trace) + [Wrote(n, Encode(dump(n)))]
    {
      var n := NotificationMessage(name, params);
      IdsBelowQuiet(trace, nextId, Wrote(n, Encode(dump(n))));
      WriteToPipe(n, dump(n));
    }

    /** `processId` stands for GetCurrentProcessId(). */
    method Initialize(rootPath: string, processId: int)
      requires Valid()
      modifies this
      ensures Valid()
      ensures nextId == old(nextId) + 1
      ensures running == old(running) && handlers == old(handlers) && diagCallback == old(diagCallback)
      ensures var req := RequestMessage(old(nextId), "initialize", InitializeParams(processId, rootPath));
        var n := NotificationMessage("initialized", JObj(map[]));
        trace == old(trace) + [Wrote(req, Encode(dump(req))), Wrote(n, Encode(dump(n)))]
    {
      SendRequest("initialize", InitializeParams(processId, rootPath));
      SendNotification("initialized", JObj(map[]));
    }

    method DidOpen(path: string, text: string)
      requires Valid()
      modifies this
      ensures Valid()
      ensures running == old(running) && nextId == old(nextId) && handlers == old(handlers)
      ensures diagCallback == old(diagCallback)
      ensures var n := NotificationMessage("textDocument/didOpen", DidOpenParams(path, text));
        trace == old(trace) + [Wrote(n, Encode(dump(n)))]
    {
      SendNotification("textDocument/didOpen", DidOpenParams(path, text));
    }

    method DidChange(path: string, text: string)
      requires Valid()
      modifies this
      ensures Valid()
      ensures running == old(running) && nextId == old(nextId) && handlers == old(handlers)
      ensures diagCallback == old(diagCallback)
      ensures var n := NotificationMessage("textDocument/didChange", DidChangeParams(path, text));
        trace == old(trace) + [Wrote(n, Encode(dump(n)))]
    {
      SendNotification("textDocument/didChange", DidChangeParams(path, text));
    }

    /**
     * Takes the next id, installs the completion handler `cb` under it and
     * only then writes the request.
     */
    method RequestCompletion(path: string, line: int, character: int, cb: Callback)
      requires Valid()
      modifies this
      ensures Valid()
      ensures nextId == old(nextId) + 1
      ensures handlers == old(handlers)[old(nextId) := cb]
      ensures running == old(running) && diagCallback == old(diagCallback)
      ensures var req := RequestMessage(old(nextId), "textDocument/completion", CompletionParams(path, line, character));
        trace == old(trace) + [Registered(old(nextId), cb), Wrote(req, Encode(dump(req)))]
    {
      var id := nextId;
      nextId := nextId + 1;
      handlers := handlers[id := cb];
      IdsBelowQuiet(trace, id, Registered(id, cb));
      trace := trace + [Registered(id, cb)];
      var req := RequestMessage(id, "textDocument/completion", CompletionParams(path, line, character));
      IdsBelowRequest(trace, id, "textDocument/completion", CompletionParams(path, line, character), Encode(dump(req)));
      WriteToPipe(req, dump(req));
    }

    /** One parsed message, as the read thread handles it. */
    method HandleMessage(msg: Json)
      requires Valid()
      modifies this`handlers, this`trace
      ensures Valid()
      ensures var r := Dispatch(msg, old(handlers), diagCallback);
        handlers == r.0 && trace == old(trace) + r.1
    {
      ghost var r := Dispatch(msg, handlers, diagCallback);
      ghost var handlers0, trace0 := handlers, trace;
      if IsPublishDiagnostics(msg) {
        DiagnosticsCheckedFirst(msg, handlers, diagCallback);
        HandlePublish(msg);
      } else if HasResponseId(msg) {
        assert r == Respond(msg, handlers);
        HandleResponse(msg);
      } else {
        assert r == (handlers, []);
        assert trace == trace + [];
      }
      assert handlers == r.0 && trace == trace0 + r.1;
      DispatchKeepsConsistent(msg, nextId, handlers0, diagCallback, trace0);
    }

    /** publishDiagnostics: the diagnostics callback, if set, gets the uri and the converted list. */
    method HandlePublish(msg: Json)
      modifies this`trace
      ensures trace == old(trace) + PublishActions(msg, diagCallback)
    {
      if Contains(msg, "params") && Member(msg, "params").JObj? {
        var params := Member(msg, "params");
        if Contains(params, "uri") && Member(params, "uri").JStr? {
          var uri := Member(params, "uri").s;
          var diags := CollectDiagnostics(DiagnosticList(params));
          if diags.Some? && diagCallback.Some? {
            trace := trace + [Diagnosed(diagCallback.value, uri, diags.value)];
            return;
          }
        }
      }
      assert trace == trace + [];
    }

    /** The locked lookup-and-erase of the handler, then the call when there is a result. */
    method HandleResponse(msg: Json)
      requires HasResponseId(msg)
      modifies this`handlers, this`trace
      ensures var r := Respond(msg, old(handlers));
        handlers == r.0 && trace == old(trace) + r.1
    {
      var id := ResponseId(Member(msg, "id"));
      if id != -1 && id in handlers {
        var cb := handlers[id];
        handlers := handlers - {id};
        if Contains(msg, "result") {
          var items := ConvertCompletion(Member(msg, "result"));
          if items.Some? {
            trace := trace + [Completed(cb, items.value)];
            return;
          }
        }
      }
      assert trace == trace + [];
    }

    /** One frame body: a body that does not parse is dropped. */
    method HandleBody(body: string)
      requires Valid()
      modifies this`handlers, this`trace
      ensures Valid()
      ensures var r := DispatchBody(body, old(handlers), diagCallback, parse);
        handlers == r.0 && trace == old(trace) + r.1
    {
      var msg := parse(body);
      if msg.Some? {
        HandleMessage(msg.value);
      } else {
        assert trace == trace + [];
      }
    }

    /** The bodies one read produced, in order. */
    method HandleBodies(bodies: seq<string>)
      requires Valid()
      modifies this`handlers, this`trace
      ensures Valid()
      ensures var r := DispatchBodies(bodies, old(handlers), diagCallback, parse);
        handlers == r.0 && trace == old(trace) + r.1
    {
      var k := 0;
      while k < |bodies|
        invariant k <= |bodies| && Valid()
        invariant var r := DispatchBodies(bodies[..k], old(handlers), diagCallback, parse);
          handlers == r.0 && trace == old(trace) + r.1
      {
        assert bodies[..k + 1][..k] == bodies[..k];
        ghost var before := trace;
        HandleBody(bodies[k]);
        AppendAssoc(old(trace), DispatchBodies(bodies[..k], old(handlers), diagCallback, parse).1,
                    trace[|before|..]);
        k := k + 1;
      }
      assert bodies[..k] == bodies;
    }

    /** One read: the decoder cuts the frames out and each body is dispatched. */
    method HandleRead(decoder: FrameDecoder, chunk: string) returns (ghost bodies: seq<string>)
      requires Valid()
      modifies this`handlers, this`trace, decoder
      ensures Valid()
      ensures (bodies, decoder.leftover) == Drain(old(decoder.leftover) + chunk)
      ensures var r := DispatchBodies(bodies, old(handlers), diagCallback, parse);
        handlers == r.0 && trace == old(trace) + r.1
    {
      var cut := decoder.Feed(chunk);
      bodies := cut;
      HandleBodies(cut);
    }

    /**
     * The read thread: while running, each read is fed to the carry-over
     * buffer and every complete body is dispatched; an empty read ends the
     * loop.  `incoming` stands for what ReadFile returns, one read each.
     */
    method ReadLoop(incoming: seq<string>)
      requires Valid()
      modifies this
      ensures Valid()
      ensures running == old(running) && nextId == old(nextId) && diagCallback == old(diagCallback)
      ensures var r := if old(running)
          then DispatchBodies(FeedAll([], Received(incoming)).0, old(handlers), diagCallback, parse)
          else (old(handlers), []);
        handlers == r.0 && trace == old(trace) + r.1
    {
      var decoder := new FrameDecoder();
      var i := 0;
      ghost var done: seq<string> := [];
      while running && i < |incoming| && incoming[i] != []
        invariant i <= |incoming| && Valid() && fresh(decoder)
        invariant running == old(running) && nextId == old(nextId) && diagCallback == old(diagCallback)
        invariant i > 0 ==> running
        invariant i <= |Received(incoming)|
        invariant (done, decoder.leftover) == FeedAll([], incoming[..i])
        invariant handlers == DispatchBodies(done, old(handlers), diagCallback, parse).0
        invariant trace == old(trace) + DispatchBodies(done, old(handlers), diagCallback, parse).1
        decreases |incoming| - i
      {
        ReceivedGoesOn(incoming, i);
        ghost var before := trace;
        ghost var carried := decoder.leftover;
        ghost var bodies := HandleRead(decoder, incoming[i]);
        FeedNext(incoming, i, done, carried, bodies, decoder.leftover);
        ReadStep(done, bodies, old(handlers), diagCallback, parse, old(trace), before, trace);
        done := done + bodies;
        i := i + 1;
      }
      if running {
        assert Received(incoming) == incoming[..i];
      } else {
        assert i == 0 && incoming[..0] == [];
        assert trace == old(trace) + [];
      }
    }
  }

  /** The bookkeeping of one read: the bodies it yields extend what was dispatched before. */
  lemma {:induction false} ReadStep(done: seq<string>, bodies: seq<string>, handlers: map<int, Callback>,
                                    diagCallback: Option<Callback>, parse: string -> Option<Json>,
                                    t0: seq<Action>, before: seq<Action>, after: seq<Action>)
    requires before == t0 + DispatchBodies(done, handlers, diagCallback, parse).1
    requires after == before + DispatchBodies(bodies, DispatchBodies(done, handlers, diagCallback, parse).0,
                                               diagCallback, parse).1
    ensures after == t0 + DispatchBodies(done + bodies, handlers, diagCallback, parse).1
    ensures DispatchBodies(done + bodies, handlers, diagCallback, parse).0
         == DispatchBodies(bodies, DispatchBodies(done, handlers, diagCallback, parse).0, diagCallback, parse).0
  {
    DispatchBodiesAppend(done, bodies, handlers, diagCallback, parse);
    var ra := DispatchBodies(done, handlers, diagCallback, parse);
    var rb := DispatchBodies(bodies, ra.0, diagCallback, parse);
    AppendAssoc(t0, ra.1, rb.1);
  }
}
