/** A native MCP session of addon_tools.py with any Device Builder: the requests it sends, in order, and
    what it makes of the answers. */
module NativeSession {
  import opened Wrappers
  import opened JsonValues
  import opened Text

  datatype Request = Request(verb: string, params: Json)

  /** What one HTTP exchange comes to; the payload is None when the body is no JSON. */
  datatype Response =
    | TimedOut
    | Lost
    | Response(status: int, declaresJson: bool, oversized: bool, payload: Option<Json>)

  datatype Failure =
    | InvalidArgs | NativeUnavailable | HttpError(status: int) | ProtocolError | TooLarge | RpcError(error: Json)
    | ToolUnavailable | Timeout | ConnectionFailed

  datatype Answer = Good(result: Json) | Bad(failure: Failure)

  datatype Outcome =
    | Failed(failure: Failure)
    | Listed(tools: seq<Json>, serverInfo: Json, protocol: string)
    | Called(success: bool, result: Json, serverInfo: Json, protocol: string)

  const PROTOCOL_VERSIONS := {"2025-06-18", "2025-11-25"}
  const MAX_PAGES := 20
  const MAX_RESPONSE_SIZE := 2 * 1024 * 1024

  const INITIALIZE := Request("initialize", Obj(map[
    "protocolVersion" := Str("2025-11-25"),
    "capabilities" := Obj(map[]),
    "clientInfo" := Obj(map["name" := Str("esphome-mcp"), "version" := Str("1")])]))
  const INITIALIZED := Request("notifications/initialized", Obj(map[]))

  function ListTools(cursor: Option<string>): Request {
    Request("tools/list", Obj(if cursor.None? then map[] else map["cursor" := Str(cursor.value)]))
  }

  function CallTool(tool: string, arguments: Json): Request {
    Request("tools/call", Obj(map["name" := Str(tool), "arguments" := arguments]))
  }

  /** A JSON-RPC 2.0 answer to a method's request: `id` is the method's name, and a notification has none. */
  predicate IsEnvelope(verb: string, j: Json) {
    && j.Obj? && Field(j, "jsonrpc") == Str("2.0")
    && Field(j, "id") == (if verb == "notifications/initialized" then Null else Str(verb))
    && ("result" in j.fields <==> "error" !in j.fields)
  }

  predicate FromWire(f: Failure) { f != InvalidArgs && f != ToolUnavailable }

  /** _native_mcp_request, from the response on. */
  function Interpret(verb: string, r: Response): (a: Answer)
    ensures a.Bad? ==> FromWire(a.failure)
  {
    match r
    case TimedOut => Bad(Timeout)
    case Lost => Bad(ConnectionFailed)
    case Response(status, declaresJson, oversized, payload) =>
      if (status == 404 || status == 405) && verb == "initialize" then Bad(NativeUnavailable)
      else if verb == "notifications/initialized" && status == 202 then Good(Obj(map[]))
      else if status != 200 then Bad(HttpError(status))
      else if !declaresJson then Bad(ProtocolError)
      else if oversized then Bad(TooLarge)
      else if payload.None? || !IsEnvelope(verb, payload.value) then Bad(ProtocolError)
      else if "error" in payload.value.fields then Bad(RpcError(payload.value.fields["error"]))
      else if !payload.value.fields["result"].Obj? then Bad(ProtocolError)
      else Good(payload.value.fields["result"])
  }

  predicate GoodInitialization(j: Json) {
    && j.Obj? && Field(j, "protocolVersion").Str? && Field(j, "protocolVersion").s in PROTOCOL_VERSIONS
    && Field(j, "capabilities").Obj? && Field(Field(j, "capabilities"), "tools").Obj?
    && Field(j, "serverInfo").Obj?
  }

  predicate IsTool(j: Json) { j.Obj? && Field(j, "name").Str? && Field(j, "inputSchema").Obj? }

  function ToolName(j: Json): string
    requires IsTool(j)
  {
    Field(j, "name").s
  }

  predicate IsPage(j: Json) {
    j.Obj? && Field(j, "tools").Arr? && forall k :: 0 <= k < |Field(j, "tools").items| ==>
        IsTool(Field(j, "tools").items[k])
  }

  predicate IsCallResult(j: Json) {
    && j.Obj? && Field(j, "content").Arr?
    && (("isError" in j.fields) ==> Field(j, "isError").Bool?)
    && forall k :: 0 <= k < |Field(j, "content").items| ==> IsContent(Field(j, "content").items[k])
  }

  predicate IsContent(j: Json) {
    j.Obj? && Field(j, "type").Str? && (Field(j, "type").s == "text" ==> Field(j, "text").Str?)
  }

  // ---- a trace and what the server said -----------------------------------------------------------------------

  /** The server: any function of the requests so far. */
  type Server = seq<Request> -> Response

  /** What the k-th request was answered. */
  function AnswerTo(server: Server, trace: seq<Request>, k: int): (a: Answer)
    requires 0 <= k < |trace|
    ensures a.Bad? ==> FromWire(a.failure)
  {
    Interpret(trace[k].verb, server(trace[..k + 1]))
  }

  /** The page a listing request brought. */
  function PageAt(server: Server, trace: seq<Request>, k: int): Option<Json>
    requires 0 <= k < |trace|
    ensures PageAt(server, trace, k).Some? ==> IsPage(PageAt(server, trace, k).value)
  {
    var a := AnswerTo(server, trace, k);
    if trace[k].verb == "tools/list" && a.Good? && IsPage(a.result) then Some(a.result) else None
  }

  /** All tools the listing requests of a trace brought, in order. */
  function Catalog(server: Server, trace: seq<Request>): (tools: seq<Json>)
    ensures forall k :: 0 <= k < |tools| ==> IsTool(tools[k])
  {
    if trace == [] then []
    else
      var page := PageAt(server, trace, |trace| - 1);
      Catalog(server, trace[..|trace| - 1]) + if page.Some? then Field(page.value, "tools").items else []
  }

  /** The size of all pages of a trace. */
  function CatalogSize(server: Server, size: seq<Json> -> nat, trace: seq<Request>): nat {
    if trace == [] then 0
    else
      var page := PageAt(server, trace, |trace| - 1);
      CatalogSize(server, size, trace[..|trace| - 1]) + if page.Some? then size(Field(page.value, "tools").items) else 0
  }

  /** The tools of that name, or all. */
  function Selected(tools: seq<Json>, tool: Option<string>): seq<Json>
    requires forall k :: 0 <= k < |tools| ==> IsTool(tools[k])
  {
    if tools == [] then []
    else
      var last := tools[|tools| - 1];
      Selected(tools[..|tools| - 1], tool) + if tool.None? || ToolName(last) == tool.value then [last] else []
  }

  lemma {:induction false} SelectedSome(tools: seq<Json>, tool: string)
    requires forall k :: 0 <= k < |tools| ==> IsTool(tools[k])
    ensures Selected(tools, Some(tool)) != [] <==> exists k :: 0 <= k < |tools| && ToolName(tools[k]) == tool
  {
    if tools != [] {
      SelectedSome(tools[..|tools| - 1], tool);
      assert forall k :: 0 <= k < |tools| - 1 ==> tools[..|tools| - 1][k] == tools[k];
    }
  }

  lemma SelectedOne(one: Json, tool: Option<string>)
    requires IsTool(one)
    ensures Selected([one], tool) == if tool == None || tool == Some(ToolName(one)) then [one] else []
  {
    assert [one][..0] == [];
  }

  /** Selecting goes tool by tool, in order. */
  lemma {:induction false} SelectedConcat(a: seq<Json>, b: seq<Json>, tool: Option<string>)
    requires (forall k :: 0 <= k < |a| ==> IsTool(a[k])) && forall k :: 0 <= k < |b| ==> IsTool(b[k])
    ensures Selected(a + b, tool) == Selected(a, tool) + Selected(b, tool)
  {
    hide IsTool, ToolName;
    if b == [] {
      assert a + b == a;
    } else {
      SelectedConcat(a, b[..|b| - 1], tool);
      assert (a + b)[..|a + b| - 1] == a + b[..|b| - 1];
    }
  }

  lemma {:induction false} SelectedAll(tools: seq<Json>)
    requires forall k :: 0 <= k < |tools| ==> IsTool(tools[k])
    ensures Selected(tools, None) == tools
  {
    if tools != [] { SelectedAll(tools[..|tools| - 1]); }
  }

  // ---- the shape of every session -------------------------------------------------------------------------------

  /** The requests of a listing: the handshake, answered well, then pages each asked for with the cursor the
      page before it named, no cursor twice. */
  ghost predicate Listing(server: Server, trace: seq<Request>) {
    && (|trace| > 0 ==> trace[0] == INITIALIZE)
    && (|trace| > 1 ==>
        trace[1] == INITIALIZED && AnswerTo(server, trace, 0).Good?
        && GoodInitialization(AnswerTo(server, trace, 0).result))
    && (|trace| > 2 ==> AnswerTo(server, trace, 1).Good? && trace[2] == ListTools(None))
    && (forall k :: 2 < k < |trace| ==> AskedNext(server, trace, k))
    && (forall j, k :: 2 <= j < k < |trace| ==> trace[j] != trace[k])
    && |trace| <= 22
  }

  ghost predicate AskedNext(server: Server, trace: seq<Request>, k: int)
    requires 2 < k < |trace|
  {
    var before := PageAt(server, trace, k - 1);
    before.Some? && var c := Field(before.value, "nextCursor"); c.Str? && c.s != "" && trace[k] == ListTools(Some(c.s))
  }

  /** A listing whose last page names no further cursor. */
  ghost predicate Complete(server: Server, trace: seq<Request>) {
    && |trace| > 2 && Listing(server, trace)
    && PageAt(server, trace, |trace| - 1).Some?
    && Field(PageAt(server, trace, |trace| - 1).value, "nextCursor").Null?
  }

  /** A call comes last, once the listing is complete, for a tool it brought. */
  ghost predicate CallIsDue(server: Server, trace: seq<Request>, tool: string) {
    && Complete(server, trace)
    && exists k :: 0 <= k < |Catalog(server, trace)| && ToolName(Catalog(server, trace)[k]) == tool
  }

  /** Every session sends a listing, or a complete one and then its one call. */
  ghost predicate SessionShape(server: Server, trace: seq<Request>, call: bool, tool: Option<string>, arguments: Json) {
    || Listing(server, trace)
    || (call && tool.Some? && trace != []
        && trace[|trace| - 1] == CallTool(tool.value, arguments) && CallIsDue(server, trace[..|trace| - 1], tool.value))
  }

  /** Why a session that got under way fails: its last answer is a failure or not what the request asks for, the
      catalog grows too large or does not end, or the tool is not in it. */
  ghost predicate Explains(server: Server, size: seq<Json> -> nat, trace: seq<Request>, tool: Option<string>,
          f: Failure) {
    trace != [] &&
    var verb, a := trace[|trace| - 1].verb, AnswerTo(server, trace, |trace| - 1);
    match a
    case Bad(failure) => f == failure
    case Good(result) =>
      || (f == ProtocolError && verb == "initialize" && !GoodInitialization(result))
      || (f == ProtocolError && verb == "tools/list"
          && (!IsPage(result) || BadCursor(trace, result) || |trace| == 22))
      || (f == TooLarge && verb == "tools/list" && CatalogSize(server, size, trace) > 2097152)
      || (f == ToolUnavailable && Complete(server, trace) && tool.Some? && Selected(Catalog(server, trace), tool) == [])
      || (f == ProtocolError && verb == "tools/call" && !IsCallResult(result))
  }

  /** A cursor that is no text, is empty, or was asked for before. */
  ghost predicate BadCursor(trace: seq<Request>, page: Json)
    requires page.Obj?
  {
    var cursor := Field(page, "nextCursor");
    !cursor.Null? && (!cursor.Str? || cursor.s == "" || WasAsked(trace, cursor.s))
  }

  /** No session sends more than twenty pages and one call, repeats a page, or goes on after a call. */
  lemma OneCallAtMost(server: Server, trace: seq<Request>, call: bool, tool: Option<string>, arguments: Json)
    requires SessionShape(server, trace, call, tool, arguments)
    ensures |trace| <= 23
    ensures forall k :: 0 <= k < |trace| && trace[k].verb == "tools/call" ==>
              call && k == |trace| - 1 && tool.Some? && trace[k] == CallTool(tool.value, arguments)
    ensures forall j, k :: 0 <= j < k < |trace| && trace[j].verb == "tools/list" ==> trace[j] != trace[k]
  {
    hide PageAt, AnswerTo, Catalog, GoodInitialization;
    if Listing(server, trace) {
      ListingVerbs(server, trace);
    } else {
      var front := trace[..|trace| - 1];
      ListingVerbs(server, front);
      assert forall k :: 0 <= k < |front| ==> front[k] == trace[k];
    }
  }

  lemma ListingVerbs(server: Server, trace: seq<Request>)
    requires Listing(server, trace)
    ensures forall k :: 0 <= k < |trace| ==>
              trace[k].verb == if k == 0 then "initialize" else if k == 1 then "notifications/initialized"
                  else "tools/list"
  {
    forall k | 2 < k < |trace| ensures trace[k].verb == "tools/list" {
      assert AskedNext(server, trace, k);
    }
  }

  // ---- proofs about traces --------------------------------------------------------------------------------------

  /** Later requests leave earlier answers alone. */
  lemma EarlierAnswer(server: Server, trace: seq<Request>, r: Request, k: int)
    requires 0 <= k < |trace|
    ensures AnswerTo(server, trace + [r], k) == AnswerTo(server, trace, k)
    ensures PageAt(server, trace + [r], k) == PageAt(server, trace, k)
  {
    assert (trace + [r])[..k + 1] == trace[..k + 1];
  }

  lemma SameStart(server: Server, a: seq<Request>, b: seq<Request>)
    requires |a| > 0 && |b| > 0 && a[..1] == b[..1]
    ensures AnswerTo(server, a, 0) == AnswerTo(server, b, 0)
  {
    assert a[0] == a[..1][0] == b[..1][0] == b[0];
  }

  lemma CallIsNoPage(server: Server, trace: seq<Request>)
    requires trace != [] && trace[|trace| - 1].verb == "tools/call"
    ensures PageAt(server, trace, |trace| - 1) == None
  {
  }

  lemma CatalogGrows(server: Server, size: seq<Json> -> nat, trace: seq<Request>, r: Request)
    ensures CatalogSize(server, size, trace + [r]) ==
              var page := PageAt(server, trace + [r], |trace|);
              CatalogSize(server, size, trace) + if page.Some? then size(Field(page.value, "tools").items) else 0
    ensures Catalog(server, trace + [r]) ==
              var page := PageAt(server, trace + [r], |trace|);
              Catalog(server, trace) + if page.Some? then Field(page.value, "tools").items else []
  {
    hide PageAt, AnswerTo, IsPage;
    assert (trace + [r])[..|trace|] == trace;
  }

  lemma CursorsDiffer(c: string, d: Option<string>)
    ensures ListTools(Some(c)) == ListTools(d) ==> d == Some(c)
  {
    assert "cursor" in ListTools(Some(c)).params.fields;
    assert ListTools(Some(c)).params.fields["cursor"] == Str(c);
  }

  /** One more page, asked for with a cursor the last page named and no request has used. */
  lemma ListingGrows(server: Server, trace: seq<Request>, next: Option<string>)
    requires Listing(server, trace) && 2 <= |trace| < 2 + MAX_PAGES
    requires |trace| == 2 ==> next == None && AnswerTo(server, trace, 1).Good?
    requires |trace| > 2 ==> Names(server, trace, next)
    requires forall k :: 2 <= k < |trace| ==> trace[k] != ListTools(next)
    ensures Listing(server, trace + [ListTools(next)])
  {
    hide PageAt, AnswerTo, GoodInitialization;
    var after := trace + [ListTools(next)];
    forall k | 0 <= k < |trace|
      ensures AnswerTo(server, after, k) == AnswerTo(server, trace, k)
              && PageAt(server, after, k) == PageAt(server, trace, k)
    {
      EarlierAnswer(server, trace, ListTools(next), k);
    }
    forall k | 2 < k < |after| ensures AskedNext(server, after, k) {
      if k < |trace| { assert AskedNext(server, trace, k); }
    }
  }

  // ---- the session ---------------------------------------------------------------------------------------------

  class Session {
    var trace: seq<Request>
    const server: Server
    /** The encoded length of a page's tools. */
    const size: seq<Json> -> nat

    constructor (server: Server, size: seq<Json> -> nat)
      ensures trace == [] && this.server == server && this.size == size
    {
      this.server, this.size, trace := server, size, [];
    }

    method Send(r: Request) returns (a: Answer)
      modifies this
      ensures trace == old(trace) + [r] && a == AnswerTo(server, trace, |trace| - 1)
    {
      trace := trace + [r];
      assert trace[..|trace|] == trace;
      a := Interpret(r.verb, server(trace));
    }

    /** One page. */
    method OnePage(next: Option<string>) returns (failure: Option<Failure>, page: Json)
      requires Listing(server, trace) && 2 <= |trace| < 2 + MAX_PAGES
      requires |trace| == 2 ==> next == None && AnswerTo(server, trace, 1).Good?
      requires |trace| > 2 ==> Names(server, trace, next)
      requires forall k :: 2 <= k < |trace| ==> trace[k] != ListTools(next)
      modifies this
      ensures trace == old(trace) + [ListTools(next)] && Listing(server, trace)
      ensures failure.None? ==>
                && IsPage(page) && PageAt(server, trace, |trace| - 1) == Some(page)
                    && AnswerTo(server, trace, |trace| - 1) == Good(page)
                && Catalog(server, trace) == Catalog(server, old(trace)) + Field(page, "tools").items
                && CatalogSize(server, size, trace) == CatalogSize(server, size, old(trace))
                    + size(Field(page, "tools").items)
      ensures failure.Some? ==> FromWire(failure.value) && Explains(server, size, trace, None, failure.value)
    {
      hide Listing, PageAt, AnswerTo, Catalog, CatalogSize, GoodInitialization, Interpret, IsTool;
      ListingGrows(server, trace, next);
      CatalogGrows(server, size, trace, ListTools(next));
      var answer := Send(ListTools(next));
      if answer.Bad? { return Some(answer.failure), Null; }
      page := answer.result;
      if !IsPage(page) { return Some(ProtocolError), Null; }
      LastPage(server, trace, page);
      failure := None;
    }

    /** The pages, until one names no further cursor. */
    method Pages() returns (failure: Option<Failure>, tools: seq<Json>)
      requires Listing(server, trace) && |trace| == 2 && AnswerTo(server, trace, 1).Good?
      requires Catalog(server, trace) == [] && CatalogSize(server, size, trace) == 0
      modifies this
      ensures Listing(server, trace) && |trace| > 2 && trace[..2] == old(trace)
      ensures forall k :: 0 <= k < |tools| ==> IsTool(tools[k])
      ensures failure.None? ==> tools == Catalog(server, trace) && Complete(server, trace)
      ensures failure.None? ==> CatalogSize(server, size, trace) <= 2097152
      ensures failure.Some? ==> FromWire(failure.value) && Explains(server, size, trace, None, failure.value)
    {
      hide Listing, PageAt, AnswerTo, Catalog, CatalogSize, GoodInitialization, Interpret, IsTool, Explains, Complete,
        Names, Asked, ListTools;
      tools := [];
      var cursors: set<string>, next: Option<string>, total := {}, None, 0;
      NothingAsked(trace);
      for n := 0 to MAX_PAGES
        invariant |trace| == n + 2 && trace[..2] == old(trace)
        invariant Listing(server, trace) && tools == Catalog(server, trace) && total == CatalogSize(server, size, trace)
        invariant n == 0 ==> next == None && AnswerTo(server, trace, 1).Good?
        invariant (n > 0 ==> Names(server, trace, next)) && (next.Some? ==> next.value in cursors)
        invariant n == MAX_PAGES ==> Explains(server, size, trace, None, ProtocolError)
        invariant forall k :: 2 <= k < |trace| ==> trace[k] != ListTools(next)
        invariant Asked(trace, cursors, next)
      {
        ghost var before := trace;
        var broken, page := OnePage(next);
        if broken.Some? { return broken, []; }
        AfterPage(server, size, before, trace, page, cursors, next);
        var entries := Field(page, "tools").items;
        total := total + size(entries);
        if total > MAX_RESPONSE_SIZE { return Some(TooLarge), []; }
        tools := tools + entries;
        var cursor := Field(page, "nextCursor");
        if cursor.Null? { return None, tools; }
        if !cursor.Str? || cursor.s == "" || cursor.s in cursors { return Some(ProtocolError), []; }
        cursors := cursors + {cursor.s};
        next := Some(cursor.s);
      }
      return Some(ProtocolError), [];
    }

    /** The handshake. */
    method Handshake() returns (failure: Option<Failure>, initialized: Json)
      requires trace == []
      modifies this
      ensures Listing(server, trace) && |trace| <= 2 && Catalog(server, trace) == []
                && CatalogSize(server, size, trace) == 0
      ensures failure.None? ==> |trace| == 2 && AnswerTo(server, trace, 1).Good? && GoodInitialization(initialized)
                                && AnswerTo(server, trace, 0) == Good(initialized)
      ensures failure.Some? ==> FromWire(failure.value) && Explains(server, size, trace, None, failure.value)
    {
      hide Listing, Catalog, PageAt, AnswerTo, GoodInitialization, Interpret;
      Opening(server, size);
      var answer := Send(INITIALIZE);
      assert trace == [INITIALIZE];
      if answer.Bad? { return Some(answer.failure), Null; }
      initialized := answer.result;
      if !GoodInitialization(initialized) { return Some(ProtocolError), Null; }
      Greeted(server, size);
      answer := Send(INITIALIZED);
      assert trace == [INITIALIZE, INITIALIZED];
      EarlierAnswer(server, [INITIALIZE], INITIALIZED, 0);
      if answer.Bad? { return Some(answer.failure), Null; }
      failure := None;
    }

    /** One session: whatever the server does, the requests have the session shape; a listing reports the
        tools of all its pages; a call is sent once, last, and only for a tool the server listed. */
    method Run(tool: Option<string>, arguments: Option<Json>, call: bool, timeout: int) returns (out: Outcome)
      requires trace == []
      modifies this
      ensures SessionShape(server, trace, call, tool, Arguments(arguments))
      ensures out.Listed? ==>
                !call && Complete(server, trace) && out.tools == Selected(Catalog(server, trace), tool)
      ensures out.Called? ==>
                call && tool.Some? && trace != [] && trace[|trace| - 1] == CallTool(tool.value, Arguments(arguments))
                && IsCallResult(out.result)
                && AnswerTo(server, trace, |trace| - 1) == Good(out.result)
                && (out.success <==> Field(out.result, "isError") != Bool(true))
      ensures out.Listed? || out.Called? ==> CatalogSize(server, size, trace) <= 2097152
      ensures out.Listed? || out.Called? ==>
                && AnswerTo(server, trace, 0).Good?
                && var j := AnswerTo(server, trace, 0).result;
                   && j.Obj? && Field(j, "serverInfo") == out.serverInfo
                   && Field(j, "protocolVersion") == Str(out.protocol)
      ensures out.Failed? && out.failure != InvalidArgs ==> Explains(server, size, trace, tool, out.failure)
      ensures out.Listed? && tool.Some? ==> out.tools != []
      ensures out == Failed(InvalidArgs) <==> BadArguments(tool, arguments, call, timeout)
      ensures out == Failed(InvalidArgs) ==> trace == []
    {
      hide Listing, Complete, Catalog, CatalogSize, PageAt, AnswerTo, Interpret, Blank, IsContent, Selected;
      Opening(server, size);
      if timeout < 1 || timeout > 1800 { return Failed(InvalidArgs); }
      if call && (tool.None? || Blank(tool.value)) { return Failed(InvalidArgs); }
      if arguments.Some? && !arguments.value.Obj? { return Failed(InvalidArgs); }
      var failure, initialized := Handshake();
      if failure.Some? { return Failed(failure.value); }
      var tools;
      ghost var greeting := trace;
      failure, tools := Pages();
      if failure.Some? { return Failed(failure.value); }
      var selected := Selected(tools, tool);
      CompleteIsAnswered(server, trace);
      if tool.Some? && selected == [] { return Failed(ToolUnavailable); }
      assert greeting[..1] == trace[..2][..1] == trace[..1];
      SameStart(server, greeting, trace);
      var serverInfo, protocol := Field(initialized, "serverInfo"), Field(initialized, "protocolVersion").s;
      if !call { return Listed(selected, serverInfo, protocol); }
      SelectedSome(tools, tool.value);
      ghost var listing := trace;
      var answer := Send(CallTool(tool.value, Arguments(arguments)));
      SameStart(server, listing, trace);
      CatalogGrows(server, size, listing, CallTool(tool.value, Arguments(arguments)));
      CallIsNoPage(server, trace);
      if answer.Bad? { return Failed(answer.failure); }
      if !IsCallResult(answer.result) { return Failed(ProtocolError); }
      return Called(Field(answer.result, "isError") != Bool(true), answer.result, serverInfo, protocol);
    }
  }

  /** What is turned away before anything is sent. */
  predicate BadArguments(tool: Option<string>, arguments: Option<Json>, call: bool, timeout: int) {
    || timeout < 1 || timeout > 1800
    || (call && (tool.None? || Blank(tool.value)))
    || (arguments.Some? && !arguments.value.Obj?)
  }

  function Arguments(arguments: Option<Json>): Json { if arguments.Some? then arguments.value else Obj(map[]) }

  lemma Opening(server: Server, size: seq<Json> -> nat)
    ensures Listing(server, []) && Listing(server, [INITIALIZE]) && Catalog(server, [INITIALIZE]) == []
    ensures CatalogSize(server, size, [INITIALIZE]) == 0
  {
    assert [INITIALIZE][..0] == [];
    assert Catalog(server, [INITIALIZE][..0]) == [] && CatalogSize(server, size, [INITIALIZE][..0]) == 0;
  }

  lemma Greeted(server: Server, size: seq<Json> -> nat)
    ensures Catalog(server, [INITIALIZE, INITIALIZED]) == []
              && CatalogSize(server, size, [INITIALIZE, INITIALIZED]) == 0
    ensures var a := AnswerTo(server, [INITIALIZE], 0);
            a.Good? && GoodInitialization(a.result) ==> Listing(server, [INITIALIZE, INITIALIZED])
  {
    Opening(server, size);
    var trace := [INITIALIZE] + [INITIALIZED];
    assert trace == [INITIALIZE, INITIALIZED];
    EarlierAnswer(server, [INITIALIZE], INITIALIZED, 0);
    CatalogGrows(server, size, [INITIALIZE], INITIALIZED);
  }

  lemma CompleteIsAnswered(server: Server, trace: seq<Request>)
    requires Complete(server, trace)
    ensures trace != [] && AnswerTo(server, trace, |trace| - 1).Good?
  {
  }

  lemma LastPage(server: Server, trace: seq<Request>, page: Json)
    requires trace != [] && trace[|trace| - 1].verb == "tools/list" && IsPage(page)
    requires AnswerTo(server, trace, |trace| - 1) == Good(page)
    ensures PageAt(server, trace, |trace| - 1) == Some(page)
  {
  }

  /** The page before named this cursor. */
  ghost predicate Names(server: Server, trace: seq<Request>, next: Option<string>)
    requires trace != []
  {
    && next.Some? && next.value != "" && PageAt(server, trace, |trace| - 1).Some?
    && Field(PageAt(server, trace, |trace| - 1).value, "nextCursor") == Str(next.value)
  }

  /** Whether a page was asked for with a cursor. */
  ghost predicate WasAsked(trace: seq<Request>, cursor: string) {
    exists k :: 2 < k < |trace| && trace[k] == ListTools(Some(cursor))
  }

  /** A request for the first page, or with one of the cursors. */
  ghost predicate AsksOneOf(r: Request, cursors: set<string>) {
    r == ListTools(None) || exists c :: c in cursors && r == ListTools(Some(c))
  }

  /** The cursors are the ones asked for and the one to ask for next. */
  ghost predicate Asked(trace: seq<Request>, cursors: set<string>, next: Option<string>) {
    && (forall k :: 2 <= k < |trace| ==> AsksOneOf(trace[k], cursors))
    && (forall c :: c in cursors ==> next == Some(c) || WasAsked(trace, c))
    && (|trace| == 2 ==> next == None)
  }

  /** Once the page is asked for, every cursor has been. */
  lemma AskedBefore(before: seq<Request>, trace: seq<Request>, cursors: set<string>, next: Option<string>)
    requires |before| >= 2 && Asked(before, cursors, next) && trace == before + [ListTools(next)]
    ensures forall c :: c in cursors ==> WasAsked(trace, c)
  {
    hide ListTools, AsksOneOf;
    forall c | c in cursors ensures WasAsked(trace, c) {
      if next == Some(c) {
        assert trace[|before|] == ListTools(Some(c));
      } else {
        var k :| 2 < k < |before| && before[k] == ListTools(Some(c));
        assert trace[k] == before[k];
      }
    }
  }

  /** A cursor that is not among them has never been asked for. */
  lemma FreshCursor(before: seq<Request>, trace: seq<Request>, cursor: string, cursors: set<string>,
                    next: Option<string>)
    requires |before| >= 2 && Asked(before, cursors, next) && trace == before + [ListTools(next)]
    requires cursor !in cursors && (next.Some? ==> next.value in cursors)
    ensures forall k :: 2 <= k < |trace| ==> trace[k] != ListTools(Some(cursor))
    ensures Asked(trace, cursors + {cursor}, Some(cursor))
  {
    hide ListTools, AsksOneOf, WasAsked;
    AskedBefore(before, trace, cursors, next);
    forall k | 2 <= k < |trace|
      ensures trace[k] != ListTools(Some(cursor)) && AsksOneOf(trace[k], cursors + {cursor})
    {
      LastIsAmong(next, cursors);
      assert k < |before| ==> trace[k] == before[k];
      NotThisOne(trace[k], cursors, cursor);
    }
  }

  lemma LastIsAmong(next: Option<string>, cursors: set<string>)
    requires next.Some? ==> next.value in cursors
    ensures AsksOneOf(ListTools(next), cursors)
  {
    if next.Some? { assert ListTools(next) == ListTools(Some(next.value)); }
  }

  lemma NotThisOne(r: Request, cursors: set<string>, cursor: string)
    requires AsksOneOf(r, cursors) && cursor !in cursors
    ensures r != ListTools(Some(cursor)) && AsksOneOf(r, cursors + {cursor})
  {
    hide ListTools;
    if r == ListTools(None) {
      CursorsDiffer(cursor, None);
    } else {
      var c :| c in cursors && r == ListTools(Some(c));
      CursorsDiffer(cursor, Some(c));
      assert c in cursors + {cursor};
    }
  }

  lemma NothingAsked(trace: seq<Request>)
    requires |trace| == 2
    ensures Asked(trace, {}, None)
  {
  }

  /** What a good page means for the rest of the session. */
  lemma AfterPage(server: Server, size: seq<Json> -> nat, before: seq<Request>, trace: seq<Request>, page: Json,
                  cursors: set<string>, next: Option<string>)
    requires |before| >= 2 && trace == before + [ListTools(next)] && Listing(server, trace)
    requires Asked(before, cursors, next) && (next.Some? ==> next.value in cursors)
    requires IsPage(page) && PageAt(server, trace, |trace| - 1) == Some(page)
              && AnswerTo(server, trace, |trace| - 1) == Good(page)
    ensures CatalogSize(server, size, trace) > MAX_RESPONSE_SIZE ==> Explains(server, size, trace, None, TooLarge)
    ensures |trace| == 2 + MAX_PAGES ==> Explains(server, size, trace, None, ProtocolError)
    ensures var cursor := Field(page, "nextCursor");
            && (cursor.Null? ==> Complete(server, trace))
            && (!cursor.Null? && (!cursor.Str? || cursor.s == "" || cursor.s in cursors) ==>
                Explains(server, size, trace, None, ProtocolError))
            && (cursor.Str? && cursor.s != "" && cursor.s !in cursors ==>
                  && Names(server, trace, Some(cursor.s)) && Asked(trace, cursors + {cursor.s}, Some(cursor.s))
                  && forall k :: 2 <= k < |trace| ==> trace[k] != ListTools(Some(cursor.s)))
  {
    hide Listing, PageAt, AnswerTo, CatalogSize, Asked, Catalog;
    var cursor := Field(page, "nextCursor");
    AskedBefore(before, trace, cursors, next);
    if cursor.Str? && cursor.s !in cursors { FreshCursor(before, trace, cursor.s, cursors, next); }
  }
}
