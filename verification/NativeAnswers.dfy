/** The messages of a native MCP session of addon_tools.py as they stand on the wire: what each request says, and
    which answers are taken for what. */
module NativeAnswers {
  import opened Wrappers
  import opened JsonValues
  import opened NativeSession

  /** A field with a value, null standing for one that is missing. */
  predicate Has(f: map<string, Json>, name: string, value: Json) {
    if name in f then f[name] == value else value == Null
  }

  predicate HasObject(f: map<string, Json>, name: string) { name in f && f[name].Obj? }

  predicate HasText(f: map<string, Json>, name: string) { name in f && f[name].Str? }

  /** JSON-RPC 2.0, section 5: an answer to this request with a result or an error, never both. */
  predicate Answers(verb: string, f: map<string, Json>) {
    && Has(f, "jsonrpc", Str("2.0"))
    && Has(f, "id", if verb == "notifications/initialized" then Null else Str(verb))
    && (("result" in f) != ("error" in f))
  }

  predicate Readable(r: Response) { r.Response? && r.status == 200 && r.declaresJson && !r.oversized }

  /** Every way one exchange is read, and when. */
  lemma EveryAnswer(verb: string, r: Response)
    ensures match Interpret(verb, r)
            case Good(result) =>
              || (verb == "notifications/initialized" && r.Response? && r.status == 202 && result == Obj(map[]))
              || (Readable(r) && r.payload.Some? && r.payload.value.Obj? && Answers(verb, r.payload.value.fields)
                  && result.Obj? && "result" in r.payload.value.fields && r.payload.value.fields["result"] == result)
            case Bad(Timeout) => r == TimedOut
            case Bad(ConnectionFailed) => r == Lost
            case Bad(NativeUnavailable) => verb == "initialize" && r.Response? && r.status in {404, 405}
            case Bad(HttpError(status)) =>
              && r.Response? && r.status == status && status != 200
              && !(verb == "initialize" && status in {404, 405})
              && !(verb == "notifications/initialized" && status == 202)
            case Bad(TooLarge) => r.Response? && r.status == 200 && r.declaresJson && r.oversized
            case Bad(RpcError(error)) =>
              && Readable(r) && r.payload.Some? && r.payload.value.Obj? && Answers(verb, r.payload.value.fields)
              && "error" in r.payload.value.fields && r.payload.value.fields["error"] == error
            case Bad(ProtocolError) =>
              && r.Response? && r.status == 200
              && (r.declaresJson ==>
                  && !r.oversized
                  && !(r.payload.Some? && r.payload.value.Obj? && Answers(verb, r.payload.value.fields)
                       && ("error" in r.payload.value.fields || r.payload.value.fields["result"].Obj?)))
            case Bad(_) => false
  {
  }

  /** The handshake is accepted in two protocol versions, from a server that has tools and names itself. */
  lemma AcceptedHandshake(j: Json)
    ensures GoodInitialization(j) <==>
              && j.Obj?
              && (|| Has(j.fields, "protocolVersion", Str("2025-06-18"))
                  || Has(j.fields, "protocolVersion", Str("2025-11-25")))
              && HasObject(j.fields, "capabilities") && HasObject(j.fields["capabilities"].fields, "tools")
              && HasObject(j.fields, "serverInfo")
  {
  }

  /** A page is accepted when every tool on it has a name and a schema. */
  lemma AcceptedPage(j: Json)
    ensures IsPage(j) <==>
              && j.Obj? && "tools" in j.fields && j.fields["tools"].Arr?
              && forall tool :: tool in j.fields["tools"].items ==>
                  tool.Obj? && HasText(tool.fields, "name") && HasObject(tool.fields, "inputSchema")
  {
  }

  /** A result is accepted when its content is a list of typed blocks, those of text with their text, and its error
      mark, if it has one, is true or false. */
  lemma AcceptedResult(j: Json)
    ensures IsCallResult(j) <==>
              && j.Obj? && "content" in j.fields && j.fields["content"].Arr?
              && (forall block :: block in j.fields["content"].items ==>
                    block.Obj? && HasText(block.fields, "type")
                    && (block.fields["type"] == Str("text") ==> HasText(block.fields, "text")))
              && ("isError" in j.fields ==> j.fields["isError"] in {Bool(true), Bool(false)})
  {
  }

  /** What every session sends first, as far as it gets. */
  lemma FirstRequests(server: Server, trace: seq<Request>, call: bool, tool: Option<string>, arguments: Json)
    requires SessionShape(server, trace, call, tool, arguments)
    ensures |trace| > 0 ==>
              trace[0] == Request("initialize", Obj(map[
                "protocolVersion" := Str("2025-11-25"), "capabilities" := Obj(map[]),
                "clientInfo" := Obj(map["name" := Str("esphome-mcp"), "version" := Str("1")])]))
    ensures |trace| > 1 ==> trace[1] == Request("notifications/initialized", Obj(map[]))
    ensures |trace| > 2 ==> trace[2] == Request("tools/list", Obj(map[]))
  {
    hide PageAt, AnswerTo, Catalog, GoodInitialization, AskedNext;
  }

  /** Request k asks for a page with the cursor the page before it named. */
  ghost predicate AsksForNext(server: Server, trace: seq<Request>, k: int)
    requires 0 < k < |trace|
  {
    exists page, cursor ::
      && PageAt(server, trace, k - 1) == Some(page) && Has(page.fields, "nextCursor", Str(cursor))
      && cursor != "" && trace[k] == Request("tools/list", Obj(map["cursor" := Str(cursor)]))
  }

  /** And then: a further page each time, or the call, which is the last. */
  lemma LaterRequests(server: Server, trace: seq<Request>, call: bool, tool: Option<string>, arguments: Json, k: int)
    requires SessionShape(server, trace, call, tool, arguments) && 2 < k < |trace|
    ensures || AsksForNext(server, trace, k)
            || (call && k == |trace| - 1 && tool.Some?
                && trace[k] == Request("tools/call", Obj(map["name" := Str(tool.value), "arguments" := arguments])))
  {
    hide PageAt, AnswerTo, Catalog, GoodInitialization, AsksForNext;
    if Listing(server, trace) {
      NextPage(server, trace, k);
    } else if k < |trace| - 1 {
      var front := trace[..|trace| - 1];
      assert front + [trace[|trace| - 1]] == trace;
      NextPage(server, front, k);
      SamePage(server, front, trace[|trace| - 1], k);
    }
  }

  lemma SamePage(server: Server, trace: seq<Request>, r: Request, k: int)
    requires 0 < k < |trace|
    ensures AsksForNext(server, trace + [r], k) <==> AsksForNext(server, trace, k)
  {
    hide PageAt;
    EarlierAnswer(server, trace, r, k - 1);
  }

  lemma NextPage(server: Server, trace: seq<Request>, k: int)
    requires Listing(server, trace) && 2 < k < |trace|
    ensures AsksForNext(server, trace, k)
  {
    hide PageAt;
    assert AskedNext(server, trace, k);
    var page := PageAt(server, trace, k - 1).value;
    assert Has(page.fields, "nextCursor", Str(Field(page, "nextCursor").s));
  }
}
