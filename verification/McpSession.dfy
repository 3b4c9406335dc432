/** The MCP adapter's session: which requests it answers at once, and which tool calls
it admits. */
module McpSession {
  import opened Wrappers
  import opened Contract

  const MAX_SEEN_CALLS: nat := 65_536

  /** A JSON value where an id or a token is looked for. The adapter keys calls by the
  JSON text of the id, which tells a number from a string; here the id is the key. */
  datatype Json = Text(text: string) | Number(digits: string) | OtherJson(text: string)

  predicate IsId(value: Json) {
    value.Text? || value.Number?
  }

  /** An argument of a tool call; `parsed` is what the datom library makes of a text. */
  datatype Argument = TextArgument(text: string, parsed: Option<MessageQuery>) | IntArgument(value: int) | OtherArgument

  datatype Params = Params(
    name: Option<string>,
    arguments: Option<map<string, Argument>>,
    threadId: Option<string>,
    progressToken: Option<Json>,
    requestId: Option<Json>)

  datatype Input = Input(jsonrpc: bool, id: Option<Json>, command: Option<string>, params: Params)

  datatype CallRequest = CallRequest(key: Json, token: Json, query: MessageQuery)

  datatype Reply =
    | Error(addressee: Option<Json>, code: int)
    | InitializeResult(id: Json)
    | PingResult(id: Json)
    | ToolsList(id: Json)

  datatype Session = Session(initialized: bool, ready: bool, seen: set<Json>)

  // ----- The query of a tool call -----

  function Utf8Width(c: char): nat {
    if c as int < 0x80 then 1 else if c as int < 0x800 then 2 else if c as int < 0x1_0000 then 3 else 4
  }

  function Utf8Length(s: string): nat {
    if s == "" then 0 else Utf8Width(s[0]) + Utf8Length(s[1..])
  }

  predicate IsControl(c: char) {
    c as int < 0x20 || 0x7F <= c as int < 0xA0
  }

  predicate IsThreadId(thread: string) {
    thread != "" && Utf8Length(thread) <= 256 && forall i | 0 <= i < |thread| :: !IsControl(thread[i])
  }

  function ThreadQuery(params: Params): Option<MessageQuery> {
    if params.name.None? || params.arguments.None? || params.threadId.None? || !IsThreadId(params.threadId.value) then None
    else
      var arguments, thread := params.arguments.value, params.threadId.value;
      if params.name.value == "send" then
        if arguments.Keys != {"query"} || !arguments["query"].TextArgument? then None
        else match arguments["query"].parsed
             case Some(Send(request)) => Some(SendThread(request, thread))
             case _ => None
      else if params.name.value == "observe_sends" then
        if !(arguments.Keys <= {"cursor"}) then None
        else if "cursor" !in arguments then Some(ObserveThread(thread, None))
        else if arguments["cursor"].IntArgument? then Some(ObserveThread(thread, Some(arguments["cursor"].value)))
        else None
      else None
  }

  /** The adapter sends nothing but a thread-stamped Send or observation: the thread is
  the harness's, the request exactly the caller's datom, the cursor the caller's. */
  lemma QueryIsStamped(params: Params)
    ensures ThreadQuery(params).Some? ==>
              var query := ThreadQuery(params).value;
              && (query.SendThread? || query.ObserveThread?)
              && params.threadId == Some(query.session) && IsThreadId(query.session)
              && (query.SendThread? ==>
                    params.arguments.value["query"].parsed == Some(Send(query.request)))
              && (query.ObserveThread? && query.cursor.Some? ==>
                    params.arguments.value["cursor"] == IntArgument(query.cursor.value))
  {
  }

  /** Exactly which tool calls have a query: a harness-stamped thread, and either `send`
  with nothing but a Send datom, or `observe_sends` with nothing but an integer
  cursor, if that. */
  lemma QueryExactly(params: Params)
    ensures ThreadQuery(params).Some? <==>
              && params.threadId.Some? && IsThreadId(params.threadId.value) && params.arguments.Some?
              && var arguments := params.arguments.value;
                 || (params.name == Some("send") && arguments.Keys == {"query"} && arguments["query"].TextArgument?
                     && arguments["query"].parsed.Some? && arguments["query"].parsed.value.Send?)
                 || (params.name == Some("observe_sends")
                     && (arguments.Keys == {} || (arguments.Keys == {"cursor"} && arguments["cursor"].IntArgument?)))
  {
    if params.arguments.Some? && "cursor" in params.arguments.value.Keys && params.arguments.value.Keys <= {"cursor"} {
      assert params.arguments.value.Keys == {"cursor"};
    }
  }

  // ----- Admission and immediate answers -----

  /** The call a request is admitted as, or the error it is answered with. */
  function Admission(session: Session, input: Input): Result<CallRequest, Reply> {
    if input.id.None? || !IsId(input.id.value) then Failure(Error(None, -32600))
    else if input.id.value in session.seen then Failure(Error(input.id, -32600))
    else if |session.seen| >= MAX_SEEN_CALLS then Failure(Error(input.id, -32000))
    else if !session.ready then Failure(Error(input.id, -32002))
    else if input.params.progressToken.None? || !IsId(input.params.progressToken.value) then Failure(Error(input.id, -32602))
    else match ThreadQuery(input.params)
         case None => Failure(Error(input.id, -32602))
         case Some(query) => Success(CallRequest(input.id.value, input.params.progressToken.value, query))
  }

  function AfterAdmission(session: Session, input: Input): Session {
    if Admission(session, input).Success? then session.(seen := session.seen + {input.id.value}) else session
  }

  predicate IsInitialize(input: Input) {
    input.jsonrpc && input.id.Some? && IsId(input.id.value) && input.command == Some("initialize")
  }

  predicate IsInitialized(input: Input) {
    input.jsonrpc && input.id.None? && input.command == Some("notifications/initialized")
  }

  function AfterSynchronous(session: Session, input: Input): Session {
    if IsInitialized(input) && session.initialized then session.(ready := true)
    else if IsInitialize(input) then session.(initialized := true)
    else session
  }

  function SynchronousReply(session: Session, input: Input): Option<Reply> {
    if !input.jsonrpc then Some(Error(input.id, -32600))
    else if input.id.None? then None
    else if !IsId(input.id.value) then Some(Error(None, -32600))
    else if input.command == Some("initialize") && !session.initialized then Some(InitializeResult(input.id.value))
    else if input.command == Some("ping") then Some(PingResult(input.id.value))
    else if !session.ready then Some(Error(input.id, -32002))
    else if input.command == Some("tools/list") then Some(ToolsList(input.id.value))
    else if input.command == Some("tools/call") then None
    else Some(Error(input.id, -32601))
  }

  class Adapter {
    var initialized: bool
    var ready: bool
    var seenIds: set<Json>

    constructor ()
      ensures Now() == Session(false, false, {})
    {
      initialized, ready, seenIds := false, false, {};
    }

    function Now(): Session
      reads this
    {
      Session(initialized, ready, seenIds)
    }

    /** Admits a tool call once per id, or answers why not. */
    method AdmitCall(input: Input) returns (r: Result<CallRequest, Reply>)
      modifies this`seenIds
      ensures r == Admission(old(Now()), input)
      ensures Now() == AfterAdmission(old(Now()), input)
      ensures r.Success? ==> old(ready) && r.value.key !in old(seenIds) && seenIds == old(seenIds) + {r.value.key}
      ensures |old(seenIds)| <= MAX_SEEN_CALLS ==> |seenIds| <= MAX_SEEN_CALLS
    {
      if input.id.None? || !IsId(input.id.value) {
        return Failure(Error(None, -32600));
      }
      var id := input.id.value;
      if id in seenIds {
        return Failure(Error(Some(id), -32600));
      }
      if |seenIds| >= MAX_SEEN_CALLS {
        return Failure(Error(Some(id), -32000));
      }
      if !ready {
        return Failure(Error(Some(id), -32002));
      }
      var token := input.params.progressToken;
      if token.None? || !IsId(token.value) {
        return Failure(Error(Some(id), -32602));
      }
      var query := ThreadQuery(input.params);
      if query.None? {
        return Failure(Error(Some(id), -32602));
      }
      seenIds := seenIds + {id};
      r := Success(CallRequest(id, token.value, query.value));
    }

    /** Answers what needs no call, and follows the initialization handshake. */
    method Synchronous(input: Input) returns (r: Option<Reply>)
      modifies this`initialized, this`ready
      ensures r == SynchronousReply(old(Now()), input)
      ensures Now() == AfterSynchronous(old(Now()), input)
      ensures ready && !old(ready) ==> old(initialized)
    {
      if !input.jsonrpc {
        return Some(Error(input.id, -32600));
      }
      if input.id.None? {
        if input.command == Some("notifications/initialized") && initialized {
          ready := true;
        }
        return None;
      }
      var id := input.id.value;
      if !IsId(id) {
        return Some(Error(None, -32600));
      }
      if input.command == Some("initialize") && !initialized {
        initialized := true;
        return Some(InitializeResult(id));
      }
      if input.command == Some("ping") {
        return Some(PingResult(id));
      }
      if !ready {
        return Some(Error(Some(id), -32002));
      }
      if input.command == Some("tools/list") {
        return Some(ToolsList(id));
      }
      if input.command == Some("tools/call") {
        return None;
      }
      r := Some(Error(Some(id), -32601));
    }
  }
}
