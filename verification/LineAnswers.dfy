/** Every line of input to the MCP adapter has one answer, and the one it calls for, given
the lines before it. */
module LineAnswers {
  import opened Wrappers
  import opened Contract
  import opened McpSession
  import opened CallMachine
  import opened CallInvariants

  // ----- What the session knows of the lines -----

  predicate Initializes(line: Line) {
    line.Got? && IsInitialize(line.input)
  }

  ghost predicate Introduced(lines: seq<Line>) {
    exists i | 0 <= i < |lines| :: Initializes(lines[i])
  }

  /** An `initialize` request and, later, the `initialized` notification. */
  ghost predicate ShookHands(lines: seq<Line>) {
    exists i, j | 0 <= i < j < |lines| :: Initializes(lines[i]) && lines[j].Got? && IsInitialized(lines[j].input)
  }

  /** A tool call with this id is among the lines. */
  ghost predicate Called(lines: seq<Line>, id: Json) {
    exists i | 0 <= i < |lines| ::
      lines[i].Got? && lines[i].input.command == Some("tools/call") && lines[i].input.id == Some(id)
  }

  lemma HandshakeGrows(lines: seq<Line>, line: Line)
    ensures Introduced(lines + [line]) <==> Introduced(lines) || Initializes(line)
    ensures ShookHands(lines + [line]) <==>
              ShookHands(lines) || (Introduced(lines) && line.Got? && IsInitialized(line.input))
  {
    var more := lines + [line];
    var n := |lines|;
    assert more[n] == line && forall i | 0 <= i < n :: more[i] == lines[i];
    if Introduced(lines) {
      var i :| 0 <= i < n && Initializes(lines[i]);
      assert Initializes(more[i]);
    }
    if ShookHands(lines) {
      var i, j :| 0 <= i < j < n && Initializes(lines[i]) && lines[j].Got? && IsInitialized(lines[j].input);
      assert Initializes(more[i]) && more[j].Got? && IsInitialized(more[j].input);
    }
  }

  lemma CalledGrows(lines: seq<Line>, line: Line, id: Json)
    ensures Called(lines, id) ==> Called(lines + [line], id)
    ensures line.Got? && line.input.command == Some("tools/call") && line.input.id == Some(id) ==> Called(lines + [line], id)
  {
    var more := lines + [line];
    assert more[|lines|] == line;
    if Called(lines, id) {
      var i :| 0 <= i < |lines| && lines[i].Got? && lines[i].input.command == Some("tools/call") && lines[i].input.id == Some(id);
      assert more[i] == lines[i];
    }
  }

  /** The session is what the lines make of it. */
  ghost predicate SessionTold(session: Session, lines: seq<Line>) {
    && (session.initialized <==> Introduced(lines))
    && (session.ready <==> ShookHands(lines))
    && (forall id | id in session.seen :: Called(lines, id))
  }

  lemma SessionFlow(s: State, line: Line)
    requires s.reader.Awaiting?
    ensures var session := NextSession(s, Take(line));
            && (session.initialized <==> s.session.initialized || Initializes(line))
            && (session.ready <==> s.session.ready || (s.session.initialized && line.Got? && IsInitialized(line.input)))
            && (forall id | id in session.seen ::
                  id in s.session.seen || (line.Got? && line.input.command == Some("tools/call") && line.input.id == Some(id)))
  {
  }

  lemma StepKeepsSession(s: State, e: Event)
    requires SessionTold(s.session, s.lines) && Enabled(s, e)
    ensures SessionTold(Apply(s, e).session, Apply(s, e).lines)
  {
    if e.Take? {
      SessionFlow(s, e.line);
      HandshakeGrows(s.lines, e.line);
      forall id | id in NextSession(s, e).seen ensures Called(s.lines + [e.line], id) {
        CalledGrows(s.lines, e.line, id);
      }
    } else {
      assert NextSession(s, e) == s.session;
    }
  }

  // ----- What a line calls for -----

  /** The line calls for a response. A cancellation never does, whatever else it holds; a
  tool call always does, with or without an id. */
  predicate Expects(line: Line) {
    match line
    case Eof | Oversized | ReadFails => false
    case Garbled => true
    case Got(input) =>
      input.command != Some("notifications/cancelled")
      && (input.command == Some("tools/call") || !input.jsonrpc || input.id.Some?)
  }

  function Addressee(reply: Reply): Option<Json> {
    match reply
    case Error(addressee, _) => addressee
    case InitializeResult(id) => Some(id)
    case PingResult(id) => Some(id)
    case ToolsList(id) => Some(id)
  }

  /** The reply carries the line's id, or none when the line has none fit to carry. */
  predicate Addressed(line: Line, reply: Reply) {
    match line
    case Got(input) =>
      Addressee(reply) == input.id || (Addressee(reply).None? && !(input.id.Some? && IsId(input.id.value)))
    case _ => Addressee(reply).None?
  }

  predicate ValidRequest(input: Input) {
    input.jsonrpc && input.id.Some? && IsId(input.id.value)
  }

  /** What each reply tells of the line it answers and of the lines before it, and the
  replies that a valid request is sure of. */
  ghost predicate Apt(before: seq<Line>, line: Line, reply: Reply) {
    match line
    case Got(input) => AptForInput(before, input, reply)
    case _ => reply == Error(None, -32700)
  }

  ghost predicate AptForInput(before: seq<Line>, input: Input, reply: Reply) {
    var called := input.command == Some("tools/call");
    && (reply.InitializeResult? <==> ValidRequest(input) && input.command == Some("initialize") && !Introduced(before))
    && (reply.PingResult? <==> ValidRequest(input) && input.command == Some("ping"))
    && (reply.ToolsList? <==> ValidRequest(input) && input.command == Some("tools/list") && ShookHands(before))
    && (reply.Error? ==> reply.code in {-32600, -32000, -32002, -32601, -32602})
    && (reply.Error? && reply.code == -32600 ==>
          (!called && !ValidRequest(input))
          || (called && (input.id.None? || !IsId(input.id.value) || Called(before, input.id.value))))
    && (reply.Error? && reply.code == -32002 ==> !ShookHands(before))
    && (reply.Error? && reply.code == -32000 ==> called)
    && (reply.Error? && reply.code == -32601 ==> ShookHands(before) && !called && input.command != Some("tools/list"))
    && (reply.Error? && reply.code == -32602 ==> called && ShookHands(before) && !Callable(input.params))
  }

  /** The parameters are those of a call the adapter can make. */
  predicate Callable(params: Params) {
    params.progressToken.Some? && IsId(params.progressToken.value) && ThreadQuery(params).Some?
  }

  /** The line is the call this worker runs: its id, its progress token, and its query,
  stamped with its thread. */
  predicate CallsFor(line: Line, call: CallRequest) {
    && line.Got? && line.input.command == Some("tools/call") && line.input.id == Some(call.key)
    && line.input.params.progressToken == Some(call.token)
    && AsksFor(line.input.params, call.query)
  }

  predicate AsksFor(params: Params, query: MessageQuery) {
    && params.arguments.Some?
    && match query
       case SendThread(request, session) =>
         params.name == Some("send") && params.threadId == Some(session)
         && "query" in params.arguments.value && params.arguments.value["query"].TextArgument?
         && params.arguments.value["query"].parsed == Some(Send(request))
       case ObserveThread(session, cursor) =>
         params.name == Some("observe_sends") && params.threadId == Some(session)
         && (if "cursor" in params.arguments.value then cursor.Some? && params.arguments.value["cursor"] == IntArgument(cursor.value)
             else cursor.None?)
       case _ => false
  }

  /** A line that becomes a call is the call, and comes after the handshake. */
  lemma LineAsksForItsCall(s: State, line: Line)
    requires AfterLine(s, line).CapacityCheck?
    ensures CallsFor(line, AfterLine(s, line).call) && s.session.ready
  {
    LineBringsANewId(s, line);
  }

  /** A line that gets a reply gets one that is apt. */
  lemma LineGetsAnAptReply(s: State, line: Line)
    requires SessionTold(s.session, s.lines) && AfterLine(s, line).Replying?
    ensures var reply := AfterLine(s, line).reply; Expects(line) && Addressed(line, reply) && Apt(s.lines, line, reply)
  {
  }

  lemma LineIsTakenRightly(s: State, line: Line)
    ensures AfterLine(s, line).Replying? || AfterLine(s, line).CapacityCheck? <==> Expects(line)
    ensures HasLine(AfterLine(s, line)) <==> Expects(line)
  {
  }

  // ----- Every line is answered once -----

  ghost predicate Accounts(s: State, k: nat)
    requires k < |s.answers| && k < |s.lines|
  {
    match s.answers[k]
    case Silent => !Expects(s.lines[k])
    case ByReader(reply, _) => Expects(s.lines[k]) && Addressed(s.lines[k], reply) && Apt(s.lines[..k], s.lines[k], reply)
    case ByWorker(i) => i < |s.workers| && CallsFor(s.lines[k], s.workers[i].call) && ShookHands(s.lines[..k])
  }

  /** What the reader is about to do with its line is what the line calls for. */
  ghost predicate OwedRightly(reader: ReaderPc, before: seq<Line>, line: Line) {
    && (reader.Replying? ==> Expects(line) && Addressed(line, reader.reply) && Apt(before, line, reader.reply))
    && (reader.CapacityCheck? || reader.Admitting? ==> CallsFor(line, reader.call) && ShookHands(before))
  }

  ghost predicate AllAnswered(s: State) {
    && |s.lines| == |s.answers| + (if HasLine(s.reader) then 1 else 0)
    && (HasLine(s.reader) ==> OwedRightly(s.reader, s.lines[..|s.answers|], s.lines[|s.answers|]))
    && (forall k | 0 <= k < |s.answers| :: Accounts(s, k))
  }

  ghost predicate OneLineEach(answers: seq<LineAnswer>, n: nat) {
    && (forall k | 0 <= k < |answers| && answers[k].ByWorker? :: answers[k].owner < n)
    && (forall j, k | 0 <= j < k < |answers| && answers[j].ByWorker? && answers[k].ByWorker? ::
          answers[j].owner != answers[k].owner)
    && (forall i | 0 <= i < n :: ByWorker(i) in answers)
  }

  lemma OwedAfterTake(s: State, line: Line)
    requires SessionTold(s.session, s.lines) && s.reader.Awaiting?
    ensures OwedRightly(AfterLine(s, line), s.lines, line)
    ensures HasLine(AfterLine(s, line)) <==> Expects(line)
  {
    LineIsTakenRightly(s, line);
    if AfterLine(s, line).Replying? {
      LineGetsAnAptReply(s, line);
    } else if AfterLine(s, line).CapacityCheck? {
      LineAsksForItsCall(s, line);
    }
  }

  /** A call refused for capacity is apt too. */
  lemma OwedAfterCapacity(reader: ReaderPc, before: seq<Line>, line: Line)
    requires reader.CapacityCheck? && OwedRightly(reader, before, line)
    ensures OwedRightly(Replying(Error(Some(reader.call.key), -32000), false), before, line)
    ensures OwedRightly(Admitting(reader.call), before, line)
  {
  }

  lemma AccountsKeeps(s: State, t: State, k: nat)
    requires k < |s.answers| <= |s.lines| && Accounts(s, k)
    requires s.lines <= t.lines && s.answers <= t.answers && |t.answers| <= |t.lines| && |s.workers| <= |t.workers|
    requires forall i | 0 <= i < |s.workers| :: t.workers[i].call == s.workers[i].call
    ensures Accounts(t, k)
  {
    assert t.lines[..k] == s.lines[..k];
  }

  lemma StepKeepsOwed(s: State, e: Event)
    requires SessionTold(s.session, s.lines) && AllAnswered(s) && Enabled(s, e)
    ensures var t := Apply(s, e);
            && |t.lines| == |t.answers| + (if HasLine(t.reader) then 1 else 0)
            && s.lines <= t.lines && s.answers <= t.answers
            && (HasLine(t.reader) ==> OwedRightly(t.reader, t.lines[..|t.answers|], t.lines[|t.answers|]))
  {
    var t := Apply(s, e);
    if e.Take? {
      OwedAfterTake(s, e.line);
      assert t.lines[..|s.lines|] == s.lines;
    } else if e.ReaderStep? && s.reader.CapacityCheck? {
      OwedAfterCapacity(s.reader, s.lines[..|s.answers|], s.lines[|s.answers|]);
    } else {
      assert t.lines == s.lines;
      assert HasLine(t.reader) ==> t.reader == s.reader && t.answers == s.answers;
    }
  }

  lemma StepKeepsAnswered(s: State, e: Event)
    requires SessionTold(s.session, s.lines) && AllAnswered(s) && Enabled(s, e)
    ensures AllAnswered(Apply(s, e))
  {
    var t := Apply(s, e);
    WorkersKept(s, e);
    StepKeepsOwed(s, e);
    forall k | 0 <= k < |t.answers| ensures Accounts(t, k) {
      if k < |s.answers| {
        AccountsKeeps(s, t, k);
      } else {
        NewAnswerAccounts(s, e);
      }
    }
  }

  /** The answer a step gives is the one owed. */
  lemma NewAnswerAccounts(s: State, e: Event)
    requires SessionTold(s.session, s.lines) && AllAnswered(s) && Enabled(s, e)
    requires |Apply(s, e).answers| > |s.answers| && |Apply(s, e).answers| <= |Apply(s, e).lines|
    ensures |Apply(s, e).answers| == |s.answers| + 1 && Accounts(Apply(s, e), |s.answers|)
  {
    var t, k := Apply(s, e), |s.answers|;
    WorkersKept(s, e);
    if e.Take? {
      LineIsTakenRightly(s, e.line);
    } else {
      assert t.lines == s.lines && HasLine(s.reader);
    }
  }

  lemma OneMoreLine(answers: seq<LineAnswer>, n: nat, answer: LineAnswer)
    requires OneLineEach(answers, n)
    ensures !answer.ByWorker? ==> OneLineEach(answers + [answer], n)
    ensures answer == ByWorker(n) ==> OneLineEach(answers + [answer], n + 1)
  {
    assert forall a | a in answers :: a in answers + [answer];
    assert answer in answers + [answer];
  }

  lemma StepKeepsOneLine(s: State, e: Event)
    requires OneLineEach(s.answers, |s.workers|) && Enabled(s, e)
    ensures OneLineEach(Apply(s, e).answers, |Apply(s, e).workers|)
  {
    WorkersKept(s, e);
    var more := NextAnswers(s, e);
    if more != s.answers {
      OneMoreLine(s.answers, |s.workers|, more[|s.answers|]);
    }
  }

  // ----- The last line -----

  /** The reader has left its loop. */
  predicate Left(reader: ReaderPc) {
    reader.Silencing? || reader.Closing? || reader.SweepNext? || reader.SweepShut? || reader.JoiningAll? || reader.Exited?
  }

  /** After this line and its answer no other is taken: the input has ended, or the client
  took no reply. */
  predicate Ends(line: Line, answer: LineAnswer) {
    line.Eof? || line.Oversized? || line.ReadFails? || (answer.ByReader? && !answer.ok)
  }

  /** The reader leaves its loop after such a line, and only then. */
  ghost predicate LeavesAtTheEnd(s: State) {
    && |s.answers| <= |s.lines|
    && (forall k | 0 <= k < |s.answers| && Ends(s.lines[k], s.answers[k]) :: k == |s.lines| - 1 && Left(s.reader))
    && (Left(s.reader) ==> s.answers != [] && |s.answers| == |s.lines| && Ends(s.lines[|s.lines| - 1], s.answers[|s.lines| - 1]))
  }

  lemma StepKeepsTheEnd(s: State, e: Event)
    requires AllAnswered(s) && LeavesAtTheEnd(s) && Enabled(s, e)
    ensures LeavesAtTheEnd(Apply(s, e))
  {
    var t := Apply(s, e);
    if e.Take? || e.WriteReply? {
      assert !Left(s.reader);
    } else {
      assert t.lines == s.lines && (Left(t.reader) <==> Left(s.reader));
      assert Left(s.reader) ==> t.answers == s.answers;
    }
  }

  // ----- All together -----

  ghost predicate LineInv(s: State) {
    && SessionTold(s.session, s.lines) && AllAnswered(s) && OneLineEach(s.answers, |s.workers|) && LeavesAtTheEnd(s)
  }

  lemma {:induction false} RunKeepsLineInv(s: State, events: seq<Event>)
    requires LineInv(s) && Run(s, events).Some?
    ensures LineInv(Run(s, events).value)
    decreases |events|
  {
    if events == [] {
    } else {
      var e := events[0];
      StepKeepsSession(s, e);
      StepKeepsAnswered(s, e);
      StepKeepsOneLine(s, e);
      StepKeepsTheEnd(s, e);
      RunKeepsLineInv(Apply(s, e), events[1..]);
    }
  }

  lemma StartHasLineInv()
    ensures LineInv(START)
  {
  }
}
