/** The MCP adapter's concurrent machine: one reader, its workers, the shared map of
active calls behind a lock, and the connection flag, interleaved step by step. */
module CallMachine {
  import opened Wrappers
  import opened McpSession
  import opened CallWorker
  import Workers

  const MAX_ACTIVE_CALLS: nat := 16

  /** An active call: its worker, and whether its socket is registered. The cancelled
  flag it shares is the worker's. */
  datatype Entry = Entry(owner: nat, observer: bool)

  /** The reader: awaiting a line; writing a reply; in the two critical sections of a
  cancel; admitting a call; reaping; and, once the loop is left, silencing the
  connection, sweeping the map under its lock, and joining. */
  datatype ReaderPc =
    | Awaiting
    | Replying(reply: Reply, thenReap: bool)
    | CancelStore(key: Json) | CancelShut(key: Json)
    | CapacityCheck(call: CallRequest) | Admitting(call: CallRequest)
    | Reaping(index: nat)
    | Silencing | Closing
    | SweepNext(todo: set<Json>) | SweepShut(key: Json, todo: set<Json>)
    | JoiningAll | Exited

  /** A line of input as the reader takes it. */
  datatype Line = Eof | Oversized | ReadFails | Garbled | Got(input: Input)

  /** Who has answered a line, or is to: nobody; the reader, and whether it could write;
  or the worker the line was given to. */
  datatype LineAnswer = Silent | ByReader(reply: Reply, ok: bool) | ByWorker(owner: nat)

  /** `joined`, `lines` and `answers` are histories; a line has its answer once the reader
  is done with it. */
  datatype State = State(
    session: Session,
    reader: ReaderPc,
    alive: bool,
    active: map<Json, Entry>,
    workers: seq<Worker>,
    handles: seq<nat>,
    joined: seq<nat>,
    lines: seq<Line>,
    answers: seq<LineAnswer>)

  const START := State(Session(false, false, {}), Awaiting, true, map[], [], [], [], [], [])

  datatype Event =
    | WorkerStep(i: nat, choice: Choice)
    | Take(line: Line)
    | WriteReply(ok: bool)
    | Poll(finished: bool)
    | SweepOne(key: Json)
    | ReaderStep

  /** The reader holds the lock of the shared map. */
  predicate Locked(s: State) {
    s.reader.CancelStore? || s.reader.CancelShut? || s.reader.SweepNext? || s.reader.SweepShut?
  }

  predicate HandleDone(s: State, k: nat) {
    k < |s.handles| && s.handles[k] < |s.workers| && s.workers[s.handles[k]].pc.Done?
  }

  predicate Enabled(s: State, e: Event) {
    match e
    case WorkerStep(i, _) => i < |s.workers| && !s.workers[i].pc.Done? && (NeedsLock(s.workers[i].pc) ==> !Locked(s))
    case Take(_) => s.reader.Awaiting?
    case WriteReply(_) => s.reader.Replying?
    case Poll(finished) => s.reader.Reaping? && s.reader.index < |s.handles| && (finished ==> HandleDone(s, s.reader.index))
    case SweepOne(key) => s.reader.SweepNext? && key in s.reader.todo
    case ReaderStep =>
      match s.reader
      case CancelStore(_) | CancelShut(_) | CapacityCheck(_) | Admitting(_) | Silencing | Closing | SweepShut(_, _) => true
      case Reaping(index) => index >= |s.handles|
      case SweepNext(todo) => todo == {}
      case JoiningAll => s.handles == [] || HandleDone(s, 0)
      case _ => false
  }

  // ----- How each step changes each part of the state -----

  function AfterLine(s: State, line: Line): ReaderPc {
    match line
    case Eof | ReadFails => Silencing
    case Oversized => Closing
    case Garbled => Replying(Error(None, -32700), false)
    case Got(input) =>
      if input.command == Some("notifications/cancelled") then
        if input.params.requestId.Some? && input.params.requestId.value in s.active
        then CancelStore(input.params.requestId.value)
        else Awaiting
      else if input.command == Some("tools/call") then
        match Admission(s.session, input)
        case Failure(reply) => Replying(reply, false)
        case Success(call) => CapacityCheck(call)
      else match SynchronousReply(s.session, input)
           case Some(reply) => Replying(reply, true)
           case None => Reaping(0)
  }

  function NextReader(s: State, e: Event): ReaderPc
    requires Enabled(s, e)
  {
    match e
    case WorkerStep(_, _) => s.reader
    case Take(line) => AfterLine(s, line)
    case WriteReply(ok) => if !ok then Silencing else if s.reader.thenReap then Reaping(0) else Awaiting
    case Poll(finished) => if finished then s.reader else Reaping(s.reader.index + 1)
    case SweepOne(key) => SweepShut(key, s.reader.todo - {key})
    case ReaderStep =>
      match s.reader
      case CancelStore(key) => CancelShut(key)
      case CancelShut(_) => Awaiting
      case CapacityCheck(call) =>
        if |s.active| >= MAX_ACTIVE_CALLS then Replying(Error(Some(call.key), -32000), false) else Admitting(call)
      case Admitting(_) => Reaping(0)
      case Reaping(_) => Awaiting
      case Silencing => Closing
      case Closing => SweepNext(s.active.Keys)
      case SweepShut(_, todo) => SweepNext(todo)
      case SweepNext(_) => JoiningAll
      case JoiningAll => if s.handles == [] then Exited else JoiningAll
      case _ => s.reader
  }

  function NextSession(s: State, e: Event): Session {
    if !e.Take? || !e.line.Got? || e.line.input.command == Some("notifications/cancelled") then s.session
    else if e.line.input.command == Some("tools/call") then AfterAdmission(s.session, e.line.input)
    else AfterSynchronous(s.session, e.line.input)
  }

  function NextAlive(s: State, e: Event): bool
    requires Enabled(s, e)
  {
    match e
    case WorkerStep(i, _) => StillAlive(s.workers[i], s.alive)
    case ReaderStep => s.alive && !s.reader.Silencing? && !s.reader.Closing?
    case _ => s.alive
  }

  /** The key whose flag the reader stores in this step, and the key whose socket it
  shuts. */
  function Storing(s: State, e: Event): Option<Json> {
    if e.SweepOne? then Some(e.key)
    else if e.ReaderStep? && s.reader.CancelStore? then Some(s.reader.key)
    else None
  }

  function Shutting(s: State, e: Event): Option<Json> {
    if e.ReaderStep? && (s.reader.CancelShut? || s.reader.SweepShut?) then Some(s.reader.key) else None
  }

  /** An admitted call gets its entry and its thread in one step here: between the two
  nobody else can touch it. */
  predicate Admits(s: State, e: Event) {
    e.ReaderStep? && s.reader.Admitting?
  }

  function NextWorkers(s: State, e: Event): seq<Worker>
    requires Enabled(s, e)
  {
    if e.WorkerStep? then s.workers[e.i := Step(s.workers[e.i], s.alive, e.choice)]
    else if Admits(s, e) then s.workers + [Fresh(s.reader.call)]
    else if Storing(s, e).Some? && HasWorker(s, Storing(s, e).value) then
      var i := s.active[Storing(s, e).value].owner;
      s.workers[i := Cancel(s.workers[i])]
    else if Shutting(s, e).Some? && HasWorker(s, Shutting(s, e).value) && s.active[Shutting(s, e).value].observer then
      var i := s.active[Shutting(s, e).value].owner;
      s.workers[i := Shut(s.workers[i])]
    else s.workers
  }

  predicate HasWorker(s: State, key: Json) {
    key in s.active && s.active[key].owner < |s.workers|
  }

  function NextActive(s: State, e: Event): map<Json, Entry>
    requires Enabled(s, e)
  {
    if Admits(s, e) then s.active[s.reader.call.key := Entry(|s.workers|, false)]
    else if !e.WorkerStep? then s.active
    else
      var key := s.workers[e.i].call.key;
      match EffectOf(s.workers[e.i].pc)
      case RegisterObserver => if key in s.active then s.active[key := s.active[key].(observer := true)] else s.active
      case RemoveEntry => s.active - {key}
      case _ => s.active
  }

  /** The position of the handle joined in this step, if one is. */
  function Joins(s: State, e: Event): Option<nat>
    requires Enabled(s, e)
  {
    if e.Poll? && e.finished then Some(s.reader.index)
    else if e.ReaderStep? && s.reader.JoiningAll? && s.handles != [] then Some(0)
    else None
  }

  function NextHandles(s: State, e: Event): seq<nat>
    requires Enabled(s, e)
  {
    if Admits(s, e) then s.handles + [|s.workers|]
    else match Joins(s, e)
         case None => s.handles
         case Some(k) => if s.reader.Reaping? then Workers.SwapRemove(s.handles, k) else s.handles[1..]
  }

  function NextJoined(s: State, e: Event): seq<nat>
    requires Enabled(s, e)
  {
    match Joins(s, e)
    case None => s.joined
    case Some(k) => s.joined + [s.handles[k]]
  }

  /** The reader has a line it has not answered or handed over. */
  predicate HasLine(reader: ReaderPc) {
    reader.Replying? || reader.CapacityCheck? || reader.Admitting?
  }

  function NextAnswers(s: State, e: Event): seq<LineAnswer>
    requires Enabled(s, e)
  {
    match e
    case Take(line) => if HasLine(AfterLine(s, line)) then s.answers else s.answers + [Silent]
    case WriteReply(ok) => s.answers + [ByReader(s.reader.reply, ok)]
    case _ => if Admits(s, e) then s.answers + [ByWorker(|s.workers|)] else s.answers
  }

  function Apply(s: State, e: Event): State
    requires Enabled(s, e)
  {
    State(
      NextSession(s, e), NextReader(s, e), NextAlive(s, e), NextActive(s, e), NextWorkers(s, e),
      NextHandles(s, e), NextJoined(s, e),
      if e.Take? then s.lines + [e.line] else s.lines,
      NextAnswers(s, e))
  }

  function Run(s: State, events: seq<Event>): Option<State>
    decreases |events|
  {
    if events == [] then Some(s)
    else if !Enabled(s, events[0]) then None
    else Run(Apply(s, events[0]), events[1..])
  }

  // ----- Steps that wait for somebody else -----

  /** The worker's next step is to write a line to the client. */
  predicate WritesLine(pc: Pc) {
    pc.EarlyWrite? || pc.Notifying? || pc.LastWrite?
  }

  /** The worker's next step may block: on a client that takes no line, on a Message that
  takes no connection, or, unless its socket has been shut, on a Message that takes
  no query or sends no response. */
  predicate MayBlock(w: Worker) {
    || WritesLine(w.pc) || w.pc.Connecting?
    || ((w.pc.SendingQuery? || w.pc.Reading?) && !w.socket.ShutSocket?)
  }

  /** The step is taken by a thread of the adapter without waiting for the client or for
  Message. */
  predicate Unaided(s: State, e: Event) {
    match e
    case WorkerStep(i, _) => i < |s.workers| && !MayBlock(s.workers[i])
    case Take(_) | WriteReply(_) => false
    case Poll(_) | SweepOne(_) | ReaderStep => true
  }
}
