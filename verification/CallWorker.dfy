/** One MCP call on its worker thread, as the sequence of its visible actions: every
load or store of a shared flag, every socket operation, every write and every use of
the shared map is a step of its own. */
module CallWorker {
  import opened Wrappers
  import opened Contract
  import opened Clients
  import McpSession

  /** Why a call ends before its read loop. */
  datatype Early = CancelledAtStart | ConnectFailed | CloneFailed | SendFailedEarly

  datatype Pc =
    | Start
    | EarlyAlive(early: Early) | EarlyText(early: Early) | EarlyCode(early: Early, text: bool)
    | EarlyWrite(early: Early, text: bool, code: bool) | EarlyRemove
    | Connecting | Cloning | Registering | Checking | SelfShutting | SendingQuery
    | Looping | Reading | Notifying(response: Response)
    | StopCancel | StopAlive | StopShut
    | Faulted | Removing | LastCancelled | LastAlive | LastWrite
    | Done

  datatype Socket = NotOpen | OpenSocket | ShutSocket

  /** The one JSON-RPC response of a call. Early errors keep the two loads of the
  cancelled flag that choose their text and their code. */
  datatype Final =
    | Settled(verdict: Verdict)
    | StreamFault(accepted: bool)
    | CancelledAt(cursor: Option<int>)
    | EarlyError(early: Early, text: bool, code: bool)

  /** A line the worker tried to write to the client, and whether that worked. */
  datatype Written =
    | Progress(token: McpSession.Json, n: nat, response: Response, ok: bool)
    | FinalLine(id: McpSession.Json, final: Final, ok: bool)

  /** `read`, `log`, `queries` and `late` are histories: the responses read, the lines
  tried, the queries begun, and the reads that ended after the cancellation. */
  datatype Worker = Worker(
    call: McpSession.CallRequest,
    pc: Pc,
    cancelled: bool,
    socket: Socket,
    view: View,
    progress: nat,
    final: Option<Final>,
    read: seq<Response>,
    log: seq<Written>,
    queries: nat,
    late: nat)

  function Fresh(call: McpSession.CallRequest): Worker {
    Worker(call, Start, false, NotOpen, FRESH, 0, None, [], [], 0, 0)
  }

  /** What the outside makes of a step that asks it something. */
  datatype Choice = Works | Fails | Gives(response: Response)

  /** What a step does to the shared state. */
  datatype Effect = Quiet | RegisterObserver | RemoveEntry | StopConnection

  // ----- The steps -----

  /** Where the worker goes next. */
  function NextPc(w: Worker, alive: bool, c: Choice): Pc {
    match w.pc
    case Start => if w.cancelled then EarlyAlive(CancelledAtStart) else Connecting
    case EarlyAlive(early) =>
      if !alive then EarlyRemove
      else (match early
            case CancelledAtStart => EarlyWrite(early, true, true)
            case CloneFailed => EarlyWrite(early, false, false)
            case _ => EarlyText(early))
    case EarlyText(early) => EarlyCode(early, w.cancelled)
    case EarlyCode(early, text) => EarlyWrite(early, text, w.cancelled)
    case EarlyWrite(_, _, _) => EarlyRemove
    case EarlyRemove => Done
    case Connecting => if c.Fails? then EarlyAlive(ConnectFailed) else Cloning
    case Cloning => if c.Fails? then EarlyAlive(CloneFailed) else Registering
    case Registering => Checking
    case Checking => if w.cancelled then SelfShutting else SendingQuery
    case SelfShutting => Looping
    case SendingQuery => if c.Fails? then EarlyAlive(SendFailedEarly) else Looping
    case Looping => if w.cancelled then Removing else Reading
    case Reading => if c.Gives? then Notifying(c.response) else Faulted
    case Notifying(response) =>
      if c.Fails? then StopCancel else if TerminalFor(response, w.view.accepted) then Removing else Looping
    case StopCancel => StopAlive
    case StopAlive => StopShut
    case StopShut => Removing
    case Faulted => Removing
    case Removing => if w.final.None? then LastCancelled else LastWrite
    case LastCancelled => if w.cancelled then LastAlive else Done
    case LastAlive => if alive then LastWrite else Done
    case LastWrite => Done
    case Done => Done
  }

  function EffectOf(pc: Pc): Effect {
    match pc
    case Registering => RegisterObserver
    case EarlyRemove | Removing => RemoveEntry
    case StopAlive => StopConnection
    case _ => Quiet
  }

  function NextSocket(w: Worker, c: Choice): Socket {
    if w.pc.Connecting? && !c.Fails? then OpenSocket
    else if w.pc.SelfShutting? || w.pc.StopShut? then ShutSocket
    else w.socket
  }

  /** The response to write at the end, once one is chosen. */
  function NextFinal(w: Worker, alive: bool, c: Choice): Option<Final> {
    match w.pc
    case Notifying(response) =>
      if !c.Fails? && TerminalFor(response, w.view.accepted) then Some(Settled(VerdictFor(response, w.view))) else w.final
    case Faulted => if w.cancelled then w.final else Some(StreamFault(w.view.accepted.Some?))
    case LastAlive => if alive then Some(CancelledAt(w.view.cursor)) else w.final
    case _ => w.final
  }

  function NextLog(w: Worker, c: Choice): seq<Written> {
    match w.pc
    case EarlyWrite(early, text, code) => w.log + [FinalLine(w.call.key, EarlyError(early, text, code), !c.Fails?)]
    case Notifying(response) => w.log + [Progress(w.call.token, w.progress, response, !c.Fails?)]
    case LastWrite => if w.final.Some? then w.log + [FinalLine(w.call.key, w.final.value, !c.Fails?)] else w.log
    case _ => w.log
  }

  function Step(w: Worker, alive: bool, c: Choice): Worker {
    var got := w.pc.Reading? && c.Gives?;
    Worker(
      w.call,
      NextPc(w, alive, c),
      w.cancelled || w.pc.StopCancel?,
      NextSocket(w, c),
      if got then Absorb(w.view, c.response) else w.view,
      if got then w.progress + 1 else w.progress,
      NextFinal(w, alive, c),
      if got then w.read + [c.response] else w.read,
      NextLog(w, c),
      if w.pc.SendingQuery? then w.queries + 1 else w.queries,
      if w.pc.Reading? && w.cancelled then w.late + 1 else w.late)
  }

  /** The connection flag after the step. */
  function StillAlive(w: Worker, alive: bool): bool {
    alive && !EffectOf(w.pc).StopConnection?
  }

  /** The steps that use the shared map, and so wait for its lock. */
  predicate NeedsLock(pc: Pc) {
    pc.Registering? || pc.EarlyRemove? || pc.Removing?
  }

  /** The call still has its entry in the shared map. */
  predicate InMap(pc: Pc) {
    !(pc.LastCancelled? || pc.LastAlive? || pc.LastWrite? || pc.Done?)
  }

  /** The other threads' actions on a call: cancelling it and shutting its socket. */
  function Cancel(w: Worker): Worker {
    w.(cancelled := true)
  }

  function Shut(w: Worker): Worker {
    w.(socket := ShutSocket)
  }

  // ----- One final response, after the progress, and none missing -----

  /** How many progress lines have been tried. */
  function Told(w: Worker): nat {
    if w.pc.Notifying? && w.progress > 0 then w.progress - 1 else w.progress
  }

  /** The log is the progress lines 1, 2, 3, ... in reading order, under the call's token,
  then at most one final response, to the call's id, tried last. */
  ghost predicate LogShape(w: Worker) {
    && w.progress == |w.read|
    && (w.pc.Notifying? ==> w.read != [] && w.read[|w.read| - 1] == w.pc.response)
    && Told(w) <= |w.log| <= Told(w) + 1
    && (forall i | 0 <= i < Told(w) ::
          w.log[i].Progress? && w.log[i].token == w.call.token && w.log[i].n == i + 1 && w.log[i].response == w.read[i])
    && (|w.log| == Told(w) + 1 ==> w.log[Told(w)].FinalLine? && w.log[Told(w)].id == w.call.key && (w.pc.EarlyRemove? || w.pc.Done?))
  }

  /** Leaving the loop without a response means the flag is set; ending without having
  tried a final response means the connection is not alive. */
  ghost predicate FinalOwed(w: Worker, alive: bool) {
    && (w.final.Some? ==> w.pc.Removing? || w.pc.LastWrite? || w.pc.Done?)
    && (w.pc.LastWrite? ==> w.final.Some?)
    && (w.pc.Removing? && w.final.None? ==> w.cancelled)
    && (w.pc.LastCancelled? || w.pc.LastAlive? || w.pc.StopAlive? || w.pc.StopShut? ==> w.cancelled)
    && ((w.pc.EarlyRemove? || w.pc.Done?) && |w.log| == Told(w) ==> !alive)
  }

  // ----- What is read, and what is answered -----

  /** The view is what was read; nothing read before the last response was terminal, and
  nothing at all while the loop goes on. */
  ghost predicate ReadUpToTerminal(w: Worker) {
    && w.view == AbsorbAll(FRESH, w.read)
    && (Deciding(w.pc) ==>
          w.read != [] && !McpReads(FRESH, w.read[..|w.read| - 1]).ended)
    && (GoingOn(w.pc) ==> !McpReads(FRESH, w.read).ended)
    && (!Started(w.pc) ==> w.read == [])
  }

  /** The response chosen, and the response tried, are backed by what was read. */
  ghost predicate FinalBacked(w: Worker) {
    && (w.final.Some? ==> Backed(w.read, w.final.value))
    && (w.progress < |w.log| && w.log[w.progress].FinalLine? ==> Backed(w.read, w.log[w.progress].final))
  }

  /** The read loop has been reached. */
  predicate Started(pc: Pc) {
    !(pc.Start? || pc.EarlyAlive? || pc.EarlyText? || pc.EarlyCode? || pc.EarlyWrite? || pc.EarlyRemove?
      || pc.Connecting? || pc.Cloning? || pc.Registering? || pc.Checking? || pc.SelfShutting? || pc.SendingQuery?)
  }

  /** Exactly these responses were read when the last one was found terminal, and the
  verdict is the one it calls for. */
  ghost predicate SettledBy(read: seq<Response>, v: Verdict) {
    && McpReads(FRESH, read) == Reads(|read|, true)
    && read != [] && v == VerdictFor(read[|read| - 1], AbsorbAll(FRESH, read))
  }

  /** A settled answer is the verdict on the last response read, the first terminal one;
  a cancelled one names the last durable cursor read; a broken stream's says whether an
  acceptance was read, and an early one that nothing was. */
  ghost predicate Backed(read: seq<Response>, final: Final) {
    match final
    case Settled(v) => SettledBy(read, v)
    case CancelledAt(cursor) => cursor == AbsorbAll(FRESH, read).cursor
    case StreamFault(accepted) => !McpReads(FRESH, read).ended && (accepted <==> AbsorbAll(FRESH, read).accepted.Some?)
    case EarlyError(_, _, _) => read == []
  }

  lemma {:induction false} McpReadsOneMore(view: View, read: seq<Response>, response: Response)
    requires !McpReads(view, read).ended
    ensures McpReads(view, read + [response]) ==
            Reads(|read| + 1, TerminalFor(response, AbsorbAll(view, read + [response]).accepted))
    ensures AbsorbAll(view, read + [response]) == Absorb(AbsorbAll(view, read), response)
    decreases |read|
  {
    AbsorbAllAppend(view, read, [response]);
    if read == [] {
      assert read + [response] == [response];
    } else {
      assert (read + [response])[1..] == read[1..] + [response];
      McpReadsOneMore(Absorb(view, read[0]), read[1..], response);
    }
  }

  // ----- Early errors -----

  /** What an early error tells: whether the query was begun, and a cancellation. */
  predicate Caused(w: Worker, early: Early, text: bool, code: bool) {
    && w.queries == (if early.SendFailedEarly? then 1 else 0)
    && (early.CancelledAtStart? || text || code ==> w.cancelled)
  }

  ghost predicate EarlyTold(w: Worker) {
    && (match w.pc
        case EarlyAlive(early) => Caused(w, early, false, false)
        case EarlyText(early) => Caused(w, early, false, false)
        case EarlyCode(early, text) => Caused(w, early, text, false)
        case EarlyWrite(early, text, code) => Caused(w, early, text, code)
        case _ => true)
    && (w.progress < |w.log| && w.log[w.progress].FinalLine? ==>
          match w.log[w.progress].final
          case EarlyError(early, text, code) => Caused(w, early, text, code)
          case CancelledAt(_) => w.cancelled
          case _ => true)
    && !(w.final.Some? && w.final.value.EarlyError?)
    && (w.final.Some? && w.final.value.CancelledAt? ==> w.cancelled)
  }

  // ----- Cancellation and the query -----

  ghost predicate FewLateReads(w: Worker) {
    && w.late <= 1
    && (w.late == 1 ==> w.cancelled && !w.pc.Reading?)
    && (w.pc.Reading? && w.cancelled ==> w.late == 0)
  }

  /** The query is begun at most once, and the loop is reached without it only after a
  cancellation. */
  ghost predicate OneQuery(w: Worker) {
    && w.queries <= 1
    && (BeforeQuery(w.pc) ==> w.queries == 0)
    && (w.pc.SelfShutting? ==> w.cancelled)
    && (w.queries == 0 && InLoop(w.pc) ==> w.cancelled)
  }

  predicate InLoop(pc: Pc) {
    pc.Looping? || pc.Reading? || pc.Notifying? || pc.StopCancel? || pc.StopAlive? || pc.StopShut? || pc.Faulted? || pc.Removing?
  }

  predicate BeforeQuery(pc: Pc) {
    pc.Start? || pc.Connecting? || pc.Cloning? || pc.Registering? || pc.Checking? || pc.SelfShutting? || pc.SendingQuery?
  }

  ghost predicate LocalInv(w: Worker, alive: bool) {
    LogShape(w) && FinalOwed(w, alive) && ReadUpToTerminal(w) && FinalBacked(w) && FewLateReads(w) && OneQuery(w) && EarlyTold(w)
  }

  lemma ReadKeepsLogShape(w: Worker, response: Response, v: Worker)
    requires LogShape(w) && w.pc.Reading?
    requires v.call == w.call && v.pc == Notifying(response) && v.log == w.log && v.read == w.read + [response] && v.progress == w.progress + 1
    ensures LogShape(v)
  {
  }

  lemma ToldKeepsLogShape(w: Worker, ok: bool, v: Worker)
    requires LogShape(w) && w.pc.Notifying?
    requires v.log == w.log + [Progress(w.call.token, w.progress, w.pc.response, ok)]
    requires v.call == w.call && v.read == w.read && v.progress == w.progress
    requires !v.pc.Notifying?
    ensures LogShape(v)
  {
    assert |w.log| == Told(w);
    assert v.log[..|w.log|] == w.log;
  }

  lemma StepKeepsLogShape(w: Worker, alive: bool, c: Choice)
    requires LogShape(w)
    ensures LogShape(Step(w, alive, c))
  {
    var v := Step(w, alive, c);
    if w.pc.Notifying? {
      ToldKeepsLogShape(w, !c.Fails?, v);
    } else if w.pc.Reading? && c.Gives? {
      ReadKeepsLogShape(w, c.response, v);
    }
  }

  lemma StepKeepsFinalOwed(w: Worker, alive: bool, c: Choice)
    requires LogShape(w) && FinalOwed(w, alive)
    ensures FinalOwed(Step(w, alive, c), StillAlive(w, alive))
  {
  }

  lemma ReadKeepsReading(w: Worker, response: Response, v: Worker)
    requires ReadUpToTerminal(w) && w.pc.Reading?
    requires v.pc == Notifying(response) && v.read == w.read + [response] && v.view == Absorb(w.view, response)
    ensures ReadUpToTerminal(v)
  {
    AbsorbAllAppend(FRESH, w.read, [response]);
    assert v.read[..|w.read|] == w.read;
  }

  /** The pcs at which the last response read may be terminal, and those at which
  nothing read is. */
  predicate Deciding(pc: Pc) {
    pc.Notifying? || pc.StopCancel? || pc.StopAlive? || pc.StopShut?
  }

  predicate GoingOn(pc: Pc) {
    pc.Looping? || pc.Reading? || pc.Faulted?
  }

  lemma PcFlow(w: Worker, alive: bool, c: Choice)
    requires !(w.pc.Reading? && c.Gives?)
    ensures var pc := NextPc(w, alive, c);
            && (Deciding(pc) ==> Deciding(w.pc))
            && (GoingOn(pc) ==> GoingOn(w.pc) || !Started(w.pc) || (w.pc.Notifying? && !TerminalFor(w.pc.response, w.view.accepted)))
            && (!Started(pc) ==> !Started(w.pc))
  {
  }

  lemma SameReadKeepsReading(w: Worker, v: Worker, ended: bool)
    requires ReadUpToTerminal(w) && v.read == w.read && v.view == w.view
    requires ended == McpReads(FRESH, w.read).ended
    requires Deciding(v.pc) ==> Deciding(w.pc)
    requires GoingOn(v.pc) ==> GoingOn(w.pc) || !Started(w.pc) || !ended
    requires !Started(v.pc) ==> !Started(w.pc)
    ensures ReadUpToTerminal(v)
  {
  }

  lemma StepKeepsReading(w: Worker, alive: bool, c: Choice)
    requires LogShape(w) && ReadUpToTerminal(w)
    ensures ReadUpToTerminal(Step(w, alive, c))
  {
    var v := Step(w, alive, c);
    if w.pc.Reading? && c.Gives? {
      ReadKeepsReading(w, c.response, v);
    } else {
      PcFlow(w, alive, c);
      if w.pc.Notifying? {
        LastReadIsTerminal(w);
      }
      SameReadKeepsReading(w, v, McpReads(FRESH, w.read).ended);
    }
  }

  /** At the notification, the last response read ends the reading exactly when it is
  terminal for the view. */
  lemma LastReadIsTerminal(w: Worker)
    requires w.pc.Notifying? && LogShape(w) && ReadUpToTerminal(w)
    ensures McpReads(FRESH, w.read) == Reads(|w.read|, TerminalFor(w.pc.response, w.view.accepted))
  {
    var earlier := w.read[..|w.read| - 1];
    assert w.read == earlier + [w.pc.response];
    McpReadsOneMore(FRESH, earlier, w.pc.response);
  }

  lemma StepKeepsBacked(w: Worker, alive: bool, c: Choice)
    requires LogShape(w) && FinalOwed(w, alive) && ReadUpToTerminal(w) && FinalBacked(w)
    ensures FinalBacked(Step(w, alive, c))
  {
    if w.pc.Notifying? {
      LastReadIsTerminal(w);
    }
  }

  lemma StepKeepsCancellation(w: Worker, alive: bool, c: Choice)
    requires FewLateReads(w) && OneQuery(w)
    ensures FewLateReads(Step(w, alive, c)) && OneQuery(Step(w, alive, c))
  {
  }

  lemma StepKeepsEarly(w: Worker, alive: bool, c: Choice)
    requires LogShape(w) && FinalOwed(w, alive) && OneQuery(w) && EarlyTold(w)
    ensures EarlyTold(Step(w, alive, c))
  {
  }

  lemma StepKeepsLocalInv(w: Worker, alive: bool, c: Choice)
    requires LocalInv(w, alive)
    ensures LocalInv(Step(w, alive, c), StillAlive(w, alive))
  {
    StepKeepsLogShape(w, alive, c);
    StepKeepsFinalOwed(w, alive, c);
    StepKeepsReading(w, alive, c);
    StepKeepsBacked(w, alive, c);
    StepKeepsCancellation(w, alive, c);
    StepKeepsEarly(w, alive, c);
  }

  /** The actions of the other threads keep it too. */
  lemma OthersKeepLocalInv(w: Worker, alive: bool)
    requires LocalInv(w, alive)
    ensures LocalInv(w, false) && LocalInv(Cancel(w), alive) && LocalInv(Shut(w), alive)
  {
  }
}
