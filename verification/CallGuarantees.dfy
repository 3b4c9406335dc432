/** What holds of the MCP adapter over every interleaving of its reader, its workers,
cancellations, write failures and end of input. */
module CallGuarantees {
  import opened Wrappers
  import opened Clients
  import opened McpSession
  import opened CallWorker
  import opened CallMachine
  import opened CallInvariants
  import opened LineAnswers
  import Workers

  /** The state a run of events from the start leads to. */
  ghost predicate Reaches(events: seq<Event>, s: State) {
    Run(START, events) == Some(s)
  }

  lemma ReachedHasInv(events: seq<Event>, s: State)
    requires Reaches(events, s)
    ensures Inv(s)
  {
    StartHasInv();
    RunKeepsInv(START, events);
  }

  lemma ReachedHasLineInv(events: seq<Event>, s: State)
    requires Reaches(events, s)
    ensures LineInv(s)
  {
    StartHasLineInv();
    RunKeepsLineInv(START, events);
  }

  // ----- One final response -----

  /** Everything a call writes: the progress lines 1, 2, 3, ... under its token for the
  responses in the order read, then at most one final response, to its id, and nothing
  after it. */
  lemma AtMostOneFinalAtTheEnd(events: seq<Event>, s: State, i: nat, k: nat)
    requires Reaches(events, s) && i < |s.workers| && k < |s.workers[i].log|
    ensures var w := s.workers[i];
            && (w.log[k].Progress? ==>
                  k < |w.read| && w.log[k].token == w.call.token && w.log[k].n == k + 1 && w.log[k].response == w.read[k])
            && (w.log[k].FinalLine? ==> k == |w.log| - 1 == |w.read| && w.log[k].id == w.call.key)
  {
    ReachedHasInv(events, s);
    assert LocalInv(s.workers[i], s.alive);
  }

  /** A call that has ended has tried exactly one final response, unless the connection
  is no longer alive; and a connection that is alive always was. */
  lemma ExactlyOneFinalWhileAlive(events: seq<Event>, s: State, i: nat)
    requires Reaches(events, s) && i < |s.workers| && s.workers[i].pc.Done? && s.alive
    ensures var w := s.workers[i]; |w.log| == |w.read| + 1 && w.log[|w.read|].FinalLine?
  {
    ReachedHasInv(events, s);
    assert LocalInv(s.workers[i], s.alive);
  }

  lemma {:induction false} AliveWasAlive(s: State, events: seq<Event>)
    requires Run(s, events).Some? && Run(s, events).value.alive
    ensures s.alive
    decreases |events|
  {
    if events == [] {
    } else {
      AliveWasAlive(Apply(s, events[0]), events[1..]);
    }
  }

  /** A call leaves its read loop without a response only when it has been cancelled. */
  lemma NoResponseMeansCancelled(events: seq<Event>, s: State, i: nat)
    requires Reaches(events, s) && i < |s.workers|
    requires s.workers[i].pc.Removing? && s.workers[i].final.None?
    ensures s.workers[i].cancelled
  {
    ReachedHasInv(events, s);
    assert LocalInv(s.workers[i], s.alive);
  }

  /** What the final response of a call tells, whatever its kind: a settled one is the
  verdict on the first terminal response, the last one read; a broken stream's says
  whether the delivery had been accepted; a cancelled one comes of a cancellation and
  names the last cursor read; and an early one means that nothing was read, and that
  the query was not even begun unless it is the sending that failed. */
  lemma FinalsAreTruthful(events: seq<Event>, s: State, i: nat, k: nat)
    requires Reaches(events, s) && i < |s.workers| && k < |s.workers[i].log| && s.workers[i].log[k].FinalLine?
    ensures Truthful(s.workers[i], s.workers[i].log[k].final)
  {
    ReachedHasInv(events, s);
    assert LocalInv(s.workers[i], s.alive);
    LoggedFinalIsTruthful(s.workers[i], k);
  }

  ghost predicate Truthful(w: Worker, final: Final) {
    match final
    case Settled(v) =>
      McpReads(FRESH, w.read) == Reads(|w.read|, true) && w.read != []
      && v == VerdictFor(w.read[|w.read| - 1], AbsorbAll(FRESH, w.read))
    case StreamFault(accepted) =>
      !McpReads(FRESH, w.read).ended && (accepted <==> AbsorbAll(FRESH, w.read).accepted.Some?)
    case CancelledAt(cursor) => w.cancelled && cursor == AbsorbAll(FRESH, w.read).cursor
    case EarlyError(early, text, code) =>
      w.read == [] && (w.queries == 0 <==> !early.SendFailedEarly?)
      && (early.CancelledAtStart? || text || code ==> w.cancelled)
  }

  lemma LoggedFinalIsTruthful(w: Worker, k: nat)
    requires LogShape(w) && FinalBacked(w) && EarlyTold(w) && k < |w.log| && w.log[k].FinalLine?
    ensures Truthful(w, w.log[k].final)
  {
    assert k == Told(w) == w.progress;
  }

  /** One response per line of input: a line that calls for none gets none; any other is
  answered once by the reader, with the reply that is apt after the lines before it and
  that carries its id, or is the call of one worker, which has its id, token and query
  and whose own log has the response; and every worker has one line. */
  lemma OneResponsePerLine(events: seq<Event>, s: State, k: nat)
    requires Reaches(events, s) && k < |s.lines|
    ensures |s.answers| <= |s.lines| <= |s.answers| + 1
    ensures |s.lines| == |s.answers| + 1 <==> HasLine(s.reader)
    ensures k < |s.answers| ==> (s.answers[k].Silent? <==> !Expects(s.lines[k]))
    ensures k < |s.answers| && s.answers[k].ByReader? ==>
              Addressed(s.lines[k], s.answers[k].reply) && Apt(s.lines[..k], s.lines[k], s.answers[k].reply)
    ensures k < |s.answers| && s.answers[k].ByWorker? ==>
              var i := s.answers[k].owner;
              && i < |s.workers| && CallsFor(s.lines[k], s.workers[i].call) && ShookHands(s.lines[..k])
              && (forall j | 0 <= j < |s.answers| && s.answers[j] == ByWorker(i) :: j == k)
              && (forall m | 0 <= m < |s.workers[i].log| && s.workers[i].log[m].FinalLine? :: m == |s.workers[i].read|)
              && (s.workers[i].pc.Done? && s.alive ==>
                    |s.workers[i].log| == |s.workers[i].read| + 1 && s.workers[i].log[|s.workers[i].read|].FinalLine?)
    ensures forall i | 0 <= i < |s.workers| :: ByWorker(i) in s.answers
  {
    ReachedHasInv(events, s);
    ReachedHasLineInv(events, s);
    if k < |s.answers| {
      assert Accounts(s, k);
      if s.answers[k].ByWorker? {
        OneFinal(s.workers[s.answers[k].owner], s.alive);
      }
    }
  }

  /** The reader leaves its loop after the end of input or a reply that could not be
  written, and only then; it takes no line after that one. */
  lemma NoLineAfterTheLast(events: seq<Event>, s: State, k: nat)
    requires Reaches(events, s) && k < |s.answers|
    ensures k < |s.lines| && (Ends(s.lines[k], s.answers[k]) ==> k == |s.lines| - 1 && Left(s.reader))
    ensures Left(s.reader) ==> |s.answers| == |s.lines| && Ends(s.lines[|s.lines| - 1], s.answers[|s.lines| - 1])
  {
    ReachedHasLineInv(events, s);
  }

  /** A call is refused for capacity only when 16 calls are active or 65536 ids used, and
  then always. */
  lemma RefusedForCapacityExactly(events: seq<Event>, s: State, e: Event)
    requires Reaches(events, s) && Enabled(s, e)
    ensures var t := Apply(s, e);
            && (t.reader.Replying? && !s.reader.Replying? && t.reader.reply.Error? && t.reader.reply.code == -32000 ==>
                  |s.active| == MAX_ACTIVE_CALLS || |s.session.seen| == MAX_SEEN_CALLS)
            && (s.reader.CapacityCheck? && e.ReaderStep? && |s.active| == MAX_ACTIVE_CALLS ==>
                  t.reader.Replying? && t.workers == s.workers)
            && (s.reader.CapacityCheck? && e.ReaderStep? && |s.active| < MAX_ACTIVE_CALLS ==> t.reader.Admitting?)
  {
    ReachedHasInv(events, s);
    CapacityStep(s, e);
  }

  lemma CapacityStep(s: State, e: Event)
    requires Bounded(s) && Enabled(s, e)
    ensures var reader := NextReader(s, e);
            && (reader.Replying? && !s.reader.Replying? && reader.reply.Error? && reader.reply.code == -32000 ==>
                  |s.active| == MAX_ACTIVE_CALLS || |s.session.seen| == MAX_SEEN_CALLS)
            && (s.reader.CapacityCheck? && e.ReaderStep? ==>
                  (if |s.active| == MAX_ACTIVE_CALLS then reader.Replying? else reader.Admitting?) && NextWorkers(s, e) == s.workers)
  {
    if e.Take? {
      LineRefusedForCapacity(s, e.line);
    }
  }

  lemma LineRefusedForCapacity(s: State, line: Line)
    ensures var reader := AfterLine(s, line);
            reader.Replying? && reader.reply.Error? && reader.reply.code == -32000 ==> |s.session.seen| >= MAX_SEEN_CALLS
  {
  }

  lemma OneFinal(w: Worker, alive: bool)
    requires LogShape(w) && FinalOwed(w, alive)
    ensures forall m | 0 <= m < |w.log| && w.log[m].FinalLine? :: m == |w.read|
    ensures w.pc.Done? && alive ==> |w.log| == |w.read| + 1 && w.log[|w.read|].FinalLine?
  {
  }

  // ----- No cancellation is lost -----

  /** Once the reader has finished with a cancelled call, whether by a cancel or by the
  sweep, its socket is shut, or it has not passed the check after its registration,
  or it is out of its loop; and after its cancellation no call ever finishes more
  than one read. */
  lemma NoCancellationIsLost(events: seq<Event>, s: State, i: nat)
    requires Reaches(events, s) && i < |s.workers| && s.workers[i].cancelled
    ensures MidCancel(s, s.workers[i].call.key) || Safe(s.workers[i])
    ensures s.workers[i].late <= 1
  {
    ReachedHasInv(events, s);
    assert LocalInv(s.workers[i], s.alive);
  }

  /** The line cancels the request with this id. */
  predicate Cancels(line: Line, key: Json) {
    line.Got? && line.input.command == Some("notifications/cancelled") && line.input.params.requestId == Some(key)
  }

  /** The cancellation has come to its call, for good: the call is cancelled or has
  removed its entry, and cannot wait on an open socket. */
  predicate Stopped(w: Worker) {
    (w.cancelled || !InMap(w.pc)) && Safe(w)
  }

  /** The reader is at work on the cancel line, the n-th, or is done with it. */
  predicate Stopping(s: State, key: Json, i: nat, n: nat) {
    && i < |s.workers| && s.workers[i].call.key == key
    && (Stopped(s.workers[i])
        || (|s.lines| == n
            && (s.reader == CancelStore(key)
                || (s.reader == CancelShut(key) && (s.workers[i].cancelled || !InMap(s.workers[i].pc))))))
  }

  lemma StoppedStays(w: Worker, alive: bool, c: Choice)
    requires Stopped(w) && OneQuery(w)
    ensures Stopped(Step(w, alive, c)) && Stopped(Cancel(w)) && Stopped(Shut(w))
  {
  }

  lemma StoppedStep(s: State, e: Event, i: nat)
    requires Locals(s) && Enabled(s, e) && i < |s.workers| && Stopped(s.workers[i])
    ensures i < |NextWorkers(s, e)| && Stopped(NextWorkers(s, e)[i])
  {
    WorkersKept(s, e);
    assert LocalInv(s.workers[i], s.alive);
    if e.WorkerStep? && e.i == i {
      StoppedStays(s.workers[i], s.alive, e.choice);
    } else {
      StoppedStays(s.workers[i], s.alive, Works);
    }
  }

  lemma StoppingStep(s: State, e: Event, key: Json, i: nat, n: nat)
    requires Inv(s) && Enabled(s, e) && Stopping(s, key, i, n)
    ensures Stopping(Apply(s, e), key, i, n)
  {
    WorkersKept(s, e);
    if Stopped(s.workers[i]) {
      StoppedStep(s, e, i);
    } else if e.WorkerStep? {
      LockedKeepsEntry(s, e.i, e.choice);
    } else if s.reader == CancelStore(key) {
      StoreReachesOwner(s, key, i);
    } else {
      StepKeepsInv(s, e);
      ShutStops(s, e, key, i);
    }
  }

  /** The second half of a cancel ends with its call stopped. */
  lemma ShutStops(s: State, e: Event, key: Json, i: nat)
    requires Enabled(s, e) && !e.WorkerStep? && s.reader == CancelShut(key) && NoneLost(Apply(s, e))
    requires i < |s.workers| && s.workers[i].call.key == key && (s.workers[i].cancelled || !InMap(s.workers[i].pc))
    ensures i < |NextWorkers(s, e)| && Stopped(NextWorkers(s, e)[i])
  {
    WorkersKept(s, e);
    var t := Apply(s, e);
    assert t.reader == Awaiting;
    CancelledOrOut(s, t, i);
  }

  /** While the reader holds the lock no worker removes its entry. */
  lemma LockedKeepsEntry(s: State, i: nat, c: Choice)
    requires Locked(s) && Enabled(s, WorkerStep(i, c))
    ensures InMap(NextPc(s.workers[i], s.alive, c)) <==> InMap(s.workers[i].pc)
    ensures s.workers[i].cancelled ==> Step(s.workers[i], s.alive, c).cancelled
  {
    EntryFlow(s.workers[i], s.alive, c);
  }

  lemma StoreReachesOwner(s: State, key: Json, i: nat)
    requires EntriesOwned(s) && KeysUnique(s) && i < |s.workers| && s.workers[i].call.key == key
    requires s.reader == CancelStore(key)
    ensures var w := NextWorkers(s, ReaderStep)[i]; w.cancelled || !InMap(w.pc)
  {
    if InMap(s.workers[i].pc) {
      assert s.active[key].owner == i;
    }
  }

  lemma CancelledOrOut(s: State, t: State, i: nat)
    requires NoneLost(t) && i < |s.workers| <= |t.workers| && !MidCancel(t, t.workers[i].call.key)
    requires s.workers[i].cancelled || !InMap(s.workers[i].pc)
    requires s.workers[i].cancelled ==> t.workers[i].cancelled
    requires t.workers[i].pc == s.workers[i].pc
    ensures Stopped(t.workers[i])
  {
  }

  lemma {:induction false} StoppingRun(s: State, more: seq<Event>, t: State, key: Json, i: nat, n: nat)
    requires Inv(s) && Stopping(s, key, i, n) && Run(s, more) == Some(t)
    ensures Stopping(t, key, i, n)
    decreases |more|
  {
    if more == [] {
    } else {
      StoppingStep(s, more[0], key, i, n);
      StepKeepsInv(s, more[0]);
      StoppingRun(Apply(s, more[0]), more[1..], t, key, i, n);
    }
  }

  /** A cancel line for an active call reaches it: in every run after the line, once the
  reader awaits another line, has taken one or has left its loop, the call admitted with
  that id is cancelled or has removed its entry, and never again waits on an open
  socket. */
  lemma CancelLineReachesItsCall(events: seq<Event>, s: State, line: Line, key: Json, more: seq<Event>, t: State)
    requires Reaches(events, s) && s.reader.Awaiting? && Cancels(line, key) && key in s.active
    requires Run(Apply(s, Take(line)), more) == Some(t)
    ensures s.active[key].owner < |s.workers| <= |t.workers|
    ensures t.workers[s.active[key].owner].call.key == key
    ensures t.reader.Awaiting? || |t.lines| > |s.lines| + 1 || Left(t.reader) ==> Stopped(t.workers[s.active[key].owner])
  {
    ReachedHasInv(events, s);
    CancelLineStarts(s, line, key);
    StepKeepsInv(s, Take(line));
    StoppingReaches(Apply(s, Take(line)), more, t, key, s.active[key].owner, |s.lines| + 1);
  }

  lemma StoppingReaches(s: State, more: seq<Event>, t: State, key: Json, i: nat, n: nat)
    requires Inv(s) && Stopping(s, key, i, n) && Run(s, more) == Some(t)
    ensures i < |s.workers| <= |t.workers| && t.workers[i].call.key == key
    ensures t.reader.Awaiting? || |t.lines| > n || Left(t.reader) ==> Stopped(t.workers[i])
  {
    StoppingRun(s, more, t, key, i, n);
    WorkersStay(s, more);
  }

  lemma CancelLineStarts(s: State, line: Line, key: Json)
    requires EntriesOwned(s) && s.reader.Awaiting? && Cancels(line, key) && key in s.active
    ensures s.active[key].owner < |s.workers| == |Apply(s, Take(line)).workers|
    ensures Stopping(Apply(s, Take(line)), key, s.active[key].owner, |s.lines| + 1)
  {
    assert Apply(s, Take(line)).reader == CancelStore(key);
  }

  /** The reader is done with such a line in two steps of its own. */
  lemma CancelTakesTwoSteps(s: State, line: Line, key: Json)
    requires s.reader.Awaiting? && Cancels(line, key) && key in s.active
    ensures var done := Run(s, [Take(line), ReaderStep, ReaderStep]); done.Some? && done.value.reader.Awaiting?
  {
    var a := Apply(s, Take(line));
    assert a.reader == CancelStore(key);
    var b := Apply(a, ReaderStep);
    assert b.reader == CancelShut(key);
    var c := Apply(b, ReaderStep);
    assert c.reader == Awaiting;
    RunFirst(s, Take(line), [ReaderStep] + ([ReaderStep] + []));
    RunFirst(a, ReaderStep, [ReaderStep] + []);
    RunFirst(b, ReaderStep, []);
    assert [Take(line), ReaderStep, ReaderStep] == [Take(line)] + ([ReaderStep] + ([ReaderStep] + []));
    assert Run(c, []) == Some(c);
  }

  lemma RunFirst(s: State, e: Event, more: seq<Event>)
    requires Enabled(s, e)
    ensures Run(s, [e] + more) == Run(Apply(s, e), more)
  {
    assert ([e] + more)[1..] == more;
  }

  lemma {:induction false} WorkersStay(s: State, more: seq<Event>)
    requires Run(s, more).Some?
    ensures |s.workers| <= |Run(s, more).value.workers|
    decreases |more|
  {
    if more == [] {
    } else {
      WorkersKept(s, more[0]);
      WorkersStay(Apply(s, more[0]), more[1..]);
    }
  }

  /** A cancel line for anything else changes nothing at all. */
  lemma OtherCancelLinesDoNothing(s: State, line: Line)
    requires s.reader.Awaiting? && line.Got? && line.input.command == Some("notifications/cancelled")
    requires forall key | key in s.active :: !Cancels(line, key)
    ensures Enabled(s, Take(line)) && Apply(s, Take(line)) == s.(lines := s.lines + [line], answers := s.answers + [Silent])
  {
  }

  // ----- Each key has one owner -----

  /** The map, the workers and the session agree on who owns each key: an entry is its
  worker's from admission until that worker removes it, and no id admits two calls. */
  lemma EveryKeyHasOneOwner(events: seq<Event>, s: State)
    requires Reaches(events, s)
    ensures s.active.Keys <= s.session.seen
    ensures |s.active| <= MAX_ACTIVE_CALLS && |s.session.seen| <= MAX_SEEN_CALLS
    ensures forall k | k in s.active ::
              s.active[k].owner < |s.workers| && s.workers[s.active[k].owner].call.key == k
    ensures forall i | 0 <= i < |s.workers| ::
              InMap(s.workers[i].pc) <==> s.workers[i].call.key in s.active && s.active[s.workers[i].call.key].owner == i
    ensures forall i, j | 0 <= i < j < |s.workers| :: s.workers[i].call.key != s.workers[j].call.key
  {
    ReachedHasInv(events, s);
    forall k | k in s.active ensures k in s.session.seen {
      assert s.workers[s.active[k].owner].call.key in s.session.seen;
    }
  }

  /** Admission never overwrites an entry; storing a flag or shutting a socket for a key
  touches only the call admitted with that key, and storing does set the flag of that
  call while it has its entry. */
  lemma ReaderTouchesOnlyItsKey(events: seq<Event>, s: State, e: Event, j: nat)
    requires Reaches(events, s) && Enabled(s, e) && !e.WorkerStep? && j < |s.workers|
    ensures Admits(s, e) ==> s.reader.call.key !in s.active
    ensures NextWorkers(s, e)[j] != s.workers[j] ==>
              Some(s.workers[j].call.key) == (if Storing(s, e).Some? then Storing(s, e) else Shutting(s, e))
    ensures Storing(s, e) == Some(s.workers[j].call.key) && InMap(s.workers[j].pc) ==> NextWorkers(s, e)[j].cancelled
  {
    ReachedHasInv(events, s);
    TouchesOnlyItsKey(s, e, j);
  }

  lemma TouchesOnlyItsKey(s: State, e: Event, j: nat)
    requires EntriesOwned(s) && KeysUnique(s) && Enabled(s, e) && !e.WorkerStep? && j < |s.workers|
    ensures Admits(s, e) ==> s.reader.call.key !in s.active
    ensures NextWorkers(s, e)[j] != s.workers[j] ==>
              Some(s.workers[j].call.key) == (if Storing(s, e).Some? then Storing(s, e) else Shutting(s, e))
    ensures Storing(s, e) == Some(s.workers[j].call.key) && InMap(s.workers[j].pc) ==> NextWorkers(s, e)[j].cancelled
  {
    if Storing(s, e).Some? || Shutting(s, e).Some? {
      var key := if Storing(s, e).Some? then Storing(s, e).value else Shutting(s, e).value;
      if HasWorker(s, key) && s.active[key].owner == j {
        assert s.workers[j].call.key == key;
      }
    }
  }

  // ----- The session -----

  /** A request id causes at most one query to Message over the whole session, and none
  before an initialize followed by the initialized notification. */
  lemma OneQueryPerId(events: seq<Event>, s: State, i: nat, j: nat)
    requires Reaches(events, s) && i < |s.workers| && j < |s.workers|
    requires s.workers[i].queries > 0
    ensures s.workers[i].queries == 1 && ShookHands(s.lines)
    ensures s.workers[j].call.key == s.workers[i].call.key ==> i == j
  {
    ReachedHasInv(events, s);
    ReachedHasLineInv(events, s);
    assert LocalInv(s.workers[i], s.alive);
    var k :| 0 <= k < |s.answers| && s.answers[k] == ByWorker(i);
    assert Accounts(s, k);
    HandshakeStays(s.lines[..k], s.lines);
  }

  lemma HandshakeStays(lines: seq<Line>, more: seq<Line>)
    requires lines <= more && ShookHands(lines)
    ensures ShookHands(more)
  {
    var i, j :| 0 <= i < j < |lines| && Initializes(lines[i]) && lines[j].Got? && IsInitialized(lines[j].input);
    assert Initializes(more[i]) && more[j].Got? && IsInitialized(more[j].input);
  }

  /** A settled answer rests on the whole reading: the last progress line shows the very
  response it is the verdict on, which was the first terminal one. */
  lemma SettledAnswerIsTheLastProgress(events: seq<Event>, s: State, i: nat, v: Verdict, ok: bool)
    requires Reaches(events, s) && i < |s.workers|
    requires FinalLine(s.workers[i].call.key, Settled(v), ok) in s.workers[i].log
    ensures var w := s.workers[i];
            var n := |w.read|;
            && n > 0 && |w.log| == n + 1 && w.log[n - 1].Progress? && w.log[n - 1].token == w.call.token && w.log[n - 1].n == n
            && McpReads(FRESH, w.read) == Reads(n, true)
            && v == VerdictFor(w.log[n - 1].response, AbsorbAll(FRESH, w.read))
            && (v.Result? ==> v.text == w.log[n - 1].response)
  {
    ReachedHasInv(events, s);
    assert LocalInv(s.workers[i], s.alive);
    SettledLog(s.workers[i], v, ok);
  }

  lemma SettledLog(w: Worker, v: Verdict, ok: bool)
    requires LogShape(w) && FinalBacked(w) && FinalLine(w.call.key, Settled(v), ok) in w.log
    ensures |w.log| == |w.read| + 1 && w.log[|w.read|] == FinalLine(w.call.key, Settled(v), ok)
    ensures SettledBy(w.read, v)
    ensures w.log[|w.read| - 1] == Progress(w.call.token, |w.read|, w.read[|w.read| - 1], w.log[|w.read| - 1].ok)
  {
    var k :| 0 <= k < |w.log| && w.log[k] == FinalLine(w.call.key, Settled(v), ok);
    assert k == Told(w) == |w.read|;
  }

  // ----- Shutdown -----

  /** The reader has left its loop and is yet to join. */
  predicate Leaving(reader: ReaderPc) {
    reader.Silencing? || reader.Closing? || reader.SweepNext? || reader.SweepShut?
  }

  /** How many steps the reader takes before it joins. */
  function ReaderLeft(s: State): nat {
    match s.reader
    case Silencing => 2 * |s.active| + 3
    case Closing => 2 * |s.active| + 2
    case SweepShut(_, todo) => 2 * |todo| + 2
    case SweepNext(todo) => 2 * |todo| + 1
    case _ => 0
  }

  lemma LeavingStep(s: State, e: Event)
    requires Leaving(s.reader) && Enabled(s, e)
    ensures var t := Apply(s, e);
            && (Leaving(t.reader) || t.reader.JoiningAll?)
            && ReaderLeft(t) + (if e.WorkerStep? then 0 else 1) <= ReaderLeft(s)
  {
    if e.WorkerStep? {
      ActiveOnlyShrinks(s, e.i, e.choice);
      assert Apply(s, e).reader == s.reader;
    } else {
      assert Apply(s, e).active == s.active;
      ReaderLeaves(s, e);
    }
  }

  lemma ActiveOnlyShrinks(s: State, i: nat, c: Choice)
    requires Enabled(s, WorkerStep(i, c))
    ensures |NextActive(s, WorkerStep(i, c))| <= |s.active|
  {
    var key := s.workers[i].call.key;
    ShrinkingMap(s.active, key);
    if key in s.active {
      GrowingMap(s.active, key, s.active[key].(observer := true));
    }
  }

  lemma ReaderLeaves(s: State, e: Event)
    requires Leaving(s.reader) && Enabled(s, e) && !e.WorkerStep?
    ensures var reader := NextReader(s, e);
            && (Leaving(reader) || reader.JoiningAll?)
            && ReaderLeft(s.(reader := reader)) < ReaderLeft(s)
  {
    assert |s.active.Keys| == |s.active|;
    if e.SweepOne? {
      assert s.reader.todo == (s.reader.todo - {e.key}) + {e.key};
    }
  }

  function ReaderSteps(events: seq<Event>): nat {
    if events == [] then 0 else (if events[0].WorkerStep? then 0 else 1) + ReaderSteps(events[1..])
  }

  /** From the end of input, or any other way out of its loop, the reader can always take
  a step of its own until it joins, whatever the workers do, and takes at most 35. */
  lemma {:induction false} EndOfInputReachesTheJoins(events: seq<Event>, s: State, more: seq<Event>, t: State)
    requires Reaches(events, s) && Leaving(s.reader) && Run(s, more) == Some(t)
    ensures Leaving(t.reader) || t.reader.JoiningAll? || t.reader.Exited?
    ensures Leaving(t.reader) ==>
              && ReaderSteps(more) + ReaderLeft(t) <= ReaderLeft(s) <= 35
              && exists e :: Enabled(t, e) && Unaided(t, e) && !e.WorkerStep?
    decreases |more|
  {
    ReachedHasInv(events, s);
    if more == [] {
      LeavingCanStep(s);
      LeavingIsShort(s);
    } else {
      var e := more[0];
      LeavingStep(s, e);
      RunOneMore(START, events, e);
      if Apply(s, e).reader.JoiningAll? {
        JoinedForGood(Apply(s, e), more[1..]);
      } else {
        EndOfInputReachesTheJoins(events + [e], Apply(s, e), more[1..], t);
        LeavingIsShort(s);
      }
    }
  }

  lemma LeavingIsShort(s: State)
    requires Bounded(s) && ReaderInMap(s) && Leaving(s.reader)
    ensures ReaderLeft(s) <= 35
  {
    if s.reader.SweepNext? {
      Subset(s.reader.todo, s.active.Keys);
    } else if s.reader.SweepShut? {
      Subset(s.reader.todo + {s.reader.key}, s.active.Keys);
    }
    assert |s.active.Keys| == |s.active|;
  }

  lemma Subset<T>(a: set<T>, b: set<T>)
    requires a <= b
    ensures |a| <= |b|
  {
    assert b == a + (b - a);
  }

  lemma LeavingCanStep(s: State)
    requires Leaving(s.reader)
    ensures exists e :: Enabled(s, e) && Unaided(s, e) && !e.WorkerStep?
  {
    if s.reader.SweepNext? && s.reader.todo != {} {
      var key :| key in s.reader.todo;
      assert Enabled(s, SweepOne(key)) && Unaided(s, SweepOne(key));
    } else {
      assert Enabled(s, ReaderStep) && Unaided(s, ReaderStep);
    }
  }

  lemma {:induction false} JoinedForGood(s: State, more: seq<Event>)
    requires (s.reader.JoiningAll? || s.reader.Exited?) && Run(s, more).Some?
    ensures Run(s, more).value.reader.JoiningAll? || Run(s, more).value.reader.Exited?
    decreases |more|
  {
    if more == [] {
    } else {
      JoinedForGood(Apply(s, more[0]), more[1..]);
    }
  }

  /** Once the reader joins, no worker waits on an open socket, and each has been
  cancelled unless it has already left the map. */
  lemma JoinsNeverWaitOnAnOpenSocket(events: seq<Event>, s: State, i: nat)
    requires Reaches(events, s) && s.reader.JoiningAll? && i < |s.workers|
    ensures s.workers[i].pc.Reading? ==> s.workers[i].socket.ShutSocket?
    ensures InMap(s.workers[i].pc) ==> s.workers[i].cancelled
  {
    ReachedHasInv(events, s);
  }

  /** An upper bound on the steps a cancelled worker has left. */
  function Rank(pc: Pc): nat {
    match pc
    case Start => 20
    case Connecting => 19
    case Cloning => 18
    case Registering => 17
    case Checking => 16
    case SelfShutting | SendingQuery => 15
    case Reading => 14
    case Notifying(_) => 13
    case StopCancel | Faulted => 12
    case StopAlive => 11
    case StopShut | Looping => 10
    case Removing => 9
    case LastCancelled => 8
    case LastAlive => 7
    case LastWrite => 6
    case EarlyAlive(_) => 5
    case EarlyText(_) => 4
    case EarlyCode(_, _) => 3
    case EarlyWrite(_, _, _) => 2
    case EarlyRemove => 1
    case Done => 0
  }

  lemma CancelledStepRanksDown(w: Worker, alive: bool, c: Choice)
    requires !w.pc.Done? && (InMap(w.pc) ==> w.cancelled)
    ensures Rank(NextPc(w, alive, c)) < Rank(w.pc)
  {
  }

  function Ranks(workers: seq<Worker>): nat {
    if workers == [] then 0 else Rank(workers[0].pc) + Ranks(workers[1..])
  }

  lemma {:induction false} RanksUpdate(workers: seq<Worker>, i: nat, w: Worker)
    requires i < |workers|
    ensures Ranks(workers[i := w]) + Rank(workers[i].pc) == Ranks(workers) + Rank(w.pc)
  {
    if i == 0 {
      assert workers[0 := w][1..] == workers[1..];
    } else {
      assert workers[i := w][1..] == workers[1..][i - 1 := w];
      RanksUpdate(workers[1..], i - 1, w);
    }
  }

  function StepsLeft(s: State): nat {
    Ranks(s.workers) + |s.handles| + if s.reader.Exited? then 0 else 1
  }

  lemma DrainStep(s: State, e: Event)
    requires Inv(s) && s.reader.JoiningAll? && Enabled(s, e)
    ensures var t := Apply(s, e);
            (t.reader.JoiningAll? || t.reader.Exited?) && StepsLeft(t) < StepsLeft(s)
  {
    if e.WorkerStep? {
      WorkerDrains(s, e.i, e.choice);
    } else {
      JoinDrains(s, e);
    }
  }

  lemma WorkerDrains(s: State, i: nat, c: Choice)
    requires Swept(s) && EntriesOwned(s) && s.reader.JoiningAll? && Enabled(s, WorkerStep(i, c))
    ensures var t := Apply(s, WorkerStep(i, c));
            t.reader == s.reader && t.handles == s.handles && Ranks(t.workers) < Ranks(s.workers)
  {
    var w := s.workers[i];
    CancelledStepRanksDown(w, s.alive, c);
    RanksUpdate(s.workers, i, Step(w, s.alive, c));
  }

  lemma JoinDrains(s: State, e: Event)
    requires s.reader.JoiningAll? && Enabled(s, e) && !e.WorkerStep?
    ensures var t := Apply(s, e);
            && t.workers == s.workers
            && (if s.handles == [] then t.handles == [] && t.reader.Exited?
                else |t.handles| < |s.handles| && t.reader.JoiningAll?)
  {
  }

  lemma HandleIsSpawned(handles: seq<nat>, joined: seq<nat>, n: nat, h: nat)
    requires Counted(handles, joined, n) && (h in handles || h in joined)
    ensures h < n
  {
    assert h in multiset(handles) + multiset(joined);
    assert h in Workers.Spawned(n);
  }

  /** The thread that the shutdown waits for: the reader, or the worker it joins. */
  predicate AwaitsPeer(s: State) {
    && s.handles != [] && s.handles[0] < |s.workers|
    && (WritesLine(s.workers[s.handles[0]].pc) || s.workers[s.handles[0]].pc.Connecting?)
  }

  /** Until the exit, the reader or the worker it waits for can step without help from
  Message or the client; the one exception is a worker that is writing a line the
  client does not take or opening a connection Message does not take. None waits for
  a response, or to send a query. */
  lemma DrainGoesOn(s: State)
    requires Inv(s) && s.reader.JoiningAll?
    ensures (exists e :: Enabled(s, e) && Unaided(s, e)) || AwaitsPeer(s)
    ensures s.handles != [] ==>
              && s.handles[0] < |s.workers|
              && var w := s.workers[s.handles[0]];
                 (w.pc.Reading? || w.pc.SendingQuery? ==> w.socket.ShutSocket?)
  {
    if s.handles == [] {
      assert Enabled(s, ReaderStep) && Unaided(s, ReaderStep);
    } else {
      var i := s.handles[0];
      HandleIsSpawned(s.handles, s.joined, |s.workers|, i);
      if s.workers[i].pc.Done? {
        assert Enabled(s, ReaderStep) && Unaided(s, ReaderStep);
      } else {
        JoinedWorkerIsSafe(s, i);
        if !MayBlock(s.workers[i]) {
          assert Enabled(s, WorkerStep(i, Works)) && Unaided(s, WorkerStep(i, Works));
        }
      }
    }
  }

  lemma JoinedWorkerIsSafe(s: State, i: nat)
    requires EntriesOwned(s) && Swept(s) && NoneLost(s) && s.reader.JoiningAll? && i < |s.workers|
    ensures s.workers[i].pc.Reading? || s.workers[i].pc.SendingQuery? ==> s.workers[i].socket.ShutSocket?
  {
  }

  /** From the moment the reader joins, every run has at most `StepsLeft` steps more; and
  one in which no thread can go on without help has exited, or waits for the client to
  take a line or for Message to take a connection, never for a response. */
  lemma {:induction false} ShutdownTerminates(events: seq<Event>, s: State, more: seq<Event>, t: State)
    requires Reaches(events, s) && (s.reader.JoiningAll? || s.reader.Exited?) && Run(s, more) == Some(t)
    ensures |more| + StepsLeft(t) <= StepsLeft(s)
    ensures (forall e | Unaided(t, e) :: !Enabled(t, e)) ==> t.reader.Exited? || AwaitsPeer(t)
    decreases |more|
  {
    ReachedHasInv(events, s);
    if more == [] {
      if s.reader.JoiningAll? {
        DrainGoesOn(s);
      }
    } else {
      var e := more[0];
      if s.reader.Exited? {
        ExitedHasNoSteps(events, s, e);
      }
      DrainStep(s, e);
      RunOneMore(START, events, e);
      ShutdownTerminates(events + [e], Apply(s, e), more[1..], t);
    }
  }

  lemma {:induction false} RunOneMore(s: State, events: seq<Event>, e: Event)
    requires Run(s, events).Some? && Enabled(Run(s, events).value, e)
    ensures Run(s, events + [e]) == Some(Apply(Run(s, events).value, e))
    decreases |events|
  {
    if events == [] {
      assert events + [e] == [e];
      assert Run(Apply(s, e), []) == Some(Apply(s, e));
    } else {
      assert (events + [e])[1..] == events[1..] + [e];
      RunOneMore(Apply(s, events[0]), events[1..], e);
    }
  }

  lemma AllJoined(joined: seq<nat>, n: nat, i: nat)
    requires Counted([], joined, n) && i < n
    ensures i in joined
  {
    assert Workers.Spawned(n)[i] == i;
    assert i in multiset(Workers.Spawned(n));
    var none: seq<nat> := [];
    assert multiset(none) + multiset(joined) == multiset(joined);
    assert i in multiset(joined);
  }

  lemma NoneHeldAllJoined(s: State)
    requires HandlesKept(s) && s.reader.Exited?
    ensures multiset(s.joined) == multiset(Workers.Spawned(|s.workers|))
    ensures forall i | 0 <= i < |s.workers| :: s.workers[i].pc.Done?
  {
    assert multiset(s.handles) + multiset(s.joined) == multiset(s.joined);
    forall i | 0 <= i < |s.workers| ensures s.workers[i].pc.Done? {
      AllJoined(s.joined, |s.workers|, i);
      var k :| 0 <= k < |s.joined| && s.joined[k] == i;
    }
  }

  /** At the exit every worker ever spawned has been joined exactly once and has ended,
  and no step is left. */
  lemma ExitedHasNoSteps(events: seq<Event>, s: State, e: Event)
    requires Reaches(events, s) && s.reader.Exited?
    ensures multiset(s.joined) == multiset(Workers.Spawned(|s.workers|))
    ensures forall i | 0 <= i < |s.workers| :: s.workers[i].pc.Done?
    ensures !Enabled(s, e)
  {
    ReachedHasInv(events, s);
    NoneHeldAllJoined(s);
  }
}
