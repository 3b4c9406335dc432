/** An MCP call whose responses come from Message's listener: what the adapter answers
in terms of what Flow sent. */
module EndToEnd {
  import opened Wrappers
  import opened Contract
  import opened Clients
  import opened CallWorker
  import opened Listener
  import Configuration
  import FlowEdge
  import Frames
  import SendTransaction
  import StreamAgreement
  import CallMachine
  import CallGuarantees

  lemma {:induction false} ReadingIsDecidedByAPrefix(view: View, a: seq<Response>, b: seq<Response>)
    requires a <= b && McpReads(view, a).ended
    ensures McpReads(view, b) == McpReads(view, a)
    decreases |a|
  {
    var now := Absorb(view, a[0]);
    if TerminalFor(a[0], now.accepted) {
    } else {
      ReadingIsDecidedByAPrefix(now, a[1..], b[1..]);
    }
  }

  /** A call that read from frames a client reads to the end, and gave a settled answer,
  read them all; its verdict is the one the last calls for. */
  lemma SettledMeansAllRead(
      events: seq<CallMachine.Event>, m: CallMachine.State, i: nat, v: Verdict, ok: bool, frames: seq<Response>)
    requires CallGuarantees.Reaches(events, m) && i < |m.workers|
    requires FinalLine(m.workers[i].call.key, Settled(v), ok) in m.workers[i].log
    requires m.workers[i].read <= frames && McpReads(FRESH, frames) == Reads(|frames|, true)
    ensures m.workers[i].read == frames && frames != []
    ensures v == VerdictFor(frames[|frames| - 1], AbsorbAll(FRESH, frames))
  {
    var read := m.workers[i].read;
    CallGuarantees.SettledAnswerIsTheLastProgress(events, m, i, v, ok);
    CallGuarantees.AtMostOneFinalAtTheEnd(events, m, i, |read| - 1);
    ReadingIsDecidedByAPrefix(FRESH, read, frames);
    assert |read| == |frames| && read == frames;
  }

  /** A call that read from the answer to a Send and gave a settled answer read all of
  that answer: over every interleaving of the adapter and every behaviour of Flow, a
  result shows the server's last frame. An interruption names the cursor Message's
  own interruption carries, except exactly when the status stream opened and did not
  start with a status: then it names the acceptance's, and Message's carries none. */
  lemma SettledSendReadTheWholeAnswer(
      events: seq<CallMachine.Event>, m: CallMachine.State, i: nat, v: Verdict, ok: bool, s: SendTransaction.Situation)
    requires CallGuarantees.Reaches(events, m) && i < |m.workers|
    requires FinalLine(m.workers[i].call.key, Settled(v), ok) in m.workers[i].log
    requires m.workers[i].read <= AnswerFrames(s.Outcome(), s.contracts.replies, true)
    ensures var frames := AnswerFrames(s.Outcome(), s.contracts.replies, true);
            var last := frames[|frames| - 1];
            && m.workers[i].read == frames
            && (v.Result? ==> v.text == last)
            && (v.Interrupted? ==>
                  && last.ObservationInterrupted? && s.Outcome().Queues?
                  && (v.cursor == last.cursor <==>
                        (Streams(s.Outcome()) ==> StreamAgreement.StartsWithStatus(s.Outcome().subscription.value, s.contracts.replies)))
                  && (v.cursor != last.cursor ==> last.cursor.None? && v.cursor == Some(s.Outcome().acceptance.cursor)))
  {
    StreamAgreement.SendStreamsAgree(s, true);
    SettledMeansAllRead(events, m, i, v, ok, AnswerFrames(s.Outcome(), s.contracts.replies, true));
    SendVerdict(s, v);
  }

  lemma SendVerdict(s: SendTransaction.Situation, v: Verdict)
    requires var frames := AnswerFrames(s.Outcome(), s.contracts.replies, true);
             v == VerdictFor(frames[|frames| - 1], AbsorbAll(FRESH, frames))
    ensures var frames := AnswerFrames(s.Outcome(), s.contracts.replies, true);
            var last := frames[|frames| - 1];
            && (v.Result? ==> v.text == last)
            && (v.Interrupted? ==>
                  && last.ObservationInterrupted? && s.Outcome().Queues?
                  && (v.cursor == last.cursor <==>
                        (Streams(s.Outcome()) ==> StreamAgreement.StartsWithStatus(s.Outcome().subscription.value, s.contracts.replies)))
                  && (v.cursor != last.cursor ==> last.cursor.None? && v.cursor == Some(s.Outcome().acceptance.cursor)))
  {
    if v.Interrupted? {
      InterruptionsFollowAcceptance(s);
      StreamAgreement.SendCursorsAgreeExactly(s);
    }
  }

  // ----- What a result says of the delivery -----

  function Snapshots(reply: FlowResponse): seq<Snapshot> {
    match reply
    case FlowObserved(observation) => observation.snapshots
    case FlowChanged(snapshot) => [snapshot]
    case _ => []
  }

  /** Among these statuses of Flow's one says that the delivery failed, or was made. */
  ghost predicate Reports(replies: seq<FlowResponse>, id: string, failed: bool) {
    exists j, k | 0 <= j < |replies| && 0 <= k < |Snapshots(replies[j])| ::
      Snapshots(replies[j])[k].id == id
      && (if failed then Snapshots(replies[j])[k].state.Failed? else Snapshots(replies[j])[k].state.Delivered?)
  }

  /** What Flow sent on the status stream of a Send, if one opened. */
  function Statuses(s: SendTransaction.Situation): seq<FlowResponse> {
    if Streams(s.Outcome())
    then Frames.DecodeAll(s.contracts.replies, s.Outcome().subscription.value.bytes, s.Outcome().subscription.value.ending)
    else []
  }

  lemma {:induction false} EndedMeansTerminal(view: View, read: seq<Response>)
    requires McpReads(view, read) == Reads(|read|, true)
    ensures read != [] && TerminalFor(read[|read| - 1], AbsorbAll(view, read).accepted)
    decreases |read|
  {
    var now := Absorb(view, read[0]);
    if TerminalFor(read[0], now.accepted) {
      assert AbsorbAll(now, read[1..]) == now;
    } else {
      EndedMeansTerminal(now, read[1..]);
    }
  }

  lemma {:induction false} AcceptedStays(view: View, read: seq<Response>)
    requires forall i | 0 <= i < |read| :: !read[i].SendAccepted?
    ensures AbsorbAll(view, read).accepted == view.accepted
    decreases |read|
  {
    if read == [] {
    } else {
      AcceptedStays(Absorb(view, read[0]), read[1..]);
    }
  }

  /** A settled call's error comes of Flow or of Message, and its success of Flow: an error
  is a failed or refused Send, or Flow reported that the accepted delivery failed; any
  other result is Flow's receipt, or Flow reported that the delivery was made. */
  lemma SettledResultIsFlows(
      events: seq<CallMachine.Event>, m: CallMachine.State, i: nat, text: Response, isError: bool, ok: bool,
      s: SendTransaction.Situation)
    requires CallGuarantees.Reaches(events, m) && i < |m.workers|
    requires FinalLine(m.workers[i].call.key, Settled(Verdict.Result(text, isError)), ok) in m.workers[i].log
    requires m.workers[i].read <= AnswerFrames(s.Outcome(), s.contracts.replies, true)
    ensures isError ==>
              text.SendFailed? || text.Refused?
              || (s.Outcome().Queues? && Reports(Statuses(s), s.Outcome().acceptance.id, true))
    ensures !isError ==>
              text.Sent? || (s.Outcome().Queues? && Reports(Statuses(s), s.Outcome().acceptance.id, false))
  {
    var frames := AnswerFrames(s.Outcome(), s.contracts.replies, true);
    StreamAgreement.SendStreamsAgree(s, true);
    SettledMeansAllRead(events, m, i, Verdict.Result(text, isError), ok, frames);
    EndedMeansTerminal(FRESH, frames);
    ErrorMeansFailure(frames[|frames| - 1], AbsorbAll(FRESH, frames));
    if s.Outcome().Queues? {
      QueuedAnswerIsFlows(s);
      LastStatusIsReported(s, text);
    } else {
      OnlyFrame(s);
    }
  }

  /** The one frame of a Send that is not queued. */
  lemma OnlyFrame(s: SendTransaction.Situation)
    requires !s.Outcome().Queues?
    ensures var frames := AnswerFrames(s.Outcome(), s.contracts.replies, true);
            |frames| == 1 && (frames[0].Sent? || frames[0].SendFailed? || frames[0].Refused?)
  {
  }

  /** Of a queued Send's answer, the reader follows the accepted delivery, and every status
  is Flow's. */
  lemma QueuedAnswerIsFlows(s: SendTransaction.Situation)
    requires s.Outcome().Queues?
    ensures var frames := AnswerFrames(s.Outcome(), s.contracts.replies, true);
            && AbsorbAll(FRESH, frames).accepted == Some(s.Outcome().acceptance.id)
            && (forall i | 0 < i < |frames| ::
                  frames[i].ObservationInterrupted? || (i <= |Statuses(s)| && StreamAgreement.Verbatim(Statuses(s)[i - 1], frames[i])))
            && |frames| > 1
  {
    var frames := AnswerFrames(s.Outcome(), s.contracts.replies, true);
    var view := Absorb(FRESH, frames[0]);
    if Streams(s.Outcome()) {
      StreamAgreement.ForwardedVerbatim(Statuses(s), view.accepted, None);
      assert frames[1..] == Forwarded(Statuses(s), view.accepted, None);
    }
    forall i | 0 < i < |frames|
      ensures frames[i].ObservationInterrupted? || (i <= |Statuses(s)| && StreamAgreement.Verbatim(Statuses(s)[i - 1], frames[i]))
    {
      assert frames[i] == frames[1..][i - 1];
    }
    AcceptedStays(view, frames[1..]);
    assert AbsorbAll(FRESH, frames) == AbsorbAll(view, frames[1..]);
  }

  /** A status shown as the result holds what Flow reported. */
  lemma LastStatusIsReported(s: SendTransaction.Situation, text: Response)
    requires s.Outcome().Queues?
    requires var frames := AnswerFrames(s.Outcome(), s.contracts.replies, true);
             |frames| > 1 && text == frames[|frames| - 1] && !text.ObservationInterrupted?
             && |frames| - 1 <= |Statuses(s)| && StreamAgreement.Verbatim(Statuses(s)[|frames| - 2], text)
    ensures forall k | 0 <= k < |SnapshotsOf(text)| ::
              && (SnapshotsOf(text)[k].state.Failed? ==> Reports(Statuses(s), SnapshotsOf(text)[k].id, true))
              && (SnapshotsOf(text)[k].state.Delivered? ==> Reports(Statuses(s), SnapshotsOf(text)[k].id, false))
  {
    var frames := AnswerFrames(s.Outcome(), s.contracts.replies, true);
    var reply := Statuses(s)[|frames| - 2];
    assert Snapshots(reply) == SnapshotsOf(text);
  }

  /** Only a queued Send is answered with an interruption. */
  lemma InterruptionsFollowAcceptance(s: SendTransaction.Situation)
    ensures var frames := AnswerFrames(s.Outcome(), s.contracts.replies, true);
            frames[|frames| - 1].ObservationInterrupted? ==> s.Outcome().Queues?
  {
  }

  /** The same for an observation: it is settled by a refusal exactly when Message cannot
  read its own store, and otherwise by an interruption, whose cursor is Message's
  exactly when the stream opened or no cursor was asked for. */
  lemma SettledObservationReadTheWholeAnswer(
      events: seq<CallMachine.Event>, m: CallMachine.State, i: nat, v: Verdict, ok: bool,
      path: Result<string, Configuration.StoreError>, c: FlowEdge.Contracts, e: FlowEdge.Encounter,
      process: Process, thread: Option<string>, cursor: Option<int>)
    requires CallGuarantees.Reaches(events, m) && i < |m.workers|
    requires FinalLine(m.workers[i].call.key, Settled(v), ok) in m.workers[i].log
    requires m.workers[i].read <= ObservationFrames(ObservationOutcome(path, c, e, process, thread, cursor), c.replies, true)
    ensures var outcome := ObservationOutcome(path, c, e, process, thread, cursor);
            var frames := ObservationFrames(outcome, c.replies, true);
            var last := frames[|frames| - 1];
            && m.workers[i].read == frames
            && (v.Result? <==> path.Failure?)
            && (v.Result? ==> v == Result(Response.Refused(StoreRefused), true))
            && (v.Interrupted? ==>
                  last.ObservationInterrupted? && (v.cursor == last.cursor <==> outcome.Success? || cursor.None?))
  {
    var outcome := ObservationOutcome(path, c, e, process, thread, cursor);
    StreamAgreement.ObservationStreamsAgree(outcome, c.replies, true);
    SettledMeansAllRead(events, m, i, v, ok, ObservationFrames(outcome, c.replies, true));
    ObservationVerdict(v, path, c, e, process, thread, cursor);
  }

  lemma ObservationVerdict(
      v: Verdict, path: Wrappers.Result<string, Configuration.StoreError>, c: FlowEdge.Contracts, e: FlowEdge.Encounter,
      process: Process, thread: Option<string>, cursor: Option<int>)
    requires var frames := ObservationFrames(ObservationOutcome(path, c, e, process, thread, cursor), c.replies, true);
             v == VerdictFor(frames[|frames| - 1], AbsorbAll(FRESH, frames))
    ensures var outcome := ObservationOutcome(path, c, e, process, thread, cursor);
            var frames := ObservationFrames(outcome, c.replies, true);
            var last := frames[|frames| - 1];
            && (v.Result? <==> path.Failure?)
            && (v.Result? ==> v == Result(Response.Refused(StoreRefused), true))
            && (v.Interrupted? ==>
                  last.ObservationInterrupted? && (v.cursor == last.cursor <==> outcome.Success? || cursor.None?))
  {
    if path.Success? {
      ObservationsEndInterrupted(ObservationOutcome(path, c, e, process, thread, cursor), c.replies);
      StreamAgreement.ObservationCursorsAgreeExactly(path.value, c, e, process, thread, cursor);
    }
  }

  lemma ObservationsEndInterrupted(outcome: Wrappers.Result<SendTransaction.Feed, Response>, replies: Frames.Codec<FlowResponse>)
    requires outcome.Failure? ==> outcome.error.ObservationInterrupted?
    ensures var frames := ObservationFrames(outcome, replies, true);
            frames[|frames| - 1].ObservationInterrupted?
  {
    if outcome.Success? {
      UntrackedEndsInterrupted(Frames.DecodeAll(replies, outcome.value.bytes, outcome.value.ending), None);
    }
  }

  lemma {:induction false} UntrackedEndsInterrupted(replies: seq<FlowResponse>, last: Option<int>)
    ensures var out := Forwarded(replies, None, last);
            out[|out| - 1].ObservationInterrupted?
    decreases |replies|
  {
    if replies == [] || !IsStatus(replies[0]) {
    } else {
      UntrackedEndsInterrupted(replies[1..], Some(CursorOf(replies[0])));
    }
  }
}
