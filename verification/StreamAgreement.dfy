/** Server and clients agree on where every status stream ends, and on the cursor to
resume from. */
module StreamAgreement {
  import opened Wrappers
  import opened Frames
  import opened Contract
  import opened FlowEdge
  import opened SendTransaction
  import opened Listener
  import opened Clients
  import SendGuarantees
  import Configuration

  // ----- The end of the stream -----

  /** Flow's statuses, forwarded to a client that follows the same delivery: the
  client takes every frame and stops at the last. */
  lemma {:induction false} ForwardedIsReadToTheEnd(replies: seq<FlowResponse>, tracked: Option<string>, last: Option<int>)
    ensures CliReads(tracked, Forwarded(replies, tracked, last)) == Reads(|Forwarded(replies, tracked, last)|, true)
    decreases |replies|
  {
    var out := Forwarded(replies, tracked, last);
    if replies == [] || !IsStatus(replies[0]) {
    } else {
      assert CliTerminal(tracked, Relay(replies[0])) <==> Finishes(replies[0], tracked);
      if !Finishes(replies[0], tracked) {
        var more := Forwarded(replies[1..], tracked, Some(CursorOf(replies[0])));
        assert out[1..] == more;
        ForwardedIsReadToTheEnd(replies[1..], tracked, Some(CursorOf(replies[0])));
      }
    }
  }

  /** Flow's status and the response that carries it to the client hold the same. */
  predicate Verbatim(reply: FlowResponse, response: Response) {
    || (reply.FlowObserved? && response == SendsObserved(reply.observation))
    || (reply.FlowChanged? && response == SendChanged(reply.snapshot))
  }

  /** Every response forwarded is Flow's status in the same place, word for word, but for an
  interruption at the end, which comes only where Flow's stream ended or strayed. */
  lemma {:induction false} ForwardedVerbatim(replies: seq<FlowResponse>, tracked: Option<string>, last: Option<int>)
    ensures var out := Forwarded(replies, tracked, last);
            forall i | 0 <= i < |out| ::
              if out[i].ObservationInterrupted?
              then i == |out| - 1 <= |replies| && (i == |replies| || !(replies[i].FlowObserved? || replies[i].FlowChanged?))
              else i < |replies| && Verbatim(replies[i], out[i])
    decreases |replies|
  {
    if replies == [] || !IsStatus(replies[0]) || Finishes(replies[0], tracked) {
    } else {
      var more := Forwarded(replies[1..], tracked, Some(CursorOf(replies[0])));
      ForwardedVerbatim(replies[1..], tracked, Some(CursorOf(replies[0])));
      assert Forwarded(replies, tracked, last)[1..] == more;
      assert forall i | 0 < i < |replies| :: replies[i] == replies[1..][i - 1];
    }
  }

  /** For every Send and every behaviour of Flow, both clients take exactly the frames
  the server writes and stop at the last one: it is terminal for both, no earlier
  one is for either, and neither is left waiting at end of file. The one exception
  is a status stream that could not be watched, which ends after the acceptance. */
  lemma SendStreamsAgree(s: Situation, handles: bool)
    ensures var frames := AnswerFrames(s.Outcome(), s.contracts.replies, handles);
            && CliReads(None, frames) == McpReads(FRESH, frames)
            && CliReads(None, frames).taken == |frames|
            && (CliReads(None, frames).ended <==> (Streams(s.Outcome()) ==> handles))
  {
    var outcome := s.Outcome();
    var frames := AnswerFrames(outcome, s.contracts.replies, handles);
    ClientsStopTogether(FRESH, frames);
    if outcome.Queues? {
      var tracked := Some(outcome.acceptance.id);
      match outcome.subscription {
        case Failure(response) =>
          assert frames[1..] == [response];
        case Success(feed) =>
          var more := if handles then Forwarded(DecodeAll(s.contracts.replies, feed.bytes, feed.ending), tracked, None) else [];
          assert frames[1..] == more;
          if handles {
            ForwardedIsReadToTheEnd(DecodeAll(s.contracts.replies, feed.bytes, feed.ending), tracked, None);
          }
      }
    }
  }

  /** The same for an observation, where no delivery is followed: it ends only with
  the interruption. */
  lemma ObservationStreamsAgree(outcome: Result<Feed, Response>, replies: Codec<FlowResponse>, handles: bool)
    requires outcome.Failure? ==> outcome.error.Refused? || outcome.error.ObservationInterrupted?
    ensures var frames := ObservationFrames(outcome, replies, handles);
            && CliReads(None, frames) == McpReads(FRESH, frames)
            && CliReads(None, frames).taken == |frames|
            && (CliReads(None, frames).ended <==> (outcome.Success? ==> handles))
  {
    var frames := ObservationFrames(outcome, replies, handles);
    ClientsStopTogether(FRESH, frames);
    match outcome {
      case Failure(response) =>
      case Success(feed) =>
        if handles {
          ForwardedIsReadToTheEnd(DecodeAll(replies, feed.bytes, feed.ending), None, None);
        }
    }
  }

  /** An abrupt Send is answered by exactly one frame, never an acceptance. */
  lemma AbruptIsOneFrame(s: Situation, handles: bool)
    requires s.IsAbrupt()
    ensures var frames := AnswerFrames(s.Outcome(), s.contracts.replies, handles);
            && |frames| == 1
            && (if s.path.Failure? then frames[0] == Response.Refused(StoreRefused) else frames[0].Sent? || frames[0].SendFailed?)
  {
  }

  // ----- The end of the stream, on the wire -----

  /** A reader takes the frames before the first one it cannot hold, and no more. */
  lemma {:induction false} DecodeUpToOversized(responses: Codec<Response>, frames: seq<Response>, ending: Ending)
    requires Faithful(responses)
    requires forall i | 0 <= i < |frames| :: Encoded(responses, frames[i]).Some?
    requires !FitsAll(responses, frames)
    ensures var all := DecodeAll(responses, WireBytes(responses, frames), ending);
            |all| < |frames| && all == frames[..|all|]
  {
    assert Encoded(responses, frames[0]).Some?;
    var archive, more := responses.encode(frames[0]).value, frames[1..];
    WireBytesCons(responses, frames, archive, []);
    assert WireBytes(responses, frames) + [] == WireBytes(responses, frames);
    assert WireBytes(responses, more) + [] == WireBytes(responses, more);
    if Fits(responses, frames[0]) {
      FitsAllCons(responses, frames);
      DecodeUpToOversized(responses, more, ending);
      DecodeAllCons(responses, archive, WireBytes(responses, more), ending);
      var rest := DecodeAll(responses, WireBytes(responses, more), ending);
      assert [frames[0]] + more[..|rest|] == frames[..|rest| + 1];
    } else {
      DecodeFrame(responses, archive, WireBytes(responses, more), ending);
    }
  }

  lemma {:induction false} ShorterNeverEnds(accepted: Option<string>, frames: seq<Response>, k: nat)
    requires k < |frames| && CliReads(accepted, frames) == Reads(|frames|, true)
    ensures !CliReads(accepted, frames[..k]).ended
    decreases k
  {
    if k == 0 {
    } else {
      assert frames[..k][1..] == frames[1..][..k - 1];
      ShorterNeverEnds(CliAccepted(accepted, frames[0]), frames[1..], k - 1);
    }
  }

  /** Frames a client reads to the end, read from their bytes: it ends, with exactly those
  frames, if and only if every one is within the reader's limit. */
  lemma ReadFromTheWireExactly(responses: Codec<Response>, frames: seq<Response>, ending: Ending)
    requires Faithful(responses) && CliReads(None, frames) == Reads(|frames|, true)
    requires forall i | 0 <= i < |frames| :: Encoded(responses, frames[i]).Some?
    ensures var all := DecodeAll(responses, WireBytes(responses, frames), ending);
            && (CliReads(None, all).ended <==> FitsAll(responses, frames))
            && (FitsAll(responses, frames) ==> all[..CliReads(None, all).taken] == frames)
  {
    var all := DecodeAll(responses, WireBytes(responses, frames), ending);
    if FitsAll(responses, frames) {
      DecodeAllWritten(responses, frames, [], ending);
      assert WireBytes(responses, frames) + [] == WireBytes(responses, frames);
      assert all == frames;
    } else {
      DecodeUpToOversized(responses, frames, ending);
      ShorterNeverEnds(None, frames, |all|);
    }
  }

  /** Read from the bytes the server wrote, the command succeeds, having printed
  exactly the server's frames, if and only if every frame is within the reader's
  limit. The writer does not check that limit. */
  lemma CommandSucceedsExactly(s: Situation, responses: Codec<Response>, ending: Ending)
    requires Faithful(responses)
    requires var frames := AnswerFrames(s.Outcome(), s.contracts.replies, true);
             forall i | 0 <= i < |frames| :: Encoded(responses, frames[i]).Some?
    ensures var frames := AnswerFrames(s.Outcome(), s.contracts.replies, true);
            var all := DecodeAll(responses, WireBytes(responses, frames), ending);
            && (CliReads(None, all).ended <==> FitsAll(responses, frames))
            && (FitsAll(responses, frames) ==> all[..CliReads(None, all).taken] == frames)
  {
    SendStreamsAgree(s, true);
    ReadFromTheWireExactly(responses, AnswerFrames(s.Outcome(), s.contracts.replies, true), ending);
  }

  /** The same for an observation. */
  lemma ObservationSucceedsExactly(
      path: Result<string, Configuration.StoreError>, c: Contracts, e: Encounter, process: Process, thread: Option<string>,
      cursor: Option<int>, responses: Codec<Response>, ending: Ending)
    requires Faithful(responses)
    requires var frames := ObservationFrames(ObservationOutcome(path, c, e, process, thread, cursor), c.replies, true);
             forall i | 0 <= i < |frames| :: Encoded(responses, frames[i]).Some?
    ensures var frames := ObservationFrames(ObservationOutcome(path, c, e, process, thread, cursor), c.replies, true);
            var all := DecodeAll(responses, WireBytes(responses, frames), ending);
            && (CliReads(None, all).ended <==> FitsAll(responses, frames))
            && (FitsAll(responses, frames) ==> all[..CliReads(None, all).taken] == frames)
  {
    var outcome := ObservationOutcome(path, c, e, process, thread, cursor);
    ObservationStreamsAgree(outcome, c.replies, true);
    ReadFromTheWireExactly(responses, ObservationFrames(outcome, c.replies, true), ending);
  }

  /** An answer the command cannot read to its end: Flow queues a soft Deliver and sends,
  in place of a status, a reply it had room for and that Message, printing it into
  the interruption, has not. The delivery is accepted; the command fails. */
  lemma PrintedReplyIsTooLarge(
      script: SendGuarantees.Script, acceptance: SendAcceptance, stray: FlowResponse, responses: Codec<Response>, ending: Ending)
    requires script.Plays() && script.request.message.Soft? && !IsStatus(stray) && Faithful(responses)
    requires var c := script.contracts;
             && Fits(c.replies, FlowAccepted(acceptance)) && Fits(c.replies, stray)
             && Fits(c.queries, FlowQuery.ObserveSender(script.process, script.thread, Some(acceptance.cursor)))
    requires Fits(responses, SendAccepted(acceptance))
    requires var printed := ObservationInterrupted(None, StrayReply(stray));
             Encoded(responses, printed).Some? && !Fits(responses, printed)
    ensures var c := script.contracts;
            var s := script.Against(SendGuarantees.Answering(c, FlowAccepted(acceptance)), SendGuarantees.Answering(c, stray));
            var frames := AnswerFrames(s.Outcome(), c.replies, true);
            && frames == [SendAccepted(acceptance), ObservationInterrupted(None, StrayReply(stray))]
            && !CliReads(None, DecodeAll(responses, WireBytes(responses, frames), ending)).ended
  {
    var c := script.contracts;
    var deliver, last := SendGuarantees.Answering(c, FlowAccepted(acceptance)), SendGuarantees.Answering(c, stray);
    var s := script.Against(deliver, last);
    QueuedBy(script, acceptance, last);
    SendGuarantees.AnsweringIsHeard(c, s.LastAsked(), stray);
    var feed := Feed(last.reply, last.ending);
    assert s.Outcome() == Queues(acceptance, Success(feed));
    var all := DecodeAll(c.replies, feed.bytes, feed.ending);
    assert all[0] == stray;
    var frames := AnswerFrames(s.Outcome(), c.replies, true);
    assert Encoded(responses, frames[0]).Some? && Encoded(responses, frames[1]).Some?;
    assert !Fits(responses, frames[1]);
    CommandSucceedsExactly(s, responses, ending);
  }

  /** A scripted Flow that queues the Deliver. */
  lemma QueuedBy(script: SendGuarantees.Script, acceptance: SendAcceptance, last: Encounter)
    requires script.Plays() && script.request.message.Soft? && Fits(script.contracts.replies, FlowAccepted(acceptance))
    ensures var s := script.Against(SendGuarantees.Answering(script.contracts, FlowAccepted(acceptance)), last);
            && s.Observes() && s.DeliverGot() == Success(ReplyQueued(acceptance)) && s.encounters(3) == last
            && s.Outcome() == Queues(acceptance, s.Subscribed())
  {
    var deliver := SendGuarantees.Answering(script.contracts, FlowAccepted(acceptance));
    var s := script.Against(deliver, last);
    SendGuarantees.ScriptReachesDeliver(script, deliver, last);
    SendGuarantees.AnsweringIsHeard(s.contracts, s.DeliverAsked(), FlowAccepted(acceptance));
    QueuedDeliver(s);
  }

  // ----- The stream while Flow is still sending -----

  /** The frames already forwarded do not depend on what Flow sends later: a finished
  stream stays as it is, and an unfinished one only loses its interruption. */
  lemma {:induction false} ForwardingIsCausal(p: seq<FlowResponse>, q: seq<FlowResponse>, tracked: Option<string>, last: Option<int>)
    ensures var now, later := Forwarded(p, tracked, last), Forwarded(p + q, tracked, last);
            now == later || now[..|now| - 1] <= later
    decreases |p|
  {
    if p == [] {
      assert Forwarded(p, tracked, last)[..0] == [];
    } else if !IsStatus(p[0]) || Finishes(p[0], tracked) {
    } else {
      assert (p + q)[1..] == p[1..] + q;
      ForwardingIsCausal(p[1..], q, tracked, Some(CursorOf(p[0])));
    }
  }

  // ----- The cursor to resume from -----

  /** The cursor of the last status before the end of a stream, or what `last` was if
  there was none. */
  function LastCursor(out: seq<Response>, last: Option<int>): Option<int> {
    if |out| < 2 then last
    else match out[|out| - 2]
         case SendsObserved(observation) => Some(observation.cursor)
         case SendChanged(snapshot) => Some(snapshot.cursor)
         case _ => None
  }

  lemma {:induction false} CarriesTheLastCursor(replies: seq<FlowResponse>, tracked: Option<string>, last: Option<int>)
    ensures var out := Forwarded(replies, tracked, last);
            out[|out| - 1].ObservationInterrupted? ==> out[|out| - 1].cursor == LastCursor(out, last)
    decreases |replies|
  {
    if replies == [] || !IsStatus(replies[0]) || Finishes(replies[0], tracked) {
    } else {
      var cursor := Some(CursorOf(replies[0]));
      assert Forwarded(replies, tracked, last)[1..] == Forwarded(replies[1..], tracked, cursor);
      CarriesTheLastCursor(replies[1..], tracked, cursor);
    }
  }

  /** An interruption carries the cursor of the last status forwarded before it, or
  what `last` was if there was none; a reader's view ends on the same cursor unless
  no status came. */
  lemma {:induction false} InterruptionCarriesTheLastCursor(
      replies: seq<FlowResponse>, tracked: Option<string>, last: Option<int>, view: View)
    ensures var out := Forwarded(replies, tracked, last);
            var end := out[|out| - 1];
            end.ObservationInterrupted? ==>
              && end.cursor == LastCursor(out, last)
              && AbsorbAll(view, out).cursor == (if |out| == 1 then view.cursor else end.cursor)
    decreases |replies|
  {
    CarriesTheLastCursor(replies, tracked, last);
    var out := Forwarded(replies, tracked, last);
    if replies == [] || !IsStatus(replies[0]) || Finishes(replies[0], tracked) {
      assert AbsorbAll(view, out) == AbsorbAll(Absorb(view, out[0]), []);
    } else {
      var cursor := Some(CursorOf(replies[0]));
      var more := Forwarded(replies[1..], tracked, cursor);
      assert out[1..] == more;
      CarriesTheLastCursor(replies[1..], tracked, cursor);
      InterruptionCarriesTheLastCursor(replies[1..], tracked, cursor, Absorb(view, out[0]));
    }
  }

  /** The first reply Flow sends on a status stream is a status. */
  predicate StartsWithStatus(feed: Feed, replies: Codec<FlowResponse>) {
    var first := Decode(replies, feed.bytes, feed.ending).result;
    first.Success? && IsStatus(first.value)
  }

  /** The cursor the MCP adapter reports for an interrupted Send is the one Message's
  interruption carries, except exactly when the stream opened and its first reply is
  not a status: then Message carries none and the adapter reports the acceptance's. */
  lemma SendCursorsAgreeExactly(s: Situation)
    requires s.Outcome().Queues?
    requires var frames := AnswerFrames(s.Outcome(), s.contracts.replies, true); frames[|frames| - 1].ObservationInterrupted?
    ensures var frames := AnswerFrames(s.Outcome(), s.contracts.replies, true);
            var carried, reported := frames[|frames| - 1].cursor, AbsorbAll(FRESH, frames).cursor;
            && (reported == carried <==> (Streams(s.Outcome()) ==> StartsWithStatus(s.Outcome().subscription.value, s.contracts.replies)))
            && (reported != carried ==> carried == None && reported == Some(s.Outcome().acceptance.cursor))
  {
    var outcome := s.Outcome();
    var frames := AnswerFrames(outcome, s.contracts.replies, true);
    var view := Absorb(FRESH, frames[0]);
    match outcome.subscription {
      case Failure(response) =>
        assert frames[1..] == [response];
        assert AbsorbAll(FRESH, frames) == AbsorbAll(view, [response]) == view;
      case Success(feed) =>
        var replies := DecodeAll(s.contracts.replies, feed.bytes, feed.ending);
        assert frames[1..] == Forwarded(replies, view.accepted, None);
        InterruptionCarriesTheLastCursor(replies, view.accepted, None, view);
    }
  }

  lemma InterruptedAtOnce(acceptance: SendAcceptance, cursor: Option<int>, reason: Interruption)
    ensures AbsorbAll(FRESH, [SendAccepted(acceptance), ObservationInterrupted(cursor, reason)])
            == View(Some(acceptance.id), Some(acceptance.cursor))
  {
    var first, last := SendAccepted(acceptance), ObservationInterrupted(cursor, reason);
    AbsorbAllAppend(FRESH, [first], [last]);
    assert [first] + [last] == [first, last];
    assert AbsorbAll(FRESH, [first]) == Absorb(FRESH, first);
  }

  /** Such a Send: Flow queues the Deliver and closes the status stream at once. */
  lemma QuietStreamSplitsTheCursors(script: SendGuarantees.Script, acceptance: SendAcceptance)
    requires script.Plays() && script.request.message.Soft?
    requires Fits(script.contracts.replies, FlowAccepted(acceptance))
    requires Fits(script.contracts.queries, FlowQuery.ObserveSender(script.process, script.thread, Some(acceptance.cursor)))
    ensures var s := script.Against(SendGuarantees.Answering(script.contracts, FlowAccepted(acceptance)), SendGuarantees.SILENT);
            var frames := AnswerFrames(s.Outcome(), s.contracts.replies, true);
            && frames == [SendAccepted(acceptance), ObservationInterrupted(None, StreamEnded(Broken))]
            && AbsorbAll(FRESH, frames).cursor == Some(acceptance.cursor)
  {
    var s := script.Against(SendGuarantees.Answering(script.contracts, FlowAccepted(acceptance)), SendGuarantees.SILENT);
    QueuedBy(script, acceptance, SendGuarantees.SILENT);
    assert s.Outcome() == Queues(acceptance, Success(Feed([], Eof)));
    var frames := AnswerFrames(s.Outcome(), s.contracts.replies, true);
    assert frames[1..] == [ObservationInterrupted(None, StreamEnded(Broken))];
    assert frames == [SendAccepted(acceptance), ObservationInterrupted(None, StreamEnded(Broken))];
    InterruptedAtOnce(acceptance, None, StreamEnded(Broken));
  }

  /** For an interrupted observation the two agree exactly when the stream opened or
  was asked for from the start: an observation that could not be opened carries the
  cursor it was asked to resume from, and the adapter reports none. */
  lemma ObservationCursorsAgreeExactly(
      path: string, c: Contracts, e: Encounter, process: Process, thread: Option<string>, cursor: Option<int>)
    ensures var outcome := ObservationOutcome(Success(path), c, e, process, thread, cursor);
            var frames := ObservationFrames(outcome, c.replies, true);
            frames[|frames| - 1].ObservationInterrupted? ==>
              (AbsorbAll(FRESH, frames).cursor == frames[|frames| - 1].cursor <==> outcome.Success? || cursor.None?)
  {
    var outcome := ObservationOutcome(Success(path), c, e, process, thread, cursor);
    match outcome {
      case Failure(response) =>
        assert AbsorbAll(FRESH, [response]) == FRESH;
      case Success(feed) =>
        InterruptionCarriesTheLastCursor(DecodeAll(c.replies, feed.bytes, feed.ending), None, None, FRESH);
    }
  }

  /** An observation Flow cannot be reached for: Message's interruption names the cursor
  asked for, and the adapter none. */
  lemma UnreachableFlowLosesTheCursor(path: string, c: Contracts, process: Process, thread: Option<string>, cursor: int)
    ensures var unreachable := Encounter(false, false, None, [], Eof);
            var outcome := ObservationOutcome(Success(path), c, unreachable, process, thread, Some(cursor));
            var frames := ObservationFrames(outcome, c.replies, true);
            && frames == [ObservationInterrupted(Some(cursor), CouldNotOpen(Unreachable))]
            && AbsorbAll(FRESH, frames).cursor == None
  {
    var frames := [ObservationInterrupted(Some(cursor), CouldNotOpen(Unreachable))];
    assert AbsorbAll(FRESH, frames) == AbsorbAll(FRESH, []) == FRESH;
  }
}
