/** Message's side of a status stream: the answer to a Send or an observation, and the
loop that forwards Flow's statuses until the tracked delivery settles. */
module Listener {
  import opened Wrappers
  import opened Frames
  import opened Contract
  import opened FlowEdge
  import opened SendTransaction
  import Configuration

  // ----- What is forwarded -----

  /** A reply that is a status, as Message passes it on. */
  predicate IsStatus(reply: FlowResponse) {
    reply.FlowObserved? || reply.FlowChanged?
  }

  function Relay(reply: FlowResponse): Response
    requires IsStatus(reply)
  {
    match reply
    case FlowObserved(observation) => SendsObserved(observation)
    case FlowChanged(snapshot) => SendChanged(snapshot)
  }

  function CursorOf(reply: FlowResponse): int
    requires IsStatus(reply)
  {
    match reply
    case FlowObserved(observation) => observation.cursor
    case FlowChanged(snapshot) => snapshot.cursor
  }

  /** The status says the tracked delivery is over. */
  predicate Finishes(reply: FlowResponse, tracked: Option<string>)
    requires IsStatus(reply)
  {
    match reply
    case FlowObserved(observation) =>
      tracked.Some? && exists i | 0 <= i < |observation.snapshots| ::
        observation.snapshots[i].id == tracked.value && observation.snapshots[i].state.IsTerminal()
    case FlowChanged(snapshot) => tracked == Some(snapshot.id) && snapshot.state.IsTerminal()
  }

  /** The responses for a Flow stream that carries `replies` and then ends, when the
  last status forwarded so far had the cursor `last`. */
  function Forwarded(replies: seq<FlowResponse>, tracked: Option<string>, last: Option<int>): (out: seq<Response>)
    ensures out != []
    decreases |replies|
  {
    if replies == [] then [ObservationInterrupted(last, StreamEnded(Broken))]
    else if !IsStatus(replies[0]) then [ObservationInterrupted(last, StrayReply(replies[0]))]
    else if Finishes(replies[0], tracked) then [Relay(replies[0])]
    else [Relay(replies[0])] + Forwarded(replies[1..], tracked, Some(CursorOf(replies[0])))
  }

  /** Forwards until the tracked delivery settles, a write fails, or Flow's stream ends
  or strays. `handles` is whether the two sockets could be duplicated for the
  watcher; if not, nothing is written. */
  method ForwardSubscription(
      client: ByteStream, subscription: FlowSubscription, replies: Codec<FlowResponse>, responses: Codec<Response>,
      tracked: Option<string>, handles: bool)
      returns (written: bool)
    requires client != subscription.stream
    modifies client`outgoing, client`credit, subscription.stream`incoming
    ensures var all := DecodeAll(replies, old(subscription.stream.incoming), subscription.stream.ending);
            var frames := if handles then Forwarded(all, tracked, None) else [];
            && client.outgoing == old(client.outgoing) + Accepted(WireBytes(responses, frames), old(client.credit))
            && (written <==> handles && AllWritten(responses, frames, old(client.credit)))
  {
    ghost var all := DecodeAll(replies, subscription.stream.incoming, subscription.stream.ending);
    if !handles {
      assert client.outgoing == old(client.outgoing) + [];
      return false;
    }
    var last: Option<int> := None;
    ghost var ahead := Forwarded(all, tracked, None);
    ghost var goal := client.outgoing + Accepted(WireBytes(responses, ahead), client.credit);
    ghost var whole := AllWritten(responses, ahead, client.credit);
    while true
      invariant ahead == Forwarded(DecodeAll(replies, subscription.stream.incoming, subscription.stream.ending), tracked, last)
      invariant goal == client.outgoing + Accepted(WireBytes(responses, ahead), client.credit)
      invariant whole <==> AllWritten(responses, ahead, client.credit)
      decreases |subscription.stream.incoming|
    {
      ForwardStep(replies, subscription.stream.incoming, subscription.stream.ending, tracked, last);
      var next := subscription.Next(replies);
      if next.Failure? {
        written := WriteNext(client, responses, ObservationInterrupted(last, StreamEnded(next.error)), ahead, goal);
        return;
      }
      if !IsStatus(next.value) {
        written := WriteNext(client, responses, ObservationInterrupted(last, StrayReply(next.value)), ahead, goal);
        return;
      }
      last := Some(CursorOf(next.value));
      var sent := WriteNext(client, responses, Relay(next.value), ahead, goal);
      if !sent {
        return false;
      }
      ahead := ahead[1..];
      if Finishes(next.value, tracked) {
        return true;
      }
    }
  }

  /** What reading one more reply does to the responses still to be forwarded. */
  lemma ForwardStep(replies: Codec<FlowResponse>, input: Bytes, ending: Ending, tracked: Option<string>, last: Option<int>)
    ensures var one := Decode(replies, input, ending);
            var ahead := Forwarded(DecodeAll(replies, input, ending), tracked, last);
            if one.result.Failure? then ahead == [ObservationInterrupted(last, StreamEnded(Broken))]
            else if !IsStatus(one.result.value) then ahead == [ObservationInterrupted(last, StrayReply(one.result.value))]
            else
              && |one.rest| < |input| && ahead[0] == Relay(one.result.value)
              && ahead[1..] == (if Finishes(one.result.value, tracked) then []
                                else Forwarded(DecodeAll(replies, one.rest, ending), tracked, Some(CursorOf(one.result.value))))
  {
    var one := Decode(replies, input, ending);
    if one.result.Success? {
      var after := DecodeAll(replies, one.rest, ending);
      assert ([one.result.value] + after)[1..] == after;
    }
  }

  lemma Regrouped(a: Bytes, b: Bytes, c: Bytes)
    ensures a + (b + c) == (a + b) + c
  {
  }

  /** Writes the first of the frames still owed; `goal` is what the client will have
  got when all of them have been written as far as it lets them. */
  method WriteNext(
      client: ByteStream, responses: Codec<Response>, response: Response, ghost owed: seq<Response>, ghost goal: Bytes)
      returns (ok: bool)
    requires owed != [] && owed[0] == response
    requires goal == client.outgoing + Accepted(WireBytes(responses, owed), client.credit)
    modifies client`outgoing, client`credit
    ensures ok ==> goal == client.outgoing + Accepted(WireBytes(responses, owed[1..]), client.credit)
    ensures ok && |owed| == 1 ==> goal == client.outgoing
    ensures !ok ==> goal == client.outgoing
    ensures AllWritten(responses, owed, old(client.credit)) <==> ok && AllWritten(responses, owed[1..], client.credit)
  {
    WriteStep(responses, owed, client.credit);
    ghost var before, ahead := client.outgoing, WireBytes(responses, owed[1..]);
    var r := client.WriteFrame(responses, response);
    ok := r.Success?;
    if ok {
      ghost var frame := Encoded(responses, response).value;
      Regrouped(before, frame, Accepted(ahead, client.credit));
    }
  }

  // ----- Answering a Send -----

  /** Every frame of the answer to a Send, in order. */
  function AnswerFrames(outcome: Outcome, replies: Codec<FlowResponse>, handles: bool): seq<Response> {
    match outcome
    case Rejected(response) => [response]
    case Delivers(receipt) => [Sent(receipt)]
    case Fails(failure) => [SendFailed(failure)]
    case Queues(acceptance, Failure(response)) => [SendAccepted(acceptance), response]
    case Queues(acceptance, Success(feed)) =>
      [SendAccepted(acceptance)]
      + if handles then Forwarded(DecodeAll(replies, feed.bytes, feed.ending), Some(acceptance.id), None) else []
  }

  /** The answer goes on with Flow's status stream. */
  predicate Streams(outcome: Outcome) {
    outcome.Queues? && outcome.subscription.Success?
  }

  /** The client gets the frames of the answer, cut only where it stops taking bytes. */
  method AnswerSend(
      client: ByteStream, responses: Codec<Response>, handles: bool,
      world: World, process: Process, request: SendRequest, thread: Option<string>, now: int)
      returns (written: bool)
    requires world.trace == []
    modifies client`outgoing, client`credit, world`trace
    ensures var s := SituationOf(world, process, request, thread, now);
            var frames := AnswerFrames(s.Outcome(), s.contracts.replies, handles);
            && client.outgoing == old(client.outgoing) + Accepted(WireBytes(responses, frames), old(client.credit))
            && (written <==> AllWritten(responses, frames, old(client.credit)) && (Streams(s.Outcome()) ==> handles))
            && world.trace == s.Trace()
  {
    ghost var s := SituationOf(world, process, request, thread, now);
    var reply := AcceptSend(world, process, request, thread, now);
    ghost var frames := AnswerFrames(s.Outcome(), world.contracts.replies, handles);
    ghost var goal := client.outgoing + Accepted(WireBytes(responses, frames), client.credit);
    match reply {
      case Failure(response) =>
        written := WriteNext(client, responses, response, frames, goal);
      case Success(SentReply(receipt)) =>
        written := WriteNext(client, responses, Sent(receipt), frames, goal);
      case Success(FailedReply(failure)) =>
        written := WriteNext(client, responses, SendFailed(failure), frames, goal);
      case Success(QueuedReply(acceptance, subscription)) =>
        written := AnswerQueued(client, responses, handles, world.contracts.replies, acceptance, subscription);
    }
  }

  /** The acceptance, then the status stream or the response instead of one. */
  method AnswerQueued(
      client: ByteStream, responses: Codec<Response>, handles: bool, replies: Codec<FlowResponse>,
      acceptance: SendAcceptance, subscription: Result<FlowSubscription, Response>)
      returns (written: bool)
    requires subscription.Success? ==> subscription.value.stream != client
    modifies client`outgoing, client`credit
    modifies (if subscription.Success? then {subscription.value.stream} else {})`incoming
    ensures var outcome := old(Seen(Success(QueuedReply(acceptance, subscription))));
            var frames := AnswerFrames(outcome, replies, handles);
            && client.outgoing == old(client.outgoing) + Accepted(WireBytes(responses, frames), old(client.credit))
            && (written <==> AllWritten(responses, frames, old(client.credit)) && (subscription.Success? ==> handles))
  {
    ghost var frames := AnswerFrames(Seen(Success(QueuedReply(acceptance, subscription))), replies, handles);
    ghost var goal := client.outgoing + Accepted(WireBytes(responses, frames), client.credit);
    written := WriteNext(client, responses, SendAccepted(acceptance), frames, goal);
    if !written {
      return;
    }
    match subscription {
      case Failure(response) =>
        written := WriteNext(client, responses, response, frames[1..], goal);
      case Success(stream) =>
        written := ForwardSubscription(client, stream, replies, responses, Some(acceptance.id), handles);
    }
  }

  // ----- Answering an observation -----

  /** What the observation query comes to: a stream, or the response instead of one. */
  function ObservationOutcome(
      path: Result<string, Configuration.StoreError>, c: Contracts, e: Encounter,
      process: Process, thread: Option<string>, cursor: Option<int>): Result<Feed, Response>
  {
    if path.Failure? then Failure(Response.Refused(StoreRefused))
    else if WhollyWritten(c, FlowQuery.ObserveSender(process, thread, cursor), e) then Success(Feed(e.reply, e.ending))
    else Failure(ObservationInterrupted(cursor, CouldNotOpen(SubscriptionFailure(e))))
  }

  function ObservationFrames(outcome: Result<Feed, Response>, replies: Codec<FlowResponse>, handles: bool): seq<Response> {
    match outcome
    case Failure(response) => [response]
    case Success(feed) =>
      if handles then Forwarded(DecodeAll(replies, feed.bytes, feed.ending), None, None) else []
  }

  method AnswerObservation(
      client: ByteStream, responses: Codec<Response>, handles: bool,
      world: World, process: Process, thread: Option<string>, cursor: Option<int>)
      returns (written: bool)
    requires world.trace == []
    modifies client`outgoing, client`credit, world`trace
    ensures var path := Configuration.StoredPath(world.stores(0));
            var outcome := ObservationOutcome(path, world.contracts, world.encounters(0), process, thread, cursor);
            var frames := ObservationFrames(outcome, world.contracts.replies, handles);
            && client.outgoing == old(client.outgoing) + Accepted(WireBytes(responses, frames), old(client.credit))
            && (written <==> AllWritten(responses, frames, old(client.credit)) && (outcome.Success? ==> handles))
            && world.trace == if path.Failure? then []
                              else [world.Contact(0, path.value, FlowQuery.ObserveSender(process, thread, cursor))]
  {
    var edge := world.OpenEdge();
    if edge.Failure? {
      var refusal := Response.Refused(StoreRefused);
      written := WriteNext(client, responses, refusal, [refusal], client.outgoing + Accepted(WireBytes(responses, [refusal]), client.credit));
      return;
    }
    var subscription := edge.value.ObserveSender(process, thread, cursor);
    match subscription {
      case Failure(failure) =>
        assert !failure.EdgeRefused?;  // opening a subscription reads no reply, so it meets no refusal
        var response := ObservationInterrupted(cursor, CouldNotOpen(failure));
        written := WriteNext(client, responses, response, [response], client.outgoing + Accepted(WireBytes(responses, [response]), client.credit));
      case Success(stream) =>
        written := ForwardSubscription(client, stream, world.contracts.replies, responses, None, handles);
    }
  }
}
