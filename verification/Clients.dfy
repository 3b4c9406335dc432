/** The two clients of a Message status stream: the `message` command and the MCP
adapter. Each decides on its own, frame by frame, when the stream is over. */
module Clients {
  import opened Wrappers
  import opened Frames
  import opened Contract

  /** Some snapshot says the delivery `id` is Delivered or Failed. */
  predicate SettledIn(snapshots: seq<Snapshot>, id: string) {
    exists i | 0 <= i < |snapshots| :: snapshots[i].id == id && (snapshots[i].state.Delivered? || snapshots[i].state.Failed?)
  }

  // ----- The message command -----

  /** The id of the delivery it follows, after this reply. */
  function CliAccepted(accepted: Option<string>, reply: Response): Option<string> {
    if reply.SendAccepted? then Some(reply.acceptance.id) else accepted
  }

  predicate CliTerminal(accepted: Option<string>, reply: Response) {
    match reply
    case SendAccepted(_) => false
    case SendsObserved(observation) => accepted.Some? && SettledIn(observation.snapshots, accepted.value)
    case SendChanged(snapshot) => accepted == Some(snapshot.id) && (snapshot.state.Delivered? || snapshot.state.Failed?)
    case Sent(_) | SendFailed(_) | ObservationInterrupted(_, _) | Refused(_) | Configured => true
  }

  /** How many replies a client takes, and whether it stopped by itself. */
  datatype Reads = Reads(taken: nat, ended: bool)

  function CliReads(accepted: Option<string>, replies: seq<Response>): (r: Reads)
    ensures r.taken <= |replies| && (!r.ended ==> r.taken == |replies|)
    decreases |replies|
  {
    if replies == [] then Reads(0, false)
    else if CliTerminal(accepted, replies[0]) then Reads(1, true)
    else
      var rest := CliReads(CliAccepted(accepted, replies[0]), replies[1..]);
      Reads(1 + rest.taken, rest.ended)
  }

  /** What reading one more frame leaves to be read. */
  lemma ReadOne(responses: Codec<Response>, input: Bytes, ending: Ending, accepted: Option<string>)
    ensures var one := Decode(responses, input, ending);
            var ahead := DecodeAll(responses, input, ending);
            if one.result.Failure? then ahead == [] && CliReads(accepted, ahead) == Reads(0, false)
            else
              var reply, after := one.result.value, DecodeAll(responses, one.rest, ending);
              var run := CliReads(CliAccepted(accepted, reply), after);
              && |one.rest| < |input| && ahead == [reply] + after
              && CliReads(accepted, ahead) ==
                 if CliTerminal(accepted, reply) then Reads(1, true) else Reads(1 + run.taken, run.ended)
  {
    var one := Decode(responses, input, ending);
    if one.result.Success? {
      var after := DecodeAll(responses, one.rest, ending);
      assert ([one.result.value] + after)[1..] == after;
    }
  }

  lemma Shift<V>(a: seq<V>, v: V, b: seq<V>)
    ensures (a + [v]) + b == a + ([v] + b)
    ensures (a + ([v] + b))[..|a|] == a && (a + ([v] + b))[..|a| + 1] == a + [v]
  {
  }

  /** The command prints every reply up to the first terminal one and succeeds; it
  fails when the frames it can read run out first. */
  method Call(peer: ByteStream, responses: Codec<Response>) returns (ok: bool, printed: seq<Response>)
    modifies peer`incoming
    ensures var all := DecodeAll(responses, old(peer.incoming), peer.ending);
            var run := CliReads(None, all);
            ok == run.ended && printed == all[..run.taken]
    ensures ok ==> DecodeAll(responses, old(peer.incoming), peer.ending) == printed + DecodeAll(responses, peer.incoming, peer.ending)
  {
    var accepted: Option<string> := None;
    printed := [];
    ghost var all := DecodeAll(responses, peer.incoming, peer.ending);
    ghost var run := CliReads(None, all);
    ghost var ahead := all;
    while true
      invariant ahead == DecodeAll(responses, peer.incoming, peer.ending)
      invariant printed + ahead == all
      invariant run == var rest := CliReads(accepted, ahead); Reads(|printed| + rest.taken, rest.ended)
      decreases |peer.incoming|
    {
      ReadOne(responses, peer.incoming, peer.ending, accepted);
      var read := peer.ReadFrame(responses);
      if read.Failure? {
        return false, printed;
      }
      var reply := read.value;
      ahead := DecodeAll(responses, peer.incoming, peer.ending);
      Shift(printed, reply, ahead);
      printed := printed + [reply];
      if CliTerminal(accepted, reply) {
        return true, printed;
      }
      accepted := CliAccepted(accepted, reply);
    }
  }

  // ----- The MCP adapter's read loop -----

  /** What the loop remembers: the accepted delivery and the last durable cursor. */
  datatype View = View(accepted: Option<string>, cursor: Option<int>)

  const FRESH := View(None, None)

  function Absorb(view: View, response: Response): View {
    match response
    case SendAccepted(acceptance) => View(Some(acceptance.id), Some(acceptance.cursor))
    case SendsObserved(observation) => view.(cursor := Some(observation.cursor))
    case SendChanged(snapshot) => view.(cursor := Some(snapshot.cursor))
    case _ => view
  }

  function AbsorbAll(view: View, responses: seq<Response>): View
    decreases |responses|
  {
    if responses == [] then view else AbsorbAll(Absorb(view, responses[0]), responses[1..])
  }

  lemma {:induction false} AbsorbAllAppend(view: View, a: seq<Response>, b: seq<Response>)
    ensures AbsorbAll(view, a + b) == AbsorbAll(AbsorbAll(view, a), b)
    decreases |a|
  {
    if a == [] {
      assert a + b == b;
    } else {
      assert (a + b)[1..] == a[1..] + b;
      AbsorbAllAppend(Absorb(view, a[0]), a[1..], b);
    }
  }

  /** Terminal for a loop whose view already includes the response. */
  predicate TerminalFor(response: Response, accepted: Option<string>) {
    match response
    case Sent(_) | SendFailed(_) => true
    case SendAccepted(_) => false
    case SendsObserved(observation) => accepted.Some? && SettledIn(observation.snapshots, accepted.value)
    case SendChanged(snapshot) => accepted == Some(snapshot.id) && (snapshot.state.Delivered? || snapshot.state.Failed?)
    case ObservationInterrupted(_, _) | Refused(_) | Configured => true
  }

  function McpReads(view: View, responses: seq<Response>): (r: Reads)
    ensures r.taken <= |responses| && (!r.ended ==> r.taken == |responses|)
    decreases |responses|
  {
    if responses == [] then Reads(0, false)
    else
      var now := Absorb(view, responses[0]);
      if TerminalFor(responses[0], now.accepted) then Reads(1, true)
      else
        var rest := McpReads(now, responses[1..]);
        Reads(1 + rest.taken, rest.ended)
  }

  /** The JSON-RPC answer to a terminal response. */
  datatype Verdict =
    | Result(text: Response, isError: bool)
    | Interrupted(cursor: Option<int>)

  predicate FailedIn(snapshots: seq<Snapshot>, accepted: Option<string>) {
    exists i | 0 <= i < |snapshots| :: accepted == Some(snapshots[i].id) && snapshots[i].state.Failed?
  }

  function VerdictFor(response: Response, view: View): Verdict {
    match response
    case ObservationInterrupted(_, _) => Interrupted(view.cursor)
    case SendFailed(_) | Refused(_) => Result(response, true)
    case SendChanged(snapshot) => Result(response, snapshot.state.Failed?)
    case SendsObserved(observation) => Result(response, FailedIn(observation.snapshots, view.accepted))
    case _ => Result(response, false)
  }

  function SnapshotsOf(response: Response): seq<Snapshot> {
    match response
    case SendsObserved(observation) => observation.snapshots
    case SendChanged(snapshot) => [snapshot]
    case _ => []
  }

  /** A terminal response settles the call as an error exactly when it is a failure, a
  refusal, or a status in which the accepted delivery failed; any other result means
  the message was sent, or a status says the accepted delivery was delivered. */
  lemma ErrorMeansFailure(response: Response, view: View)
    requires TerminalFor(response, view.accepted)
    ensures match VerdictFor(response, view)
            case Interrupted(cursor) => response.ObservationInterrupted? && cursor == view.cursor
            case Result(text, isError) =>
              && text == response && !response.ObservationInterrupted? && !response.SendAccepted?
              && (isError <==> response.SendFailed? || response.Refused? || FailedIn(SnapshotsOf(response), view.accepted))
              && (!isError ==>
                    response.Sent? || response.Configured?
                    || exists i | 0 <= i < |SnapshotsOf(response)| ::
                         Some(SnapshotsOf(response)[i].id) == view.accepted && SnapshotsOf(response)[i].state.Delivered?)
  {
    match response {
      case SendChanged(snapshot) =>
        assert SnapshotsOf(response)[0] == snapshot;
      case SendsObserved(observation) =>
        var i :| 0 <= i < |observation.snapshots| && observation.snapshots[i].id == view.accepted.value
                 && (observation.snapshots[i].state.Delivered? || observation.snapshots[i].state.Failed?);
        assert SnapshotsOf(response)[i] == observation.snapshots[i];
      case Sent(_) | SendFailed(_) | ObservationInterrupted(_, _) | Refused(_) | Configured =>
    }
  }

  /** The two clients stop at the same frame of every stream. */
  lemma {:induction false} ClientsStopTogether(view: View, replies: seq<Response>)
    ensures CliReads(view.accepted, replies) == McpReads(view, replies)
    decreases |replies|
  {
    if replies == [] {
    } else {
      var now := Absorb(view, replies[0]);
      assert now.accepted == CliAccepted(view.accepted, replies[0]);
      ClientsStopTogether(now, replies[1..]);
    }
  }
}
