/** What one Send guarantees for every behaviour of Flow and of the kernel, stated on
the bytes that reached Flow and the replies Flow's bytes decode to. */
module SendGuarantees {
  import opened Wrappers
  import opened Frames
  import opened Contract
  import opened FlowEdge
  import opened SendTransaction

  /** What Flow, reading with the same framing, makes of the i-th connection. */
  ghost function Heard(s: Situation, i: nat): Result<FlowQuery, FrameError>
    requires i < |s.Trace()|
  {
    Decode(s.contracts.queries, s.Trace()[i].received, Eof).result
  }

  ghost predicate HeardDeliver(s: Situation, i: nat)
    requires i < |s.Trace()|
  {
    Heard(s, i).Success? && Heard(s, i).value.Deliver?
  }

  /** What the bytes Flow sends back on the i-th connection decode to. */
  function Replied(s: Situation, i: nat): Result<FlowResponse, FrameError> {
    Decode(s.contracts.replies, s.encounters(i).reply, s.encounters(i).ending).result
  }

  predicate Whole(s: Situation, i: nat)
    requires i < |s.Trace()|
  {
    Encoded(s.contracts.queries, s.Trace()[i].query) == Some(s.Trace()[i].received)
  }

  /** Flow took the whole query of the i-th connection and gave this reply to it. */
  predicate Answered(s: Situation, i: nat, response: FlowResponse)
    requires i < |s.Trace()|
  {
    Whole(s, i) && Replied(s, i) == Success(response)
  }

  lemma ContactAt(s: Situation, i: nat)
    requires i < |s.Trace()|
    ensures s.path.Success? && s.Trace()[i] == s.Contact(i, s.Trace()[i].query)
  {
  }

  lemma WholeMeansWritten(s: Situation, i: nat)
    requires i < |s.Trace()|
    ensures Whole(s, i) <==> WhollyWritten(s.contracts, s.Trace()[i].query, s.encounters(i))
    ensures !Whole(s, i) && Encoded(s.contracts.queries, s.Trace()[i].query).Some? ==>
              s.Trace()[i].received < Encoded(s.contracts.queries, s.Trace()[i].query).value
  {
    ContactAt(s, i);
    ReceivedWhole(s.contracts, s.Trace()[i].query, s.encounters(i));
  }

  lemma HeardIsAsked(s: Situation, i: nat)
    requires Faithful(s.contracts.queries) && i < |s.Trace()|
    ensures Heard(s, i).Success? <==> Whole(s, i) && Fits(s.contracts.queries, s.Trace()[i].query)
    ensures Heard(s, i).Success? ==> Heard(s, i).value == s.Trace()[i].query
  {
    ContactAt(s, i);
    WholeMeansWritten(s, i);
    FlowDecodesOnlyWholeQueries(s.contracts, s.Trace()[i].query, s.encounters(i), Eof);
  }

  // ----- The Deliver and the lock it runs under -----

  /** A Deliver is attempted only as the third connection, with the caller's delivery
  and message, under a lock that had not lapsed at the check, that Flow had just
  granted for the caller's recipient to the very sender Flow had just identified;
  both earlier queries reached Flow whole, on the same socket. */
  lemma DeliverOnlyUnderItsLock(s: Situation, i: nat)
    requires i < |s.Trace()| && s.Trace()[i].query.Deliver?
    ensures i == 2
    ensures var deliver := s.Trace()[2].query;
            && deliver.delivery == s.request.delivery && deliver.message == s.request.message
            && s.now < deliver.lock.until
            && Answered(s, 1, LockGranted(deliver.lock))
            && s.Trace()[1].query.LockQuery? && s.Trace()[1].query.recipient == s.request.recipient
            && Answered(s, 0, Identified(s.Trace()[1].query.sender))
            && s.Trace()[0].query == IdentifyQuery(s.process, s.thread)
            && s.Trace()[0].path == s.Trace()[1].path == s.Trace()[2].path
  {
    WholeMeansWritten(s, 0);
    WholeMeansWritten(s, 1);
  }

  /** Flow can read a Deliver from at most one connection of a Send. */
  lemma AtMostOneDeliver(s: Situation, i: nat, j: nat)
    requires Faithful(s.contracts.queries)
    requires i < |s.Trace()| && j < |s.Trace()| && HeardDeliver(s, i) && HeardDeliver(s, j)
    ensures i == j
    ensures Heard(s, i).value.delivery == s.request.delivery && Heard(s, i).value.message == s.request.message
  {
    HeardIsAsked(s, i);
    HeardIsAsked(s, j);
    DeliverOnlyUnderItsLock(s, i);
    DeliverOnlyUnderItsLock(s, j);
  }

  /** What the fourth connection is: a Release of the Deliver's lock exactly when a
  Deliver was made and Flow did not refuse it and did not queue it; the status stream
  from the acceptance's cursor exactly when a soft Deliver was queued. */
  lemma ReleaseOrObserveExactly(s: Situation)
    ensures |s.Trace()| <= 4
    ensures forall i: nat | i < |s.Trace()| :: s.Trace()[i].query.Deliver? <==> i == 2
    ensures |s.Trace()| > 2 ==>
              var deliver := s.Trace()[2].query;
              var refused := exists refusal :: Answered(s, 2, FlowRefused(refusal));
              var queued := !s.IsAbrupt() && exists acceptance :: Answered(s, 2, FlowAccepted(acceptance));
              && (|s.Trace()| > 3 <==> !refused)
              && (!refused && !queued ==> s.Trace()[3].query == FlowQuery.Release(deliver.lock))
              && (forall acceptance | !s.IsAbrupt() && Answered(s, 2, FlowAccepted(acceptance)) ::
                    |s.Trace()| > 3 && s.Trace()[3].query == FlowQuery.ObserveSender(s.process, s.thread, Some(acceptance.cursor)))
    ensures forall i: nat | i < |s.Trace()| && s.Trace()[i].query.Release? :: i == 3
    ensures forall i: nat | i < |s.Trace()| :: s.path == Success(s.Trace()[i].path)
  {
    if |s.Trace()| > 2 {
      WholeMeansWritten(s, 2);
      var deliver := s.Trace()[2];
      var reply := s.Reply(2, s.DeliverAsked());
      if reply.Success? {
        assert Answered(s, 2, reply.value);
      }
    }
  }

  /** A Release is of a lock that Flow granted on the second connection of the same
  Send, and goes to the socket it was granted on. */
  lemma ReleaseGoesToTheGranter(s: Situation, i: nat)
    requires i < |s.Trace()| && s.Trace()[i].query.Release?
    ensures i == 3
    ensures s.Trace()[1].query.LockQuery? && Answered(s, 1, LockGranted(s.Trace()[i].query.lock))
    ensures s.Trace()[i].path == s.Trace()[1].path
  {
    ReleaseOrObserveExactly(s);
    DeliverOnlyUnderItsLock(s, 2);
  }

  // ----- Soundness of the answers -----

  /** When Message itself answers NotSent, Flow was left at most a strict prefix of a
  Deliver frame, so it can have read none. */
  lemma NotSentIsSound(s: Situation, i: nat)
    requires Faithful(s.contracts.queries)
    requires s.Outcome() == Rejected(SendFailed(SendFailure(None, NotSent)))
    requires i < |s.Trace()|
    ensures !HeardDeliver(s, i)
    ensures s.Trace()[i].query.Deliver? ==> !Whole(s, i)
  {
    HeardIsAsked(s, i);
    if s.Trace()[i].query.Deliver? {
      DeliverOnlyUnderItsLock(s, i);
      WholeMeansWritten(s, 2);
    }
  }

  /** One of the replies an exchange has a use for. */
  predicate Usable(s: Situation, i: nat)
    requires i < |s.Trace()|
  {
    && Whole(s, i) && Replied(s, i).Success?
    && match s.Trace()[i].query
       case Identify(_) => Replied(s, i).value.Identified? || Replied(s, i).value.FlowRefused?
       case IdentifyThread(_, _) => Replied(s, i).value.Identified? || Replied(s, i).value.FlowRefused?
       case LockQuery(_, _) => Replied(s, i).value.LockGranted? || Replied(s, i).value.FlowRefused?
       case _ => Replied(s, i).value.FlowAccepted? || Replied(s, i).value.FlowSent?
                 || Replied(s, i).value.FlowFailed? || Replied(s, i).value.FlowRefused?
  }

  /** Exactly when an abrupt Send is answered NotSent by Message: the Send stopped at
  Identify or Lock without a usable reply, or Flow did not get the whole Deliver
  (a connection on which only the timeouts failed counts as uncertain instead). */
  lemma NotSentExactly(s: Situation)
    requires s.IsAbrupt() && s.path.Success?
    ensures s.Outcome() == Rejected(SendFailed(SendFailure(None, NotSent))) <==>
            || (|s.Trace()| <= 2 && !Usable(s, |s.Trace()| - 1))
            || (|s.Trace()| > 2 && !Whole(s, 2) && (s.encounters(2).connects ==> s.encounters(2).takesTimeouts))
  {
    if s.ReachesDeliver() {
      NotSentAfterDeliver(s);
    } else {
      NotSentBeforeDeliver(s);
    }
  }

  lemma NotSentBeforeDeliver(s: Situation)
    requires s.IsAbrupt() && s.path.Success? && !s.ReachesDeliver()
    ensures 0 < |s.Trace()| <= 2
    ensures s.Outcome() == Rejected(SendFailed(SendFailure(None, NotSent))) <==> !Usable(s, |s.Trace()| - 1)
  {
    WholeMeansWritten(s, |s.Trace()| - 1);
  }

  lemma NotSentAfterDeliver(s: Situation)
    requires s.IsAbrupt() && s.ReachesDeliver()
    ensures |s.Trace()| > 2
    ensures s.Outcome() == Rejected(SendFailed(SendFailure(None, NotSent))) <==>
            !Whole(s, 2) && (s.encounters(2).connects ==> s.encounters(2).takesTimeouts)
  {
    WholeMeansWritten(s, 2);
  }

  /** An abrupt Deliver that reached Flow whole is accounted for: the answer is Flow's
  own Sent, Failed or Refused, and otherwise says the receipt is uncertain. */
  lemma WrittenDeliverIsAccountedFor(s: Situation)
    requires s.IsAbrupt() && |s.Trace()| > 2 && Whole(s, 2)
    ensures s.Outcome() ==
            match Replied(s, 2)
            case Success(FlowSent(receipt)) => Delivers(receipt)
            case Success(FlowFailed(failure)) => Fails(failure)
            case Success(FlowRefused(refusal)) => Rejected(SendFailed(SendFailure(None, RefusedBy(refusal))))
            case Success(FlowAccepted(acceptance)) => Fails(SendFailure(Some(acceptance.id), ReceiptUncertain))
            case _ => Rejected(SendFailed(SendFailure(None, ReceiptUncertain)))
  {
    WholeMeansWritten(s, 2);
  }

  /** An abrupt Send is never queued. It is answered Sent or Failed, except that it is
  refused exactly when Message cannot read its own store. */
  lemma AbruptIsNeverQueued(s: Situation)
    requires s.IsAbrupt()
    ensures s.Outcome().Delivers? || s.Outcome().Fails? || (s.Outcome().Rejected? && !s.Outcome().response.SendAccepted?)
    ensures s.Outcome().Rejected? && !s.Outcome().response.SendFailed? <==> s.path.Failure?
    ensures s.path.Failure? ==> s.Outcome() == Rejected(Response.Refused(StoreRefused)) && s.Trace() == []
  {
  }

  /** A soft Send has no such guarantee: "Flow unreachable" may be the answer to a Deliver
  that Flow took whole. It is exactly when Flow's reply to it is missing, of no use,
  or a refusal outside the Send contract. */
  lemma SoftRefusalMayHideADeliver(s: Situation)
    requires !s.IsAbrupt() && |s.Trace()| > 2 && Whole(s, 2)
    ensures s.Outcome() == Rejected(Response.Refused(FlowUnreachable)) <==>
            match Replied(s, 2)
            case Success(FlowRefused(refusal)) => !InSendContract(refusal)
            case _ => !Usable(s, 2)
  {
    WholeMeansWritten(s, 2);
  }

  // ----- Flows that show the exceptions -----

  /** A Send whose sender Flow identifies and whose lock it grants. */
  datatype Script = Script(
    path: string, contracts: Contracts, process: Process, thread: Option<string>, request: SendRequest,
    sender: Address, lock: Lock, now: int)
  {
    ghost predicate Plays() {
      && Faithful(contracts.queries) && Faithful(contracts.replies)
      && Fits(contracts.replies, Identified(sender)) && Fits(contracts.replies, LockGranted(lock))
      && Fits(contracts.queries, IdentifyQuery(process, thread))
      && Fits(contracts.queries, LockQuery(sender, request.recipient))
      && Fits(contracts.queries, FlowQuery.Deliver(lock, request.delivery, request.message))
      && !(Abrupt(request.message) && request.delivery.Queue?) && now < lock.until
    }

    /** What Flow does to the Deliver and to the connection after it is open. */
    function Against(deliver: Encounter, last: Encounter): Situation
      requires Fits(contracts.replies, Identified(sender)) && Fits(contracts.replies, LockGranted(lock))
    {
      var first, second := Answering(contracts, Identified(sender)), Answering(contracts, LockGranted(lock));
      Situation(
        Success(path), contracts,
        (n: nat) => if n == 0 then first else if n == 1 then second else if n == 2 then deliver else last,
        process, thread, request, now)
    }
  }

  /** Flow takes the whole query, gives this reply and closes. */
  function Answering(c: Contracts, reply: FlowResponse): Encounter
    requires Fits(c.replies, reply)
  {
    Encounter(true, true, None, Frame(c.replies.encode(reply).value), Eof)
  }

  /** Flow takes the whole query and closes without a reply. */
  const SILENT := Encounter(true, true, None, [], Eof)

  lemma AnsweringIsHeard(c: Contracts, query: FlowQuery, reply: FlowResponse)
    requires Faithful(c.replies) && Fits(c.replies, reply) && Fits(c.queries, query)
    ensures WhollyWritten(c, query, Answering(c, reply))
    ensures Decode(c.replies, Answering(c, reply).reply, Eof).result == Success(reply)
    ensures ExchangeResult(c, query, Answering(c, reply)) == Success(reply)
  {
    var archive := c.replies.encode(reply).value;
    DecodeFrame(c.replies, archive, [], Eof);
    assert Frame(archive) + [] == Frame(archive);
  }

  lemma ScriptReachesDeliver(script: Script, deliver: Encounter, last: Encounter)
    requires script.Plays()
    ensures var s := script.Against(deliver, last);
            && s.ReachesDeliver() && s.LockGot() == Success(script.lock)
            && s.encounters(2) == deliver && s.encounters(3) == last
  {
    var s := script.Against(deliver, last);
    AnsweringIsHeard(s.contracts, s.IdentifyAsked(), Identified(script.sender));
    assert s.Who() == Success(script.sender);
    AnsweringIsHeard(s.contracts, s.LockAsked(), LockGranted(script.lock));
  }

  /** A soft Deliver that Flow reads whole and never answers: the sender is told that
  Flow is unreachable. */
  lemma SilentFlowHidesADeliver(script: Script)
    requires script.Plays() && script.request.message.Soft?
    ensures var s := script.Against(SILENT, SILENT);
            && |s.Trace()| > 2 && HeardDeliver(s, 2)
            && s.Outcome() == Rejected(Response.Refused(FlowUnreachable))
  {
    var s := script.Against(SILENT, SILENT);
    ScriptReachesDeliver(script, SILENT, SILENT);
    ReleasedDeliver(s);
    HeardIsAsked(s, 2);
    WholeMeansWritten(s, 2);
  }

  /** An abrupt Deliver on a connection that only refuses its timeouts: nothing is
  written, and the receipt is called uncertain. */
  lemma RefusedTimeoutsLookUncertain(script: Script, untimed: Encounter)
    requires script.Plays() && Abrupt(script.request.message)
    requires untimed.connects && !untimed.takesTimeouts
    ensures var s := script.Against(untimed, SILENT);
            && |s.Trace()| > 2 && s.Trace()[2].query.Deliver? && s.Trace()[2].received == []
            && s.Outcome() == Rejected(SendFailed(SendFailure(None, ReceiptUncertain)))
  {
    ScriptReachesDeliver(script, untimed, SILENT);
    ReleasedDeliver(script.Against(untimed, SILENT));
  }
}
