/** The frames that answer a Send, in terms of what Flow said. */
module AnswerGuarantees {
  import opened Wrappers
  import opened Frames
  import opened Contract
  import opened SendTransaction
  import opened SendGuarantees
  import opened Listener

  /** What Flow, having taken the whole of the i-th query, said to it. */
  function Said(s: Situation, i: nat): Option<FlowResponse>
    requires i < |s.Trace()|
  {
    if Whole(s, i) && Replied(s, i).Success? then Some(Replied(s, i).value) else None
  }

  function Answer(s: Situation, handles: bool): seq<Response> {
    AnswerFrames(s.Outcome(), s.contracts.replies, handles)
  }

  // ----- How far a Send gets -----

  /** Which connections a Send makes: it always asks who the sender is, with the thread if
  it has one; it asks for the lock exactly when Flow named the sender, unless an abrupt
  message is to be queued; and it delivers exactly when Flow granted a lock that has
  not lapsed. */
  lemma StagesExactly(s: Situation)
    requires s.path.Success?
    ensures s.Trace() != []
    ensures s.Trace()[0].query == match s.thread
                                  case None => FlowQuery.Identify(s.process)
                                  case Some(session) => FlowQuery.IdentifyThread(s.process, session)
    ensures |s.Trace()| > 1 <==>
              Said(s, 0).Some? && Said(s, 0).value.Identified? && (s.request.message.Soft? || s.request.delivery.Wake?)
    ensures |s.Trace()| > 1 ==>
              s.Trace()[1].query == FlowQuery.LockQuery(Said(s, 0).value.address, s.request.recipient)
    ensures |s.Trace()| > 2 <==>
              |s.Trace()| > 1 && Said(s, 1).Some? && Said(s, 1).value.LockGranted? && s.now < Said(s, 1).value.lock.until
    ensures |s.Trace()| > 2 ==>
              s.Trace()[2].query == FlowQuery.Deliver(Said(s, 1).value.lock, s.request.delivery, s.request.message)
  {
    WholeMeansWritten(s, 0);
    if |s.Trace()| > 1 {
      WholeMeansWritten(s, 1);
    }
  }

  // ----- The one frame of an abrupt Send -----

  function Unsent(reason: SendFailureReason): Response {
    SendFailed(SendFailure(None, reason))
  }

  /** The answer to an abrupt Send that did not deliver. */
  lemma AbruptBeforeDeliver(s: Situation, handles: bool)
    requires s.path.Success? && !s.request.message.Soft? && |s.Trace()| <= 2
    ensures 0 < |s.Trace()|
    ensures Answer(s, handles) ==
            [match Said(s, |s.Trace()| - 1)
             case Some(Identified(_)) => if |s.Trace()| == 1 then Unsent(QueueNotPermitted) else Unsent(NotSent)
             case Some(LockGranted(_)) => if |s.Trace()| == 2 then Unsent(RefusedBy(Lapsed)) else Unsent(NotSent)
             case Some(FlowRefused(refusal)) => Unsent(RefusedBy(refusal))
             case _ => Unsent(NotSent)]
  {
    WholeMeansWritten(s, |s.Trace()| - 1);
  }

  /** The answer to an abrupt Send that did. */
  lemma AbruptAfterDeliver(s: Situation, handles: bool)
    requires !s.request.message.Soft? && |s.Trace()| > 2
    ensures Answer(s, handles) ==
            [match Said(s, 2)
             case Some(FlowSent(receipt)) => Sent(receipt)
             case Some(FlowFailed(failure)) => SendFailed(failure)
             case Some(FlowRefused(refusal)) => Unsent(RefusedBy(refusal))
             case Some(FlowAccepted(acceptance)) => SendFailed(SendFailure(Some(acceptance.id), ReceiptUncertain))
             case Some(_) => Unsent(ReceiptUncertain)
             case None =>
               if Whole(s, 2) || (s.encounters(2).connects && !s.encounters(2).takesTimeouts) then Unsent(ReceiptUncertain)
               else Unsent(NotSent)]
  {
    WholeMeansWritten(s, 2);
  }

  // ----- The first frame of a soft Send -----

  /** Flow's refusal as a soft sender is told it: the very refusal, unless it is one that
  the Send contract has no place for. */
  predicate Tells(response: Response, refusal: Refusal) {
    if refusal.UnknownOther? || refusal.Awake? || refusal.Taken? || refusal.OffRoute? || refusal.Direct?
    then response == Response.Refused(FlowUnreachable)
    else response == Response.Refused(Relayed(refusal))
  }

  lemma RefusalIsTold(refusal: Refusal)
    ensures Tells(ForSend(EdgeRefused(refusal), false, false), refusal)
    ensures Tells(ForSend(EdgeRefused(refusal), false, true), refusal)
  {
  }

  lemma SoftAfterIdentify(s: Situation, handles: bool)
    requires s.path.Success? && s.request.message.Soft? && |s.Trace()| == 1
    ensures |Answer(s, handles)| == 1
    ensures match Said(s, 0)
            case Some(FlowRefused(refusal)) => Tells(Answer(s, handles)[0], refusal)
            case _ => Answer(s, handles)[0] == Response.Refused(FlowUnreachable)
  {
    WholeMeansWritten(s, 0);
    if Said(s, 0).Some? && Said(s, 0).value.FlowRefused? {
      RefusalIsTold(Said(s, 0).value.refusal);
    }
  }

  lemma SoftAfterLock(s: Situation, handles: bool)
    requires s.request.message.Soft? && |s.Trace()| == 2
    ensures |Answer(s, handles)| == 1
    ensures match Said(s, 1)
            case Some(FlowRefused(refusal)) => Tells(Answer(s, handles)[0], refusal)
            case Some(LockGranted(_)) => Answer(s, handles)[0] == Response.Refused(Relayed(Lapsed))
            case _ => Answer(s, handles)[0] == Response.Refused(FlowUnreachable)
  {
    WholeMeansWritten(s, 1);
    if Said(s, 1).Some? && Said(s, 1).value.FlowRefused? {
      RefusalIsTold(Said(s, 1).value.refusal);
    }
  }

  /** The answer to a soft Send that did not deliver. */
  lemma SoftBeforeDeliver(s: Situation, handles: bool)
    requires s.path.Success? && s.request.message.Soft? && |s.Trace()| <= 2
    ensures 0 < |s.Trace()| && |Answer(s, handles)| == 1
    ensures match Said(s, |s.Trace()| - 1)
            case Some(FlowRefused(refusal)) => Tells(Answer(s, handles)[0], refusal)
            case Some(LockGranted(_)) =>
              Answer(s, handles)[0] == Response.Refused(if |s.Trace()| == 2 then Relayed(Lapsed) else FlowUnreachable)
            case _ => Answer(s, handles)[0] == Response.Refused(FlowUnreachable)
  {
    if |s.Trace()| == 1 {
      SoftAfterIdentify(s, handles);
    } else {
      assert s.Trace() != [];
      SoftAfterLock(s, handles);
    }
  }

  /** The answer to a soft Send that did. */
  lemma SoftAfterDeliver(s: Situation, handles: bool)
    requires s.request.message.Soft? && |s.Trace()| > 2
    ensures Answer(s, handles) != []
    ensures match Said(s, 2)
            case Some(FlowSent(receipt)) => Answer(s, handles) == [Sent(receipt)]
            case Some(FlowFailed(failure)) => Answer(s, handles) == [SendFailed(failure)]
            case Some(FlowAccepted(acceptance)) => Answer(s, handles)[0] == SendAccepted(acceptance)
            case Some(FlowRefused(refusal)) => |Answer(s, handles)| == 1 && Tells(Answer(s, handles)[0], refusal)
            case _ => Answer(s, handles) == [Response.Refused(FlowUnreachable)]
  {
    WholeMeansWritten(s, 2);
    if Said(s, 2).Some? && Said(s, 2).value.FlowRefused? {
      RefusalIsTold(Said(s, 2).value.refusal);
    }
  }

  /** After an acceptance come the statuses that Flow sends on the fourth connection, if it
  took the whole of its query, and otherwise one interruption at the acceptance's
  cursor. */
  lemma AfterTheAcceptance(s: Situation, acceptance: SendAcceptance)
    requires s.request.message.Soft? && |s.Trace()| > 2 && Said(s, 2) == Some(FlowAccepted(acceptance))
    ensures |s.Trace()| == 4 && s.Trace()[3].query == FlowQuery.ObserveSender(s.process, s.thread, Some(acceptance.cursor))
    ensures if Whole(s, 3) then
              Answer(s, true)[1..] ==
              Forwarded(DecodeAll(s.contracts.replies, s.encounters(3).reply, s.encounters(3).ending), Some(acceptance.id), None)
            else
              |Answer(s, true)| == 2 && Answer(s, true)[1].ObservationInterrupted? && Answer(s, true)[1].cursor == Some(acceptance.cursor)
  {
    WholeMeansWritten(s, 2);
    assert s.Observes();
    QueuedDeliver(s);
    WholeMeansWritten(s, 3);
  }

  // ----- What a frame proves -----

  /** Message could not read its store, and said so, exactly when it did not try Flow. */
  lemma UnreadStore(s: Situation, handles: bool)
    ensures s.path.Failure? <==> Answer(s, handles) == [Response.Refused(StoreRefused)]
    ensures s.path.Failure? <==> s.Trace() == []
  {
    if s.path.Success? {
      if |s.Trace()| <= 2 {
        if s.request.message.Soft? {
          SoftBeforeDeliver(s, handles);
        } else {
          AbruptBeforeDeliver(s, handles);
        }
      } else if s.request.message.Soft? {
        SoftAfterDeliver(s, handles);
      } else {
        AbruptAfterDeliver(s, handles);
      }
    }
  }

  /** "Sent" is the answer, and the whole answer, exactly when Flow said so to the Deliver. */
  lemma SentExactly(s: Situation, handles: bool, receipt: SendReceipt)
    ensures Answer(s, handles) == [Sent(receipt)] <==> |s.Trace()| > 2 && Said(s, 2) == Some(FlowSent(receipt))
    ensures Answer(s, handles)[0].Sent? ==> Answer(s, handles) == [Answer(s, handles)[0]]
  {
    ByStage(s, handles);
  }

  /** An acceptance is the first frame exactly when Flow accepted a soft Deliver. */
  lemma AcceptedExactly(s: Situation, handles: bool, acceptance: SendAcceptance)
    ensures Answer(s, handles)[0] == SendAccepted(acceptance) <==>
              s.request.message.Soft? && |s.Trace()| > 2 && Said(s, 2) == Some(FlowAccepted(acceptance))
  {
    ByStage(s, handles);
  }

  /** A frame that says "not sent", unless Flow itself said so to the Deliver, means that
  Flow read no Deliver on any connection. */
  lemma NotSentFrameIsSound(s: Situation, handles: bool, id: Option<string>, i: nat)
    requires Faithful(s.contracts.queries) && i < |s.Trace()|
    requires Answer(s, handles)[0] == SendFailed(SendFailure(id, NotSent))
    requires |s.Trace()| > 2 ==> Said(s, 2) != Some(FlowFailed(SendFailure(id, NotSent)))
    ensures !HeardDeliver(s, i) && (s.Trace()[i].query.Deliver? ==> !Whole(s, i))
  {
    ByStage(s, handles);
    HeardIsAsked(s, i);
    if s.Trace()[i].query.Deliver? {
      DeliverOnlyUnderItsLock(s, i);
    }
  }

  /** The tables above, for whichever of them applies. */
  lemma ByStage(s: Situation, handles: bool)
    ensures Answer(s, handles) != []
    ensures |s.Trace()| <= 2 ==>
              |Answer(s, handles)| == 1 && !Answer(s, handles)[0].Sent? && !Answer(s, handles)[0].SendAccepted?
    ensures |s.Trace()| > 2 ==>
              var first := Answer(s, handles)[0];
              match Said(s, 2)
              case Some(FlowSent(receipt)) => Answer(s, handles) == [Sent(receipt)]
              case Some(FlowFailed(failure)) => Answer(s, handles) == [SendFailed(failure)]
              case Some(FlowAccepted(acceptance)) =>
                if s.request.message.Soft? then first == SendAccepted(acceptance)
                else first == SendFailed(SendFailure(Some(acceptance.id), ReceiptUncertain))
              case _ => (first.Refused? || first.SendFailed?) && (first.SendFailed? && first.failure.reason == NotSent ==> !Whole(s, 2))
  {
    if s.path.Failure? {
      assert s.Trace() == [];
    } else if |s.Trace()| <= 2 {
      if s.request.message.Soft? {
        SoftBeforeDeliver(s, handles);
      } else {
        AbruptBeforeDeliver(s, handles);
      }
    } else if s.request.message.Soft? {
      SoftAfterDeliver(s, handles);
    } else {
      AbruptAfterDeliver(s, handles);
    }
  }
}
