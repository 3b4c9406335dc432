/** One Send against an adversarial Flow: identify the sender, lock the recipient,
check that the lock has not lapsed, deliver, then release the lock or open the
status stream. */
module SendTransaction {
  import opened Wrappers
  import opened Frames
  import opened Contract
  import opened FlowEdge
  import Configuration

  // ----- Failures as responses -----

  /** Refusals Flow may make of a Send; any other is outside the contract. */
  predicate InSendContract(refusal: Refusal) {
    match refusal
    case Locked | Held(_) | Asleep | Lapsed | UnknownAddress(_) | UnknownLock(_) | NoLayer | NoneAbove | NotMessage
      | NotConfigured | NotSendServer(_) | Unidentified(_) | StoreFault(_) | Oversized(_, _) => true
    case UnknownOther(_) | Awake | Taken | OffRoute | Direct => false
  }

  function ForMessage(failure: EdgeFailure): SendRefusal {
    match failure
    case EdgeRefused(refusal) => if InSendContract(refusal) then Relayed(refusal) else FlowUnreachable
    case Unreachable | Broken | Unexpected => FlowUnreachable
  }

  function ForSend(failure: EdgeFailure, abrupt: bool, deliveryMayHaveStarted: bool): Response {
    if !abrupt then Response.Refused(ForMessage(failure))
    else
      SendFailed(SendFailure(None,
        match failure
        case EdgeRefused(refusal) => RefusedBy(refusal)
        case Unreachable => NotSent
        case Broken | Unexpected => if deliveryMayHaveStarted then ReceiptUncertain else NotSent))
  }

  // ----- The transaction, stage by stage -----

  /** Everything one Send depends on. `path` is the one read of the store, `now` the
  clock at the lapse check, and the n-th connection meets `encounters(n)`. */
  datatype Situation = Situation(
    path: Result<string, Configuration.StoreError>,
    contracts: Contracts,
    encounters: nat -> Encounter,
    process: Process,
    thread: Option<string>,
    request: SendRequest,
    now: int)
  {
    predicate IsAbrupt() {
      Abrupt(request.message)
    }

    function IdentifyAsked(): FlowQuery {
      IdentifyQuery(process, thread)
    }

    function Reply(n: nat, query: FlowQuery): Result<FlowResponse, EdgeFailure> {
      ExchangeResult(contracts, query, encounters(n))
    }

    function Who(): Result<Address, EdgeFailure> {
      IdentifyResult(Reply(0, IdentifyAsked()))
    }

    predicate AsksLock() {
      path.Success? && Who().Success? && !(IsAbrupt() && request.delivery.Queue?)
    }

    function LockAsked(): FlowQuery
      requires AsksLock()
    {
      FlowQuery.LockQuery(Who().value, request.recipient)
    }

    function LockGot(): Result<Lock, EdgeFailure>
      requires AsksLock()
    {
      LockResult(Reply(1, LockAsked()))
    }

    predicate ReachesDeliver() {
      AsksLock() && LockGot().Success? && now < LockGot().value.until
    }

    function DeliverAsked(): FlowQuery
      requires ReachesDeliver()
    {
      FlowQuery.Deliver(LockGot().value, request.delivery, request.message)
    }

    function DeliverGot(): Result<FlowSendReply, EdgeFailure>
      requires ReachesDeliver()
    {
      DeliverResult(IsAbrupt(), Reply(2, DeliverAsked()))
    }

    predicate Observes() {
      ReachesDeliver() && DeliverGot().Success? && DeliverGot().value.ReplyQueued?
    }

    predicate Releases() {
      ReachesDeliver() && !Observes() && !(DeliverGot().Failure? && DeliverGot().error.EdgeRefused?)
    }

    function LastAsked(): FlowQuery
      requires Observes() || Releases()
    {
      if Observes() then FlowQuery.ObserveSender(process, thread, Some(DeliverGot().value.acceptance.cursor))
      else FlowQuery.Release(LockGot().value)
    }

    function Contact(n: nat, query: FlowQuery): Connection
      requires path.Success?
    {
      Connection(path.value, query, Received(contracts, query, encounters(n)))
    }

    /** Every connection of the Send, in order. */
    function Trace(): seq<Connection> {
      if path.Failure? then []
      else if !AsksLock() then [Contact(0, IdentifyAsked())]
      else if !ReachesDeliver() then [Contact(0, IdentifyAsked()), Contact(1, LockAsked())]
      else if !Observes() && !Releases() then
        [Contact(0, IdentifyAsked()), Contact(1, LockAsked()), Contact(2, DeliverAsked())]
      else
        [Contact(0, IdentifyAsked()), Contact(1, LockAsked()), Contact(2, DeliverAsked()), Contact(3, LastAsked())]
    }

    function Outcome(): Outcome {
      if path.Failure? then Rejected(Response.Refused(StoreRefused))
      else if Who().Failure? then Rejected(ForSend(Who().error, IsAbrupt(), false))
      else if !AsksLock() then Fails(SendFailure(None, QueueNotPermitted))
      else if LockGot().Failure? then Rejected(ForSend(LockGot().error, IsAbrupt(), false))
      else if !ReachesDeliver() then Rejected(ForSend(EdgeRefused(Lapsed), IsAbrupt(), false))
      else match DeliverGot()
           case Failure(failure) => Rejected(ForSend(failure, IsAbrupt(), true))
           case Success(ReplySent(receipt)) => Delivers(receipt)
           case Success(ReplyFailed(failure)) => Fails(failure)
           case Success(ReplyQueued(acceptance)) => Queues(acceptance, Subscribed())
    }

    /** The status stream of a queued Send, as the bytes Flow sends on it. */
    function Subscribed(): Result<Feed, Response>
      requires Observes()
    {
      var e := encounters(3);
      if WhollyWritten(contracts, LastAsked(), e) then Success(Feed(e.reply, e.ending))
      else Failure(ObservationInterrupted(Some(DeliverGot().value.acceptance.cursor), CouldNotOpen(SubscriptionFailure(e))))
    }
  }

  datatype Feed = Feed(bytes: Bytes, ending: Ending)

  datatype Outcome =
    | Rejected(response: Response)
    | Delivers(receipt: SendReceipt)
    | Fails(failure: SendFailure)
    | Queues(acceptance: SendAcceptance, subscription: Result<Feed, Response>)

  // ----- The operation -----

  datatype SendReply =
    | QueuedReply(acceptance: SendAcceptance, subscription: Result<FlowSubscription, Response>)
    | SentReply(receipt: SendReceipt)
    | FailedReply(failure: SendFailure)

  /** What a reply amounts to, its stream read as a value. */
  ghost function Seen(r: Result<SendReply, Response>): Outcome
    reads match r case Success(QueuedReply(_, Success(subscription))) => {subscription.stream} case _ => {}
  {
    match r
    case Failure(response) => Rejected(response)
    case Success(SentReply(receipt)) => Delivers(receipt)
    case Success(FailedReply(failure)) => Fails(failure)
    case Success(QueuedReply(acceptance, Failure(response))) => Queues(acceptance, Failure(response))
    case Success(QueuedReply(acceptance, Success(subscription))) =>
      Queues(acceptance, Success(Feed(subscription.stream.incoming, subscription.stream.ending)))
  }

  /** The store may change between any two connections; the edge is opened once. */
  method AcceptSend(world: World, process: Process, request: SendRequest, thread: Option<string>, now: int)
      returns (r: Result<SendReply, Response>)
    requires world.trace == []
    modifies world`trace
    ensures var s := SituationOf(world, process, request, thread, now);
            Seen(r) == s.Outcome() && world.trace == s.Trace()
    ensures r.Success? && r.value.QueuedReply? && r.value.subscription.Success? ==> fresh(r.value.subscription.value.stream)
  {
    var abrupt := Abrupt(request.message);
    var found := world.OpenEdge();
    if found.Failure? {
      return Failure(Response.Refused(StoreRefused));
    }
    var edge := found.value;
    ghost var s := SituationOf(world, process, request, thread, now);
    var identified := edge.Identify(process, thread);
    if identified.Failure? {
      return Failure(ForSend(identified.error, abrupt, false));
    }
    if abrupt && request.delivery.Queue? {
      return Success(FailedReply(SendFailure(None, QueueNotPermitted)));
    }
    var locked := edge.Lock(identified.value, request.recipient);
    if locked.Failure? {
      return Failure(ForSend(locked.error, abrupt, false));
    }
    if now >= locked.value.until {
      return Failure(ForSend(EdgeRefused(Lapsed), abrupt, false));
    }
    r := DeliverUnder(edge, locked.value, s, process, request, thread);
  }

  /** The Send that this request makes of the world it meets: its path is the one the
  store named before any connection. */
  function SituationOf(world: World, process: Process, request: SendRequest, thread: Option<string>, now: int): Situation {
    Situation(Configuration.StoredPath(world.stores(0)), world.contracts, world.encounters, process, thread, request, now)
  }

  /** The half of a Send behind the lapse check. */
  method DeliverUnder(
      edge: Edge, lock: Lock, ghost s: Situation, process: Process, request: SendRequest, thread: Option<string>)
      returns (r: Result<SendReply, Response>)
    requires s.contracts == edge.world.contracts && s.encounters == edge.world.encounters && s.path == Success(edge.socketPath)
    requires s.process == process && s.request == request && s.thread == thread
    requires s.ReachesDeliver() && s.LockGot().value == lock
    requires edge.world.trace == Locked(s)
    modifies edge.world`trace
    ensures Seen(r) == s.Outcome()
    ensures edge.world.trace == s.Trace()
    ensures r.Success? && r.value.QueuedReply? && r.value.subscription.Success? ==> fresh(r.value.subscription.value.stream)
  {
    var abrupt := Abrupt(request.message);
    var delivered := edge.Deliver(lock, request);
    assert edge.world.trace == Locked(s) + [s.Contact(2, s.DeliverAsked())] && delivered == s.DeliverGot();
    match delivered {
      case Failure(EdgeRefused(_)) =>
        RefusedDeliver(s);
        r := Failure(ForSend(delivered.error, abrupt, true));
      case Failure(_) =>
        ReleasedDeliver(s);
        var _ := edge.Release(lock);
        r := Failure(ForSend(delivered.error, abrupt, true));
      case Success(ReplySent(receipt)) =>
        ReleasedDeliver(s);
        var _ := edge.Release(lock);
        r := Success(SentReply(receipt));
      case Success(ReplyFailed(failure)) =>
        ReleasedDeliver(s);
        var _ := edge.Release(lock);
        r := Success(FailedReply(failure));
      case Success(ReplyQueued(acceptance)) =>
        QueuedDeliver(s);
        var subscription := edge.ObserveSender(process, thread, Some(acceptance.cursor));
        match subscription {
          case Success(stream) => r := Success(QueuedReply(acceptance, Success(stream)));
          case Failure(failure) =>
            r := Success(QueuedReply(acceptance, Failure(ObservationInterrupted(Some(acceptance.cursor), CouldNotOpen(failure)))));
        }
    }
  }

  // ----- How a Send ends once it has delivered -----

  /** The connections before the Deliver. */
  function Locked(s: Situation): seq<Connection>
    requires s.AsksLock()
  {
    [s.Contact(0, s.IdentifyAsked()), s.Contact(1, s.LockAsked())]
  }

  lemma RefusedDeliver(s: Situation)
    requires s.ReachesDeliver() && s.DeliverGot().Failure? && s.DeliverGot().error.EdgeRefused?
    ensures s.Trace() == Locked(s) + [s.Contact(2, s.DeliverAsked())]
    ensures s.Outcome() == Rejected(ForSend(s.DeliverGot().error, s.IsAbrupt(), true))
  {
  }

  lemma ReleasedDeliver(s: Situation)
    requires s.Releases()
    ensures s.Trace() == Locked(s) + [s.Contact(2, s.DeliverAsked())] + [s.Contact(3, FlowQuery.Release(s.LockGot().value))]
    ensures s.Outcome() == match s.DeliverGot()
                           case Failure(failure) => Rejected(ForSend(failure, s.IsAbrupt(), true))
                           case Success(ReplySent(receipt)) => Delivers(receipt)
                           case Success(ReplyFailed(failure)) => Fails(failure)
  {
  }

  lemma QueuedDeliver(s: Situation)
    requires s.Observes()
    ensures s.Trace() == Locked(s) + [s.Contact(2, s.DeliverAsked())] + [s.Contact(3, s.LastAsked())]
    ensures s.Outcome() == Queues(s.DeliverGot().value.acceptance, s.Subscribed())
  {
  }
}
