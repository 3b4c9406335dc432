/** The edge to Flow: every operation opens one connection, writes one query frame
and, except for an observation, reads one reply frame.

Flow and the kernel are adversaries. An `Encounter` fixes everything they may do to
one connection: refuse it, refuse its timeouts, take only a prefix of the query,
answer with any bytes and end the stream either way. */
module FlowEdge {
  import opened Wrappers
  import opened Frames
  import opened Contract
  import Configuration

  datatype Encounter = Encounter(
    connects: bool,
    takesTimeouts: bool,
    credit: Credit,
    reply: Bytes,
    ending: Ending)

  /** One attempted connection: where to, what for, and the bytes Flow got. */
  datatype Connection = Connection(path: string, query: FlowQuery, received: Bytes)

  datatype Contracts = Contracts(queries: Codec<FlowQuery>, replies: Codec<FlowResponse>)

  datatype FlowSendReply =
    | ReplyQueued(acceptance: SendAcceptance)
    | ReplySent(receipt: SendReceipt)
    | ReplyFailed(failure: SendFailure)

  // ----- What one connection comes to -----

  predicate Speaks(e: Encounter) {
    e.connects && e.takesTimeouts
  }

  /** The bytes of the query that reach Flow. */
  function Received(c: Contracts, query: FlowQuery, e: Encounter): Bytes {
    var frame := Encoded(c.queries, query);
    if Speaks(e) && frame.Some? then Accepted(frame.value, e.credit) else []
  }

  /** Flow's kernel took the whole query frame. */
  predicate WhollyWritten(c: Contracts, query: FlowQuery, e: Encounter) {
    var frame := Encoded(c.queries, query);
    Speaks(e) && frame.Some? && Affords(e.credit, |frame.value|)
  }

  /** How one exchange ends. A query that was not wholly written is `Unreachable`
  unless only the timeouts failed, which is `Broken`; a wholly written one is
  Flow's decoded reply, or `Broken`. */
  function ExchangeResult(c: Contracts, query: FlowQuery, e: Encounter): Result<FlowResponse, EdgeFailure> {
    if !e.connects then Failure(Unreachable)
    else if !e.takesTimeouts then Failure(Broken)
    else if !WhollyWritten(c, query, e) then Failure(Unreachable)
    else match Decode(c.replies, e.reply, e.ending).result
         case Success(response) => Success(response)
         case Failure(_) => Failure(Broken)
  }

  function IdentifyQuery(process: Process, thread: Option<string>): FlowQuery {
    match thread
    case None => FlowQuery.Identify(process)
    case Some(session) => FlowQuery.IdentifyThread(process, session)
  }

  function IdentifyResult(reply: Result<FlowResponse, EdgeFailure>): Result<Address, EdgeFailure> {
    match reply
    case Success(Identified(address)) => Success(address)
    case Success(FlowRefused(refusal)) => Failure(EdgeRefused(refusal))
    case Success(_) => Failure(Unexpected)
    case Failure(failure) => Failure(failure)
  }

  function LockResult(reply: Result<FlowResponse, EdgeFailure>): Result<Lock, EdgeFailure> {
    match reply
    case Success(LockGranted(lock)) => Success(lock)
    case Success(FlowRefused(refusal)) => Failure(EdgeRefused(refusal))
    case Success(_) => Failure(Unexpected)
    case Failure(failure) => Failure(failure)
  }

  /** An abrupt delivery is never queued: Flow accepting one for later leaves its
  receipt uncertain. */
  function DeliverResult(abrupt: bool, reply: Result<FlowResponse, EdgeFailure>): Result<FlowSendReply, EdgeFailure> {
    match reply
    case Success(FlowAccepted(acceptance)) =>
      if abrupt then Success(ReplyFailed(SendFailure(Some(acceptance.id), ReceiptUncertain)))
      else Success(ReplyQueued(acceptance))
    case Success(FlowSent(receipt)) => Success(ReplySent(receipt))
    case Success(FlowFailed(failure)) => Success(ReplyFailed(failure))
    case Success(FlowRefused(refusal)) => Failure(EdgeRefused(refusal))
    case Success(_) => Failure(Unexpected)
    case Failure(failure) => Failure(failure)
  }

  function ReleaseResult(reply: Result<FlowResponse, EdgeFailure>): Result<(), EdgeFailure> {
    match reply
    case Success(Released) => Success(())
    case Success(FlowRefused(refusal)) => Failure(EdgeRefused(refusal))
    case Success(_) => Failure(Unexpected)
    case Failure(failure) => Failure(failure)
  }

  // ----- Facts about the bytes of one connection -----

  /** Flow can decode a query from a connection exactly when the frame was wholly
  written and within its reader's limit; then it is the query Message meant. */
  lemma FlowDecodesOnlyWholeQueries(c: Contracts, query: FlowQuery, e: Encounter, ending: Ending)
    requires Faithful(c.queries)
    ensures var heard := Decode(c.queries, Received(c, query, e), ending).result;
            && (heard.Success? <==> WhollyWritten(c, query, e) && Fits(c.queries, query))
            && (heard.Success? ==> heard.value == query)
  {
    var encoded := Encoded(c.queries, query);
    if Speaks(e) && encoded.Some? {
      var archive := c.queries.encode(query).value;
      if WhollyWritten(c, query, e) {
        DecodeFrame(c.queries, archive, [], ending);
        assert Frame(archive) + [] == Frame(archive);
      } else {
        var k := e.credit.value;
        StrictPrefixNeverDecodes(c.queries, archive, k, ending);
      }
    }
  }

  lemma ReceivedWhole(c: Contracts, query: FlowQuery, e: Encounter)
    ensures Encoded(c.queries, query) == Some(Received(c, query, e)) <==> WhollyWritten(c, query, e)
    ensures Encoded(c.queries, query).Some? && !WhollyWritten(c, query, e) ==>
              Received(c, query, e) < Encoded(c.queries, query).value
  {
  }

  /** An `Unreachable` exchange left Flow at most a strict prefix of the frame, and
  any exchange that left it the whole frame ends in Flow's reply or `Broken`. */
  lemma UnreachableMeansNotWhollyWritten(c: Contracts, query: FlowQuery, e: Encounter)
    ensures ExchangeResult(c, query, e) == Failure(Unreachable) ==> !WhollyWritten(c, query, e)
    ensures WhollyWritten(c, query, e) ==>
              var r := ExchangeResult(c, query, e);
              r == Failure(Broken) || (r.Success? && Decode(c.replies, e.reply, e.ending).result == Success(r.value))
  {
  }

  /** Flow took the whole query and answered this. */
  predicate Answers(c: Contracts, query: FlowQuery, e: Encounter, response: FlowResponse) {
    WhollyWritten(c, query, e) && Decode(c.replies, e.reply, e.ending).result == Success(response)
  }

  /** Each operation succeeds exactly on its own reply of Flow's, given to the whole
  query. */
  lemma SucceedsOnItsReply(
      c: Contracts, query: FlowQuery, e: Encounter, abrupt: bool,
      address: Address, lock: Lock, receipt: SendReceipt, failure: SendFailure, acceptance: SendAcceptance)
    ensures var r := ExchangeResult(c, query, e);
            && (IdentifyResult(r) == Success(address) <==> Answers(c, query, e, Identified(address)))
            && (LockResult(r) == Success(lock) <==> Answers(c, query, e, LockGranted(lock)))
            && (ReleaseResult(r).Success? <==> Answers(c, query, e, Released))
            && (DeliverResult(abrupt, r) == Success(ReplySent(receipt)) <==> Answers(c, query, e, FlowSent(receipt)))
            && (DeliverResult(abrupt, r) == Success(ReplyQueued(acceptance)) <==>
                  !abrupt && Answers(c, query, e, FlowAccepted(acceptance)))
            && (DeliverResult(abrupt, r) == Success(ReplyFailed(failure)) ==>
                  Answers(c, query, e, FlowFailed(failure)) || (abrupt && failure.reason == ReceiptUncertain))
            && (Answers(c, query, e, FlowFailed(failure)) ==> DeliverResult(abrupt, r) == Success(ReplyFailed(failure)))
  {
  }

  /** Each is refused exactly on Flow's refusal, and with that refusal. */
  lemma RefusedOnItsRefusal(c: Contracts, query: FlowQuery, e: Encounter, abrupt: bool, refusal: Refusal)
    ensures var r := ExchangeResult(c, query, e);
            var refused := Answers(c, query, e, FlowRefused(refusal));
            && (IdentifyResult(r) == Failure(EdgeRefused(refusal)) <==> refused)
            && (LockResult(r) == Failure(EdgeRefused(refusal)) <==> refused)
            && (ReleaseResult(r) == Failure(EdgeRefused(refusal)) <==> refused)
            && (DeliverResult(abrupt, r) == Failure(EdgeRefused(refusal)) <==> refused)
  {
  }

  // ----- The operations -----

  /** A stream of Flow's status replies. */
  class FlowSubscription {
    const stream: ByteStream

    constructor (stream: ByteStream)
      ensures this.stream == stream
    {
      this.stream := stream;
    }

    method Next(replies: Codec<FlowResponse>) returns (r: Result<FlowResponse, EdgeFailure>)
      modifies stream`incoming
      ensures var one := Decode(replies, old(stream.incoming), stream.ending);
              && stream.incoming == one.rest
              && r == match one.result case Success(v) => Success(v) case Failure(_) => Failure(Broken)
    {
      var one := stream.ReadFrame(replies);
      match one {
        case Success(v) => r := Success(v);
        case Failure(_) => r := Failure(Broken);
      }
    }
  }

  /** What one request meets: the store as a read of it finds it once n connections have
  been made, for other threads may change it at any time; what Flow and the kernel do
  to the n-th connection; and the connections made so far. */
  class World {
    const contracts: Contracts
    const stores: nat -> Configuration.StoreView
    const encounters: nat -> Encounter
    var trace: seq<Connection>

    constructor (contracts: Contracts, stores: nat -> Configuration.StoreView, encounters: nat -> Encounter)
      ensures this.contracts == contracts && this.stores == stores && this.encounters == encounters
      ensures trace == []
    {
      this.contracts, this.stores, this.encounters := contracts, stores, encounters;
      trace := [];
    }

    /** What Flow gets of a query when it is the n-th connection. */
    function Contact(n: nat, path: string, query: FlowQuery): Connection {
      Connection(path, query, Received(contracts, query, encounters(n)))
    }

    /** An edge to the Flow socket that the store names now. */
    method OpenEdge() returns (r: Result<Edge, Configuration.StoreError>)
      ensures var path := Configuration.StoredPath(stores(|trace|));
              if path.Failure? then r == Failure(path.error)
              else r.Success? && r.value.world == this && r.value.socketPath == path.value
    {
      var path := Configuration.StoredPath(stores(|trace|));
      if path.Failure? {
        return Failure(path.error);
      }
      var edge := new Edge(path.value, this);
      r := Success(edge);
    }
  }

  /** An edge keeps the socket path it was opened with. */
  class Edge {
    const socketPath: string
    const world: World

    constructor (socketPath: string, world: World)
      ensures this.socketPath == socketPath && this.world == world
    {
      this.socketPath, this.world := socketPath, world;
    }

    method Exchange(query: FlowQuery) returns (r: Result<FlowResponse, EdgeFailure>)
      modifies world`trace
      ensures r == ExchangeResult(world.contracts, query, world.encounters(|old(world.trace)|))
      ensures world.trace == old(world.trace) + [world.Contact(|old(world.trace)|, socketPath, query)]
    {
      var e := world.encounters(|world.trace|);
      if !e.connects {
        world.trace := world.trace + [Connection(socketPath, query, [])];
        return Failure(Unreachable);
      }
      var stream := new ByteStream(e.reply, e.ending, e.credit);
      if !e.takesTimeouts {
        world.trace := world.trace + [Connection(socketPath, query, stream.outgoing)];
        return Failure(Broken);
      }
      var written := stream.WriteFrame(world.contracts.queries, query);
      assert stream.outgoing == Received(world.contracts, query, e);
      world.trace := world.trace + [Connection(socketPath, query, stream.outgoing)];
      if written.Failure? {
        return Failure(Unreachable);
      }
      var reply := stream.ReadFrame(world.contracts.replies);
      match reply {
        case Success(response) => r := Success(response);
        case Failure(_) => r := Failure(Broken);
      }
    }

    method Identify(process: Process, thread: Option<string>) returns (r: Result<Address, EdgeFailure>)
      modifies world`trace
      ensures var query := IdentifyQuery(process, thread);
              && r == IdentifyResult(ExchangeResult(world.contracts, query, world.encounters(|old(world.trace)|)))
              && world.trace == old(world.trace) + [world.Contact(|old(world.trace)|, socketPath, query)]
    {
      var reply := Exchange(IdentifyQuery(process, thread));
      r := IdentifyResult(reply);
    }

    method Lock(sender: Address, recipient: Recipient) returns (r: Result<Contract.Lock, EdgeFailure>)
      modifies world`trace
      ensures var query := FlowQuery.LockQuery(sender, recipient);
              && r == LockResult(ExchangeResult(world.contracts, query, world.encounters(|old(world.trace)|)))
              && world.trace == old(world.trace) + [world.Contact(|old(world.trace)|, socketPath, query)]
    {
      var reply := Exchange(FlowQuery.LockQuery(sender, recipient));
      r := LockResult(reply);
    }

    method Deliver(lock: Contract.Lock, request: SendRequest) returns (r: Result<FlowSendReply, EdgeFailure>)
      modifies world`trace
      ensures var query := FlowQuery.Deliver(lock, request.delivery, request.message);
              && r == DeliverResult(Abrupt(request.message), ExchangeResult(world.contracts, query, world.encounters(|old(world.trace)|)))
              && world.trace == old(world.trace) + [world.Contact(|old(world.trace)|, socketPath, query)]
    {
      var reply := Exchange(FlowQuery.Deliver(lock, request.delivery, request.message));
      r := DeliverResult(Abrupt(request.message), reply);
    }

    method Release(lock: Contract.Lock) returns (r: Result<(), EdgeFailure>)
      modifies world`trace
      ensures var query := FlowQuery.Release(lock);
              && r == ReleaseResult(ExchangeResult(world.contracts, query, world.encounters(|old(world.trace)|)))
              && world.trace == old(world.trace) + [world.Contact(|old(world.trace)|, socketPath, query)]
    {
      var reply := Exchange(FlowQuery.Release(lock));
      r := ReleaseResult(reply);
    }

    /** Opens the status stream of a sender: the query is written, nothing is read. */
    method ObserveSender(process: Process, thread: Option<string>, cursor: Option<int>)
        returns (r: Result<FlowSubscription, EdgeFailure>)
      modifies world`trace
      ensures var query := FlowQuery.ObserveSender(process, thread, cursor);
              var e := world.encounters(|old(world.trace)|);
              && world.trace == old(world.trace) + [world.Contact(|old(world.trace)|, socketPath, query)]
              && (r.Success? <==> WhollyWritten(world.contracts, query, e))
              && (r.Success? ==> fresh(r.value.stream) && r.value.stream.incoming == e.reply && r.value.stream.ending == e.ending)
              && (r.Failure? ==> r.error == SubscriptionFailure(e))
    {
      var query := FlowQuery.ObserveSender(process, thread, cursor);
      var e := world.encounters(|world.trace|);
      if !e.connects {
        world.trace := world.trace + [Connection(socketPath, query, [])];
        return Failure(Unreachable);
      }
      var stream := new ByteStream(e.reply, e.ending, e.credit);
      if !e.takesTimeouts {
        world.trace := world.trace + [Connection(socketPath, query, stream.outgoing)];
        return Failure(Broken);
      }
      var written := stream.WriteFrame(world.contracts.queries, query);
      assert stream.outgoing == Received(world.contracts, query, e);
      world.trace := world.trace + [Connection(socketPath, query, stream.outgoing)];
      if written.Failure? {
        return Failure(Unreachable);
      }
      var subscription := new FlowSubscription(stream);
      r := Success(subscription);
    }
  }

  /** Why a subscription that could not be opened failed. */
  function SubscriptionFailure(e: Encounter): EdgeFailure {
    if e.connects && !e.takesTimeouts then Broken else Unreachable
  }
}
