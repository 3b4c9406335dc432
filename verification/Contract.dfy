/** The vocabulary of the two Signal contracts Message stands between: Flow's
queries and replies, and Message's own responses. */
module Contract {
  import opened Wrappers

  datatype Address = Address(aspect: string, topic: string, layer: string)
  datatype Process = Process(pid: int, started: int)
  datatype Recipient = To(address: Address) | Up
  datatype Delivery = Wake | Queue
  datatype Message = Soft(body: string) | MiddleAbrupt(body: string) | HardAbrupt(body: string)
  datatype SendRequest = SendRequest(recipient: Recipient, delivery: Delivery, message: Message)
  datatype Lock = Lock(sender: Address, address: Address, until: int)

  datatype Refusal =
    | Locked | Held(lock: Lock) | Asleep | Lapsed
    | UnknownAddress(address: Address) | UnknownLock(unknownLock: Lock) | UnknownOther(tag: string)
    | NoLayer | NoneAbove | NotMessage | NotConfigured
    | NotSendServer(process: Process) | Unidentified(process: Process)
    | StoreFault(text: string) | Oversized(actual: int, maximum: int)
    | Awake | Taken | OffRoute | Direct

  /** The text of `NotSent` names how the exchange failed; only that it is present
  matters here. `OtherReason` stands for the reasons Message never writes itself. */
  datatype SendFailureReason =
    | QueueNotPermitted | RefusedBy(refusal: Refusal) | ReceiptUncertain | NotSent | OtherReason(tag: string)

  datatype SendFailure = SendFailure(id: Option<string>, reason: SendFailureReason)
  datatype NativeReceipt = NativeReceipt(harness: string, session: string, prompt: string)
  datatype SendReceipt = SendReceipt(id: string, receipt: NativeReceipt)

  datatype DeliveryState = Queued | Underway(tag: string) | Delivered(receipt: NativeReceipt) | Failed(reason: SendFailureReason)
  {
    predicate IsTerminal() {
      Delivered? || Failed?
    }
  }

  datatype SendAcceptance = SendAcceptance(id: string, cursor: int, state: DeliveryState)
  datatype Snapshot = Snapshot(cursor: int, id: string, state: DeliveryState)
  datatype Observation = Observation(cursor: int, snapshots: seq<Snapshot>)

  datatype FlowQuery =
    | Bind(address: Address, process: Process)
    | Identify(process: Process)
    | IdentifyThread(process: Process, session: string)
    | LockQuery(sender: Address, recipient: Recipient)
    | Deliver(lock: Lock, delivery: Delivery, message: Message)
    | ObserveSender(process: Process, thread: Option<string>, cursor: Option<int>)
    | Release(lock: Lock)

  datatype FlowResponse =
    | Bound(flowId: string)
    | Identified(address: Address)
    | LockGranted(lock: Lock)
    | FlowAccepted(acceptance: SendAcceptance)
    | FlowSent(receipt: SendReceipt)
    | FlowFailed(failure: SendFailure)
    | FlowRefused(refusal: Refusal)
    | FlowObserved(observation: Observation)
    | FlowChanged(snapshot: Snapshot)
    | Released
    | OtherResponse(tag: string)

  datatype EdgeFailure = Unreachable | Broken | EdgeRefused(refusal: Refusal) | Unexpected

  /** What the text of an interruption prints. */
  datatype Interruption = CouldNotOpen(failure: EdgeFailure) | StreamEnded(failure: EdgeFailure) | StrayReply(reply: FlowResponse)

  datatype SendRefusal =
    | AlreadyConfigured | FlowUnreachable | StoreRefused
    | Relayed(refusal: Refusal)

  datatype Response =
    | SendAccepted(acceptance: SendAcceptance)
    | SendsObserved(observation: Observation)
    | SendChanged(snapshot: Snapshot)
    | Sent(receipt: SendReceipt)
    | SendFailed(failure: SendFailure)
    | ObservationInterrupted(cursor: Option<int>, reason: Interruption)
    | Refused(refusal: SendRefusal)
    | Configured

  /** What a client asks of Message. */
  datatype MessageQuery =
    | Send(request: SendRequest)
    | SendThread(request: SendRequest, session: string)
    | ObserveSends(cursor: Option<int>)
    | ObserveThread(session: string, cursor: Option<int>)
    | Configure(ordinary: string, meta: string, flow: string)

  predicate Abrupt(message: Message) {
    !message.Soft?
  }
}
