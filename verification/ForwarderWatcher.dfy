/** The two threads of one forwarded subscription. The forwarder copies Flow's frames
to the client; the watcher waits for the client's end of file and then shuts Flow's
stream, which wakes the forwarder. At its end the forwarder shuts the client's
receive half, which wakes the watcher, and joins it. */
module ForwarderWatcher {
  import opened Wrappers
  import opened Contract
  import opened Listener

  datatype Forwarder = Waiting | Writing(frame: Response, final: bool) | ShuttingRead | Joining | Returned
  datatype Watcher = Reading | ShuttingFlow | Exited
  datatype Client = Open | HalfClosed | Closed

  /** `last` is the cursor of the last status; the rest are histories: the frames Flow has
  sent, those the forwarder has read, the responses the client's socket has taken, and
  whether a write failed. */
  datatype Stream = Stream(
    last: Option<int>,
    flowSent: seq<FlowResponse>,
    taken: seq<FlowResponse>,
    sent: seq<Response>,
    cut: bool)

  /** `buffered` are the frames Flow has sent and the forwarder has not read, `pending`
  the bytes the client has sent and the watcher has not read, `room` how many frames
  the client's socket takes before a write blocks. */
  datatype State = State(
    tracked: Option<string>,
    forwarder: Forwarder,
    watcher: Watcher,
    buffered: seq<FlowResponse>,
    flowEnded: bool,
    flowShut: bool,
    client: Client,
    pending: nat,
    room: nat,
    readShut: bool,
    serverShut: bool,
    stream: Stream)
  {
    predicate Initial() {
      && forwarder.Waiting? && watcher.Reading? && buffered == [] && !flowEnded && !flowShut
      && client.Open? && pending == 0 && !readShut && !serverShut
      && stream == Stream(None, [], [], [], false)
    }

    /** Writing to the client fails at once instead of blocking. */
    predicate Gone() {
      client.Closed? || serverShut
    }

    predicate BothEnded() {
      forwarder.Returned? && watcher.Exited?
    }
  }

  datatype Event =
    | Forward(writeFails: bool)
    | Watch(readFails: bool)
    | FlowSends(reply: FlowResponse)
    | FlowEnds
    | ClientSends
    | ClientReads
    | ClientHalfCloses
    | ClientCloses
    | ServerShuts

  predicate ForwarderCanStep(s: State) {
    match s.forwarder
    case Waiting => s.buffered != [] || s.flowEnded || s.flowShut
    case Writing(_, _) => s.room > 0 || s.Gone()
    case ShuttingRead => true
    case Joining => s.watcher.Exited?
    case Returned => false
  }

  predicate WatcherCanStep(s: State) {
    match s.watcher
    case Reading => s.pending > 0 || !s.client.Open? || s.readShut
    case ShuttingFlow => true
    case Exited => false
  }

  predicate Enabled(s: State, e: Event) {
    match e
    case Forward(_) => ForwarderCanStep(s)
    case Watch(_) => WatcherCanStep(s)
    case FlowSends(_) => !s.flowEnded && !s.flowShut
    case FlowEnds => true
    case ClientSends => s.client.Open? && !s.readShut
    case ClientReads => !s.client.Closed?
    case ClientHalfCloses => s.client.Open?
    case ClientCloses => true
    case ServerShuts => true
  }

  function NextForwarder(s: State, writeFails: bool): Forwarder {
    match s.forwarder
    case Waiting =>
      if s.buffered == [] then Writing(ObservationInterrupted(s.stream.last, StreamEnded(Broken)), true)
      else
        var reply := s.buffered[0];
        if IsStatus(reply) then Writing(Relay(reply), Finishes(reply, s.tracked))
        else Writing(ObservationInterrupted(s.stream.last, StrayReply(reply)), true)
    case Writing(_, final) => if s.Gone() || writeFails || final then ShuttingRead else Waiting
    case ShuttingRead => Joining
    case Joining => Returned
    case Returned => Returned
  }

  function NextStream(s: State, writeFails: bool): Stream {
    match s.forwarder
    case Waiting =>
      if s.buffered == [] then s.stream
      else
        var reply := s.buffered[0];
        s.stream.(taken := s.stream.taken + [reply], last := if IsStatus(reply) then Some(CursorOf(reply)) else s.stream.last)
    case Writing(frame, _) =>
      if s.Gone() || writeFails then s.stream.(cut := true) else s.stream.(sent := s.stream.sent + [frame])
    case _ => s.stream
  }

  function Apply(s: State, e: Event): State
    requires Enabled(s, e)
  {
    match e
    case Forward(writeFails) =>
      s.(forwarder := NextForwarder(s, writeFails),
         stream := NextStream(s, writeFails),
         buffered := if s.forwarder.Waiting? && s.buffered != [] then s.buffered[1..] else s.buffered,
         room := if s.forwarder.Writing? && !s.Gone() && !writeFails then s.room - 1 else s.room,
         readShut := s.readShut || s.forwarder.ShuttingRead?)
    case Watch(readFails) => (
      match s.watcher
      case Reading =>
        if s.pending > 0 && !readFails then s.(pending := s.pending - 1) else s.(watcher := ShuttingFlow)
      case ShuttingFlow => s.(flowShut := true, watcher := Exited))
    case FlowSends(reply) =>
      s.(buffered := s.buffered + [reply], stream := s.stream.(flowSent := s.stream.flowSent + [reply]))
    case FlowEnds => s.(flowEnded := true)
    case ClientSends => s.(pending := s.pending + 1)
    case ClientReads => s.(room := s.room + 1)
    case ClientHalfCloses => s.(client := HalfClosed)
    case ClientCloses => s.(client := Closed)
    case ServerShuts => s.(serverShut := true, readShut := true)
  }

  /** The state a run of events leads to, when each was enabled in turn. */
  function Run(s: State, events: seq<Event>): Option<State>
    decreases |events|
  {
    if events == [] then Some(s)
    else if !Enabled(s, events[0]) then None
    else Run(Apply(s, events[0]), events[1..])
  }

  // ----- What every reachable state keeps -----

  /** A finished watcher, and only that, has shut Flow's stream, and a forwarder that joins has shut the
  client's receive half. */
  ghost predicate NeitherStranded(s: State) {
    && (s.watcher.Exited? <==> s.flowShut)
    && (s.forwarder.Joining? || s.forwarder.Returned? ==> s.readShut)
    && (s.forwarder.Returned? ==> s.watcher.Exited?)
  }

  lemma {:induction false} AlwaysNeitherStranded(s: State, events: seq<Event>)
    requires NeitherStranded(s) && Run(s, events).Some?
    ensures NeitherStranded(Run(s, events).value)
    decreases |events|
  {
    if events == [] {
    } else {
      AlwaysNeitherStranded(Apply(s, events[0]), events[1..]);
    }
  }

  // ----- What the client gets -----

  /** Whatever Flow still sends, the client is owed the responses `sent` and then those
  for the rest. */
  ghost predicate Owes(taken: seq<FlowResponse>, sent: seq<Response>, tracked: Option<string>, last: Option<int>) {
    forall more: seq<FlowResponse> :: Forwarded(taken + more, tracked, None) == sent + Forwarded(more, tracked, last)
  }

  ghost predicate SendsInOrder(forwarder: Forwarder, stream: Stream, tracked: Option<string>) {
    match forwarder
    case Waiting => Owes(stream.taken, stream.sent, tracked, stream.last)
    case Writing(frame, final) =>
      if final then Forwarded(stream.taken, tracked, None) == stream.sent + [frame]
      else Owes(stream.taken, stream.sent + [frame], tracked, stream.last)
    case _ =>
      stream.sent <= Forwarded(stream.taken, tracked, None) && (!stream.cut ==> stream.sent == Forwarded(stream.taken, tracked, None))
  }

  lemma ForwardedFirst(reply: FlowResponse, more: seq<FlowResponse>, tracked: Option<string>, last: Option<int>)
    ensures Forwarded([reply] + more, tracked, last) ==
            if !IsStatus(reply) then [ObservationInterrupted(last, StrayReply(reply))]
            else if Finishes(reply, tracked) then [Relay(reply)]
            else [Relay(reply)] + Forwarded(more, tracked, Some(CursorOf(reply)))
  {
    assert ([reply] + more)[1..] == more;
  }

  lemma OwesOne(
      taken: seq<FlowResponse>, sent: seq<Response>, tracked: Option<string>, last: Option<int>, reply: FlowResponse,
      more: seq<FlowResponse>)
    requires Owes(taken, sent, tracked, last)
    ensures Forwarded((taken + [reply]) + more, tracked, None) ==
            if !IsStatus(reply) then sent + [ObservationInterrupted(last, StrayReply(reply))]
            else if Finishes(reply, tracked) then sent + [Relay(reply)]
            else (sent + [Relay(reply)]) + Forwarded(more, tracked, Some(CursorOf(reply)))
  {
    assert (taken + [reply]) + more == taken + ([reply] + more);
    ForwardedFirst(reply, more, tracked, last);
    if IsStatus(reply) && !Finishes(reply, tracked) {
      Regroup(sent, Relay(reply), Forwarded(more, tracked, Some(CursorOf(reply))));
    }
  }

  lemma Regroup(a: seq<Response>, r: Response, b: seq<Response>)
    ensures a + ([r] + b) == (a + [r]) + b
  {
  }

  lemma OwesMore(taken: seq<FlowResponse>, sent: seq<Response>, tracked: Option<string>, last: Option<int>, reply: FlowResponse)
    requires Owes(taken, sent, tracked, last) && IsStatus(reply) && !Finishes(reply, tracked)
    ensures Owes(taken + [reply], sent + [Relay(reply)], tracked, Some(CursorOf(reply)))
  {
    forall more: seq<FlowResponse>
      ensures Forwarded((taken + [reply]) + more, tracked, None)
              == (sent + [Relay(reply)]) + Forwarded(more, tracked, Some(CursorOf(reply)))
    {
      OwesOne(taken, sent, tracked, last, reply, more);
    }
  }

  lemma OwesTheEnd(taken: seq<FlowResponse>, sent: seq<Response>, tracked: Option<string>, last: Option<int>)
    requires Owes(taken, sent, tracked, last)
    ensures Forwarded(taken, tracked, None) == sent + [ObservationInterrupted(last, StreamEnded(Broken))]
  {
    assert taken + [] == taken;
  }

  lemma ReadingSendsInOrder(s: State, writeFails: bool)
    requires s.forwarder.Waiting? && SendsInOrder(s.forwarder, s.stream, s.tracked)
    ensures SendsInOrder(NextForwarder(s, writeFails), NextStream(s, writeFails), s.tracked)
  {
    var taken, sent, last := s.stream.taken, s.stream.sent, s.stream.last;
    if s.buffered == [] {
      OwesTheEnd(taken, sent, s.tracked, last);
    } else {
      var reply := s.buffered[0];
      if IsStatus(reply) && !Finishes(reply, s.tracked) {
        OwesMore(taken, sent, s.tracked, last, reply);
      } else {
        OwesOne(taken, sent, s.tracked, last, reply, []);
        assert (taken + [reply]) + [] == taken + [reply];
      }
    }
  }

  lemma WritingSendsInOrder(s: State, writeFails: bool)
    requires s.forwarder.Writing? && SendsInOrder(s.forwarder, s.stream, s.tracked)
    ensures SendsInOrder(NextForwarder(s, writeFails), NextStream(s, writeFails), s.tracked)
  {
    if !s.forwarder.final {
      OwesTheEnd(s.stream.taken, s.stream.sent + [s.forwarder.frame], s.tracked, s.stream.last);
    }
  }

  lemma StepSendsInOrder(s: State, e: Event)
    requires SendsInOrder(s.forwarder, s.stream, s.tracked) && Enabled(s, e)
    ensures Apply(s, e).tracked == s.tracked && SendsInOrder(Apply(s, e).forwarder, Apply(s, e).stream, s.tracked)
  {
    if e.Forward? {
      if s.forwarder.Waiting? {
        ReadingSendsInOrder(s, e.writeFails);
      } else if s.forwarder.Writing? {
        WritingSendsInOrder(s, e.writeFails);
      } else {
        assert NextStream(s, e.writeFails) == s.stream;
      }
    } else {
      var t := Apply(s, e);
      assert t.forwarder == s.forwarder;
      SameButFlow(s.forwarder, s.stream, t.stream, s.tracked);
    }
  }

  lemma SameButFlow(forwarder: Forwarder, stream: Stream, after: Stream, tracked: Option<string>)
    requires SendsInOrder(forwarder, stream, tracked)
    requires after.taken == stream.taken && after.sent == stream.sent && after.last == stream.last && after.cut == stream.cut
    ensures SendsInOrder(forwarder, after, tracked)
  {
  }

  lemma StepKeepsFlowSent(s: State, e: Event)
    requires s.stream.flowSent == s.stream.taken + s.buffered && Enabled(s, e)
    ensures Apply(s, e).stream.flowSent == Apply(s, e).stream.taken + Apply(s, e).buffered
  {
    if e.Forward? && s.forwarder.Waiting? && s.buffered != [] {
      assert s.buffered == [s.buffered[0]] + s.buffered[1..];
      assert (s.stream.taken + [s.buffered[0]]) + s.buffered[1..] == s.stream.flowSent;
    }
  }

  lemma {:induction false} RunSendsInOrder(s: State, events: seq<Event>)
    requires SendsInOrder(s.forwarder, s.stream, s.tracked) && s.stream.flowSent == s.stream.taken + s.buffered
    requires Run(s, events).Some?
    ensures var t := Run(s, events).value;
            && t.tracked == s.tracked && SendsInOrder(t.forwarder, t.stream, t.tracked)
            && t.stream.flowSent == t.stream.taken + t.buffered
    decreases |events|
  {
    if events == [] {
    } else {
      StepSendsInOrder(s, events[0]);
      StepKeepsFlowSent(s, events[0]);
      RunSendsInOrder(Apply(s, events[0]), events[1..]);
    }
  }

  lemma NothingOwed(tracked: Option<string>)
    ensures Owes([], [], tracked, None)
  {
    forall more: seq<FlowResponse> ensures Forwarded([] + more, tracked, None) == [] + Forwarded(more, tracked, None) {
      assert [] + more == more;
    }
  }

  /** Over every interleaving of the two threads, Flow and the client: what the forwarder
  reads is what Flow sent, in order; what the client has got is a prefix of the
  responses for it; and it is all of them once the forwarder has left its loop, unless
  a write to the client failed. */
  lemma ClientGetsWhatIsForwarded(start: State, events: seq<Event>)
    requires start.Initial() && Run(start, events).Some?
    ensures var s := Run(start, events).value;
            && s.stream.taken <= s.stream.flowSent
            && s.stream.sent <= Forwarded(s.stream.taken, start.tracked, None)
            && (!(s.forwarder.Waiting? || s.forwarder.Writing?) && !s.stream.cut ==>
                  s.stream.sent == Forwarded(s.stream.taken, start.tracked, None))
  {
    NothingOwed(start.tracked);
    RunSendsInOrder(start, events);
    var s := Run(start, events).value;
    SentSoFar(s.forwarder, s.stream, s.tracked);
  }

  lemma SentSoFar(forwarder: Forwarder, stream: Stream, tracked: Option<string>)
    requires SendsInOrder(forwarder, stream, tracked)
    ensures stream.sent <= Forwarded(stream.taken, tracked, None)
  {
    if forwarder.Waiting? {
      OwesTheEnd(stream.taken, stream.sent, tracked, stream.last);
    } else if forwarder.Writing? && !forwarder.final {
      OwesTheEnd(stream.taken, stream.sent + [forwarder.frame], tracked, stream.last);
    }
  }

  // ----- When nothing moves -----

  /** Both peers are quiet and healthy: the stream is simply idle. */
  predicate Idle(s: State) {
    && s.forwarder.Waiting? && s.buffered == [] && !s.flowEnded
    && s.watcher.Reading? && s.pending == 0 && s.client.Open? && !s.readShut
  }

  /** The forwarder waits on a client that keeps its read side open and takes nothing,
  and the watcher has ended or has nothing to read. Closing only the write side does
  not free it. */
  predicate Clogged(s: State) {
    && s.forwarder.Writing? && s.room == 0 && !s.Gone()
    && (s.watcher.Exited? || (s.watcher.Reading? && s.pending == 0 && s.client.Open? && !s.readShut))
  }

  /** Neither thread can step exactly when both have ended, the stream is idle, or the
  client is clogged; in particular never, before both end, once the client is gone. */
  lemma {:induction false} StuckExactly(start: State, events: seq<Event>)
    requires start.Initial() && Run(start, events).Some?
    ensures var s := Run(start, events).value;
            && (!ForwarderCanStep(s) && !WatcherCanStep(s) <==> s.BothEnded() || Idle(s) || Clogged(s))
            && (s.Gone() && !s.BothEnded() ==> ForwarderCanStep(s) || WatcherCanStep(s))
  {
    AlwaysNeitherStranded(start, events);
    GoneIsReadable(start, events);
  }

  /** A shut server has shut the receive half too. */
  lemma {:induction false} GoneIsReadable(s: State, events: seq<Event>)
    requires (s.serverShut ==> s.readShut) && Run(s, events).Some?
    ensures Run(s, events).value.serverShut ==> Run(s, events).value.readShut
    decreases |events|
  {
    if events == [] {
    } else {
      GoneIsReadable(Apply(s, events[0]), events[1..]);
    }
  }

  // ----- How long the end takes -----

  function WatcherLeft(s: State): nat {
    match s.watcher
    case Reading => 2 + s.pending
    case ShuttingFlow => 1
    case Exited => 0
  }

  function ForwarderLeft(s: State): nat {
    match s.forwarder
    case Waiting => 2 * |s.buffered| + 4
    case Writing(_, final) => if final then 3 else 2 * |s.buffered| + 5
    case ShuttingRead => 2
    case Joining => 1
    case Returned => 0
  }

  function Steps(events: seq<Event>, forwarding: bool): nat {
    if events == [] then 0
    else (if events[0].Watch? || (forwarding && events[0].Forward?) then 1 else 0) + Steps(events[1..], forwarding)
  }

  lemma GoneStep(s: State, e: Event)
    requires s.Gone() && Enabled(s, e)
    requires s.serverShut ==> s.readShut
    ensures var t := Apply(s, e);
            && t.Gone() && (t.serverShut ==> t.readShut)
            && WatcherLeft(t) + (if e.Watch? then 1 else 0) <= WatcherLeft(s)
            && (s.flowShut ==> t.flowShut && ForwarderLeft(t) + (if e.Forward? then 1 else 0) <= ForwarderLeft(s))
  {
  }

  /** Once the client is gone, whatever Flow and the client still do: the watcher can
  always step until it has ended, and takes at most `WatcherLeft` steps to shut
  Flow's stream; and from then on both threads together take at most
  `WatcherLeft + ForwarderLeft` steps, so every run that keeps stepping a thread
  that can step ends with both returned. */
  lemma {:induction false} GoneClientEndsBoth(s: State, events: seq<Event>)
    requires s.Gone() && (s.serverShut ==> s.readShut) && Run(s, events).Some?
    ensures var t := Run(s, events).value;
            && t.Gone()
            && (t.watcher.Exited? || WatcherCanStep(t))
            && Steps(events, false) + WatcherLeft(t) <= WatcherLeft(s)
            && (s.flowShut ==> Steps(events, true) + WatcherLeft(t) + ForwarderLeft(t) <= WatcherLeft(s) + ForwarderLeft(s))
            && (WatcherLeft(t) + ForwarderLeft(t) == 0 <==> t.BothEnded())
    decreases |events|
  {
    if events == [] {
    } else {
      GoneStep(s, events[0]);
      GoneClientEndsBoth(Apply(s, events[0]), events[1..]);
    }
  }

  /** One status after another, each forwarded, until the client's socket has no room. */
  function Fill(room: nat, status: FlowResponse): seq<Event> {
    if room == 0 then []
    else [FlowSends(status), Forward(false), Forward(false)] + Fill(room - 1, status)
  }

  lemma {:induction false} FillsTheRoom(s: State, status: FlowResponse, more: seq<Event>) returns (t: State)
    requires s.forwarder.Waiting? && s.buffered == [] && !s.flowEnded && !s.flowShut && !s.Gone()
    requires IsStatus(status) && !Finishes(status, s.tracked)
    ensures Run(s, Fill(s.room, status) + more) == Run(t, more)
    ensures t == s.(room := 0, stream := t.stream)
    decreases s.room
  {
    if s.room == 0 {
      assert Fill(0, status) + more == more;
      t := s;
    } else {
      var rest := Fill(s.room - 1, status) + more;
      assert Fill(s.room, status) + more == [FlowSends(status)] + ([Forward(false)] + ([Forward(false)] + rest));
      var a := Apply(s, FlowSends(status));
      RunFirst(s, FlowSends(status), [Forward(false)] + ([Forward(false)] + rest));
      var b := Apply(a, Forward(false));
      RunFirst(a, Forward(false), [Forward(false)] + rest);
      var c := Apply(b, Forward(false));
      RunFirst(b, Forward(false), rest);
      assert c.forwarder.Waiting? && c.buffered == [] && c.room == s.room - 1;
      t := FillsTheRoom(c, status, more);
    }
  }

  lemma RunFirst(s: State, e: Event, more: seq<Event>)
    requires Enabled(s, e)
    ensures Run(s, [e] + more) == Run(Apply(s, e), more)
  {
    assert ([e] + more)[1..] == more;
  }

  /** A client that only half-closes and stops reading strands the forwarder, however much
  its socket holds: one status more than that leads from the start to a clogged state
  in which the watcher has already ended. */
  lemma HalfCloseCanClog(start: State, status: FlowResponse)
    requires start.Initial() && IsStatus(status) && !Finishes(status, start.tracked)
    ensures var s := Run(start, Fill(start.room, status)
                                + [FlowSends(status), Forward(false), ClientHalfCloses, Watch(false), Watch(false)]);
            s.Some? && Clogged(s.value) && s.value.watcher.Exited? && s.value.client.HalfClosed?
  {
    var full := FillsTheRoom(start, status, [FlowSends(status), Forward(false), ClientHalfCloses, Watch(false), Watch(false)]);
    var a := Apply(full, FlowSends(status));
    var b := Apply(a, Forward(false));
    var c := Apply(b, ClientHalfCloses);
    var d := Apply(c, Watch(false));
    var e := Apply(d, Watch(false));
    assert Run(d, [Watch(false)]) == Some(e);
    assert Run(c, [Watch(false), Watch(false)]) == Run(d, [Watch(false)]);
    assert Run(b, [ClientHalfCloses, Watch(false), Watch(false)]) == Run(c, [Watch(false), Watch(false)]);
    assert Run(a, [Forward(false), ClientHalfCloses, Watch(false), Watch(false)]) == Run(b, [ClientHalfCloses, Watch(false), Watch(false)]);
  }
}
