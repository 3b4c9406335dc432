/** What every reachable state of the MCP call machine keeps. */
module CallInvariants {
  import opened Wrappers
  import opened McpSession
  import opened CallWorker
  import opened CallMachine
  import Workers

  /** No step changes which call a worker runs, or brings one back from its end; only
  its own steps move it. */
  lemma WorkersKept(s: State, e: Event)
    requires Enabled(s, e)
    ensures var ws := NextWorkers(s, e);
            && |ws| == |s.workers| + (if Admits(s, e) then 1 else 0)
            && (forall i | 0 <= i < |s.workers| ::
                  && ws[i].call == s.workers[i].call
                  && (s.workers[i].cancelled ==> ws[i].cancelled)
                  && (!(e.WorkerStep? && e.i == i) ==>
                        ws[i] == s.workers[i] || ws[i] == Cancel(s.workers[i]) || ws[i] == Shut(s.workers[i]))
                  && (s.workers[i].pc.Done? ==> ws[i].pc.Done?))
            && (Admits(s, e) ==> ws[|s.workers|] == Fresh(s.reader.call))
  {
  }

  // ----- Each call keeps its own invariant -----

  ghost predicate Locals(s: State) {
    forall i | 0 <= i < |s.workers| :: LocalInv(s.workers[i], s.alive)
  }

  lemma FreshIsLocal(call: CallRequest, alive: bool)
    ensures LocalInv(Fresh(call), alive)
  {
  }

  lemma StepKeepsLocals(s: State, e: Event)
    requires Locals(s) && Enabled(s, e)
    ensures Locals(Apply(s, e))
  {
    WorkersKept(s, e);
    var ws, alive := NextWorkers(s, e), NextAlive(s, e);
    forall i | 0 <= i < |ws| ensures LocalInv(ws[i], alive) {
      if i == |s.workers| {
        FreshIsLocal(s.reader.call, alive);
      } else if e.WorkerStep? && e.i == i {
        StepKeepsLocalInv(s.workers[i], s.alive, e.choice);
      } else {
        OthersKeepLocalInv(s.workers[i], s.alive);
        OthersKeepLocalInv(s.workers[i], false);
      }
    }
  }

  // ----- Ownership of the map -----

  /** The call between its admission and its entry. */
  predicate Pending(s: State) {
    s.reader.CapacityCheck? || s.reader.Admitting?
  }

  ghost predicate EntriesOwned(s: State) {
    && (forall k | k in s.active ::
          s.active[k].owner < |s.workers| && s.workers[s.active[k].owner].call.key == k
          && InMap(s.workers[s.active[k].owner].pc))
    && (forall i | 0 <= i < |s.workers| && InMap(s.workers[i].pc) ::
          s.workers[i].call.key in s.active && s.active[s.workers[i].call.key].owner == i)
  }

  ghost predicate KeysUnique(s: State) {
    && (forall i, j | 0 <= i < j < |s.workers| :: s.workers[i].call.key != s.workers[j].call.key)
    && (forall i | 0 <= i < |s.workers| :: s.workers[i].call.key in s.session.seen)
    && (Pending(s) ==> s.reader.call.key in s.session.seen
                       && forall i | 0 <= i < |s.workers| :: s.workers[i].call.key != s.reader.call.key)
  }

  ghost predicate ReaderInMap(s: State) {
    && (s.reader.CancelStore? || s.reader.CancelShut? || s.reader.SweepShut? ==> s.reader.key in s.active)
    && (s.reader.SweepNext? || s.reader.SweepShut? ==> s.reader.todo <= s.active.Keys)
    && (s.reader.SweepShut? ==> s.reader.key !in s.reader.todo)
  }

  ghost predicate Bounded(s: State) {
    && |s.session.seen| <= MAX_SEEN_CALLS
    && |s.active| <= MAX_ACTIVE_CALLS
    && (s.reader.Admitting? ==> |s.active| < MAX_ACTIVE_CALLS)
  }

  lemma EntryFlow(w: Worker, alive: bool, c: Choice)
    ensures InMap(NextPc(w, alive, c)) <==> InMap(w.pc) && !EffectOf(w.pc).RemoveEntry?
    ensures EffectOf(w.pc).RemoveEntry? ==> InMap(w.pc)
  {
  }

  lemma WorkerKeepsOwned(s: State, i: nat, c: Choice)
    requires EntriesOwned(s) && KeysUnique(s) && Enabled(s, WorkerStep(i, c))
    ensures EntriesOwned(Apply(s, WorkerStep(i, c)))
  {
    EntryFlow(s.workers[i], s.alive, c);
    OwnedByStep(s, Apply(s, WorkerStep(i, c)), i);
  }

  /** One worker moves; its entry stays as long as it does. */
  lemma OwnedByStep(s: State, t: State, i: nat)
    requires EntriesOwned(s) && KeysUnique(s) && i < |s.workers| == |t.workers|
    requires var w, v := s.workers[i], t.workers[i];
             && t.workers == s.workers[i := v] && v.call == w.call && (InMap(v.pc) ==> InMap(w.pc))
             && (InMap(v.pc) == InMap(w.pc) ==>
                   (t.active == s.active
                    || (w.call.key in s.active && t.active == s.active[w.call.key := s.active[w.call.key].(observer := true)])))
             && (InMap(v.pc) != InMap(w.pc) ==> t.active == s.active - {w.call.key})
    ensures EntriesOwned(t)
  {
  }

  lemma WorkerKeepsKeys(s: State, i: nat, c: Choice)
    requires KeysUnique(s) && Enabled(s, WorkerStep(i, c))
    ensures KeysUnique(Apply(s, WorkerStep(i, c)))
  {
    WorkersKept(s, WorkerStep(i, c));
    KeysByFrame(s, Apply(s, WorkerStep(i, c)));
  }

  lemma ShrinkingMap<K, V>(m: map<K, V>, k: K)
    ensures |m - {k}| <= |m|
  {
    assert m.Keys == (m - {k}).Keys + (if k in m then {k} else {});
  }

  lemma GrowingMap<K, V>(m: map<K, V>, k: K, v: V)
    ensures |m[k := v]| == |m| + if k in m then 0 else 1
  {
    if k in m {
      assert m[k := v].Keys == m.Keys;
    } else {
      assert m[k := v].Keys == m.Keys + {k};
    }
  }

  lemma WorkerKeepsReaderAndBounds(s: State, i: nat, c: Choice)
    requires ReaderInMap(s) && Bounded(s) && Enabled(s, WorkerStep(i, c))
    ensures ReaderInMap(Apply(s, WorkerStep(i, c))) && Bounded(Apply(s, WorkerStep(i, c)))
  {
    var w := s.workers[i];
    ShrinkingMap(s.active, w.call.key);
    if w.call.key in s.active {
      GrowingMap(s.active, w.call.key, s.active[w.call.key].(observer := true));
    }
  }

  lemma ReaderKeepsOwned(s: State, e: Event)
    requires EntriesOwned(s) && KeysUnique(s) && Enabled(s, e) && !e.WorkerStep?
    ensures EntriesOwned(Apply(s, e))
  {
    WorkersKept(s, e);
    OwnedByFrame(s, Apply(s, e));
  }

  /** The map changes, if at all, by one entry for one new worker. */
  lemma OwnedByFrame(s: State, t: State)
    requires EntriesOwned(s) && |s.workers| <= |t.workers| <= |s.workers| + 1
    requires forall i | 0 <= i < |s.workers| :: t.workers[i].call == s.workers[i].call && t.workers[i].pc == s.workers[i].pc
    requires |t.workers| == |s.workers| ==> t.active == s.active
    requires |t.workers| > |s.workers| ==>
               var w := t.workers[|s.workers|];
               w.call.key !in s.active && InMap(w.pc) && t.active == s.active[w.call.key := Entry(|s.workers|, false)]
    ensures EntriesOwned(t)
  {
  }

  /** A line that becomes a call brings an id that is new. */
  lemma LineBringsANewId(s: State, line: Line)
    ensures AfterLine(s, line).CapacityCheck? ==>
              line.Got? && line.input.command == Some("tools/call") && Admission(s.session, line.input).Success?
              && AfterLine(s, line).call == Admission(s.session, line.input).value
              && AfterLine(s, line).call.key !in s.session.seen
              && line.input.id == Some(AfterLine(s, line).call.key)
    ensures !AfterLine(s, line).Admitting?
  {
  }

  /** The session only gains ids, and the call on its way has one of its own. */
  lemma PendingFlow(s: State, e: Event)
    requires Enabled(s, e) && !e.WorkerStep?
    ensures var reader, session := NextReader(s, e), NextSession(s, e);
            && s.session.seen <= session.seen
            && (Admits(s, e) ==> Pending(s) && !(reader.CapacityCheck? || reader.Admitting?))
            && (reader.CapacityCheck? || reader.Admitting? ==>
                  (Pending(s) && reader.call == s.reader.call)
                  || (reader.call.key !in s.session.seen && reader.call.key in session.seen))
  {
    if e.Take? {
      LineBringsANewId(s, e.line);
      assert NextReader(s, e) == AfterLine(s, e.line);
    } else {
      assert NextSession(s, e) == s.session;
    }
  }

  lemma ReaderKeepsKeys(s: State, e: Event)
    requires KeysUnique(s) && Enabled(s, e) && !e.WorkerStep?
    ensures KeysUnique(Apply(s, e))
  {
    WorkersKept(s, e);
    PendingFlow(s, e);
    KeysByFrame(s, Apply(s, e));
  }

  lemma KeysByFrame(s: State, t: State)
    requires KeysUnique(s) && |s.workers| <= |t.workers| <= |s.workers| + 1
    requires forall i | 0 <= i < |s.workers| :: t.workers[i].call == s.workers[i].call
    requires s.session.seen <= t.session.seen
    requires |t.workers| > |s.workers| ==> Pending(s) && t.workers[|s.workers|].call == s.reader.call
    requires Pending(t) ==>
               (|t.workers| == |s.workers| && t.reader.call.key in t.session.seen
                && ((Pending(s) && t.reader.call == s.reader.call) || t.reader.call.key !in s.session.seen))
    ensures KeysUnique(t)
  {
  }

  lemma ReaderKeepsReaderInMap(s: State, e: Event)
    requires ReaderInMap(s) && Enabled(s, e) && !e.WorkerStep?
    ensures ReaderInMap(Apply(s, e))
  {
  }

  lemma ReaderKeepsBounds(s: State, e: Event)
    requires Bounded(s) && Enabled(s, e) && !e.WorkerStep?
    ensures Bounded(Apply(s, e))
  {
    if e.ReaderStep? && s.reader.Admitting? {
      GrowingMap(s.active, s.reader.call.key, Entry(|s.workers|, false));
    }
  }

  // ----- Registration, cancellation and the sweep -----

  /** The worker is past its registration and still has its entry. */
  predicate PastRegister(pc: Pc) {
    pc.Checking? || pc.SelfShutting? || pc.SendingQuery? || InLoop(pc)
  }

  ghost predicate Registered(s: State) {
    forall i | 0 <= i < |s.workers| && PastRegister(s.workers[i].pc) ::
      s.workers[i].call.key in s.active && s.active[s.workers[i].call.key].observer
  }

  /** Where a cancelled worker may be: its socket shut, or not yet past the check after
  its registration, or out of the loop. */
  predicate Safe(w: Worker) {
    w.socket.ShutSocket? || !(w.pc.SendingQuery? || w.pc.Looping? || w.pc.Reading? || w.pc.Notifying?)
  }

  /** The reader has set the flag of the call under this key and not yet come to its
  socket. */
  predicate MidCancel(s: State, key: Json) {
    (s.reader.CancelShut? || s.reader.SweepShut?) && s.reader.key == key
  }

  ghost predicate NoneLost(s: State) {
    forall i | 0 <= i < |s.workers| && s.workers[i].cancelled && !MidCancel(s, s.workers[i].call.key) :: Safe(s.workers[i])
  }

  /** The sweep has set the flag of every entry it has passed, with the connection
  silenced. */
  ghost predicate Swept(s: State) {
    && (s.reader.SweepNext? || s.reader.SweepShut? || s.reader.JoiningAll? || s.reader.Exited? ==> !s.alive)
    && (forall k | k in s.active && s.active[k].owner < |s.workers| && Passed(s, k) :: s.workers[s.active[k].owner].cancelled)
  }

  predicate Passed(s: State, key: Json) {
    || s.reader.JoiningAll? || s.reader.Exited?
    || ((s.reader.SweepNext? || s.reader.SweepShut?) && key !in s.reader.todo)
  }

  /** A worker's step leaves the other entries alone, and its own unless it registers or
  removes it. */
  lemma EntriesKept(s: State, i: nat, c: Choice)
    requires Enabled(s, WorkerStep(i, c))
    ensures var key, active := s.workers[i].call.key, NextActive(s, WorkerStep(i, c));
            && (forall k | k in s.active && k != key :: k in active && active[k] == s.active[k])
            && (key in s.active && !EffectOf(s.workers[i].pc).RemoveEntry? ==>
                  key in active && (EffectOf(s.workers[i].pc).RegisterObserver? || s.active[key].observer ==> active[key].observer))
  {
  }

  lemma PastRegisterFlow(w: Worker, alive: bool, c: Choice)
    requires PastRegister(NextPc(w, alive, c))
    ensures (EffectOf(w.pc).RegisterObserver? || PastRegister(w.pc)) && !EffectOf(w.pc).RemoveEntry? && InMap(w.pc)
  {
  }

  lemma WorkerKeepsRegistered(s: State, i: nat, c: Choice)
    requires EntriesOwned(s) && KeysUnique(s) && Registered(s) && Enabled(s, WorkerStep(i, c))
    ensures Registered(Apply(s, WorkerStep(i, c)))
  {
    EntriesKept(s, i, c);
    if PastRegister(NextPc(s.workers[i], s.alive, c)) {
      PastRegisterFlow(s.workers[i], s.alive, c);
    }
    RegisteredByStep(s, Apply(s, WorkerStep(i, c)), i);
  }

  lemma RegisteredByStep(s: State, t: State, i: nat)
    requires KeysUnique(s) && Registered(s) && i < |s.workers| == |t.workers|
    requires t.workers == s.workers[i := t.workers[i]] && t.workers[i].call == s.workers[i].call
    requires forall k | k in s.active && k != s.workers[i].call.key ::
               k in t.active && t.active[k].observer == s.active[k].observer
    requires PastRegister(t.workers[i].pc) ==>
               s.workers[i].call.key in t.active && t.active[s.workers[i].call.key].observer
    ensures Registered(t)
  {
  }

  lemma WorkerKeepsNoneLost(s: State, i: nat, c: Choice)
    requires NoneLost(s) && Enabled(s, WorkerStep(i, c))
    requires s.workers[i].pc.SelfShutting? ==> s.workers[i].cancelled
    ensures NoneLost(Apply(s, WorkerStep(i, c)))
  {
    var w := s.workers[i];
    var t := Apply(s, WorkerStep(i, c));
    assert t.workers[i].cancelled && !MidCancel(t, w.call.key) ==> Safe(t.workers[i]) by {
      assert MidCancel(t, w.call.key) <==> MidCancel(s, w.call.key);
      assert w.socket.ShutSocket? ==> t.workers[i].socket.ShutSocket? || w.pc.Connecting?;
    }
  }

  lemma WorkerKeepsSwept(s: State, i: nat, c: Choice)
    requires EntriesOwned(s) && Swept(s) && Enabled(s, WorkerStep(i, c))
    ensures Swept(Apply(s, WorkerStep(i, c)))
  {
    var w := s.workers[i];
    var t := Apply(s, WorkerStep(i, c));
    assert w.cancelled ==> t.workers[i].cancelled;
    assert forall k | k in t.active :: k in s.active && t.active[k].owner == s.active[k].owner;
  }

  lemma ReaderKeepsRegistered(s: State, e: Event)
    requires Registered(s) && EntriesOwned(s) && KeysUnique(s) && Enabled(s, e) && !e.WorkerStep?
    ensures Registered(Apply(s, e))
  {
    WorkersKept(s, e);
  }

  lemma ReaderKeepsNoneLost(s: State, e: Event)
    requires NoneLost(s) && Registered(s) && EntriesOwned(s) && KeysUnique(s) && ReaderInMap(s)
    requires Enabled(s, e) && !e.WorkerStep?
    ensures NoneLost(Apply(s, e))
  {
    var t := Apply(s, e);
    forall i | 0 <= i < |t.workers| && t.workers[i].cancelled && !MidCancel(t, t.workers[i].call.key)
      ensures Safe(t.workers[i])
    {
      if i < |s.workers| {
        var w := s.workers[i];
        if MidCancel(s, w.call.key) {
          assert e.ReaderStep? && s.active[w.call.key].owner < |s.workers|;
          if PastRegister(w.pc) {
            assert s.active[w.call.key].owner == i;
          }
        }
      }
    }
  }

  /** The sweep passes an entry only by setting its flag. */
  lemma PassedOnlyBySweeping(s: State, e: Event, k: Json)
    requires ReaderInMap(s) && Enabled(s, e) && !e.WorkerStep? && k in s.active && Passed(Apply(s, e), k)
    ensures Passed(s, k) || e == SweepOne(k)
  {
  }

  lemma ReaderKeepsSilent(s: State, e: Event)
    requires Swept(s) && Enabled(s, e) && !e.WorkerStep?
    ensures var reader := NextReader(s, e);
            reader.SweepNext? || reader.SweepShut? || reader.JoiningAll? || reader.Exited? ==> !NextAlive(s, e) && !Admits(s, e)
  {
  }

  lemma ReaderKeepsSwept(s: State, e: Event)
    requires Swept(s) && EntriesOwned(s) && ReaderInMap(s) && Enabled(s, e) && !e.WorkerStep?
    ensures Swept(Apply(s, e))
  {
    WorkersKept(s, e);
    ReaderKeepsSilent(s, e);
    forall k | k in NextActive(s, e) && NextActive(s, e)[k].owner < |NextWorkers(s, e)| && Passed(Apply(s, e), k)
      ensures NextWorkers(s, e)[NextActive(s, e)[k].owner].cancelled
    {
      PassedOnlyBySweeping(s, e, k);
    }
  }

  // ----- The handles -----

  ghost predicate HandlesKept(s: State) {
    && Counted(s.handles, s.joined, |s.workers|)
    && (forall k | 0 <= k < |s.joined| :: s.joined[k] < |s.workers| && s.workers[s.joined[k]].pc.Done?)
    && (s.reader.Exited? ==> s.handles == [])
  }

  /** Every worker spawned is held or joined, once. */
  ghost predicate Counted(handles: seq<nat>, joined: seq<nat>, n: nat) {
    multiset(handles) + multiset(joined) == multiset(Workers.Spawned(n))
  }

  lemma CountSpawn(handles: seq<nat>, joined: seq<nat>, n: nat)
    requires Counted(handles, joined, n)
    ensures Counted(handles + [n], joined, n + 1)
  {
    Workers.SpawnedOneMore(n);
  }

  lemma CountJoin(handles: seq<nat>, joined: seq<nat>, n: nat, k: nat, rest: seq<nat>)
    requires Counted(handles, joined, n) && k < |handles|
    requires rest == Workers.SwapRemove(handles, k) || (k == 0 && rest == handles[1..])
    ensures Counted(rest, joined + [handles[k]], n)
  {
    Workers.SwapRemoveTakesOne(handles, k);
    assert handles == [handles[0]] + handles[1..];
  }

  lemma HandlesCounted(s: State, e: Event)
    requires Enabled(s, e) && Counted(s.handles, s.joined, |s.workers|)
    ensures Counted(NextHandles(s, e), NextJoined(s, e), |NextWorkers(s, e)|)
  {
    var n := |NextWorkers(s, e)|;
    if Admits(s, e) {
      assert n == |s.workers| + 1;
      CountSpawn(s.handles, s.joined, |s.workers|);
    } else {
      assert n == |s.workers|;
      match Joins(s, e) {
        case None =>
        case Some(k) => CountJoin(s.handles, s.joined, n, k, NextHandles(s, e));
      }
    }
  }

  lemma JoinedAreDone(s: State, e: Event, k: nat)
    requires HandlesKept(s) && Enabled(s, e) && k < |NextJoined(s, e)|
    ensures NextJoined(s, e)[k] < |NextWorkers(s, e)| && NextWorkers(s, e)[NextJoined(s, e)[k]].pc.Done?
  {
    WorkersKept(s, e);
    if k < |s.joined| {
      assert s.workers[s.joined[k]].pc.Done?;
    }
  }

  lemma StepKeepsHandles(s: State, e: Event)
    requires HandlesKept(s) && Enabled(s, e)
    ensures HandlesKept(Apply(s, e))
  {
    HandlesCounted(s, e);
    forall k | 0 <= k < |NextJoined(s, e)|
      ensures NextJoined(s, e)[k] < |NextWorkers(s, e)| && NextWorkers(s, e)[NextJoined(s, e)[k]].pc.Done?
    {
      JoinedAreDone(s, e, k);
    }
  }

  // ----- All together -----

  ghost predicate MapInv(s: State) {
    EntriesOwned(s) && KeysUnique(s) && ReaderInMap(s) && Bounded(s)
  }

  ghost predicate CancelInv(s: State) {
    Registered(s) && NoneLost(s) && Swept(s)
  }

  ghost predicate Inv(s: State) {
    Locals(s) && MapInv(s) && CancelInv(s) && HandlesKept(s)
  }

  lemma StepKeepsMap(s: State, e: Event)
    requires MapInv(s) && Enabled(s, e)
    ensures MapInv(Apply(s, e))
  {
    match e {
      case WorkerStep(i, c) =>
        WorkerKeepsOwned(s, i, c);
        WorkerKeepsKeys(s, i, c);
        WorkerKeepsReaderAndBounds(s, i, c);
      case _ =>
        ReaderKeepsOwned(s, e);
        ReaderKeepsKeys(s, e);
        ReaderKeepsReaderInMap(s, e);
        ReaderKeepsBounds(s, e);
    }
  }

  lemma StepKeepsCancel(s: State, e: Event)
    requires Locals(s) && MapInv(s) && CancelInv(s) && Enabled(s, e)
    ensures CancelInv(Apply(s, e))
  {
    match e {
      case WorkerStep(i, c) =>
        WorkerKeepsRegistered(s, i, c);
        assert LocalInv(s.workers[i], s.alive);
        WorkerKeepsNoneLost(s, i, c);
        WorkerKeepsSwept(s, i, c);
      case _ =>
        ReaderKeepsRegistered(s, e);
        ReaderKeepsNoneLost(s, e);
        ReaderKeepsSwept(s, e);
    }
  }

  lemma StepKeepsInv(s: State, e: Event)
    requires Inv(s) && Enabled(s, e)
    ensures Inv(Apply(s, e))
  {
    StepKeepsLocals(s, e);
    StepKeepsMap(s, e);
    StepKeepsCancel(s, e);
    StepKeepsHandles(s, e);
  }

  lemma {:induction false} RunKeepsInv(s: State, events: seq<Event>)
    requires Inv(s) && Run(s, events).Some?
    ensures Inv(Run(s, events).value)
    decreases |events|
  {
    if events == [] {
    } else {
      StepKeepsInv(s, events[0]);
      RunKeepsInv(Apply(s, events[0]), events[1..]);
    }
  }

  lemma StartHasInv()
    ensures Inv(START)
  {
  }
}
