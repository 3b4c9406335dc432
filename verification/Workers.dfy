/** The worker handles of the listener and of the MCP adapter: both reap finished
workers with the same swap-remove loop and join the rest at the end. */
module Workers {
  import opened Wrappers

  /** The handles whose poll gave `answer`, in polling order. */
  function Polled(asked: seq<nat>, finished: seq<bool>, answer: bool): seq<nat>
    requires |asked| <= |finished|
  {
    if asked == [] then []
    else
      var n := |asked| - 1;
      Polled(asked[..n], finished, answer) + (if finished[n] == answer then [asked[n]] else [])
  }

  lemma {:induction false} PolledSplits(asked: seq<nat>, finished: seq<bool>)
    requires |asked| <= |finished|
    ensures multiset(Polled(asked, finished, true)) + multiset(Polled(asked, finished, false)) == multiset(asked)
  {
    if asked == [] {
    } else {
      var n := |asked| - 1;
      PolledSplits(asked[..n], finished);
      assert asked == asked[..n] + [asked[n]];
    }
  }

  /** A handle is among those with an answer exactly when a poll of it gave that answer. */
  lemma {:induction false} PolledExactly(asked: seq<nat>, finished: seq<bool>, answer: bool, h: nat)
    requires |asked| <= |finished|
    ensures h in Polled(asked, finished, answer) <==> exists i | 0 <= i < |asked| :: asked[i] == h && finished[i] == answer
  {
    if asked == [] {
    } else {
      var n := |asked| - 1;
      PolledExactly(asked[..n], finished, answer, h);
      assert asked == asked[..n] + [asked[n]];
    }
  }

  lemma PolledOneMore(asked: seq<nat>, h: nat, finished: seq<bool>, answer: bool)
    requires |asked| < |finished|
    ensures Polled(asked + [h], finished, answer) ==
            Polled(asked, finished, answer) + (if finished[|asked|] == answer then [h] else [])
  {
    assert (asked + [h])[..|asked|] == asked;
  }

  /** Taking the handle at `i` out by moving the last one into its place. */
  function SwapRemove(handles: seq<nat>, i: nat): (rest: seq<nat>)
    requires i < |handles|
    ensures |rest| == |handles| - 1
  {
    handles[i := handles[|handles| - 1]][..|handles| - 1]
  }

  lemma SwapRemoveTakesOne(handles: seq<nat>, i: nat)
    requires i < |handles|
    ensures multiset(SwapRemove(handles, i)) + multiset{handles[i]} == multiset(handles)
    ensures SwapRemove(handles, i)[..i] == handles[..i]
    ensures multiset(SwapRemove(handles, i)[i..]) + multiset{handles[i]} == multiset(handles[i..])
  {
    var rest := SwapRemove(handles, i);
    SwapRemoveBehind(handles, i);
    Halves(handles, i);
    Halves(rest, i);
  }

  lemma Halves(handles: seq<nat>, i: nat)
    requires i <= |handles|
    ensures multiset(handles) == multiset(handles[..i]) + multiset(handles[i..])
  {
    assert handles == handles[..i] + handles[i..];
  }

  lemma SwapRemoveBehind(handles: seq<nat>, i: nat)
    requires i < |handles|
    ensures SwapRemove(handles, i)[..i] == handles[..i]
    ensures multiset(SwapRemove(handles, i)[i..]) + multiset{handles[i]} == multiset(handles[i..])
  {
    var n := |handles| - 1;
    var rest := SwapRemove(handles, i);
    if i == n {
      assert handles[i..] == [handles[i]];
      assert rest[i..] == [];
    } else {
      var between := handles[i + 1..n];
      assert handles[i..] == [handles[i]] + (between + [handles[n]]);
      assert rest[i..] == [handles[n]] + between;
    }
  }

  /** Every handle is either polled already or still ahead. */
  ghost predicate Accounted(asked: seq<nat>, ahead: seq<nat>, all: seq<nat>) {
    multiset(asked) + multiset(ahead) == multiset(all)
  }

  lemma PollOne(handles: seq<nat>, i: nat, asked: seq<nat>, all: seq<nat>)
    requires i < |handles| && Accounted(asked, handles[i..], all)
    ensures handles[..i + 1] == handles[..i] + [handles[i]]
    ensures Accounted(asked + [handles[i]], handles[i + 1..], all)
    ensures SwapRemove(handles, i)[..i] == handles[..i]
    ensures Accounted(asked + [handles[i]], SwapRemove(handles, i)[i..], all)
  {
    assert handles[i..] == [handles[i]] + handles[i + 1..];
    SwapRemoveTakesOne(handles, i);
  }

  lemma AllPolled(asked: seq<nat>, finished: seq<bool>, all: seq<nat>, base: seq<nat>, joined: seq<nat>, workers: seq<nat>)
    requires |asked| <= |finished| && Accounted(asked, [], all)
    requires workers == Polled(asked, finished, false) && joined == base + Polled(asked, finished, true)
    ensures multiset(asked) == multiset(all)
    ensures multiset(workers) + multiset(joined) == multiset(all) + multiset(base)
  {
    PolledSplits(asked, finished);
    assert multiset(joined) == multiset(base) + multiset(Polled(asked, finished, true));
  }

  // ----- The pool -----

  /** What is done to the connection or to the thread of a worker. */
  datatype Act = Shut(handle: nat) | Join(handle: nat)

  function Shutting(handles: seq<nat>): (acts: seq<Act>)
    ensures |acts| == |handles|
  {
    seq(|handles|, i requires 0 <= i < |handles| => Shut(handles[i]))
  }

  function Joining(handles: seq<nat>): (acts: seq<Act>)
    ensures |acts| == |handles|
  {
    seq(|handles|, i requires 0 <= i < |handles| => Join(handles[i]))
  }

  lemma JoiningConcat(a: seq<nat>, b: seq<nat>)
    ensures Joining(a + b) == Joining(a) + Joining(b)
  {
  }

  class WorkerPool {
    var workers: seq<nat>
    var joined: seq<nat>
    var log: seq<Act>

    constructor ()
      ensures workers == [] && joined == [] && log == []
    {
      workers, joined, log := [], [], [];
    }

    /** Each of the workers 0 to n - 1 is held or has been joined, once. */
    ghost predicate Kept(n: nat)
      reads this
    {
      multiset(workers) + multiset(joined) == multiset(Spawned(n))
    }

    /** Nothing has been done to a worker but joining it. */
    ghost predicate OnlyJoined()
      reads this
    {
      log == Joining(joined)
    }

    method Spawn(n: nat) returns (next: nat)
      requires Kept(n)
      modifies this`workers
      ensures next == n + 1 && workers == old(workers) + [n]
      ensures Kept(next)
    {
      SpawnedOneMore(n);
      workers := workers + [n];
      next := n + 1;
    }

    /** Spawns a worker for a connection, if the accept gave one. */
    method Take(accept: Accept, n: nat) returns (next: nat)
      requires Kept(n) && OnlyJoined()
      modifies this`workers
      ensures next == n + if accept.Connected? then 1 else 0
      ensures Kept(next) && OnlyJoined()
    {
      next := n;
      if accept.Connected? {
        next := Spawn(n);
      }
    }

    /** Reaps, whatever the polls answer. */
    method ReapFinished(finished: nat -> bool, ghost n: nat)
      requires Kept(n) && OnlyJoined()
      modifies this
      ensures Kept(n) && OnlyJoined()
    {
      var answers := seq(|workers|, i requires 0 <= i => finished(i));
      ghost var before := joined;
      var asked := Reap(answers);
      JoiningConcat(before, Polled(asked, answers, true));
    }

    /** Polls every worker exactly once, whatever the polls answer; joins, in polling
    order, those that had finished and keeps the others. */
    method Reap(finished: seq<bool>) returns (asked: seq<nat>)
      requires |finished| == |workers|
      modifies this
      ensures |asked| == |old(workers)| && multiset(asked) == multiset(old(workers))
      ensures joined == old(joined) + Polled(asked, finished, true)
      ensures log == old(log) + Joining(Polled(asked, finished, true))
      ensures workers == Polled(asked, finished, false)
      ensures forall n: nat | old(Kept(n)) :: Kept(n)
    {
      asked := [];
      ghost var all, base := workers, joined;
      var index := 0;
      while index < |workers|
        invariant 0 <= index <= |workers| && |asked| + |workers| - index == |all|
        invariant workers[..index] == Polled(asked, finished, false)
        invariant joined == base + Polled(asked, finished, true)
        invariant log == old(log) + Joining(Polled(asked, finished, true))
        invariant Accounted(asked, workers[index..], all)
        decreases |workers| - index
      {
        var now := workers;
        var h := now[index];
        PollOne(now, index, asked, all);
        PolledOneMore(asked, h, finished, true);
        PolledOneMore(asked, h, finished, false);
        if finished[|asked|] {
          workers := SwapRemove(now, index);
          joined := joined + [h];
          JoiningConcat(Polled(asked, finished, true), [h]);
          log := log + [Join(h)];
        } else {
          index := index + 1;
        }
        asked := asked + [h];
      }
      AllPolled(asked, finished, all, base, joined, workers);
    }

    /** Shuts the connection of every worker left, in order. */
    method ShutAll()
      modifies this`log
      ensures log == old(log) + Shutting(workers)
    {
      var i := 0;
      while i < |workers|
        invariant 0 <= i <= |workers|
        invariant log == old(log) + Shutting(workers[..i])
      {
        assert Shutting(workers[..i + 1]) == Shutting(workers[..i]) + [Shut(workers[i])];
        log := log + [Shut(workers[i])];
        i := i + 1;
      }
      assert workers[..i] == workers;
    }

    /** Joins every worker left, in order. */
    method JoinAll()
      modifies this
      ensures workers == [] && joined == old(joined) + old(workers)
      ensures log == old(log) + Joining(old(workers))
    {
      var i := 0;
      while i < |workers|
        invariant 0 <= i <= |workers| && workers == old(workers)
        invariant joined == old(joined) + workers[..i]
        invariant log == old(log) + Joining(workers[..i])
      {
        assert workers[..i + 1] == workers[..i] + [workers[i]];
        assert Joining(workers[..i + 1]) == Joining(workers[..i]) + [Join(workers[i])];
        joined := joined + [workers[i]];
        log := log + [Join(workers[i])];
        i := i + 1;
      }
      assert workers[..i] == workers;
      workers := [];
    }
  }

  // ----- The listener's whole run -----

  /** What a ready socket's accept came to. */
  datatype Accept = NotReady | Connected | WouldBlock | AcceptFails

  /** One return of the readiness wait: interrupted, a wait that failed, a shutdown
  signal, or the two sockets' accepts and the answers of the polls after them. */
  datatype Round = Interrupted | WaitFails | Signalled | Ready(ordinary: Accept, meta: Accept, finished: nat -> bool)

  function Spawned(n: nat): seq<nat> {
    seq(n, i => i)
  }

  lemma SpawnedOneMore(n: nat)
    ensures multiset(Spawned(n + 1)) == multiset(Spawned(n)) + multiset{n}
  {
    assert Spawned(n + 1) == Spawned(n) + [n];
  }

  /** Whether the round ends the run, and how, and how many workers there have been then:
  after a failed accept the other socket is not asked. */
  function AfterRound(round: Round, spawned: nat): (Option<bool>, nat) {
    match round
    case Interrupted => (None, spawned)
    case WaitFails => (Some(false), spawned)
    case Signalled => (Some(true), spawned)
    case Ready(ordinary, meta, _) =>
      var first := spawned + if ordinary.Connected? then 1 else 0;
      var both := first + if !ordinary.AcceptFails? && meta.Connected? then 1 else 0;
      (if ordinary.AcceptFails? || meta.AcceptFails? then Some(false) else None, both)
  }

  /** Whether the run went well, and how many workers it spawned. */
  function Served(rounds: seq<Round>, spawned: nat): (bool, nat)
    decreases |rounds|
  {
    if rounds == [] then (true, spawned)
    else
      var after := AfterRound(rounds[0], spawned);
      if after.0.Some? then (after.0.value, after.1) else Served(rounds[1..], after.1)
  }

  /** The round does not end the run. */
  predicate GoesOn(round: Round) {
    round.Interrupted? || (round.Ready? && !round.ordinary.AcceptFails? && !round.meta.AcceptFails?)
  }

  /** How many connections the rounds bring, each socket being asked in turn. */
  function Connections(rounds: seq<Round>): nat {
    if rounds == [] then 0
    else
      var round := rounds[|rounds| - 1];
      Connections(rounds[..|rounds| - 1])
      + (if round.Ready? && round.ordinary.Connected? then 1 else 0)
      + (if round.Ready? && !round.ordinary.AcceptFails? && round.meta.Connected? then 1 else 0)
  }

  /** The run ends with its first round that does not go on, well exactly if that is the
  signal; and it has one worker for every connection up to then. */
  lemma {:induction false} ServedExactly(rounds: seq<Round>, k: nat, spawned: nat)
    requires k <= |rounds| && forall i | 0 <= i < k :: GoesOn(rounds[i])
    ensures k == |rounds| ==> Served(rounds, spawned) == (true, spawned + Connections(rounds))
    ensures k < |rounds| && !GoesOn(rounds[k]) ==>
              Served(rounds, spawned) == (rounds[k].Signalled?, spawned + Connections(rounds[..k + 1]))
    decreases k
  {
    if k == 0 {
      if rounds != [] {
        ConnectionsFirst(rounds[..1]);
      }
    } else {
      var after := AfterRound(rounds[0], spawned);
      ServedExactly(rounds[1..], k - 1, after.1);
      ConnectionsFirst(rounds);
      if k < |rounds| {
        ConnectionsFirst(rounds[..k + 1]);
        assert rounds[..k + 1][1..] == rounds[1..][..k];
      }
    }
  }

  lemma {:induction false} ConnectionsFirst(rounds: seq<Round>)
    requires rounds != []
    ensures Connections(rounds) == Connections(rounds[..1]) + Connections(rounds[1..])
  {
    if |rounds| == 1 {
      assert rounds[..1] == rounds;
    } else {
      var n := |rounds| - 1;
      ConnectionsFirst(rounds[..n]);
      assert rounds[..n][..1] == rounds[..1];
      assert rounds[1..][..n - 1] == rounds[..n][1..];
    }
  }

  /** However the wait, the accepts and the polls turn out: every worker spawned is
  joined exactly once, those reaped in the loop and then those left; and all that is
  done after the loop is to shut the connections of those left, and then to join
  them. */
  method Serve(rounds: seq<Round>) returns (ok: bool, spawned: nat, reaped: seq<nat>, left: seq<nat>, log: seq<Act>)
    ensures (ok, spawned) == Served(rounds, 0)
    ensures multiset(reaped + left) == multiset(Spawned(spawned))
    ensures log == Joining(reaped) + Shutting(left) + Joining(left)
  {
    var pool := new WorkerPool();
    ok, spawned := true, 0;
    var r := 0;
    while r < |rounds|
      invariant fresh(pool) && 0 <= r <= |rounds|
      invariant pool.Kept(spawned) && pool.OnlyJoined()
      invariant ok && Served(rounds, 0) == Served(rounds[r..], spawned)
    {
      assert rounds[r..][1..] == rounds[r + 1..];
      var end;
      end, spawned := ServeRound(pool, rounds[r], spawned);
      if end.Some? {
        ok := end.value;
        break;
      }
      r := r + 1;
    }
    reaped, left := pool.joined, pool.workers;
    pool.ShutAll();
    pool.JoinAll();
    log := pool.log;
  }

  /** One return of the wait: accepts what is ready, then reaps what has finished. */
  method ServeRound(pool: WorkerPool, round: Round, spawned: nat) returns (end: Option<bool>, now: nat)
    requires pool.Kept(spawned) && pool.OnlyJoined()
    modifies pool
    ensures (end, now) == AfterRound(round, spawned)
    ensures pool.Kept(now) && pool.OnlyJoined()
  {
    now := spawned;
    if round.Interrupted? {
      return None, now;
    }
    if round.WaitFails? {
      return Some(false), now;
    }
    if round.Signalled? {
      return Some(true), now;
    }
    var failed := round.ordinary.AcceptFails?;
    now := pool.Take(round.ordinary, now);
    if !failed {
      now := pool.Take(round.meta, now);
    }
    failed := failed || round.meta.AcceptFails?;
    pool.ReapFinished(round.finished, now);
    end := if failed then Some(false) else None;
  }

  /** In what a listener does, every join after the loop comes after the shutting of the
  same worker's connection. */
  lemma ShutBeforeJoined(reaped: seq<nat>, left: seq<nat>, k: nat)
    requires |reaped| <= k < |reaped| + 2 * |left|
    requires (Joining(reaped) + Shutting(left) + Joining(left))[k].Join?
    ensures var log := Joining(reaped) + Shutting(left) + Joining(left);
            |reaped| <= k - |left| < k && log[k - |left|] == Shut(log[k].handle)
  {
  }
}
