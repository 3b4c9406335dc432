/** Configures, Sends and restarts as one concurrent machine over the store.

A Configure takes the store lock, reads the Standard, then writes or is refused, drops
the lock and later answers; a Send takes the lock once to read the Flow socket path and
then makes the connections of its transaction one at a time. A restart ends every
thread, keeps the store and rebinds to what it holds. */
module ConfigureMachine {
  import opened Wrappers
  import opened Configuration
  import opened Contract
  import FlowEdge
  import SendTransaction
  import SendGuarantees

  /** An answered Configure. `since` and `asked` are how many answers had been given, and
  how many Configures had committed, when it was asked; `at` is how many had committed
  at its read of the store. */
  datatype Given = Given(
    thread: nat,
    configuration: Config,
    meta: bool,
    since: nat,
    asked: nat,
    at: nat,
    engineReads: bool,
    engineWrites: bool,
    answer: Result<bool, ConfigureFailure>)

  datatype Thread =
    | Asking(configuration: Config, meta: bool, since: nat, asked: nat)
    | Holding(configuration: Config, meta: bool, since: nat, asked: nat, current: Option<Standard>)
    | Replying(given: Given)
    | Sending(made: nat)

  datatype Commit = Commit(thread: nat, configuration: Config, meta: bool)

  /** A Send, with the path it read, and how many Configures had committed at that read. */
  datatype Opened = Opened(situation: SendTransaction.Situation, at: nat)

  /** The `index`-th connection of a Send. */
  datatype Contact = Contact(thread: nat, index: nat, connection: FlowEdge.Connection)

  /** `commits`, `answers`, `sends` and `network` are histories; thread numbers are never
  used again. */
  datatype State = State(
    seed: Standard,
    stored: Standard,
    bound: Config,
    boundAt: nat,
    lock: Option<nat>,
    next: nat,
    threads: map<nat, Thread>,
    commits: seq<Commit>,
    answers: seq<Given>,
    sends: map<nat, Opened>,
    network: seq<Contact>)

  ghost predicate Initial(s: State) {
    && s.stored == s.seed && s.bound == s.seed.configuration && s.boundAt == 0
    && s.lock.None? && s.next == 0 && s.threads == map[]
    && s.commits == [] && s.answers == [] && s.sends == map[] && s.network == []
  }

  datatype Event =
    | AskConfigure(configuration: Config, meta: bool)
    | TakeLock(thread: nat)
    | Read(thread: nat, engineReads: bool)
    | Write(thread: nat, engineWrites: bool)
    | Reply(thread: nat)
    | OpenSend(situation: SendTransaction.Situation, engineReads: bool)
    | Connect(thread: nat)
    | Restart(seed: Standard)

  predicate Enabled(s: State, e: Event) {
    match e
    case AskConfigure(_, _) => true
    case TakeLock(t) => s.lock.None? && t in s.threads && s.threads[t].Asking?
    case Read(t, _) => t in s.threads && s.threads[t].Holding? && s.threads[t].current.None?
    case Write(t, _) => t in s.threads && s.threads[t].Holding? && s.threads[t].current.Some?
    case Reply(t) => t in s.threads && s.threads[t].Replying?
    case OpenSend(_, _) => s.lock.None?
    case Connect(t) =>
      t in s.threads && s.threads[t].Sending? && t in s.sends && s.threads[t].made < |s.sends[t].situation.Trace()|
    case Restart(_) => true
  }

  function Rows(standard: Standard): map<string, Standard> {
    map[STANDARD_KEY := standard]
  }

  /** The answer a thread that holds the lock comes to. */
  function GivenBy(s: State, t: nat, engineReads: bool, engineWrites: bool, answer: Result<bool, ConfigureFailure>): Given
    requires t in s.threads && s.threads[t].Holding?
  {
    var thread := s.threads[t];
    Given(t, thread.configuration, thread.meta, thread.since, thread.asked, |s.commits|, engineReads, engineWrites, answer)
  }

  function Apply(s: State, e: Event): State
    requires Enabled(s, e)
  {
    match e
    case AskConfigure(configuration, meta) =>
      s.(threads := s.threads[s.next := Asking(configuration, meta, |s.answers|, |s.commits|)], next := s.next + 1)
    case TakeLock(t) =>
      var thread := s.threads[t];
      s.(lock := Some(t),
         threads := s.threads[t := Holding(thread.configuration, thread.meta, thread.since, thread.asked, None)])
    case Read(t, engineReads) =>
      var thread := s.threads[t];
      if !engineReads then
        s.(lock := None, threads := s.threads[t := Replying(GivenBy(s, t, false, true, Failure(StoreFailure)))])
      else if !thread.meta && s.stored.metaConfigured then
        s.(lock := None, threads := s.threads[t := Replying(GivenBy(s, t, true, true, Failure(ConfigureFailure.AlreadyConfigured)))])
      else s.(threads := s.threads[t := thread.(current := Some(s.stored))])
    case Write(t, engineWrites) =>
      var thread := s.threads[t];
      if !engineWrites then
        s.(lock := None, threads := s.threads[t := Replying(GivenBy(s, t, true, false, Failure(StoreFailure)))])
      else
        var restartRequired := thread.current.value.configuration != thread.configuration;
        s.(lock := None,
           stored := ChangedConfiguration(thread.current.value, thread.configuration, thread.meta),
           commits := s.commits + [Commit(t, thread.configuration, thread.meta)],
           threads := s.threads[t := Replying(GivenBy(s, t, true, true, Success(restartRequired)))])
    case Reply(t) =>
      s.(answers := s.answers + [s.threads[t].given], threads := s.threads - {t})
    case OpenSend(situation, engineReads) =>
      var path := StoredPath(StoreView(Rows(s.stored), engineReads));
      s.(threads := s.threads[s.next := Sending(0)],
         sends := s.sends[s.next := Opened(situation.(path := path), |s.commits|)],
         next := s.next + 1)
    case Connect(t) =>
      var k := s.threads[t].made;
      s.(threads := s.threads[t := Sending(k + 1)],
         network := s.network + [Contact(t, k, s.sends[t].situation.Trace()[k])])
    case Restart(seed) =>
      var stored := Reopened(s.stored, seed);
      s.(lock := None, threads := map[], stored := stored, bound := stored.configuration, boundAt := |s.commits|)
  }

  /** The Standard a restart finds: that of the store file once it has been opened with
  the new process's seed. */
  function Reopened(stored: Standard, seed: Standard): (found: Standard)
    ensures found == stored
  {
    var file := Present(Some(SCHEMA_VERSION), Some(ENGINE_LAYOUT), Some([STANDARD_FAMILY]), Some([Row(STANDARD_KEY, Some(stored))]));
    var reopened := OpenedFile(file, seed, Completes);
    if IsStandard2(reopened) then reopened.standards.value[0].standard.value else seed
  }

  function Run(s: State, events: seq<Event>): Option<State>
    decreases |events|
  {
    if events == [] then Some(s)
    else if !Enabled(s, events[0]) then None
    else Run(Apply(s, events[0]), events[1..])
  }

  // ----- The atomic reading of the history -----

  /** The Standard after the first `n` commits, one whole Configure at a time. */
  function StandardAfter(seed: Standard, commits: seq<Commit>, n: nat): Standard
    requires n <= |commits|
  {
    if n == 0 then seed
    else ChangedConfiguration(StandardAfter(seed, commits, n - 1), commits[n - 1].configuration, commits[n - 1].meta)
  }

  lemma {:induction false} StandardAfterKeeps(seed: Standard, commits: seq<Commit>, more: seq<Commit>, n: nat)
    requires n <= |commits| && commits <= more
    ensures StandardAfter(seed, more, n) == StandardAfter(seed, commits, n)
  {
    if n == 0 {
    } else {
      StandardAfterKeeps(seed, commits, more, n - 1);
    }
  }

  // ----- The invariant -----

  ghost predicate LockDiscipline(s: State) {
    && (forall t | t in s.threads && s.threads[t].Holding? :: s.lock == Some(t))
    && (forall t | t in s.threads && s.threads[t].Holding? && s.threads[t].current.Some? ::
          s.threads[t].current.value == s.stored && (s.stored.metaConfigured ==> s.threads[t].meta))
    && (forall t | t in s.threads :: t < s.next)
  }

  ghost predicate Linear(s: State) {
    && s.stored == StandardAfter(s.seed, s.commits, |s.commits|)
    && (forall i | 0 <= i < |s.commits| :: !s.commits[i].meta ==> !StandardAfter(s.seed, s.commits, i).metaConfigured)
    && s.boundAt <= |s.commits| && s.bound == StandardAfter(s.seed, s.commits, s.boundAt).configuration
  }

  /** Each thread commits at most once, and never while it has yet to. */
  ghost predicate OneCommitEach(s: State) {
    && (forall i | 0 <= i < |s.commits| :: s.commits[i].thread < s.next)
    && (forall i, j | 0 <= i < j < |s.commits| :: s.commits[i].thread != s.commits[j].thread)
    && (forall i | 0 <= i < |s.commits| && s.commits[i].thread in s.threads :: s.threads[s.commits[i].thread].Replying?)
  }

  /** The answer is that of the whole Configure made at once where it read the store, and
  its commit, if it has one, is the commit made there. */
  ghost predicate Atomic(seed: Standard, commits: seq<Commit>, g: Given) {
    && g.asked <= g.at <= |commits|
    && g.answer == Reconfigure(Rows(StandardAfter(seed, commits, g.at)), g.configuration, g.meta, g.engineReads, g.engineWrites).answer
    && (g.answer.Success? ==> g.at < |commits| && commits[g.at] == Commit(g.thread, g.configuration, g.meta))
    && (g.answer.Failure? ==> forall i | 0 <= i < |commits| :: commits[i].thread != g.thread)
  }

  ghost predicate AnswersAtomic(s: State) {
    && (forall k | 0 <= k < |s.answers| :: Atomic(s.seed, s.commits, s.answers[k]))
    && (forall k | 0 <= k < |s.answers| :: s.answers[k].thread !in s.threads && s.answers[k].thread < s.next)
    && (forall t | t in s.threads && s.threads[t].Replying? ::
          s.threads[t].given.thread == t && Atomic(s.seed, s.commits, s.threads[t].given))
  }

  /** How many commits a Configure asked after this answer finds. */
  function Done(g: Given): nat {
    if g.answer.Success? then g.at + 1 else g.at
  }

  ghost predicate Follows(answers: seq<Given>, since: nat, asked: nat) {
    since <= |answers| && forall j | 0 <= j < since :: Done(answers[j]) <= asked
  }

  ghost predicate InRealTime(s: State) {
    AnswersInRealTime(s.answers) && ThreadsInRealTime(s)
  }

  ghost predicate AnswersInRealTime(answers: seq<Given>) {
    forall k | 0 <= k < |answers| :: Follows(answers, answers[k].since, answers[k].asked)
  }

  ghost predicate ThreadsInRealTime(s: State) {
    && (forall t | t in s.threads && (s.threads[t].Asking? || s.threads[t].Holding?) ::
          s.threads[t].asked <= |s.commits| && Follows(s.answers, s.threads[t].since, s.threads[t].asked))
    && (forall t | t in s.threads && s.threads[t].Replying? ::
          Follows(s.answers, s.threads[t].given.since, s.threads[t].given.asked))
  }

  /** The path a Send read is the one the store named at that point. */
  ghost predicate SendsNamed(s: State) {
    forall t | t in s.sends ::
      && t < s.next && s.sends[t].at <= |s.commits|
      && (s.sends[t].situation.path.Success? ==>
            s.sends[t].situation.path.value == StandardAfter(s.seed, s.commits, s.sends[t].at).configuration.flow)
  }

  /** The thread made its k-th connection among the first `n`. */
  ghost predicate Made(network: seq<Contact>, n: nat, thread: nat, k: nat)
    requires n <= |network|
  {
    exists j | 0 <= j < n :: network[j].thread == thread && network[j].index == k
  }

  /** What is on the network is the Sends' transactions, each from its start. */
  ghost predicate NetworkIsTraces(network: seq<Contact>, sends: map<nat, Opened>) {
    forall i | 0 <= i < |network| ::
      var c := network[i];
      && c.thread in sends && c.index < |sends[c.thread].situation.Trace()|
      && c.connection == sends[c.thread].situation.Trace()[c.index]
      && (c.index > 0 ==> Made(network, i, c.thread, c.index - 1))
  }

  ghost predicate SendersUnderway(s: State) {
    forall t | t in s.threads && s.threads[t].Sending? ::
      t in s.sends && (s.threads[t].made > 0 ==> Made(s.network, |s.network|, t, s.threads[t].made - 1))
  }

  ghost predicate Inv(s: State) {
    && LockDiscipline(s) && Linear(s) && OneCommitEach(s) && AnswersAtomic(s) && InRealTime(s)
    && SendsNamed(s) && NetworkIsTraces(s.network, s.sends) && SendersUnderway(s)
  }

  lemma HistoryGrows(s: State, e: Event)
    requires Enabled(s, e)
    ensures var t := Apply(s, e);
            && t.seed == s.seed && s.network <= t.network && s.answers <= t.answers
            && (t.commits == s.commits || (e.Write? && |t.commits| == |s.commits| + 1 && s.commits <= t.commits))
            && (forall n: nat | n <= |s.commits| ::
                  StandardAfter(t.seed, t.commits, n) == StandardAfter(s.seed, s.commits, n))
  {
    var t := Apply(s, e);
    forall n: nat | n <= |s.commits| ensures StandardAfter(t.seed, t.commits, n) == StandardAfter(s.seed, s.commits, n) {
      StandardAfterKeeps(s.seed, s.commits, t.commits, n);
    }
  }

  lemma StepKeepsLock(s: State, e: Event)
    requires LockDiscipline(s) && Enabled(s, e)
    ensures LockDiscipline(Apply(s, e))
  {
  }

  lemma CommitKeepsLinear(s: State, c: Commit)
    requires Linear(s) && (s.stored.metaConfigured ==> c.meta)
    ensures Linear(s.(stored := ChangedConfiguration(s.stored, c.configuration, c.meta), commits := s.commits + [c]))
  {
    var n, more := |s.commits|, s.commits + [c];
    StandardAfterKeeps(s.seed, s.commits, more, n);
    StandardAfterKeeps(s.seed, s.commits, more, s.boundAt);
    forall i | 0 <= i < |more| && !more[i].meta ensures !StandardAfter(s.seed, more, i).metaConfigured {
      StandardAfterKeeps(s.seed, s.commits, more, i);
    }
  }

  lemma StepKeepsLinear(s: State, e: Event)
    requires LockDiscipline(s) && Linear(s) && Enabled(s, e)
    ensures Linear(Apply(s, e))
  {
    if e.Write? && e.engineWrites {
      var thread := s.threads[e.thread];
      CommitKeepsLinear(s, Commit(e.thread, thread.configuration, thread.meta));
    }
  }

  lemma StepKeepsOneCommit(s: State, e: Event)
    requires LockDiscipline(s) && OneCommitEach(s) && Enabled(s, e)
    ensures OneCommitEach(Apply(s, e))
  {
  }

  lemma AtomicKeeps(seed: Standard, commits: seq<Commit>, c: Commit, g: Given)
    requires Atomic(seed, commits, g) && c.thread != g.thread
    ensures Atomic(seed, commits + [c], g)
  {
    StandardAfterKeeps(seed, commits, commits + [c], g.at);
  }

  /** The answer a step comes to is the atomic one. */
  lemma StepAnswersAtomically(s: State, e: Event)
    requires LockDiscipline(s) && Linear(s) && OneCommitEach(s) && InRealTime(s)
    requires Enabled(s, e) && (e.Read? || e.Write?)
    ensures var t := Apply(s, e);
            t.threads[e.thread].Replying? ==>
              t.threads[e.thread].given.thread == e.thread && Atomic(t.seed, t.commits, t.threads[e.thread].given)
  {
    if e.Write? && e.engineWrites {
      StandardAfterKeeps(s.seed, s.commits, Apply(s, e).commits, |s.commits|);
    }
  }

  lemma AtomicStays(s: State, e: Event, g: Given)
    requires Enabled(s, e) && Atomic(s.seed, s.commits, g) && (e.Write? ==> g.thread != e.thread)
    ensures Atomic(Apply(s, e).seed, Apply(s, e).commits, g)
  {
    var t := Apply(s, e);
    if t.commits != s.commits {
      AtomicKeeps(s.seed, s.commits, t.commits[|s.commits|], g);
    }
  }

  /** One thread moves, or none is left; it may have come to its answer. */
  lemma AnswersByMove(s: State, t: State, moved: nat)
    requires AnswersAtomic(s) && t.answers == s.answers && t.seed == s.seed && s.next <= t.next
    requires forall g: Given | Atomic(s.seed, s.commits, g) && g.thread != moved :: Atomic(t.seed, t.commits, g)
    requires moved in s.threads || moved >= s.next
    requires forall u | u in t.threads && u != moved :: u in s.threads && t.threads[u] == s.threads[u]
    requires moved in t.threads && t.threads[moved].Replying? ==>
               t.threads[moved].given.thread == moved && Atomic(t.seed, t.commits, t.threads[moved].given)
    ensures AnswersAtomic(t)
  {
  }

  lemma ReplyKeepsAnswers(s: State, t: nat)
    requires LockDiscipline(s) && AnswersAtomic(s) && Enabled(s, Reply(t))
    ensures AnswersAtomic(Apply(s, Reply(t)))
  {
  }

  /** The thread a step moves. */
  function Moved(s: State, e: Event): nat {
    match e
    case TakeLock(t) => t
    case Read(t, _) => t
    case Write(t, _) => t
    case Reply(t) => t
    case Connect(t) => t
    case AskConfigure(_, _) => s.next
    case OpenSend(_, _) => s.next
    case Restart(_) => s.next
  }

  lemma StepKeepsAnswers(s: State, e: Event)
    requires LockDiscipline(s) && Linear(s) && OneCommitEach(s) && AnswersAtomic(s) && InRealTime(s) && Enabled(s, e)
    ensures AnswersAtomic(Apply(s, e))
  {
    if e.Reply? {
      ReplyKeepsAnswers(s, e.thread);
    } else {
      if e.Read? || e.Write? {
        StepAnswersAtomically(s, e);
      }
      forall g: Given | Atomic(s.seed, s.commits, g) && g.thread != Moved(s, e)
        ensures Atomic(Apply(s, e).seed, Apply(s, e).commits, g)
      {
        AtomicStays(s, e, g);
      }
      AnswersByMove(s, Apply(s, e), Moved(s, e));
    }
  }

  lemma FollowsKeeps(answers: seq<Given>, more: seq<Given>, since: nat, asked: nat)
    requires Follows(answers, since, asked) && answers <= more
    ensures Follows(more, since, asked)
  {
    assert forall j | 0 <= j < since :: more[j] == answers[j];
  }

  /** Every commit behind an answer given so far has been made. */
  lemma AllGivenFollow(s: State)
    requires AnswersAtomic(s)
    ensures Follows(s.answers, |s.answers|, |s.commits|)
  {
    forall j | 0 <= j < |s.answers| ensures Done(s.answers[j]) <= |s.commits| {
      assert Atomic(s.seed, s.commits, s.answers[j]);
    }
  }

  lemma AnswerKeepsRealTime(answers: seq<Given>, g: Given)
    requires AnswersInRealTime(answers) && Follows(answers, g.since, g.asked)
    ensures AnswersInRealTime(answers + [g])
  {
    var more := answers + [g];
    forall k | 0 <= k < |more| ensures Follows(more, more[k].since, more[k].asked) {
      FollowsKeeps(answers, more, more[k].since, more[k].asked);
    }
  }

  lemma StepKeepsRealTime(s: State, e: Event)
    requires AnswersAtomic(s) && InRealTime(s) && Enabled(s, e)
    ensures InRealTime(Apply(s, e))
  {
    if e.Reply? {
      AnswerKeepsRealTime(s.answers, s.threads[e.thread].given);
      forall since, asked | Follows(s.answers, since, asked) ensures Follows(Apply(s, e).answers, since, asked) {
        FollowsKeeps(s.answers, Apply(s, e).answers, since, asked);
      }
    } else {
      AllGivenFollow(s);
      assert Apply(s, e).answers == s.answers;
    }
  }

  lemma StepKeepsNamed(s: State, e: Event)
    requires Linear(s) && SendsNamed(s) && Enabled(s, e)
    ensures SendsNamed(Apply(s, e))
  {
    HistoryGrows(s, e);
  }

  lemma MadeKeeps(network: seq<Contact>, more: seq<Contact>, n: nat, m: nat, thread: nat, k: nat)
    requires n <= |network| && network <= more && n <= m <= |more| && Made(network, n, thread, k)
    ensures Made(more, m, thread, k)
  {
    var j :| 0 <= j < n && network[j].thread == thread && network[j].index == k;
    assert more[j] == network[j];
  }

  lemma ContactKeepsTraces(network: seq<Contact>, sends: map<nat, Opened>, c: Contact)
    requires NetworkIsTraces(network, sends)
    requires c.thread in sends && c.index < |sends[c.thread].situation.Trace()|
    requires c.connection == sends[c.thread].situation.Trace()[c.index]
    requires c.index > 0 ==> Made(network, |network|, c.thread, c.index - 1)
    ensures NetworkIsTraces(network + [c], sends)
  {
    var more := network + [c];
    forall i | 0 <= i < |more| && more[i].index > 0 ensures Made(more, i, more[i].thread, more[i].index - 1) {
      MadeKeeps(network, more, i, i, more[i].thread, more[i].index - 1);
    }
  }

  lemma StepKeepsTraces(s: State, e: Event)
    requires LockDiscipline(s) && SendsNamed(s) && NetworkIsTraces(s.network, s.sends) && SendersUnderway(s) && Enabled(s, e)
    ensures NetworkIsTraces(Apply(s, e).network, Apply(s, e).sends)
  {
    if e.Connect? {
      var k := s.threads[e.thread].made;
      ContactKeepsTraces(s.network, s.sends, Contact(e.thread, k, s.sends[e.thread].situation.Trace()[k]));
    }
  }

  lemma StepKeepsSenders(s: State, e: Event)
    requires SendsNamed(s) && SendersUnderway(s) && Enabled(s, e)
    ensures SendersUnderway(Apply(s, e))
  {
    var t := Apply(s, e);
    forall u | u in t.threads && t.threads[u].Sending? && t.threads[u].made > 0
      ensures Made(t.network, |t.network|, u, t.threads[u].made - 1)
    {
      if e.Connect? && u == e.thread {
        assert t.network[|s.network|].thread == u && t.network[|s.network|].index == t.threads[u].made - 1;
      } else {
        MadeKeeps(s.network, t.network, |s.network|, |t.network|, u, s.threads[u].made - 1);
      }
    }
  }

  lemma StepKeepsInv(s: State, e: Event)
    requires Inv(s) && Enabled(s, e)
    ensures Inv(Apply(s, e))
  {
    StepKeepsLock(s, e);
    StepKeepsLinear(s, e);
    StepKeepsOneCommit(s, e);
    StepKeepsAnswers(s, e);
    StepKeepsRealTime(s, e);
    StepKeepsNamed(s, e);
    StepKeepsTraces(s, e);
    StepKeepsSenders(s, e);
  }

  lemma {:induction false} RunKeepsInv(s: State, events: seq<Event>)
    requires Inv(s) && Run(s, events).Some?
    ensures var t := Run(s, events).value;
            Inv(t) && t.seed == s.seed && s.commits <= t.commits && s.network <= t.network
    decreases |events|
  {
    if events == [] {
    } else {
      StepKeepsInv(s, events[0]);
      HistoryGrows(s, events[0]);
      RunKeepsInv(Apply(s, events[0]), events[1..]);
    }
  }

  // ----- What holds over every run -----

  lemma {:induction false} MetaAfter(s: State, m: nat, n: nat)
    requires m <= n <= |s.commits|
    ensures StandardAfter(s.seed, s.commits, n).metaConfigured <==>
            StandardAfter(s.seed, s.commits, m).metaConfigured || exists i | m <= i < n :: s.commits[i].meta
  {
    if m == n {
    } else {
      MetaAfter(s, m, n - 1);
      if s.commits[n - 1].meta {
        assert exists i | m <= i < n :: s.commits[i].meta;
      }
    }
  }

  /** Over any interleaving of Configures, Sends and restarts: the store is what the
  committed Configures, one after the other, make of the seed. It holds the last
  committed configuration, or the seed's; it is closed exactly when the seed was or
  a meta Configure committed; and after a meta commit no ordinary one commits. */
  lemma ConfigureIsLinear(start: State, events: seq<Event>)
    requires Initial(start) && Run(start, events).Some?
    ensures var s := Run(start, events).value;
            && s.stored.configuration == (if s.commits == [] then start.seed.configuration else s.commits[|s.commits| - 1].configuration)
            && (s.stored.metaConfigured <==> start.seed.metaConfigured || exists i | 0 <= i < |s.commits| :: s.commits[i].meta)
            && (forall i, j | 0 <= i < j < |s.commits| && s.commits[i].meta :: s.commits[j].meta)
            && (forall i, j | 0 <= i < j < |s.commits| :: s.commits[i].thread != s.commits[j].thread)
  {
    RunKeepsInv(start, events);
    var s := Run(start, events).value;
    MetaAfter(s, 0, |s.commits|);
    forall i, j | 0 <= i < j < |s.commits| && s.commits[i].meta ensures s.commits[j].meta {
      MetaAfter(s, i, j);
    }
  }

  /** Every answer is the one a single Configure would give, made at once at one point of
  the history: refused exactly when ordinary and the store was closed there, failed
  exactly when the engine did, and otherwise committed at that very point, a restart
  being required exactly when the configuration stored there was another. The point
  lies after the Configure was asked and after every answer given before that. */
  lemma AnswersAreAtomic(start: State, events: seq<Event>, k: nat)
    requires Initial(start) && Run(start, events).Some? && k < |Run(start, events).value.answers|
    ensures var s := Run(start, events).value;
            var g := s.answers[k];
            && g.asked <= g.at <= |s.commits|
            && (forall j | 0 <= j < k && j < g.since :: Done(s.answers[j]) <= g.at)
            && var there := StandardAfter(s.seed, s.commits, g.at);
               && (g.answer == Failure(ConfigureFailure.AlreadyConfigured) <==> g.engineReads && !g.meta && there.metaConfigured)
               && (g.answer == Failure(StoreFailure) <==>
                     !g.engineReads || (!g.engineWrites && (g.meta || !there.metaConfigured)))
               && (g.answer.Success? <==>
                     g.at < |s.commits| && s.commits[g.at] == Commit(g.thread, g.configuration, g.meta))
               && (g.answer.Success? ==> (g.answer.value <==> there.configuration != g.configuration))
               && (g.answer.Failure? ==> forall i | 0 <= i < |s.commits| :: s.commits[i].thread != g.thread)
  {
    RunKeepsInv(start, events);
    var s := Run(start, events).value;
    assert Atomic(s.seed, s.commits, s.answers[k]);
    assert Follows(s.answers, s.answers[k].since, s.answers[k].asked);
  }

  ghost predicate Asked(events: seq<Event>, configuration: Config, meta: bool) {
    exists k | 0 <= k < |events| :: events[k] == AskConfigure(configuration, meta)
  }

  /** Every Configure underway or answered is one that was asked. */
  ghost predicate AllAsked(s: State, events: seq<Event>) {
    && (forall t | t in s.threads && (s.threads[t].Asking? || s.threads[t].Holding?) ::
          Asked(events, s.threads[t].configuration, s.threads[t].meta))
    && (forall t | t in s.threads && s.threads[t].Replying? ::
          Asked(events, s.threads[t].given.configuration, s.threads[t].given.meta))
    && (forall k | 0 <= k < |s.answers| :: Asked(events, s.answers[k].configuration, s.answers[k].meta))
  }

  lemma AskedGrows(events: seq<Event>, e: Event, configuration: Config, meta: bool)
    ensures Asked(events, configuration, meta) ==> Asked(events + [e], configuration, meta)
    ensures e == AskConfigure(configuration, meta) ==> Asked(events + [e], configuration, meta)
  {
    assert (events + [e])[|events|] == e;
    if Asked(events, configuration, meta) {
      var k :| 0 <= k < |events| && events[k] == AskConfigure(configuration, meta);
      assert (events + [e])[k] == AskConfigure(configuration, meta);
    }
  }

  lemma StepKeepsAsked(s: State, earlier: seq<Event>, e: Event)
    requires AllAsked(s, earlier) && Enabled(s, e)
    ensures AllAsked(Apply(s, e), earlier + [e])
  {
    forall configuration, meta | Asked(earlier, configuration, meta) ensures Asked(earlier + [e], configuration, meta) {
      AskedGrows(earlier, e, configuration, meta);
    }
    if e.AskConfigure? {
      AskedGrows(earlier, e, e.configuration, e.meta);
    }
  }

  lemma {:induction false} RunKeepsAsked(s: State, earlier: seq<Event>, events: seq<Event>)
    requires AllAsked(s, earlier) && Run(s, events).Some?
    ensures AllAsked(Run(s, events).value, earlier + events)
    decreases |events|
  {
    if events == [] {
      assert earlier + events == earlier;
    } else {
      StepKeepsAsked(s, earlier, events[0]);
      RunKeepsAsked(Apply(s, events[0]), earlier + [events[0]], events[1..]);
      assert (earlier + [events[0]]) + events[1..] == earlier + events;
    }
  }

  /** Every answer is to a Configure that was asked, on the socket it was asked on. */
  lemma AnswersWereAsked(start: State, events: seq<Event>, k: nat)
    requires Initial(start) && Run(start, events).Some? && k < |Run(start, events).value.answers|
    ensures var g := Run(start, events).value.answers[k]; Asked(events, g.configuration, g.meta)
  {
    RunKeepsAsked(start, [], events);
    assert [] + events == events;
  }

  /** The two critical steps of a thread together are one Configure of the store. */
  lemma ReadAndWriteAreConfigure(s: State, t: nat, engineReads: bool, engineWrites: bool)
    requires Enabled(s, Read(t, engineReads))
    ensures var thread := s.threads[t];
            var whole := Reconfigure(Rows(s.stored), thread.configuration, thread.meta, engineReads, engineWrites);
            var read := Apply(s, Read(t, engineReads));
            var end := if Enabled(read, Write(t, engineWrites)) then Apply(read, Write(t, engineWrites)) else read;
            && end.threads[t].Replying? && end.threads[t].given.answer == whole.answer
            && Rows(end.stored) == whole.rows
  {
  }

  /** A closed store stays closed over restarts with any seed, and from then on only
  meta Configures change it. */
  lemma ClosedForGood(start: State, before: seq<Event>, after: seq<Event>)
    requires Initial(start) && Run(start, before).Some? && Run(Run(start, before).value, after).Some?
    requires Run(start, before).value.stored.metaConfigured
    ensures var s, t := Run(start, before).value, Run(Run(start, before).value, after).value;
            && t.stored.metaConfigured
            && (forall i | |s.commits| <= i < |t.commits| :: t.commits[i].meta)
  {
    RunKeepsInv(start, before);
    var s := Run(start, before).value;
    RunKeepsInv(s, after);
    var t := Run(s, after).value;
    StandardAfterKeeps(s.seed, s.commits, t.commits, |s.commits|);
    MetaAfter(t, |s.commits|, |t.commits|);
    forall i | |s.commits| <= i < |t.commits| ensures t.commits[i].meta {
      MetaAfter(t, |s.commits|, i);
    }
  }

  /** All connections of one Send go to the Flow socket that the store named at one point
  of the history, however many Configures commit meanwhile. What the process bound at
  its open stays bound. */
  lemma OneFlowPerSend(start: State, events: seq<Event>, i: nat)
    requires Initial(start) && Run(start, events).Some? && i < |Run(start, events).value.network|
    ensures var s := Run(start, events).value;
            var c := s.network[i];
            && c.thread in s.sends && s.sends[c.thread].at <= |s.commits|
            && c.connection.path == StandardAfter(s.seed, s.commits, s.sends[c.thread].at).configuration.flow
            && s.boundAt <= |s.commits| && s.bound == StandardAfter(s.seed, s.commits, s.boundAt).configuration
  {
    RunKeepsInv(start, events);
    var s := Run(start, events).value;
    var c := s.network[i];
    SendGuarantees.ContactAt(s.sends[c.thread].situation, c.index);
  }

  /** A Release on the network comes after the connection, of the same Send and to the
  same socket, on which Flow granted the very lock. */
  lemma ReleaseReachesTheGranter(start: State, events: seq<Event>, i: nat)
    requires Initial(start) && Run(start, events).Some? && i < |Run(start, events).value.network|
    requires Run(start, events).value.network[i].connection.query.Release?
    ensures var network, sends := Run(start, events).value.network, Run(start, events).value.sends;
            exists j | 0 <= j < i ::
              && network[j].thread == network[i].thread && network[j].thread in sends && network[j].index == 1
              && network[j].connection.query.LockQuery? && network[j].connection.path == network[i].connection.path
              && 1 < |sends[network[j].thread].situation.Trace()|
              && SendGuarantees.Answered(sends[network[j].thread].situation, 1, LockGranted(network[i].connection.query.lock))
  {
    RunKeepsInv(start, events);
    var s := Run(start, events).value;
    var c := s.network[i];
    SendGuarantees.ReleaseGoesToTheGranter(s.sends[c.thread].situation, c.index);
    var j := EarlierConnection(s, i, 1);
  }

  /** Every connection of a Send comes after the ones before it. */
  lemma {:induction false} EarlierConnection(s: State, i: nat, k: nat) returns (j: nat)
    requires NetworkIsTraces(s.network, s.sends) && i < |s.network| && k < s.network[i].index
    ensures j < i && s.network[j].thread == s.network[i].thread && s.network[j].index == k
    decreases s.network[i].index
  {
    var c := s.network[i];
    assert Made(s.network, i, c.thread, c.index - 1);
    j :| 0 <= j < i && s.network[j].thread == c.thread && s.network[j].index == c.index - 1;
    if k == c.index - 1 {
    } else {
      j := EarlierConnection(s, j, k);
    }
  }

  // ----- What the answer says of the process -----

  /** The answer to a Configure speaks of the stored configuration, not of the one the
  process is bound to: when a process bound to another configuration is given the
  same one twice, the second answer says no restart is needed though one is. */
  lemma SecondAnswerHidesRestart(start: State, configuration: Config)
    requires Initial(start) && configuration != start.seed.configuration
    ensures var s := Run(start, Once(configuration, 0) + Once(configuration, 1));
            && s.Some? && |s.value.answers| == 2
            && s.value.answers[0].answer == Success(true) && s.value.answers[1].answer == Success(false)
            && s.value.bound != configuration && s.value.stored.configuration == configuration
  {
    var mid := ConfigureOnce(start, configuration, Once(configuration, 1));
    var end := ConfigureOnce(mid, configuration, []);
    assert Once(configuration, 1) + [] == Once(configuration, 1);
    assert Run(end, []) == Some(end);
  }

  /** One meta Configure from its question to its answer, undisturbed. */
  function Once(configuration: Config, thread: nat): seq<Event> {
    [AskConfigure(configuration, true), TakeLock(thread), Read(thread, true), Write(thread, true), Reply(thread)]
  }

  lemma RunFirst(s: State, e: Event, more: seq<Event>)
    requires Enabled(s, e)
    ensures Run(s, [e] + more) == Run(Apply(s, e), more)
  {
    assert ([e] + more)[1..] == more;
  }

  /** The states of an undisturbed Configure, in turn. */
  lemma OnceStates(s: State, configuration: Config) returns (a: State, b: State, c: State, d: State, t: State)
    requires s.lock.None? && s.next !in s.threads
    ensures a == Apply(s, AskConfigure(configuration, true))
    ensures Enabled(a, TakeLock(s.next)) && b == Apply(a, TakeLock(s.next))
    ensures Enabled(b, Read(s.next, true)) && c == Apply(b, Read(s.next, true))
    ensures Enabled(c, Write(s.next, true)) && d == Apply(c, Write(s.next, true))
    ensures Enabled(d, Reply(s.next)) && t == Apply(d, Reply(s.next))
    ensures t.stored == ChangedConfiguration(s.stored, configuration, true)
    ensures |t.answers| == |s.answers| + 1 && s.answers <= t.answers
    ensures t.answers[|s.answers|].answer == Success(s.stored.configuration != configuration)
    ensures t.bound == s.bound && t.next == s.next + 1 && t.lock.None? && t.threads == s.threads
  {
    a := Apply(s, AskConfigure(configuration, true));
    b := Apply(a, TakeLock(s.next));
    c := Apply(b, Read(s.next, true));
    d := Apply(c, Write(s.next, true));
    t := Apply(d, Reply(s.next));
  }

  lemma ConfigureOnce(s: State, configuration: Config, more: seq<Event>) returns (t: State)
    requires s.lock.None? && s.next !in s.threads
    ensures Run(s, Once(configuration, s.next) + more) == Run(t, more)
    ensures t.stored == ChangedConfiguration(s.stored, configuration, true)
    ensures |t.answers| == |s.answers| + 1 && s.answers <= t.answers
    ensures t.answers[|s.answers|].answer == Success(s.stored.configuration != configuration)
    ensures t.bound == s.bound && t.next == s.next + 1 && t.lock.None? && t.threads == s.threads
  {
    var n := s.next;
    var a, b, c, d;
    a, b, c, d, t := OnceStates(s, configuration);
    var last := [Reply(n)] + more;
    RunFirst(d, Reply(n), more);
    RunFirst(c, Write(n, true), last);
    var two := [Write(n, true)] + last;
    RunFirst(b, Read(n, true), two);
    var three := [Read(n, true)] + two;
    RunFirst(a, TakeLock(n), three);
    var four := [TakeLock(n)] + three;
    RunFirst(s, AskConfigure(configuration, true), four);
    OnceThen(configuration, n, more);
  }

  lemma OnceThen(configuration: Config, n: nat, more: seq<Event>)
    ensures Once(configuration, n) + more
            == [AskConfigure(configuration, true)] + ([TakeLock(n)] + ([Read(n, true)] + ([Write(n, true)] + ([Reply(n)] + more))))
  {
  }

  /** Exactly when the answer to a Configure is right about the process: when the stored
  configuration is the one the process is bound to, or the new one is neither. The
  first holds as long as nothing has committed since the process opened. */
  lemma RestartAnswerIsRightExactly(start: State, events: seq<Event>, t: nat)
    requires Initial(start) && Run(start, events).Some? && Enabled(Run(start, events).value, Write(t, true))
    ensures var s := Run(start, events).value;
            var configuration, after := s.threads[t].configuration, Apply(s, Write(t, true));
            && after.threads[t].Replying? && after.threads[t].given.answer.Success?
            && ((after.threads[t].given.answer.value <==> configuration != s.bound)
                <==> s.stored.configuration == s.bound || (configuration != s.bound && configuration != s.stored.configuration))
            && (s.boundAt == |s.commits| ==> s.stored.configuration == s.bound)
  {
    RunKeepsInv(start, events);
  }
}
