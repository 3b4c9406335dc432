/** Parking and the receipt ledger, as `delivery.rs` and `ledger.rs` describe them.

Neither file is in the crate's module tree, and the store operations they call are not
part of this model; what is modelled is what the two files themselves define. */
module Ledger {
  import opened Wrappers
  import Contract

  // ----- The id of a delivery attempt -----

  const U64_LIMIT: nat := 0x1_0000_0000_0000_0000

  function Decimal(n: nat): (s: string)
    ensures s != ""
  {
    if n < 10 then [Digit(n)] else Decimal(n / 10) + [Digit(n % 10)]
  }

  function Digit(d: nat): char
    requires d < 10
  {
    "0123456789"[d]
  }

  predicate IsDigit(c: char) {
    '0' <= c <= '9'
  }

  function DigitValue(c: char): nat
    requires IsDigit(c)
  {
    c as int - '0' as int
  }

  /** The value of a run of digits, as an unsigned 64-bit parse reads it: None for
  anything else and for a value too large. */
  function DigitsValue(s: string): Option<nat> {
    if s == "" then Some(0)
    else
      var last := s[|s| - 1];
      match DigitsValue(s[..|s| - 1])
      case None => None
      case Some(high) =>
        if IsDigit(last) && high * 10 + DigitValue(last) < U64_LIMIT then Some(high * 10 + DigitValue(last)) else None
  }

  function ParseU64(s: string): Option<nat> {
    var digits := if s != "" && s[0] == '+' then s[1..] else s;
    if digits == "" then None else DigitsValue(digits)
  }

  function DeliveryId(messageId: string, flowId: string, attempt: nat): string {
    messageId + ":" + flowId + ":" + Decimal(attempt)
  }

  /** What follows the last colon. */
  function LastField(s: string): string {
    if s == "" || s[|s| - 1] == ':' then "" else LastField(s[..|s| - 1]) + [s[|s| - 1]]
  }

  function Attempt(id: string): nat {
    match ParseU64(LastField(id))
    case None => 0
    case Some(n) => n
  }

  lemma {:induction false} DecimalIsDigits(n: nat)
    ensures forall i | 0 <= i < |Decimal(n)| :: IsDigit(Decimal(n)[i])
  {
    if n < 10 {
    } else {
      DecimalIsDigits(n / 10);
    }
  }

  lemma {:induction false} DecimalThenValue(n: nat)
    requires n < U64_LIMIT
    ensures DigitsValue(Decimal(n)) == Some(n)
  {
    var s := Decimal(n);
    if n < 10 {
      assert s[..|s| - 1] == "";
    } else {
      DecimalThenValue(n / 10);
      assert s[..|s| - 1] == Decimal(n / 10);
    }
  }

  lemma {:induction false} LastFieldOf(head: string, field: string)
    requires forall i | 0 <= i < |field| :: field[i] != ':'
    ensures LastField(head + ":" + field) == field
  {
    var s := head + ":" + field;
    if field == "" {
      assert s[|s| - 1] == ':';
    } else {
      var n := |field| - 1;
      assert s[..|s| - 1] == head + ":" + field[..n];
      LastFieldOf(head, field[..n]);
      assert field == field[..n] + [field[n]];
    }
  }

  /** The attempt can be read back from every delivery id, colons in the message and
  flow ids included. */
  lemma AttemptRoundTrip(messageId: string, flowId: string, attempt: nat)
    requires attempt < U64_LIMIT
    ensures Attempt(DeliveryId(messageId, flowId, attempt)) == attempt
  {
    DecimalIsDigits(attempt);
    LastFieldOf(messageId + ":" + flowId, Decimal(attempt));
    DecimalThenValue(attempt);
    assert IsDigit(Decimal(attempt)[0]);
  }

  /** Two delivery ids are the same exactly when the attempts are and the rest reads the
  same; the rest is ambiguous only in where its colon falls. */
  lemma DeliveryIdsCollideExactly(m: string, f: string, a: nat, m': string, f': string, a': nat)
    requires a < U64_LIMIT && a' < U64_LIMIT
    ensures DeliveryId(m, f, a) == DeliveryId(m', f', a') <==> a == a' && m + ":" + f == m' + ":" + f'
    ensures DeliveryId(m, f, a) == DeliveryId(m', f', a') && |m| == |m'| ==> m == m' && f == f'
  {
    AttemptRoundTrip(m, f, a);
    AttemptRoundTrip(m', f', a');
    var x, y, tail := m + ":" + f, m' + ":" + f', ":" + Decimal(a);
    assert DeliveryId(m, f, a) == x + tail;
    assert DeliveryId(m', f', a') == y + ":" + Decimal(a') == y + (":" + Decimal(a'));
    if DeliveryId(m, f, a) == DeliveryId(m', f', a') {
      assert DeliveryId(m', f', a') == y + tail;
      assert (x + tail)[..|x|] == x && (y + tail)[..|y|] == y;
      if |m| == |m'| {
        assert x[..|m|] == m && y[..|m'|] == m';
        assert x[|m| + 1..] == f && y[|m'| + 1..] == f';
      }
    }
  }

  // ----- Receipts -----

  datatype Outcome = Transported | Presented | UncertainKept
  datatype Grade = Submitted | Parked | Kept(outcome: Outcome) | Uncertain | Refused
  datatype Row = Row(sequence: int, flowId: string, deliveryId: string, grade: Grade)

  predicate Dense(rows: seq<Row>) {
    forall i | 0 <= i < |rows| :: rows[i].sequence == i
  }

  /** The last row of a recipient. */
  function Latest(rows: seq<Row>, flowId: string): Option<Row> {
    if rows == [] then None
    else if rows[|rows| - 1].flowId == flowId then Some(rows[|rows| - 1])
    else Latest(rows[..|rows| - 1], flowId)
  }

  /** One message's receipts: rows are appended, never rewritten. */
  class Receipts {
    var rows: seq<Row>

    /** Appends a receipt, or leaves the ledger as it was when the store fails. The number
    of receipts is the next sequence number, capped at an i64's. */
    method RecordGrade(flowId: string, deliveryId: string, grade: Grade, engineWorks: bool) returns (r: Option<Row>)
      modifies this
      ensures r.Some? <==> engineWorks
      ensures r.None? ==> rows == old(rows)
      ensures r.Some? ==>
                var row := r.value;
                && rows == old(rows) + [row]
                && row.flowId == flowId && row.deliveryId == deliveryId && row.grade == grade
                && (Dense(old(rows)) && |old(rows)| < 0x8000_0000_0000_0000 ==> Dense(rows))
                && Latest(rows, flowId) == Some(row)
    {
      if !engineWorks {
        return None;
      }
      var row := Row(if |rows| < 0x8000_0000_0000_0000 then |rows| else 0x7FFF_FFFF_FFFF_FFFF, flowId, deliveryId, grade);
      rows := rows + [row];
      r := Some(row);
    }

    /** Each recipient's latest receipt, in the message's recipient order. */
    method LatestReceipts(flowIds: seq<string>) returns (latest: seq<Row>)
      ensures latest == LatestOf(rows, flowIds)
    {
      latest := [];
      var i := 0;
      while i < |flowIds|
        invariant 0 <= i <= |flowIds| && latest == LatestOf(rows, flowIds[..i])
      {
        assert flowIds[..i + 1][..i] == flowIds[..i];
        var found := Find(flowIds[i]);
        if found.Some? {
          latest := latest + [found.value];
        }
        i := i + 1;
      }
      assert flowIds[..i] == flowIds;
    }

    /** Searches the rows from the last. */
    method Find(flowId: string) returns (found: Option<Row>)
      ensures found == Latest(rows, flowId)
    {
      var n := |rows|;
      assert rows[..n] == rows;
      while n > 0
        invariant 0 <= n <= |rows| && Latest(rows, flowId) == Latest(rows[..n], flowId)
      {
        assert rows[..n][..n - 1] == rows[..n - 1];
        if rows[n - 1].flowId == flowId {
          return Some(rows[n - 1]);
        }
        n := n - 1;
      }
      assert rows[..0] == [];
      found := None;
    }
  }

  function LatestOf(rows: seq<Row>, flowIds: seq<string>): seq<Row> {
    if flowIds == [] then []
    else
      var n := |flowIds| - 1;
      LatestOf(rows, flowIds[..n]) + match Latest(rows, flowIds[n]) case None => [] case Some(row) => [row]
  }

  lemma LatestOfOne(rows: seq<Row>, flowId: string)
    ensures LatestOf(rows, [flowId]) == match Latest(rows, flowId) case None => [] case Some(row) => [row]
  {
    assert [flowId][..0] == [];
    assert LatestOf(rows, []) == [];
  }

  lemma LatestOfMore(rows: seq<Row>, flowIds: seq<string>, flowId: string)
    ensures LatestOf(rows, flowIds + [flowId]) == LatestOf(rows, flowIds) + LatestOf(rows, [flowId])
  {
    LatestOfOne(rows, flowId);
    assert (flowIds + [flowId])[..|flowIds|] == flowIds;
  }

  /** The receipts come in the order of the recipients. */
  lemma {:induction false} LatestInOrder(rows: seq<Row>, a: seq<string>, b: seq<string>)
    ensures LatestOf(rows, a + b) == LatestOf(rows, a) + LatestOf(rows, b)
    decreases |b|
  {
    if b == [] {
      assert a + b == a;
    } else {
      var n := |b| - 1;
      LatestInOrder(rows, a, b[..n]);
      LatestOfMore(rows, a + b[..n], b[n]);
      LatestOfMore(rows, b[..n], b[n]);
      assert b == b[..n] + [b[n]];
      assert a + b == (a + b[..n]) + [b[n]];
    }
  }

  /** With dense sequence numbers the latest receipt is the recipient's row with the
  greatest sequence number, and is missing exactly when the recipient has no row. */
  lemma {:induction false} LatestIsGreatest(rows: seq<Row>, flowId: string)
    requires Dense(rows)
    ensures Latest(rows, flowId).None? <==> forall i | 0 <= i < |rows| :: rows[i].flowId != flowId
    ensures Latest(rows, flowId).Some? ==>
              var row := Latest(rows, flowId).value;
              && row in rows && row.flowId == flowId
              && (forall i | 0 <= i < |rows| && rows[i].flowId == flowId :: rows[i].sequence <= row.sequence)
  {
    if rows == [] || rows[|rows| - 1].flowId == flowId {
    } else {
      LatestIsGreatest(rows[..|rows| - 1], flowId);
    }
  }

  // ----- Crash and retry, for one recipient -----

  /** A thread acting for the recipient: a settle or a watch's landing with the id it
  delivers under, before its Deliver or with the grade it came to; or a watch waiting
  for a frame. */
  datatype Thread =
    | Delivering(id: string, landing: bool)
    | Graded(id: string, landing: bool, grade: Grade)
    | Watching

  /** `rows` are the recipient's, oldest first; `kept` is Flow's stored outcome of each
  delivery it typed; `typed` and `attempts` are histories: the ids typed and the
  attempts opened, in turn. */
  datatype State = State(
    messageId: string,
    flowId: string,
    rows: seq<Row>,
    next: nat,
    threads: map<nat, Thread>,
    kept: map<string, Outcome>,
    typed: seq<string>,
    attempts: seq<nat>)

  /** Why Flow did not deliver. */
  datatype Rejection = RecipientWorking | ComposerOccupied | OtherRejection

  datatype MetaReply = Delivered(outcome: Outcome) | Rejected(rejection: Rejection)

  /** What one Deliver came to, as a grade. */
  function Grading(result: Result<MetaReply, Contract.EdgeFailure>): Grade {
    match result
    case Success(Delivered(outcome)) => Kept(outcome)
    case Success(Rejected(RecipientWorking)) => Parked
    case Success(Rejected(ComposerOccupied)) => Parked
    case Success(Rejected(OtherRejection)) => Refused
    case Failure(Unreachable) => Refused
    case Failure(EdgeRefused(_)) => Refused
    case Failure(Broken) => Uncertain
    case Failure(Unexpected) => Uncertain
  }

  /** What Flow makes of a Deliver it has not kept. */
  datatype FlowChoice = Types(outcome: Outcome) | Rejects(rejection: Rejection)

  /** Flow takes a Deliver, and its answer may be lost or spoilt; or Flow takes none, being
  out of reach or refusing Message itself. A restart resumes the recipient; opening an
  attempt is asked from outside. */
  datatype Event =
    | CallFlow(thread: nat, choice: FlowChoice, lost: Option<Contract.EdgeFailure>)
    | NotReached(thread: nat, failure: Contract.EdgeFailure)
    | Record(thread: nat)
    | RecordFails(thread: nat)
    | AtRest(thread: nat)
    | WatchEnds(thread: nat)
    | Crash
    | Resume
    | OpenAttempt(attempt: nat)

  function LatestRow(s: State): Row
    requires s.rows != []
  {
    s.rows[|s.rows| - 1]
  }

  predicate MayHaveTyped(grade: Grade) {
    grade == Uncertain || grade == Kept(UncertainKept)
  }

  predicate Enabled(s: State, e: Event) {
    match e
    case CallFlow(t, _, lost) =>
      t in s.threads && s.threads[t].Delivering? && (lost.Some? ==> lost.value.Broken? || lost.value.Unexpected?)
    case NotReached(t, failure) =>
      t in s.threads && s.threads[t].Delivering? && (failure.Unreachable? || failure.EdgeRefused?)
    case Record(t) => t in s.threads && s.threads[t].Graded?
    case RecordFails(t) => t in s.threads && s.threads[t].Graded?
    case AtRest(t) => t in s.threads && s.threads[t].Watching? && s.rows != []
    case WatchEnds(t) => t in s.threads && s.threads[t].Watching?
    case Crash => true
    case Resume => s.rows != []
    case OpenAttempt(n) =>
      && n < U64_LIMIT && (forall t | t in s.threads :: s.threads[t].Watching?)
      && (s.rows == [] || (MayHaveTyped(LatestRow(s).grade) && Attempt(LatestRow(s).deliveryId) < n))
  }

  /** The assumption on Flow: it types a delivery id at most once, keeps the outcome, and
  answers a repeat with it; it keeps nothing of a Deliver it parks or rejects. */
  function Answer(s: State, id: string, choice: FlowChoice): MetaReply {
    if id in s.kept then Delivered(s.kept[id])
    else match choice
         case Types(outcome) => Delivered(outcome)
         case Rejects(rejection) => Rejected(rejection)
  }

  predicate TypesNow(s: State, e: Event) {
    e.CallFlow? && e.thread in s.threads && s.threads[e.thread].Delivering? && e.choice.Types? && s.threads[e.thread].id !in s.kept
  }

  /** A grade that is not recorded: the recipient was parked already. */
  predicate ParkedAgain(s: State, thread: Thread)
    requires thread.Graded?
  {
    thread.grade.Parked? && (thread.landing || (s.rows != [] && LatestRow(s).grade.Parked?))
  }

  /** The threads after one of them has gone on, or ended. */
  function Goes(s: State, t: nat, on: Option<Thread>): map<nat, Thread> {
    match on
    case None => s.threads - {t}
    case Some(thread) => s.threads[t := thread]
  }

  function NextThreads(s: State, e: Event): map<nat, Thread>
    requires Enabled(s, e)
  {
    match e
    case CallFlow(t, choice, lost) =>
      var thread := s.threads[t];
      var result := if lost.Some? then Failure(lost.value) else Success(Answer(s, thread.id, choice));
      Goes(s, t, Some(Graded(thread.id, thread.landing, Grading(result))))
    case NotReached(t, failure) => Goes(s, t, Some(Graded(s.threads[t].id, s.threads[t].landing, Grading(Failure(failure)))))
    case Record(t) =>
      var thread := s.threads[t];
      Goes(s, t, if thread.grade.Parked? && (thread.landing || !ParkedAgain(s, thread)) then Some(Watching) else None)
    case RecordFails(t) => Goes(s, t, None)
    case AtRest(t) => Goes(s, t, if LatestRow(s).grade.Parked? then Some(Delivering(LatestRow(s).deliveryId, true)) else None)
    case WatchEnds(t) => Goes(s, t, None)
    case Crash => map[]
    case Resume =>
      if LatestRow(s).grade.Parked? then s.threads[s.next := Watching]
      else if LatestRow(s).grade.Submitted? then s.threads[s.next := Delivering(LatestRow(s).deliveryId, false)]
      else s.threads
    case OpenAttempt(n) => s.threads[s.next := Delivering(DeliveryId(s.messageId, s.flowId, n), false)]
  }

  function NextRows(s: State, e: Event): seq<Row>
    requires Enabled(s, e)
  {
    match e
    case Record(t) =>
      if ParkedAgain(s, s.threads[t]) then s.rows
      else s.rows + [Row(|s.rows|, s.flowId, s.threads[t].id, s.threads[t].grade)]
    case OpenAttempt(n) => s.rows + [Row(|s.rows|, s.flowId, DeliveryId(s.messageId, s.flowId, n), Submitted)]
    case _ => s.rows
  }

  function Apply(s: State, e: Event): State
    requires Enabled(s, e)
  {
    State(
      s.messageId, s.flowId, NextRows(s, e), s.next + 1, NextThreads(s, e),
      if TypesNow(s, e) then s.kept[s.threads[e.thread].id := e.choice.outcome] else s.kept,
      if TypesNow(s, e) then s.typed + [s.threads[e.thread].id] else s.typed,
      if e.OpenAttempt? then s.attempts + [e.attempt] else s.attempts)
  }

  function Run(s: State, events: seq<Event>): Option<State>
    decreases |events|
  {
    if events == [] then Some(s)
    else if !Enabled(s, events[0]) then None
    else Run(Apply(s, events[0]), events[1..])
  }

  /** A message just accepted for a recipient. */
  function Nothing(messageId: string, flowId: string): State {
    State(messageId, flowId, [], 0, map[], map[], [], [])
  }

  // ----- The invariant -----

  function Ids(s: State): (ids: seq<string>)
    ensures |ids| == |s.attempts|
  {
    seq(|s.attempts|, i requires 0 <= i < |s.attempts| => DeliveryId(s.messageId, s.flowId, s.attempts[i]))
  }

  /** The attempts are numbered upwards; whatever is delivered or recorded is under one of
  their ids, and a thread's and the latest row's under the last. */
  ghost predicate UnderTheLatestId(s: State) {
    Numbered(s) && ThreadsUnderTheLatest(s)
  }

  ghost predicate Numbered(s: State) {
    && Increasing(s.attempts)
    && (s.rows == [] <==> s.attempts == [])
    && (s.rows != [] ==> LatestRow(s).deliveryId == Ids(s)[|s.attempts| - 1])
  }

  ghost predicate ThreadsUnderTheLatest(s: State) {
    && (forall t | t in s.threads && !s.threads[t].Watching? ::
          s.attempts != [] && s.threads[t].id == Ids(s)[|s.attempts| - 1])
    && (forall t | t in s.threads :: t < s.next)
  }

  ghost predicate TypedOnce(s: State) {
    && (forall i, j | 0 <= i < j < |s.typed| :: s.typed[i] != s.typed[j])
    && (forall i | 0 <= i < |s.typed| :: s.typed[i] in s.kept && s.typed[i] in Ids(s))
    && (forall id | id in s.kept :: id in s.typed)
  }

  /** A grade that says Flow kept an outcome is the outcome Flow kept. */
  ghost predicate Truthful(s: State) {
    && (forall t | t in s.threads && s.threads[t].Graded? :: !s.threads[t].grade.Submitted?)
    && (forall t | t in s.threads && s.threads[t].Graded? && s.threads[t].grade.Kept? ::
          s.threads[t].id in s.kept && s.kept[s.threads[t].id] == s.threads[t].grade.outcome)
    && (forall i | 0 <= i < |s.rows| && s.rows[i].grade.Kept? ::
          s.rows[i].deliveryId in s.kept && s.kept[s.rows[i].deliveryId] == s.rows[i].grade.outcome)
  }

  /** The ids of the attempts so far stay, and a new attempt's comes last. */
  lemma IdsGrow(s: State, e: Event)
    requires Enabled(s, e)
    ensures var t := Apply(s, e);
            Ids(t) == if e.OpenAttempt? then Ids(s) + [DeliveryId(s.messageId, s.flowId, e.attempt)] else Ids(s)
  {
  }

  /** The latest row tells the number of the last attempt. */
  lemma LatestTellsTheNumber(s: State)
    requires Numbered(s) && s.rows != []
    ensures Attempt(LatestRow(s).deliveryId) == s.attempts[|s.attempts| - 1]
  {
    AttemptRoundTrip(s.messageId, s.flowId, s.attempts[|s.attempts| - 1]);
  }

  predicate Increasing(attempts: seq<nat>) {
    && (forall i, j | 0 <= i < j < |attempts| :: attempts[i] < attempts[j])
    && (forall i | 0 <= i < |attempts| :: attempts[i] < U64_LIMIT)
  }

  lemma OneMoreAttempt(attempts: seq<nat>, n: nat)
    requires Increasing(attempts) && n < U64_LIMIT && (attempts != [] ==> attempts[|attempts| - 1] < n)
    ensures Increasing(attempts + [n])
  {
  }

  lemma StepKeepsNumbers(s: State, e: Event)
    requires UnderTheLatestId(s) && Enabled(s, e)
    ensures Numbered(Apply(s, e))
  {
    IdsGrow(s, e);
    if e.OpenAttempt? {
      if s.rows != [] {
        LatestTellsTheNumber(s);
      }
      OneMoreAttempt(s.attempts, e.attempt);
    } else {
      RowsUnderTheLatest(s, e);
      SameAttempts(s, Apply(s, e));
    }
  }

  /** Without a new attempt, a step appends at most one row, under the latest id. */
  lemma RowsUnderTheLatest(s: State, e: Event)
    requires UnderTheLatestId(s) && Enabled(s, e) && !e.OpenAttempt?
    ensures var rows := NextRows(s, e);
            rows == s.rows
            || (s.attempts != [] && rows != [] && rows[|rows| - 1].deliveryId == Ids(s)[|s.attempts| - 1])
  {
  }

  lemma SameAttempts(s: State, t: State)
    requires Numbered(s) && t.attempts == s.attempts && Ids(t) == Ids(s)
    requires t.rows == s.rows
             || (s.attempts != [] && t.rows != [] && LatestRow(t).deliveryId == Ids(s)[|s.attempts| - 1])
    ensures Numbered(t)
  {
  }

  lemma StepKeepsThreads(s: State, e: Event)
    requires UnderTheLatestId(s) && Enabled(s, e)
    ensures ThreadsUnderTheLatest(Apply(s, e))
  {
    IdsGrow(s, e);
  }

  lemma StepKeepsTyped(s: State, e: Event)
    requires UnderTheLatestId(s) && TypedOnce(s) && Enabled(s, e)
    ensures TypedOnce(Apply(s, e))
  {
    IdsGrow(s, e);
    if TypesNow(s, e) {
      assert Ids(s)[|s.attempts| - 1] in Ids(s);
    }
  }

  lemma StepKeepsTruth(s: State, e: Event)
    requires Truthful(s) && Enabled(s, e)
    ensures Truthful(Apply(s, e))
  {
  }

  lemma {:induction false} RunKeeps(s: State, events: seq<Event>)
    requires UnderTheLatestId(s) && TypedOnce(s) && Truthful(s) && Run(s, events).Some?
    ensures var t := Run(s, events).value;
            && UnderTheLatestId(t) && TypedOnce(t) && Truthful(t)
            && t.messageId == s.messageId && t.flowId == s.flowId
    decreases |events|
  {
    if events == [] {
    } else {
      StepKeepsNumbers(s, events[0]);
      StepKeepsThreads(s, events[0]);
      StepKeepsTyped(s, events[0]);
      StepKeepsTruth(s, events[0]);
      RunKeeps(Apply(s, events[0]), events[1..]);
    }
  }

  // ----- What a grade tells -----

  /** A Deliver graded as not delivered, or as parked, typed nothing under its id, now or
  before, with one exception: a retry that does not reach Flow, when an earlier
  Deliver under the same id has typed. */
  lemma NotDeliveredExactly(s: State, e: Event)
    requires Enabled(s, e) && (e.CallFlow? || e.NotReached?)
    ensures var t, thread := Apply(s, e), s.threads[e.thread];
            && t.threads[e.thread].Graded? && t.threads[e.thread].id == thread.id
            && var grade := t.threads[e.thread].grade;
               && ((grade.Refused? || grade.Parked?) && thread.id in t.kept <==> e.NotReached? && thread.id in s.kept)
               && (grade.Kept? ==> thread.id in t.kept && t.kept[thread.id] == grade.outcome)
               && !grade.Submitted?
  {
  }

  /** Such a retry: Flow types, the process dies before it records that, and when it
  resumes Flow is out of reach. The ledger's last word is that nothing was delivered. */
  lemma CrashCanHideADelivery(messageId: string, flowId: string, outcome: Outcome)
    ensures var s := Run(Nothing(messageId, flowId),
                         [OpenAttempt(1), CallFlow(0, Types(outcome), None), Crash, Resume,
                          NotReached(3, Contract.Unreachable), Record(3)]);
            && s.Some? && s.value.rows != [] && s.value.threads == map[]
            && LatestRow(s.value).grade == Refused && LatestRow(s.value).deliveryId in s.value.kept
  {
    var b := TypedThenCrashed(messageId, flowId, outcome);
    var d := Apply(b, Resume);
    var f := Apply(d, NotReached(3, Contract.Unreachable));
    var g := Apply(f, Record(3));
    RunFirst(f, Record(3), []);
    RunFirst(d, NotReached(3, Contract.Unreachable), [Record(3)]);
    RunFirst(b, Resume, [NotReached(3, Contract.Unreachable), Record(3)]);
    assert Run(g, []) == Some(g);
    var more := [Resume, NotReached(3, Contract.Unreachable), Record(3)];
    assert Run(Nothing(messageId, flowId), [OpenAttempt(1), CallFlow(0, Types(outcome), None), Crash] + more) == Run(b, more);
    assert [OpenAttempt(1), CallFlow(0, Types(outcome), None), Crash] + more
           == [OpenAttempt(1), CallFlow(0, Types(outcome), None), Crash, Resume, NotReached(3, Contract.Unreachable), Record(3)];
  }

  /** The first half of it. */
  lemma TypedThenCrashed(messageId: string, flowId: string, outcome: Outcome) returns (s: State)
    ensures s.rows == [Row(0, flowId, DeliveryId(messageId, flowId, 1), Submitted)]
    ensures s.threads == map[] && s.next == 3 && s.kept == map[DeliveryId(messageId, flowId, 1) := outcome]
    ensures s.messageId == messageId && s.flowId == flowId
    ensures forall more ::
              Run(Nothing(messageId, flowId), [OpenAttempt(1), CallFlow(0, Types(outcome), None), Crash] + more) == Run(s, more)
  {
    var start := Nothing(messageId, flowId);
    var a := Apply(start, OpenAttempt(1));
    var b := Apply(a, CallFlow(0, Types(outcome), None));
    s := Apply(b, Crash);
    forall more
      ensures Run(start, [OpenAttempt(1), CallFlow(0, Types(outcome), None), Crash] + more) == Run(s, more)
    {
      RunFirst(b, Crash, more);
      RunFirst(a, CallFlow(0, Types(outcome), None), [Crash] + more);
      RunFirst(start, OpenAttempt(1), [CallFlow(0, Types(outcome), None)] + ([Crash] + more));
      assert [OpenAttempt(1), CallFlow(0, Types(outcome), None), Crash] + more
             == [OpenAttempt(1)] + ([CallFlow(0, Types(outcome), None)] + ([Crash] + more));
    }
  }

  // ----- No recipient is forgotten -----

  predicate Landing(thread: Thread) {
    thread.Watching? || thread.landing
  }

  /** A parked recipient is watched or being landed, and a submitted one being settled. */
  ghost predicate Attended(s: State) {
    s.rows != [] ==>
      && (LatestRow(s).grade.Parked? ==> exists t :: t in s.threads && Landing(s.threads[t]))
      && (LatestRow(s).grade.Submitted? ==> exists t :: t in s.threads && !Landing(s.threads[t]))
  }

  /** The ways to lose a thread before its work is recorded. */
  predicate Loses(e: Event) {
    e.Crash? || e.RecordFails? || e.WatchEnds?
  }

  lemma StepStaysAttended(s: State, e: Event)
    requires Attended(s) && ThreadsUnderTheLatest(s) && Truthful(s) && Enabled(s, e) && !Loses(e)
    ensures Attended(Apply(s, e))
  {
    var after := Apply(s, e);
    if s.rows != [] && LatestRow(s).grade.Parked? {
      var t :| t in s.threads && Landing(s.threads[t]);
      assert after.rows == s.rows ==> t in after.threads && Landing(after.threads[t]);
    }
    if s.rows != [] && LatestRow(s).grade.Submitted? {
      var t :| t in s.threads && !Landing(s.threads[t]);
      assert after.rows == s.rows ==> t in after.threads && !Landing(after.threads[t]);
    }
    match e {
      case Record(t) =>
        assert after.rows != s.rows && LatestRow(after).grade.Parked? ==> t in after.threads && Landing(after.threads[t]);
      case OpenAttempt(_) => assert s.next in after.threads && !Landing(after.threads[s.next]);
      case CallFlow(_, _, _) | NotReached(_, _) | RecordFails(_) | AtRest(_) | WatchEnds(_) | Crash | Resume =>
    }
  }

  /** Until a crash, a store that fails or a watch that ends, a parked recipient is always
  watched or landing, and a submitted one being settled. */
  lemma {:induction false} StaysAttended(s: State, events: seq<Event>)
    requires Attended(s) && UnderTheLatestId(s) && TypedOnce(s) && Truthful(s) && Run(s, events).Some?
    requires forall i | 0 <= i < |events| :: !Loses(events[i])
    ensures Attended(Run(s, events).value)
    decreases |events|
  {
    if events == [] {
    } else {
      var e := events[0];
      StepStaysAttended(s, e);
      StepKeepsNumbers(s, e);
      StepKeepsThreads(s, e);
      StepKeepsTyped(s, e);
      StepKeepsTruth(s, e);
      assert forall i | 0 <= i < |events[1..]| :: events[1..][i] == events[i + 1];
      StaysAttended(Apply(s, e), events[1..]);
    }
  }

  /** And a restart's resume attends to it again, whatever was lost. */
  lemma ResumeAttends(s: State)
    requires Enabled(s, Resume)
    ensures Attended(Apply(s, Resume))
  {
    var t := Apply(s, Resume);
    if LatestRow(s).grade.Parked? || LatestRow(s).grade.Submitted? {
      assert s.next in t.threads;
    }
  }

  lemma RunFirst(s: State, e: Event, more: seq<Event>)
    requires Enabled(s, e)
    ensures Run(s, [e] + more) == Run(Apply(s, e), more)
  {
    assert ([e] + more)[1..] == more;
  }

  // ----- What holds over every run -----

  lemma {:induction false} DistinctWithin(a: seq<string>, b: seq<string>)
    requires forall i, j | 0 <= i < j < |a| :: a[i] != a[j]
    requires forall i | 0 <= i < |a| :: a[i] in b
    ensures |a| <= |b|
    decreases |a|
  {
    if a == [] {
    } else {
      var n := |a| - 1;
      var k :| 0 <= k < |b| && b[k] == a[n];
      var rest := b[..k] + b[k + 1..];
      forall i | 0 <= i < n ensures a[..n][i] in rest {
        var j :| 0 <= j < |b| && b[j] == a[i];
        assert rest[if j < k then j else j - 1] == a[i];
      }
      DistinctWithin(a[..n], rest);
    }
  }

  /** Over any run of settles, watch frames, crashes and resumes, from the message's
  acceptance: every attempt has an id of its own, every Deliver is made under the id
  of the latest attempt, the recipient is typed at most once under each id, so at
  most as often as attempts were opened, even when a crash falls between a Deliver and
  its record; and every recorded outcome is the one Flow kept. */
  lemma TypedAtMostOncePerAttempt(messageId: string, flowId: string, events: seq<Event>)
    requires Run(Nothing(messageId, flowId), events).Some?
    ensures var t := Run(Nothing(messageId, flowId), events).value;
            && (forall i, j | 0 <= i < j < |t.attempts| :: Ids(t)[i] != Ids(t)[j])
            && (forall i | 0 <= i < |t.attempts| ::
                  Ids(t)[i] == DeliveryId(messageId, flowId, t.attempts[i]) && Attempt(Ids(t)[i]) == t.attempts[i])
            && (forall x | x in t.threads && t.threads[x].Delivering? ::
                  t.attempts != [] && t.rows != [] && t.threads[x].id == Ids(t)[|t.attempts| - 1] == LatestRow(t).deliveryId)
            && (forall i, j | 0 <= i < j < |t.typed| :: t.typed[i] != t.typed[j])
            && (forall i | 0 <= i < |t.typed| :: t.typed[i] in Ids(t))
            && |t.typed| <= |t.attempts|
            && (forall i | 0 <= i < |t.rows| && t.rows[i].grade.Kept? ::
                  t.rows[i].deliveryId in t.kept && t.kept[t.rows[i].deliveryId] == t.rows[i].grade.outcome)
  {
    NothingIsSound(messageId, flowId);
    RunKeeps(Nothing(messageId, flowId), events);
    var t := Run(Nothing(messageId, flowId), events).value;
    DistinctWithin(t.typed, Ids(t));
    EachAttemptHasItsId(t);
  }

  lemma NothingIsSound(messageId: string, flowId: string)
    ensures var s := Nothing(messageId, flowId); UnderTheLatestId(s) && TypedOnce(s) && Truthful(s)
  {
  }

  lemma EachAttemptHasItsId(t: State)
    requires UnderTheLatestId(t)
    ensures forall i | 0 <= i < |t.attempts| ::
              Ids(t)[i] == DeliveryId(t.messageId, t.flowId, t.attempts[i]) && Attempt(Ids(t)[i]) == t.attempts[i]
    ensures forall i, j | 0 <= i < j < |t.attempts| :: Ids(t)[i] != Ids(t)[j]
  {
    forall i | 0 <= i < |t.attempts| ensures Attempt(Ids(t)[i]) == t.attempts[i] {
      AttemptRoundTrip(t.messageId, t.flowId, t.attempts[i]);
    }
  }
}
