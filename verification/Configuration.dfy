/** Message's configuration store, the gate on ordinary Configure, and what a running
Nexus keeps of it. */
module Configuration {
  import opened Wrappers

  datatype Config = Config(ordinary: string, meta: string, flow: string)
  datatype Standard = Standard(configuration: Config, metaConfigured: bool)

  const STANDARD_KEY := "standard"

  datatype StoreError = Engine | Unrecognized | StateInvariant

  /** The one Standard row, when the engine reads and the row is there. */
  function StandardIn(rows: map<string, Standard>, engineReads: bool): Result<Standard, StoreError> {
    if !engineReads then Failure(Engine)
    else if STANDARD_KEY in rows then Success(rows[STANDARD_KEY])
    else Failure(StateInvariant)
  }

  /** The store as one read of it finds it. */
  datatype StoreView = StoreView(rows: map<string, Standard>, engineReads: bool)

  /** The Flow socket that read gives. */
  function StoredPath(view: StoreView): Result<string, StoreError> {
    match StandardIn(view.rows, view.engineReads)
    case Success(standard) => Success(standard.configuration.flow)
    case Failure(error) => Failure(error)
  }

  class MessageStore {
    var rows: map<string, Standard>

    constructor (rows: map<string, Standard>)
      ensures this.rows == rows
    {
      this.rows := rows;
    }

    method ReadStandard(engineReads: bool) returns (r: Result<Standard, StoreError>)
      ensures r == StandardIn(rows, engineReads)
    {
      if !engineReads {
        return Failure(Engine);
      }
      r := if STANDARD_KEY in rows then Success(rows[STANDARD_KEY]) else Failure(StateInvariant);
    }

    method ReplaceStandard(standard: Standard, engineWrites: bool) returns (ok: bool)
      modifies this
      ensures ok == engineWrites
      ensures rows == if ok then old(rows)[STANDARD_KEY := standard] else old(rows)
    {
      if engineWrites {
        rows := rows[STANDARD_KEY := standard];
      }
      ok := engineWrites;
    }
  }

  // ----- Configure -----

  datatype ConfigureFailure = AlreadyConfigured | StoreFailure

  /** The Standard a Configure leaves: the new configuration, and closed to ordinary
  Configure once a meta one has been made. */
  function ChangedConfiguration(current: Standard, configuration: Config, meta: bool): (updated: Standard)
    ensures updated.configuration == configuration
    ensures updated.metaConfigured <==> current.metaConfigured || meta
  {
    Standard(configuration, current.metaConfigured || meta)
  }

  /** What a Configure answers, and what the store holds after it. */
  datatype ConfigureEnd = ConfigureEnd(answer: Result<bool, ConfigureFailure>, rows: map<string, Standard>)

  /** A whole Configure at once: refused when ordinary and closed, failed with the store
  as it was when the engine fails, and otherwise committed, the answer saying whether
  the stored configuration changed. */
  function Reconfigure(
      rows: map<string, Standard>, configuration: Config, meta: bool, engineReads: bool, engineWrites: bool): ConfigureEnd
  {
    match StandardIn(rows, engineReads)
    case Failure(_) => ConfigureEnd(Failure(StoreFailure), rows)
    case Success(current) =>
      if !meta && current.metaConfigured then ConfigureEnd(Failure(AlreadyConfigured), rows)
      else if !engineWrites then ConfigureEnd(Failure(StoreFailure), rows)
      else
        ConfigureEnd(
          Success(current.configuration != configuration),
          rows[STANDARD_KEY := ChangedConfiguration(current, configuration, meta)])
  }

  /** The running Nexus: its store behind one lock, and the configuration it opened
  with, which it keeps until it ends. */
  class MessageNexus {
    const store: MessageStore
    const bound: Config

    constructor (store: MessageStore, bound: Config)
      ensures this.store == store && this.bound == bound
    {
      this.store, this.bound := store, bound;
    }

    /** Under the lock. */
    method Configure(configuration: Config, meta: bool, engineReads: bool, engineWrites: bool)
        returns (r: Result<bool, ConfigureFailure>)
      modifies store
      ensures ConfigureEnd(r, store.rows) == Reconfigure(old(store.rows), configuration, meta, engineReads, engineWrites)
    {
      var current := store.ReadStandard(engineReads);
      if current.Failure? {
        return Failure(StoreFailure);
      }
      if !meta && current.value.metaConfigured {
        return Failure(AlreadyConfigured);
      }
      var restartRequired := current.value.configuration != configuration;
      var written := store.ReplaceStandard(ChangedConfiguration(current.value, configuration, meta), engineWrites);
      r := if written then Success(restartRequired) else Failure(StoreFailure);
    }
  }

  // ----- The store file: recognizing and opening it -----

  datatype Registration = Registration(key: string, table: string, family: string, schemaLabel: string)

  /** A Standard row as found in the file; None if its archive does not decode. */
  datatype Row = Row(key: string, standard: Option<Standard>)

  /** A missing table or value is None. */
  datatype StoreFile =
    | Absent
    | Unreadable
    | Present(schemaVersion: Option<nat>, layout: Option<nat>, catalog: Option<seq<Registration>>, standards: Option<seq<Row>>)

  const SCHEMA_VERSION: nat := 2
  const ENGINE_LAYOUT: nat := 7
  const STANDARD_FAMILY := Registration("message_nexus_standard", "message_nexus_standard", "message-nexus-standard", "message-nexus-standard-v2")

  /** A current store: the one family, and exactly one Standard row under its key. */
  predicate IsStandard2(file: StoreFile) {
    && file.Present? && file.schemaVersion == Some(SCHEMA_VERSION) && file.layout == Some(ENGINE_LAYOUT)
    && file.catalog == Some([STANDARD_FAMILY])
    && file.standards.Some? && |file.standards.value| == 1
    && file.standards.value[0].key == STANDARD_KEY && file.standards.value[0].standard.Some?
  }

  /** Inspects an occupant without changing it: only a missing file and a current
  store are taken. */
  method Recognize(file: StoreFile) returns (ok: bool)
    ensures ok <==> file.Absent? || IsStandard2(file)
  {
    if file.Absent? {
      return true;
    }
    if file.Unreadable? || file.schemaVersion != Some(SCHEMA_VERSION) || file.layout != Some(ENGINE_LAYOUT) || file.catalog.None? {
      return false;
    }
    var catalog := file.catalog.value;
    var count := 0;
    while count < |catalog|
      invariant 0 <= count <= |catalog|
      invariant forall i | 0 <= i < count :: catalog[i] == STANDARD_FAMILY
    {
      if catalog[count] != STANDARD_FAMILY {
        return false;
      }
      count := count + 1;
    }
    if count != 1 {
      return false;
    }
    assert catalog == [STANDARD_FAMILY];
    if file.standards.None? {
      return false;
    }
    var rows := file.standards.value;
    count := 0;
    while count < |rows|
      invariant 0 <= count <= |rows|
      invariant forall i | 0 <= i < count :: rows[i].key == STANDARD_KEY && rows[i].standard.Some?
    {
      if rows[count].key != STANDARD_KEY || rows[count].standard.None? {
        return false;
      }
      count := count + 1;
    }
    ok := count == 1;
  }

  /** How far an open gets before the process dies; `Completes` if it does not. */
  datatype Progress = BeforeCreate | AfterCreate | AfterRegister | Completes

  class Disk {
    var file: StoreFile

    /** Opens the store, seeding it only when it holds no Standard row. */
    method OpenStore(seed: Standard, progress: Progress) returns (ok: bool)
      modifies this
      ensures ok <==> progress.Completes? && (old(file).Absent? || IsStandard2(old(file)))
      ensures file == OpenedFile(old(file), seed, progress)
    {
      var recognized := Recognize(file);
      if !recognized || progress.BeforeCreate? {
        return false;
      }
      if file.Absent? {
        file := Present(Some(SCHEMA_VERSION), Some(ENGINE_LAYOUT), Some([]), None);
      }
      if progress.AfterCreate? {
        return false;
      }
      if file.catalog == Some([]) {
        file := file.(catalog := Some([STANDARD_FAMILY]), standards := Some([]));
      }
      if progress.AfterRegister? {
        return false;
      }
      if file.standards == Some([]) {
        file := file.(standards := Some([Row(STANDARD_KEY, Some(seed))]));
      }
      ok := true;
    }
  }

  /** What an open that got this far leaves: an occupant as it was, or a new file up to
  that point. */
  function OpenedFile(file: StoreFile, seed: Standard, progress: Progress): StoreFile {
    if !file.Absent? then file
    else match progress
         case BeforeCreate => Absent
         case AfterCreate => Present(Some(SCHEMA_VERSION), Some(ENGINE_LAYOUT), Some([]), None)
         case AfterRegister => Present(Some(SCHEMA_VERSION), Some(ENGINE_LAYOUT), Some([STANDARD_FAMILY]), Some([]))
         case Completes => Present(Some(SCHEMA_VERSION), Some(ENGINE_LAYOUT), Some([STANDARD_FAMILY]), Some([Row(STANDARD_KEY, Some(seed))]))
  }

  /** A file is recognized exactly when it is missing or a completed open left it so. */
  lemma RecognizedExactly(file: StoreFile)
    ensures IsStandard2(file) <==> exists seed :: file == OpenedFile(Absent, seed, Completes)
  {
    if IsStandard2(file) {
      var row := file.standards.value[0];
      assert file.standards.value == [row];
      assert file == OpenedFile(Absent, row.standard.value, Completes);
    }
  }

  /** Every file of opens that were interrupted anywhere, in turn. */
  function AfterOpens(file: StoreFile, opens: seq<(Standard, Progress)>): StoreFile
    decreases |opens|
  {
    if opens == [] then file
    else AfterOpens(if file.Absent? || IsStandard2(file) then OpenedFile(file, opens[0].0, opens[0].1) else file, opens[1..])
  }

  /** From a missing file, after any sequence of interrupted opens, the store can be
  opened exactly when the first open to create the file also completed; then its
  Standard is that open's seed for good. An open that died between creating the file
  and seeding it leaves one that is refused ever after. */
  lemma {:induction false} InterruptedOpens(opens: seq<(Standard, Progress)>)
    ensures var file := AfterOpens(Absent, opens);
            var first := FirstCreating(opens);
            && (file.Absent? || IsStandard2(file) <==> first.None? || first.value.1.Completes?)
            && (first.None? <==> file.Absent?)
            && (first.Some? && first.value.1.Completes? ==>
                  IsStandard2(file) && file.standards.value[0].standard == Some(first.value.0))
    decreases |opens|
  {
    if opens == [] {
    } else {
      if opens[0].1.BeforeCreate? {
        InterruptedOpens(opens[1..]);
      } else {
        var created := OpenedFile(Absent, opens[0].0, opens[0].1);
        OccupantStays(created, opens[1..]);
      }
    }
  }

  /** The first open that created the file. */
  function FirstCreating(opens: seq<(Standard, Progress)>): Option<(Standard, Progress)>
    decreases |opens|
  {
    if opens == [] then None
    else if opens[0].1.BeforeCreate? then FirstCreating(opens[1..])
    else Some(opens[0])
  }

  lemma {:induction false} OccupantStays(file: StoreFile, opens: seq<(Standard, Progress)>)
    requires !file.Absent?
    ensures AfterOpens(file, opens) == file
    decreases |opens|
  {
    if opens == [] {
    } else {
      OccupantStays(file, opens[1..]);
    }
  }

  /** The rows a current store holds. */
  function RowsOf(file: StoreFile): map<string, Standard>
    requires IsStandard2(file)
  {
    map[file.standards.value[0].key := file.standards.value[0].standard.value]
  }

  /** A committed Standard is the one every later open finds, whatever its seed and
  wherever it is interrupted, and the one a read of it gives. */
  lemma ReplacedIsFoundAgain(file: StoreFile, standard: Standard, opens: seq<(Standard, Progress)>)
    requires IsStandard2(file)
    ensures var replaced := file.(standards := Some([Row(STANDARD_KEY, Some(standard))]));
            var found := AfterOpens(replaced, opens);
            && IsStandard2(found)
            && RowsOf(found) == RowsOf(file)[STANDARD_KEY := standard]
            && StandardIn(RowsOf(found), true) == Success(standard)
  {
    OccupantStays(file.(standards := Some([Row(STANDARD_KEY, Some(standard))])), opens);
  }
}
