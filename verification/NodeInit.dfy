/** Node initialisation: the init-file that mysqld runs at every start and the node controller share the
    operator's status table, and interleave statement by statement. */
module NodeInit {
  import opened Common

  /** The statements of the init-file; only those with a name touch the state of the model. */
  datatype Stmt =
    | Statement(sql: string)
    | DropStatus
    | CreateStatus
    | ConfiguredPending
    | SetBackup(gtid: string)
    | ResetReplication
    | Complete

  datatype Config = Config(users: seq<string>, cloneFromBucket: bool, extra: seq<string>)

  /** The rows of the status table; a missing row reads as the empty value. */
  datatype Table = Table(configured: bool, complete: bool, backup: string, setGtid: string)

  datatype Db = Db(table: Option<Table>, source: Option<string>, purged: Option<string>)

  /** Where the node controller is: the statement it sends next. `master` is the master host it read. */
  datatype Phase =
    | Idle
    | WaitComplete
    | WaitConfigured
    | Refresh
    | CheckConfigured(master: string, skip: bool)
    | DisableReadOnly(master: string, skip: bool)
    | MarkSkipped(master: string)
    | ReadSet(master: string)
    | ReadBackup(master: string)
    | TxSelect(master: string)
    | TxReset(master: string, found: Option<string>)
    | TxPurge(master: string, found: Option<string>)
    | TxRecord(master: string, gtid: string)
    | ChangeSource(master: string)
    | StartReplication(master: string)
    | MarkDone(master: string)

  /** What the refreshed cluster says. */
  datatype View = View(master: string, failover: bool, skip: bool)

  /** `gtid` is the content of the backup's GTID file, `file` the init-file of the current pod, `pc` the
      number of its statements that ran since mysqld started, `reading` whether the last cluster read asks to skip
      the GTID, and `markedFor` and `markedSkip` what the reconcile read that last set configured. */
  datatype World = World(host: string, gtid: string, file: seq<Stmt>, pc: nat, db: Db, rec: Phase,
                         reading: bool, markedFor: Option<string>, markedSkip: bool)

  datatype Event =
    | InitStep
    | ContainerRestart
    | PodRestart(config: Config)
    | RecStart
    | RecStep(view: View)
    | RecFail

  const SKIPPED := "skipped"

  /* ---- the init-file ---- */

  predicate Space(c: char) {
    c in {' ', '\t', '\n', '\r', '\U{000B}', '\U{000C}', '\U{0085}', '\U{00A0}'}
  }

  predicate Blank(s: string) {
    forall c :: c in s ==> Space(c)
  }

  /** The statements of `sql` in order, without the blank ones when `trimmed`. */
  function Statements(sql: seq<string>, trimmed: bool): seq<Stmt> {
    if sql == [] then []
    else
      var last := sql[|sql| - 1];
      Statements(sql[..|sql| - 1], trimmed) + (if trimmed && Blank(last) then [] else [Statement(last)])
  }

  function Opening(ibdMissing: bool): seq<Stmt> {
    [Statement("SET @@SESSION.SQL_LOG_BIN = 0"), Statement("CREATE DATABASE IF NOT EXISTS sys_operator")]
    + (if ibdMissing then [DropStatus] else [])
  }

  function Accounts(users: seq<string>): seq<Stmt> {
    [ConfiguredPending, Statement("SET GLOBAL READ_ONLY = 1")] + Statements(users, false)
  }

  function FromBackup(config: Config, gtid: string): seq<Stmt> {
    (if gtid != "" then [SetBackup(gtid)] else []) + (if config.cloneFromBucket then [ResetReplication] else [])
  }

  function Setup(config: Config, gtid: string): seq<Stmt> {
    Accounts(config.users) + FromBackup(config, gtid) + Statements(config.extra, true)
  }

  function InitFile(config: Config, ibdMissing: bool, gtid: string): seq<Stmt> {
    Opening(ibdMissing) + [CreateStatus] + Setup(config, gtid) + [Complete]
  }

  /** The statements in the order they are appended. */
  method InitFileQuery(config: Config, ibdMissing: bool, gtid: string) returns (queries: seq<Stmt>)
    ensures queries == InitFile(config, ibdMissing, gtid)
  {
    queries := [Statement("SET @@SESSION.SQL_LOG_BIN = 0")];
    queries := queries + [Statement("CREATE DATABASE IF NOT EXISTS sys_operator")];
    if ibdMissing { queries := queries + [DropStatus]; }
    queries := queries + [CreateStatus];
    queries := AppendSetup(queries, config, gtid);
    queries := queries + [Complete];
  }

  method AppendSetup(head: seq<Stmt>, config: Config, gtid: string) returns (queries: seq<Stmt>)
    ensures queries == head + Setup(config, gtid)
  {
    queries := head + [ConfiguredPending];
    queries := queries + [Statement("SET GLOBAL READ_ONLY = 1")];
    queries := AppendStatements(queries, config.users, false);
    ghost var accounts := Accounts(config.users);
    assert queries == head + accounts;
    queries := AppendFromBackup(queries, config, gtid);
    ghost var backup := FromBackup(config, gtid);
    queries := AppendStatements(queries, config.extra, true);
    Associative(head, accounts, backup, Statements(config.extra, true));
  }

  method AppendFromBackup(head: seq<Stmt>, config: Config, gtid: string) returns (queries: seq<Stmt>)
    ensures queries == head + FromBackup(config, gtid)
  {
    queries := head;
    if gtid != "" { queries := queries + [SetBackup(gtid)]; }
    if config.cloneFromBucket { queries := queries + [ResetReplication]; }
  }

  lemma Associative(a: seq<Stmt>, b: seq<Stmt>, c: seq<Stmt>, d: seq<Stmt>)
    ensures ((a + b) + c) + d == a + (b + c + d)
  {
  }

  method AppendStatements(queries: seq<Stmt>, sql: seq<string>, trimmed: bool) returns (r: seq<Stmt>)
    ensures r == queries + Statements(sql, trimmed)
  {
    r := queries;
    for k := 0 to |sql|
      invariant r == queries + Statements(sql[..k], trimmed)
    {
      assert sql[..k + 1][..k] == sql[..k];
      if !trimmed || !Blank(sql[k]) { r := r + [Statement(sql[k])]; }
    }
    assert sql[..|sql|] == sql;
  }

  predicate NeedsTable(s: Stmt) { s == ConfiguredPending || s.SetBackup? || s == Complete }

  /** The order in the init-file that the node controller relies on: the table is dropped only before it
      is created, every write comes after, pending is written, so is the backup GTID when there is one, and the
      completion marker is the last statement and only the last. */
  ghost predicate CreatedAt(file: seq<Stmt>, gtid: string, c: nat) {
    && c < |file| - 1 && file[c] == CreateStatus && ConfiguredPending in file[..|file| - 1]
    && (forall i :: 0 <= i < c ==> !NeedsTable(file[i]) && file[i] != CreateStatus)
    && (forall i :: c < i < |file| ==> file[i] != DropStatus && file[i] != CreateStatus)
    && (forall i :: 0 <= i < |file| ==> (file[i] == Complete <==> i == |file| - 1))
    && (forall s :: s in file && s.SetBackup? ==> s.gtid == gtid && gtid != "")
    && (gtid != "" ==> SetBackup(gtid) in file[c + 1..])
  }

  ghost predicate GoodFile(file: seq<Stmt>, gtid: string) {
    exists c: nat :: CreatedAt(file, gtid, c)
  }

  lemma {:induction false} StatementsOnly(sql: seq<string>, trimmed: bool, s: Stmt)
    requires s in Statements(sql, trimmed)
    ensures s.Statement?
  {
    if s in Statements(sql[..|sql| - 1], trimmed) { StatementsOnly(sql[..|sql| - 1], trimmed, s); }
  }

  lemma SetupMembers(config: Config, gtid: string, s: Stmt)
    ensures s in Setup(config, gtid) && !s.Statement? <==>
            || s == ConfiguredPending
            || (s == SetBackup(gtid) && gtid != "")
            || (s == ResetReplication && config.cloneFromBucket)
  {
    if s in Statements(config.users, false) { StatementsOnly(config.users, false, s); }
    if s in Statements(config.extra, true) { StatementsOnly(config.extra, true, s); }
    assert s in FromBackup(config, gtid) <==>
           (s == SetBackup(gtid) && gtid != "") || (s == ResetReplication && config.cloneFromBucket);
    var opening := [ConfiguredPending, Statement("SET GLOBAL READ_ONLY = 1")];
    assert s in opening <==> s == ConfiguredPending || s == opening[1];
  }

  /** A file that opens without the table, creates it, sets things up and ends with the marker. */
  lemma ShapeIsGood(opening: seq<Stmt>, setup: seq<Stmt>, gtid: string)
    requires forall s :: s in opening ==> s.Statement? || s == DropStatus
    requires forall s :: s in setup ==>
               s.Statement? || s == ConfiguredPending || (s == SetBackup(gtid) && gtid != "") || s == ResetReplication
    requires ConfiguredPending in setup && (gtid != "" ==> SetBackup(gtid) in setup)
    ensures GoodFile(opening + [CreateStatus] + setup + [Complete], gtid)
  {
    var file := opening + [CreateStatus] + setup + [Complete];
    var c := |opening|;
    assert forall i :: 0 <= i < c ==> file[i] == opening[i] && file[i] in opening;
    assert forall i :: c < i < |file| - 1 ==> file[i] == setup[i - c - 1] && file[i] in setup;
    assert file[c + 1..] == setup + [Complete];
    assert file[..|file| - 1] == opening + [CreateStatus] + setup;
    assert CreatedAt(file, gtid, c);
  }

  lemma OpeningMembers(ibdMissing: bool, s: Stmt)
    ensures s in Opening(ibdMissing) && !s.Statement? <==> s == DropStatus && ibdMissing
  {
    var first := [Statement("SET @@SESSION.SQL_LOG_BIN = 0"), Statement("CREATE DATABASE IF NOT EXISTS sys_operator")];
    assert s in first ==> s == first[0] || s == first[1];
  }

  lemma MembersOfInitFile(config: Config, ibdMissing: bool, gtid: string, s: Stmt)
    requires !s.Statement?
    ensures s in Opening(ibdMissing) <==> s == DropStatus && ibdMissing
    ensures s in Setup(config, gtid) <==>
            || s == ConfiguredPending
            || (s == SetBackup(gtid) && gtid != "")
            || (s == ResetReplication && config.cloneFromBucket)
    ensures s in InitFile(config, ibdMissing, gtid) <==>
            s in Opening(ibdMissing) || s == CreateStatus || s in Setup(config, gtid) || s == Complete
  {
    OpeningMembers(ibdMissing, s);
    SetupMembers(config, gtid, s);
  }

  lemma InitFileShape(config: Config, ibdMissing: bool, gtid: string)
    ensures GoodFile(InitFile(config, ibdMissing, gtid), gtid)
  {
    var opening, setup := Opening(ibdMissing), Setup(config, gtid);
    forall s: Stmt | s in opening ensures s.Statement? || s == DropStatus { OpeningMembers(ibdMissing, s); }
    forall s: Stmt | s in setup
      ensures s.Statement? || s == ConfiguredPending || (s == SetBackup(gtid) && gtid != "") || s == ResetReplication
    {
      SetupMembers(config, gtid, s);
    }
    SetupMembers(config, gtid, ConfiguredPending);
    SetupMembers(config, gtid, SetBackup(gtid));
    ShapeIsGood(opening, setup, gtid);
  }

  /** The file has the order that is relied on; it drops the table exactly when the table's file was missing, and
      resets replication exactly when the data is cloned from a bucket. */
  lemma InitFileIsGood(config: Config, ibdMissing: bool, gtid: string)
    ensures var file := InitFile(config, ibdMissing, gtid);
            && GoodFile(file, gtid)
            && (DropStatus in file <==> ibdMissing)
            && (ResetReplication in file <==> config.cloneFromBucket)
  {
    InitFileShape(config, ibdMissing, gtid);
    MembersOfInitFile(config, ibdMissing, gtid, DropStatus);
    MembersOfInitFile(config, ibdMissing, gtid, ResetReplication);
  }

  /* ---- the steps ---- */

  /** One statement of the init-file; a statement on a missing table fails, and the file goes no further. */
  function InitStepped(w: World): World {
    if w.pc >= |w.file| then w
    else
      var s := w.file[w.pc];
      if NeedsTable(s) && w.db.table.None? then w.(pc := |w.file|)
      else w.(pc := w.pc + 1, db := Executed(w.db, s))
  }

  function Executed(db: Db, s: Stmt): Db
    requires NeedsTable(s) ==> db.table.Some?
  {
    match s
    case Statement(_) => db
    case DropStatus => db.(table := None)
    case CreateStatus => if db.table.None? then db.(table := Some(Table(false, false, "", ""))) else db
    case ConfiguredPending => db.(table := Some(db.table.value.(configured := false)))
    case SetBackup(gtid) => db.(table := Some(db.table.value.(backup := gtid)))
    case ResetReplication => db.(source := None)
    case Complete => db.(table := Some(db.table.value.(complete := true)))
  }

  /** What is left to do once the GTID is dealt with. */
  function AfterGtid(host: string, master: string): Phase {
    if master == host then MarkDone(master) else ChangeSource(master)
  }

  /** One statement of the node controller, which succeeds unless it needs the missing status table. */
  function RecStepped(host: string, db: Db, rec: Phase, view: View): (Db, Phase) {
    match rec
    case Idle => (db, Idle)
    case WaitComplete => 
      (db, if db.table.None? then WaitComplete
           else if db.table.value.complete then Refresh
           else WaitConfigured)
    case WaitConfigured => (db, if db.table.Some? && db.table.value.configured then Refresh else WaitComplete)
    case Refresh => (db, if view.failover then Idle else CheckConfigured(view.master, view.skip))
    case CheckConfigured(master, skip) =>
      (db, if db.table.None? || db.table.value.configured then Idle else DisableReadOnly(master, skip))
    case DisableReadOnly(master, skip) => (db, if skip then MarkSkipped(master) else ReadSet(master))
    case MarkSkipped(master) =>
      if db.table.None? then (db, Idle) else (db.(table := Some(db.table.value.(setGtid := SKIPPED))), ReadSet(master))
    case ReadSet(master) =>
      (db, if db.table.None? then Idle
           else if db.table.value.setGtid != "" then AfterGtid(host, master)
           else ReadBackup(master))
    case ReadBackup(master) =>
      (db, if db.table.None? then Idle
           else if db.table.value.backup == "" then AfterGtid(host, master)
           else TxSelect(master))
    case TxSelect(master) =>
      (db, if db.table.None? then Idle
           else TxReset(master, if db.table.value.backup == "" then None else Some(db.table.value.backup)))
    case TxReset(master, found) => (db.(purged := None), TxPurge(master, found))
    case TxPurge(master, found) =>
      if found.None? then (db, Idle) else (db.(purged := found), TxRecord(master, found.value))
    case TxRecord(master, gtid) =>
      if db.table.None? then (db, Idle)
      else (db.(table := Some(db.table.value.(setGtid := gtid))), AfterGtid(host, master))
    case ChangeSource(master) => (db.(source := Some(master)), StartReplication(master))
    case StartReplication(master) => (db, MarkDone(master))
    case MarkDone(master) =>
      if db.table.None? then (db, Idle) else (db.(table := Some(db.table.value.(configured := true))), Idle)
  }

  /** A restart of mysqld cuts the connection on which the GTID transaction runs; the other statements are sent
      each on a connection of their own, so the reconcile goes on. */
  function Disconnected(rec: Phase): Phase {
    if rec.TxReset? || rec.TxPurge? || rec.TxRecord? then Idle else rec
  }

  function Step(w: World, e: Event): World {
    match e
    case InitStep => InitStepped(w)
    case ContainerRestart => w.(pc := 0, rec := Disconnected(w.rec))
    case PodRestart(config) =>
      w.(pc := 0, rec := Disconnected(w.rec),
         file := InitFile(config.(cloneFromBucket := false), w.db.table.None?, w.gtid))
    case RecStart => if w.rec.Idle? then w.(rec := WaitComplete) else w
    case RecFail => w.(rec := Idle)
    case RecStep(view) =>
      var (db, rec) := RecStepped(w.host, w.db, w.rec, view);
      var marks := w.rec.MarkDone? && w.db.table.Some?;
      w.(db := db, rec := rec, reading := if w.rec.Refresh? then view.skip else w.reading,
         markedFor := if marks then Some(w.rec.master) else w.markedFor,
         markedSkip := if marks then w.reading else w.markedSkip)
  }

  function After(w: World, run: seq<Event>): World {
    if run == [] then w else Step(After(w, run[..|run| - 1]), run[|run| - 1])
  }

  /** The first start of a node: no status table yet; whatever replication source and purged GTIDs came
      with the data. */
  function Fresh(host: string, gtid: string, config: Config, source: Option<string>, purged: Option<string>): World {
    World(host, gtid, InitFile(config, true, gtid), 0, Db(None, source, purged), Idle, false, None, false)
  }

  /* ---- what configured promises ---- */

  predicate Settled(w: World)
    requires w.db.table.Some?
  {
    || w.gtid == ""
    || w.db.table.value.setGtid == SKIPPED
    || (w.db.table.value.setGtid == w.gtid && w.db.purged == Some(w.gtid))
  }

  predicate PointedAt(w: World, master: string) {
    master == w.host || w.db.source == Some(master)
  }

  predicate Configured(w: World) {
    w.db.table.Some? && w.db.table.value.configured
  }

  /** A configured node ran its init-file to the end, its GTID is settled, and it is the master that was read by
      the reconcile that configured it or replicates from it. */
  predicate Safe(w: World) {
    Configured(w) ==>
      w.db.table.value.complete && Settled(w) && w.markedFor.Some? && PointedAt(w, w.markedFor.value)
  }

  /** Replaying the current init-file would drop the status table or reset replication. */
  predicate HarmfulFile(w: World) {
    DropStatus in w.file || ResetReplication in w.file
  }

  predicate Harmless(w: World, e: Event) {
    e == ContainerRestart ==> !HarmfulFile(w)
  }

  ghost predicate HarmlessAt(w: World, run: seq<Event>, i: nat)
    requires i < |run|
  {
    Harmless(After(w, run[..i]), run[i])
  }

  predicate Underway(w: World) {
    w.db.table.Some? && w.db.table.value.complete && !w.db.table.value.configured
  }

  /** What holds between two statements of the node controller. */
  predicate PhaseHolds(w: World) {
    match w.rec
    case Idle => true
    case WaitComplete => true
    case WaitConfigured => true
    case Refresh => w.db.table.Some? && w.db.table.value.complete
    case CheckConfigured(_, _) => w.db.table.Some? && w.db.table.value.complete
    case DisableReadOnly(_, _) => Underway(w)
    case MarkSkipped(_) => Underway(w)
    case ReadSet(_) => Underway(w)
    case ReadBackup(_) => Underway(w) && w.db.table.value.setGtid == ""
    case TxSelect(_) => Underway(w) && w.db.table.value.backup != "" && w.db.table.value.setGtid == ""
    case TxReset(_, found) => Underway(w) && w.db.table.value.setGtid == "" && found == Some(w.gtid)
    case TxPurge(_, found) => Underway(w) && w.db.table.value.setGtid == "" && found == Some(w.gtid)
    case TxRecord(_, gtid) =>
      Underway(w) && w.db.table.value.setGtid == "" && gtid == w.gtid && w.db.purged == Some(gtid)
    case ChangeSource(_) => Underway(w) && Settled(w)
    case StartReplication(master) => Underway(w) && Settled(w) && PointedAt(w, master)
    case MarkDone(master) => Underway(w) && Settled(w) && PointedAt(w, master)
  }

  /** What holds between the status table and the init-file: a file that does not drop the table found it there. */
  ghost predicate FileHolds(w: World) {
    && w.pc <= |w.file| && GoodFile(w.file, w.gtid)
    && (DropStatus !in w.file ==> w.db.table.Some?)
    && (DropStatus in w.file[w.pc..] ==> w.db.table.None?)
    && (ResetReplication in w.file[w.pc..] ==> w.db.table.None? || !w.db.table.value.complete)
    && (w.db.table.Some? && w.db.table.value.backup != w.gtid ==>
          SetBackup(w.gtid) in w.file[w.pc..])
  }

  /** What holds between the rows of the status table. */
  predicate TableHolds(w: World) {
    w.db.table.Some? ==>
      && (w.db.table.value.setGtid != "" ==> Settled(w))
      && (w.db.table.value.complete ==> w.db.table.value.backup == w.gtid)
  }

  ghost predicate Holds(w: World) {
    Safe(w) && PhaseHolds(w) && TableHolds(w) && FileHolds(w)
  }

  lemma FreshHolds(host: string, gtid: string, config: Config, source: Option<string>, purged: Option<string>)
    ensures Holds(Fresh(host, gtid, config, source, purged))
  {
    InitFileIsGood(config, true, gtid);
  }

  /** The statement that is next is not among those ahead of it, and stands where the file has it. */
  lemma NextStatement(w: World)
    requires FileHolds(w) && w.pc < |w.file|
    ensures var s, rest := w.file[w.pc], w.file[w.pc + 1..];
            && w.file[w.pc..] == [s] + rest
            && (s == CreateStatus ==> DropStatus !in rest && (w.gtid != "" ==> SetBackup(w.gtid) in rest))
            && (s == Complete ==> rest == [])
            && (s.SetBackup? ==> s.gtid == w.gtid)
  {
    var s, rest := w.file[w.pc], w.file[w.pc + 1..];
    var c: nat :| CreatedAt(w.file, w.gtid, c);
    if s == CreateStatus {
      assert w.pc == c;
      assert forall i :: 0 <= i < |rest| ==> rest[i] == w.file[w.pc + 1 + i];
    }
  }

  /** Where the first table is created, or the backup's GTID is missing, the file has it. */
  lemma BackupIsInFile(w: World)
    requires GoodFile(w.file, w.gtid) && w.gtid != ""
    ensures SetBackup(w.gtid) in w.file
  {
    var c: nat :| CreatedAt(w.file, w.gtid, c);
  }

  lemma InitStepHolds(w: World)
    requires Holds(w)
    ensures Holds(InitStepped(w))
  {
    if w.pc < |w.file| {
      NextStatement(w);
      InitStepKept(w, w.file[w.pc], w.file[w.pc + 1..]);
    }
  }

  lemma InitStepKept(w: World, s: Stmt, rest: seq<Stmt>)
    requires Holds(w) && w.pc < |w.file| && s == w.file[w.pc] && rest == w.file[w.pc + 1..]
    requires w.file[w.pc..] == [s] + rest
    requires s == CreateStatus ==> DropStatus !in rest && (w.gtid != "" ==> SetBackup(w.gtid) in rest)
    requires s == Complete ==> rest == []
    requires s.SetBackup? ==> s.gtid == w.gtid
    ensures Holds(InitStepped(w))
  {
    hide GoodFile;
    assert DropStatus in w.file[w.pc..] ==> w.db.table.None?;
    if s == DropStatus { assert s in w.file[w.pc..]; }
    if s == ResetReplication { assert s in w.file[w.pc..]; }
    if s == Complete { assert SetBackup(w.gtid) !in w.file[w.pc..]; }
    InitStepRows(w, s);
    InitStepAhead(w, s, rest);
  }

  /** A statement that finds what it relies on keeps what holds between the rows and the reconcile. */
  lemma InitStepRows(w: World, s: Stmt)
    requires Safe(w) && PhaseHolds(w) && TableHolds(w) && w.pc < |w.file| && s == w.file[w.pc]
    requires s == DropStatus ==> w.db.table.None?
    requires s == ResetReplication ==> w.db.table.None? || !w.db.table.value.complete
    requires s == Complete && w.db.table.Some? ==> w.db.table.value.backup == w.gtid
    requires s.SetBackup? ==> s.gtid == w.gtid
    ensures var v := InitStepped(w); Safe(v) && PhaseHolds(v) && TableHolds(v)
  {
  }

  /** It also keeps what holds of the rest of the file. */
  lemma InitStepAhead(w: World, s: Stmt, rest: seq<Stmt>)
    requires FileHolds(w) && w.pc < |w.file| && s == w.file[w.pc] && rest == w.file[w.pc + 1..]
    requires w.file[w.pc..] == [s] + rest
    requires s == CreateStatus ==> DropStatus !in rest && (w.gtid != "" ==> SetBackup(w.gtid) in rest)
    requires s == Complete ==> rest == []
    requires s.SetBackup? ==> s.gtid == w.gtid
    ensures FileHolds(InitStepped(w))
  {
    hide GoodFile;
    assert s in w.file;
  }

  lemma RecStepTable(w: World, view: View)
    requires Safe(w) && PhaseHolds(w) && TableHolds(w)
    ensures var v := Step(w, RecStep(view)); Safe(v) && PhaseHolds(v) && TableHolds(v)
  {
  }

  /** The node controller does not touch what the init-file is about. */
  lemma RecStepFile(w: World, view: View)
    ensures var v := Step(w, RecStep(view));
            && v.file == w.file && v.pc == w.pc && v.gtid == w.gtid && (v.db.table.Some? <==> w.db.table.Some?)
            && (w.db.table.Some? ==> v.db.table.value.complete == w.db.table.value.complete
                                     && v.db.table.value.backup == w.db.table.value.backup)
  {
  }

  lemma RecStepHolds(w: World, view: View)
    requires Holds(w)
    ensures Holds(Step(w, RecStep(view)))
  {
    RecStepTable(w, view);
    RecStepFile(w, view);
    assert FileHolds(Step(w, RecStep(view)));
  }

  /** Without a backup's GTID none is recorded. */
  lemma NoBackup(w: World)
    requires FileHolds(w) && w.gtid == ""
    ensures w.db.table.Some? ==> w.db.table.value.backup == ""
  {
    var c: nat :| CreatedAt(w.file, w.gtid, c);
    assert SetBackup("") !in w.file;
  }

  /** A restart in front of a good file: what was ahead in the old file is ahead again. */
  lemma FromTheTop(w: World, file: seq<Stmt>)
    requires Holds(w) && GoodFile(file, w.gtid) && ResetReplication !in file
    requires DropStatus in file <==> w.db.table.None?
    ensures Holds(w.(pc := 0, rec := Disconnected(w.rec), file := file))
  {
    assert file[0..] == file;
    if w.gtid != "" {
      BackupIsInFile(w.(file := file));
    } else {
      NoBackup(w);
    }
  }

  lemma RestartHolds(w: World, e: Event)
    requires Holds(w) && (e.ContainerRestart? || e.PodRestart?) && Harmless(w, e)
    ensures Holds(Step(w, e))
  {
    if e.PodRestart? { InitFileIsGood(e.config.(cloneFromBucket := false), w.db.table.None?, w.gtid); }
    FromTheTop(w, Step(w, e).file);
  }

  lemma StepHolds(w: World, e: Event)
    requires Holds(w) && Harmless(w, e)
    ensures Holds(Step(w, e))
  {
    match e
    case InitStep => InitStepHolds(w);
    case RecStep(view) => RecStepHolds(w, view);
    case ContainerRestart => RestartHolds(w, e);
    case PodRestart(_) => RestartHolds(w, e);
    case RecStart =>
    case RecFail =>
  }

  /** Over every interleaving of init-file statements, restarts and reconciles that may stop anywhere, in which
      no container restart replays a file that drops the table or resets replication. */
  lemma {:induction false} RunHolds(w: World, run: seq<Event>)
    requires Holds(w) && forall i :: 0 <= i < |run| ==> HarmlessAt(w, run, i)
    ensures Holds(After(w, run))
  {
    if run != [] {
      var prefix := run[..|run| - 1];
      forall i | 0 <= i < |prefix| ensures HarmlessAt(w, prefix, i) {
        assert HarmlessAt(w, run, i) && prefix[..i] == run[..i];
      }
      RunHolds(w, prefix);
      assert HarmlessAt(w, run, |run| - 1);
      StepHolds(After(w, prefix), run[|run| - 1]);
    }
  }

  ghost predicate SafeThroughout(w: World, run: seq<Event>) {
    forall i :: 0 <= i <= |run| ==> Safe(After(w, run[..i]))
  }

  /** Such a run is safe at every moment. */
  lemma RunIsSafe(w: World, run: seq<Event>)
    requires Holds(w) && forall i :: 0 <= i < |run| ==> HarmlessAt(w, run, i)
    ensures SafeThroughout(w, run)
  {
    forall i | 0 <= i <= |run| ensures Safe(After(w, run[..i])) {
      var prefix := run[..i];
      forall j | 0 <= j < |prefix| ensures HarmlessAt(w, prefix, j) {
        assert HarmlessAt(w, run, j) && prefix[..j] == run[..j];
      }
      RunHolds(w, prefix);
    }
  }

  /** From the first start of a node on. */
  lemma FreshRunIsSafe(host: string, gtid: string, config: Config, source: Option<string>, purged: Option<string>,
                       run: seq<Event>)
    requires forall i :: 0 <= i < |run| ==> HarmlessAt(Fresh(host, gtid, config, source, purged), run, i)
    ensures SafeThroughout(Fresh(host, gtid, config, source, purged), run)
  {
    FreshHolds(host, gtid, config, source, purged);
    RunIsSafe(Fresh(host, gtid, config, source, purged), run);
  }

  /* ---- replaying a harmful file breaks the promise ---- */

  function Repeat(e: Event, n: nat): seq<Event> {
    if n == 0 then [] else Repeat(e, n - 1) + [e]
  }

  lemma RepeatStep(w: World, e: Event, n: nat)
    ensures After(w, Repeat(e, n + 1)) == Step(After(w, Repeat(e, n)), e)
  {
    assert Repeat(e, n + 1)[..|Repeat(e, n + 1)| - 1] == Repeat(e, n);
  }

  lemma {:induction false} AfterConcat(w: World, a: seq<Event>, b: seq<Event>)
    ensures After(w, a + b) == After(After(w, a), b)
  {
    if b == [] {
      assert a + b == a;
    } else {
      assert (a + b)[..|a + b| - 1] == a + b[..|b| - 1];
      AfterConcat(w, a, b[..|b| - 1]);
    }
  }

  /** The first `k` statements of a replayed file have run. */
  ghost predicate Replayed(w: World, v: World, k: nat, c: nat)
    requires k <= |w.file|
  {
    && v == w.(pc := k, db := v.db)
    && (k > c ==> v.db.table.Some?)
    && (ConfiguredPending in w.file[..k] ==> !Configured(v))
    && (k == |w.file| ==> v.db.table.Some? && v.db.table.value.complete)
    && (DropStatus in w.file[..k] && k < |w.file| ==> v.db.table.None? || !v.db.table.value.complete)
    && (ResetReplication in w.file[..k] ==> v.db.source.None?)
  }

  /** What the position of a statement says about it. */
  lemma AtPosition(file: seq<Stmt>, gtid: string, c: nat, k: nat)
    requires CreatedAt(file, gtid, c) && k < |file|
    ensures (NeedsTable(file[k]) ==> k > c) && (k == c ==> file[k] == CreateStatus) && (k > c ==> file[k] != DropStatus)
    ensures file[k] == Complete <==> k == |file| - 1
  {
  }

  lemma ReplayedStep(w: World, v: World, k: nat, c: nat)
    requires CreatedAt(w.file, w.gtid, c) && k < |w.file| && Replayed(w, v, k, c)
    ensures Replayed(w, InitStepped(v), k + 1, c)
  {
    AtPosition(w.file, w.gtid, c, k);
    hide CreatedAt;
    assert w.file[..k + 1] == w.file[..k] + [w.file[k]];
    var s := w.file[k];
    assert InitStepped(v) == v.(pc := k + 1, db := Executed(v.db, s));
    assert ConfiguredPending in w.file[..k + 1] <==> ConfiguredPending in w.file[..k] || s == ConfiguredPending;
    assert DropStatus in w.file[..k + 1] <==> DropStatus in w.file[..k] || s == DropStatus;
    assert ResetReplication in w.file[..k + 1] <==> ResetReplication in w.file[..k] || s == ResetReplication;
  }

  lemma RepeatInit(w: World, n: nat)
    ensures After(w, Repeat(InitStep, n + 1)) == InitStepped(After(w, Repeat(InitStep, n)))
  {
    hide After, Repeat, InitStepped;
    RepeatStep(w, InitStep, n);
  }

  lemma ReplayedNone(w: World, c: nat)
    requires w.pc == 0 && CreatedAt(w.file, w.gtid, c)
    ensures Replayed(w, After(w, Repeat(InitStep, 0)), 0, c)
  {
    assert w.file[..0] == [];
  }

  lemma {:induction false} ReplayOf(w: World, k: nat, c: nat)
    requires w.pc == 0 && CreatedAt(w.file, w.gtid, c) && k <= |w.file|
    ensures Replayed(w, After(w, Repeat(InitStep, k)), k, c)
  {
    hide Replayed, InitStepped, CreatedAt, After, Repeat;
    if k == 0 {
      ReplayedNone(w, c);
    } else {
      ReplayOf(w, k - 1, c);
      RepeatInit(w, k - 1);
      ReplayedStep(w, After(w, Repeat(InitStep, k - 1)), k - 1, c);
    }
  }

  lemma Four(w: World, e: Event)
    ensures After(w, Repeat(e, 4)) == Step(Step(Step(Step(w, e), e), e), e)
  {
    RepeatStep(w, e, 0);
    RepeatStep(w, e, 1);
    RepeatStep(w, e, 2);
    RepeatStep(w, e, 3);
  }

  /** A node controller that waits no longer gets past its checks in four steps. */
  lemma PastTheChecks(w: World, view: View)
    requires w.rec == WaitComplete && Underway(w) && !view.failover && view.skip
    ensures After(w, Repeat(RecStep(view), 4)) == w.(rec := MarkSkipped(view.master), reading := true)
  {
    hide After, Repeat;
    Four(w, RecStep(view));
  }

  /** With the GTID to be skipped, two statements deal with it and decide what to do about the master. */
  lemma PastTheGtid(w: World, view: View)
    requires w.rec == MarkSkipped(view.master) && Underway(w) && view.master != w.host
    ensures var v := Step(Step(w, RecStep(view)), RecStep(view));
            v == w.(rec := ChangeSource(view.master), db := v.db) && v.db.table.Some?
  {
    assert SKIPPED != "" by { assert |SKIPPED| == 7; }
  }

  lemma PastReplication(w: World, view: View)
    requires w.rec == ChangeSource(view.master)
    ensures var v := Step(Step(w, RecStep(view)), RecStep(view));
            v == w.(rec := MarkDone(view.master), db := v.db) && v.db.table == w.db.table
  {
  }

  /** So another four take a replica up to the last statement. */
  lemma UpToTheMark(w: World, view: View)
    requires w.rec == MarkSkipped(view.master) && Underway(w) && view.master != w.host
    ensures var v := After(w, Repeat(RecStep(view), 4));
            v == w.(rec := MarkDone(view.master), db := v.db) && v.db.table.Some?
  {
    hide Step, After, Repeat;
    Four(w, RecStep(view));
    PastTheGtid(w, view);
    PastReplication(Step(Step(w, RecStep(view)), RecStep(view)), view);
  }

  /** Start over, let the file run to its end, and take a reconcile up to its last statement. */
  function Prelude(w: World, view: View): seq<Event> {
    [RecFail, ContainerRestart] + Repeat(InitStep, |w.file|)
    + [RecStart] + Repeat(RecStep(view), 4) + Repeat(RecStep(view), 4)
  }

  /** Restart once more, run `n` statements of the file, and let the reconcile send its own. */
  function Replay(n: nat, view: View): seq<Event> {
    [ContainerRestart] + Repeat(InitStep, n) + [RecStep(view)]
  }

  lemma AfterOne(w: World, e: Event)
    ensures After(w, [e]) == Step(w, e)
  {
    assert [e][..0] == [];
  }

  lemma Chain(w: World, a: seq<Event>, u: World, b: seq<Event>, v: World)
    requires After(w, a) == u && After(u, b) == v
    ensures After(w, a + b) == v
  {
    AfterConcat(w, a, b);
  }

  lemma StartOver(w: World)
    ensures After(w, [RecFail, ContainerRestart]) == w.(pc := 0, rec := Idle)
  {
    AfterOne(w, RecFail);
    AfterOne(w.(rec := Idle), ContainerRestart);
    assert [RecFail, ContainerRestart] == [RecFail] + [ContainerRestart];
    Chain(w, [RecFail], w.(rec := Idle), [ContainerRestart], w.(pc := 0, rec := Idle));
  }

  lemma FullReplay(w: World)
    requires w.pc == 0 && GoodFile(w.file, w.gtid)
    ensures var v := After(w, Repeat(InitStep, |w.file|)); v == w.(pc := v.pc, db := v.db) && Underway(v)
  {
    var c: nat :| CreatedAt(w.file, w.gtid, c);
    ReplayOf(w, |w.file|, c);
    assert ConfiguredPending in w.file[..|w.file|] by { assert ConfiguredPending in w.file[..|w.file| - 1]; }
  }

  lemma PreludeReaches(w: World, view: View) returns (v: World)
    requires GoodFile(w.file, w.gtid) && !view.failover && view.skip && view.master != w.host
    ensures v == After(w, Prelude(w, view))
    ensures v == w.(pc := v.pc, db := v.db, rec := MarkDone(view.master), reading := true) && v.db.table.Some?
  {
    hide After, GoodFile;
    var restart, replay, four := [RecFail, ContainerRestart], Repeat(InitStep, |w.file|), Repeat(RecStep(view), 4);
    var w1 := w.(pc := 0, rec := Idle);
    StartOver(w);
    FullReplay(w1);
    var w2 := After(w1, replay);
    AfterOne(w2, RecStart);
    var w3 := w2.(rec := WaitComplete);
    PastTheChecks(w3, view);
    var w4 := w3.(rec := MarkSkipped(view.master), reading := true);
    UpToTheMark(w4, view);
    var w5 := After(w4, four);
    Chain(w, restart, w1, replay, w2);
    Chain(w, restart + replay, w2, [RecStart], w3);
    Chain(w, restart + replay + [RecStart], w3, four, w4);
    Chain(w, restart + replay + [RecStart] + four, w4, four, w5);
    v := w5;
  }

  lemma MarkIsUnsafe(v: World, view: View)
    requires v.rec == MarkDone(view.master) && view.master != v.host
    requires v.db.table.Some? && (!v.db.table.value.complete || v.db.source.None?)
    ensures !Safe(Step(v, RecStep(view)))
  {
  }

  /** Where a replay leads to `u`, at which marking the node as configured is unsafe. */
  lemma ReplayIsUnsafe(w: World, n: nat, view: View, u: World)
    requires After(w.(pc := 0), Repeat(InitStep, n)) == u
    requires w.rec == MarkDone(view.master) && u.rec == w.rec && view.master != u.host
    requires u.db.table.Some? && (!u.db.table.value.complete || u.db.source.None?)
    ensures !Safe(After(w, Replay(n, view)))
  {
    AfterOne(w, ContainerRestart);
    AfterOne(u, RecStep(view));
    MarkIsUnsafe(u, view);
    Chain(w, [ContainerRestart], w.(pc := 0), Repeat(InitStep, n), u);
    Chain(w, [ContainerRestart] + Repeat(InitStep, n), u, [RecStep(view)], After(u, [RecStep(view)]));
  }

  lemma AllButTheEnd(w: World) returns (u: World)
    requires w.pc == 0 && GoodFile(w.file, w.gtid) && HarmfulFile(w)
    ensures w.file != [] && u == After(w, Repeat(InitStep, |w.file| - 1))
    ensures u.rec == w.rec && u.host == w.host && u.db.table.Some? && (!u.db.table.value.complete || u.db.source.None?)
  {
    var c: nat :| CreatedAt(w.file, w.gtid, c);
    assert w.file == w.file[..|w.file| - 1] + [Complete];
    ReplayOf(w, |w.file| - 1, c);
    u := After(w, Repeat(InitStep, |w.file| - 1));
  }

  lemma ReplayAtTheMark(v: World, view: View)
    requires GoodFile(v.file, v.gtid) && HarmfulFile(v) && v.rec == MarkDone(view.master) && view.master != v.host
    ensures v.file != [] && !Safe(After(v, Replay(|v.file| - 1, view)))
  {
    hide Step, After, Replay, GoodFile;
    var u := AllButTheEnd(v.(pc := 0));
    ReplayIsUnsafe(v, |v.file| - 1, view, u);
  }

  lemma UnsafeLater(w: World, a: seq<Event>, v: World, b: seq<Event>)
    requires After(w, a) == v && !Safe(After(v, b))
    ensures !Safe(After(w, a + b))
  {
    AfterConcat(w, a, b);
  }

  lemma MarkedBreaks(w: World, prelude: seq<Event>, v: World, view: View)
    requires After(w, prelude) == v && v.file == w.file
    requires GoodFile(v.file, v.gtid) && HarmfulFile(v) && v.rec == MarkDone(view.master) && view.master != v.host
    ensures w.file != [] && !Safe(After(w, prelude + Replay(|w.file| - 1, view)))
  {
    hide *;
    ReplayAtTheMark(v, view);
    UnsafeLater(w, prelude, v, Replay(|w.file| - 1, view));
  }

  lemma BreakingBreaks(w: World, view: View)
    requires GoodFile(w.file, w.gtid) && HarmfulFile(w) && !view.failover && view.skip && view.master != w.host
    ensures w.file != [] && !Safe(After(w, Prelude(w, view) + Replay(|w.file| - 1, view)))
  {
    hide Step, After, Replay, Prelude, GoodFile;
    var v := PreludeReaches(w, view);
    MarkedBreaks(w, Prelude(w, view), v, view);
  }

  /** Under a harmless file the table is there to stay, so no later file drops it either. */
  lemma HarmlessFileStays(w: World, e: Event)
    requires Holds(w) && !HarmfulFile(w)
    ensures Holds(Step(w, e)) && !HarmfulFile(Step(w, e))
  {
    StepHolds(w, e);
    if e.PodRestart? { InitFileIsGood(e.config.(cloneFromBucket := false), w.db.table.None?, w.gtid); }
  }

  lemma {:induction false} HarmlessRunHolds(w: World, run: seq<Event>)
    requires Holds(w) && !HarmfulFile(w)
    ensures Holds(After(w, run)) && !HarmfulFile(After(w, run))
  {
    if run != [] {
      HarmlessRunHolds(w, run[..|run| - 1]);
      HarmlessFileStays(After(w, run[..|run| - 1]), run[|run| - 1]);
    }
  }

  /** Every interleaving of init-file statements, restarts of container or pod, and reconciles that stop anywhere
      is safe if and only if the present init-file neither drops the status table nor resets replication. */
  lemma SafeExactlyWithoutHarm(w: World)
    requires Holds(w)
    ensures (forall run :: SafeThroughout(w, run)) <==> !HarmfulFile(w)
  {
    if HarmfulFile(w) {
      var run := UnsafeRun(w);
    } else {
      forall run ensures SafeThroughout(w, run) {
        forall i | 0 <= i <= |run| ensures Safe(After(w, run[..i])) { HarmlessRunHolds(w, run[..i]); }
      }
    }
  }

  lemma UnsafeRun(w: World) returns (run: seq<Event>)
    requires Holds(w) && HarmfulFile(w)
    ensures !SafeThroughout(w, run)
  {
    hide Safe, After, Prelude, Replay, PhaseHolds, TableHolds;
    var view := View(w.host + "x", false, true);
    assert |view.master| != |w.host|;
    BreakingBreaks(w, view);
    run := Prelude(w, view) + Replay(|w.file| - 1, view);
    assert run[..|run|] == run;
  }

  /** The first init-file of a node drops the table, so from every first start some run is unsafe. */
  lemma SomeFreshRunIsUnsafe(host: string, gtid: string, config: Config, source: Option<string>, purged: Option<string>)
    ensures exists run :: !SafeThroughout(Fresh(host, gtid, config, source, purged), run)
  {
    FreshHolds(host, gtid, config, source, purged);
    InitFileIsGood(config, true, gtid);
    SafeExactlyWithoutHarm(Fresh(host, gtid, config, source, purged));
  }

  /* ---- the controller's own code sends these statements in this order ---- */

  /** The database and the next statement after `k` statements; the view only matters before the first check. */
  function Sent(host: string, db: Db, rec: Phase, k: nat): (Db, Phase) {
    if k == 0 then (db, rec)
    else
      var (d, r) := Sent(host, db, rec, k - 1);
      RecStepped(host, d, r, View("", false, false))
  }

  predicate BeforeChecks(rec: Phase) {
    rec.WaitComplete? || rec.WaitConfigured? || rec.Refresh?
  }

  lemma OneIsSent(w: World, view: View)
    requires !BeforeChecks(w.rec)
    ensures var v := Step(w, RecStep(view));
            && (v.db, v.rec) == RecStepped(w.host, w.db, w.rec, View("", false, false))
            && v.host == w.host && !BeforeChecks(v.rec)
  {
  }

  /** A run of controller steps alone does what sending the statements does. */
  lemma {:induction false} StepsAreSent(w: World, view: View, k: nat)
    requires !BeforeChecks(w.rec)
    ensures var v := After(w, Repeat(RecStep(view), k));
            (v.db, v.rec) == Sent(w.host, w.db, w.rec, k) && v.host == w.host && !BeforeChecks(v.rec)
  {
    hide Step, RecStepped;
    if k > 0 {
      StepsAreSent(w, view, k - 1);
      RepeatStep(w, RecStep(view), k - 1);
      OneIsSent(After(w, Repeat(RecStep(view), k - 1)), view);
    }
  }

  /** The backup's GTID, purged and recorded. */
  function Purged(db: Db, gtid: string): Db
    requires db.table.Some?
  {
    db.(purged := Some(gtid), table := Some(db.table.value.(setGtid := gtid)))
  }

  /** The GTID is dealt with once: when none is recorded and the backup has one. */
  function GtidSet(db: Db): Db
    requires db.table.Some?
  {
    if db.table.value.setGtid == "" && db.table.value.backup != "" then Purged(db, db.table.value.backup) else db
  }

  /** What initialising a node comes to when every statement succeeds. */
  function Initialised(db: Db, host: string, master: string, skip: bool): (r: Db)
    requires db.table.Some?
    ensures r.table.Some? && r.table.value.configured
    ensures r.table.value.complete == db.table.value.complete && r.table.value.backup == db.table.value.backup
    ensures r.source == if master == host then db.source else Some(master)
    ensures skip ==> r.table.value.setGtid == "skipped" && r.purged == db.purged
    ensures !skip && db.table.value.setGtid == "" && db.table.value.backup != "" ==>
              r.table.value.setGtid == db.table.value.backup && r.purged == Some(db.table.value.backup)
    ensures !skip && (db.table.value.setGtid != "" || db.table.value.backup == "") ==>
              r.table.value.setGtid == db.table.value.setGtid && r.purged == db.purged
  {
    assert SKIPPED != "" by { assert |SKIPPED| == 7; }
    var marked := if skip then db.(table := Some(db.table.value.(setGtid := SKIPPED))) else db;
    var settled := GtidSet(marked);
    var pointed := if master == host then settled else settled.(source := Some(master));
    pointed.(table := Some(pointed.table.value.(configured := true)))
  }

  class NodeSql {
    const host: string
    var db: Db
    /** Whether the connection has failed some statement. */
    var failed: bool

    constructor (host: string, db: Db)
      ensures this.host == host && this.db == db && !failed
    {
      this.host := host;
      this.db := db;
      this.failed := false;
    }

    /** Whether the connection holds for the next statement. */
    method Connect() returns (ok: bool)
      modifies this`failed
      ensures failed <==> old(failed) || !ok
    {
      ok := *;
      failed := failed || !ok;
    }

    method SetPurgedGTID(ghost db0: Db, ghost rec0: Phase, master: string, k0: nat) returns (ok: bool, k: nat)
      requires Sent(host, db0, rec0, k0) == (db, ReadSet(master))
      modifies this`db, this`failed
      ensures var (d, r) := Sent(host, db0, rec0, k); db == d && (ok ==> r == AfterGtid(host, master))
      ensures ok ==> old(db).table.Some? && db == GtidSet(old(db))
      ensures old(failed) ==> failed
      ensures ok || failed || old(db).table.None?
    {
      ok, k := false, k0;
      var up := Connect();
      if !up || db.table.None? { return; }
      k := k + 1;
      if db.table.value.setGtid != "" { ok := true; return; }
      up := Connect();
      if !up || db.table.None? { return; }
      var backup := db.table.value.backup;
      k := k + 1;
      if backup == "" { ok := true; return; }
      ok, k := SetInTransaction(db0, rec0, master, k);
    }

    method SetInTransaction(ghost db0: Db, ghost rec0: Phase, master: string, k0: nat) returns (ok: bool, k: nat)
      requires Sent(host, db0, rec0, k0) == (db, TxSelect(master)) && (db.table.Some? ==> db.table.value.backup != "")
      modifies this`db, this`failed
      ensures var (d, r) := Sent(host, db0, rec0, k); db == d && (ok ==> r == AfterGtid(host, master))
      ensures ok ==> old(db).table.Some? && db == Purged(old(db), old(db).table.value.backup)
      ensures old(failed) ==> failed
      ensures ok || failed || old(db).table.None?
    {
      ok, k := false, k0;
      var up := Connect();
      if !up || db.table.None? { return; }
      var gtid := db.table.value.backup;
      k := k + 1;
      assert Sent(host, db0, rec0, k) == (db, TxReset(master, Some(gtid)));
      up := Connect();
      if !up { return; }
      db := db.(purged := None);
      k := k + 1;
      ok, k := PurgeAndRecord(db0, rec0, master, gtid, k);
    }

    /** The second half of the transaction. */
    method PurgeAndRecord(ghost db0: Db, ghost rec0: Phase, master: string, gtid: string, k0: nat)
      returns (ok: bool, k: nat)
      requires Sent(host, db0, rec0, k0) == (db, TxPurge(master, Some(gtid)))
      modifies this`db, this`failed
      ensures var (d, r) := Sent(host, db0, rec0, k); db == d && (ok ==> r == AfterGtid(host, master))
      ensures ok ==> db.table.Some? && old(db).table.Some? && db == Purged(old(db), gtid)
      ensures old(failed) ==> failed
      ensures ok || failed || old(db).table.None?
    {
      ok, k := false, k0;
      var up := Connect();
      if !up { return; }
      db := db.(purged := Some(gtid));
      k := k + 1;
      assert Sent(host, db0, rec0, k) == (db, TxRecord(master, gtid));
      up := Connect();
      if !up || db.table.None? { return; }
      db := db.(table := Some(db.table.value.(setGtid := gtid)));
      k := k + 1;
      ok := true;
    }

    method ChangeMasterTo(ghost db0: Db, ghost rec0: Phase, master: string, k0: nat) returns (ok: bool, k: nat)
      requires Sent(host, db0, rec0, k0) == (db, ChangeSource(master))
      modifies this`db, this`failed
      ensures var (d, r) := Sent(host, db0, rec0, k); db == d && (ok ==> r == MarkDone(master))
      ensures ok ==> db == old(db).(source := Some(master))
      ensures old(failed) ==> failed
      ensures ok || failed
    {
      ok, k := false, k0;
      var up := Connect();
      if !up { return; }
      db := db.(source := Some(master));
      k := k + 1;
      up := Connect();
      if !up {
        up := Connect();
        if !up { return; }
      }
      k := k + 1;
      ok := true;
    }

    method MarkConfigurationDone(ghost db0: Db, ghost rec0: Phase, ghost master: string, k0: nat)
      returns (ok: bool, k: nat)
      requires Sent(host, db0, rec0, k0) == (db, MarkDone(master))
      modifies this`db, this`failed
      ensures var (d, r) := Sent(host, db0, rec0, k); db == d && (ok ==> r == Idle)
      ensures ok ==> old(db).table.Some? && db == old(db).(table := Some(old(db).table.value.(configured := true)))
      ensures old(failed) ==> failed
      ensures ok || failed || old(db).table.None?
    {
      ok, k := false, k0;
      var up := Connect();
      if !up || db.table.None? { return; }
      db := db.(table := Some(db.table.value.(configured := true)));
      k := k + 1;
      ok := true;
    }

    /** The initialiser stops at the first statement that fails; `k` counts those that did not. Where it
        succeeds the node is configured, and it fails only when a statement does. */
    method InitializeMySQL(master: string, skip: bool) returns (ok: bool, k: nat)
      modifies this`db, this`failed
      ensures var (d, r) := Sent(host, old(db), CheckConfigured(master, skip), k);
              db == d && (ok ==> r == Idle && db.table.Some? && db.table.value.configured)
      ensures ok ==> old(db).table.Some? && db == if old(db).table.value.configured then old(db)
                                                  else Initialised(old(db), host, master, skip)
      ensures old(failed) ==> failed
      ensures ok || failed || old(db).table.None?
    {
      ok, k := false, 0;
      ghost var db0, rec0 := db, CheckConfigured(master, skip);
      var up := Connect();
      if !up || db.table.None? { return; }
      k := 1;
      assert Sent(host, db0, rec0, 0) == (db0, rec0);
      if db.table.value.configured { ok := true; return; }
      assert Sent(host, db0, rec0, k) == (db, DisableReadOnly(master, skip));
      up := Connect();
      if !up { return; }
      k := 2;
      if skip {
        assert Sent(host, db0, rec0, k) == (db, MarkSkipped(master));
        up := Connect();
        if !up || db.table.None? { return; }
        db := db.(table := Some(db.table.value.(setGtid := SKIPPED)));
        k := 3;
      }
      ok, k := SetPurgedGTID(db0, rec0, master, k);
      if !ok { return; }
      if master != host {
        ok, k := ChangeMasterTo(db0, rec0, master, k);
        if !ok { return; }
      }
      ok, k := MarkConfigurationDone(db0, rec0, master, k);
    }
  }
}
