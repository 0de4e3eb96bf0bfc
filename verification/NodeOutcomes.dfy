/** What the init-file and the node controller come to, over whole runs. */
module NodeOutcomes {
  import opened Common
  import opened NodeInit

  /* ---- the init-file on its own ---- */

  /** The database after these statements; each finds the table it needs. */
  ghost predicate Finds(db: Db, stmts: seq<Stmt>)
    decreases |stmts|
  {
    stmts != [] ==> (NeedsTable(stmts[0]) ==> db.table.Some?) && Finds(Executed(db, stmts[0]), stmts[1..])
  }

  function Ran(db: Db, stmts: seq<Stmt>): Db
    requires Finds(db, stmts)
    decreases |stmts|
  {
    if stmts == [] then db else Ran(Executed(db, stmts[0]), stmts[1..])
  }

  lemma {:induction false} RanConcat(db: Db, a: seq<Stmt>, b: seq<Stmt>)
    requires Finds(db, a) && Finds(Ran(db, a), b)
    ensures Finds(db, a + b) && Ran(db, a + b) == Ran(Ran(db, a), b)
    decreases |a|
  {
    if a == [] {
      assert a + b == b;
    } else {
      assert (a + b)[1..] == a[1..] + b;
      RanConcat(Executed(db, a[0]), a[1..], b);
    }
  }

  lemma {:induction false} PlainRan(db: Db, stmts: seq<Stmt>)
    requires forall s :: s in stmts ==> s.Statement?
    ensures Finds(db, stmts) && Ran(db, stmts) == db
  {
    if stmts != [] {
      assert stmts[0] in stmts;
      PlainRan(db, stmts[1..]);
    }
  }

  lemma OneRan(db: Db, s: Stmt)
    requires NeedsTable(s) ==> db.table.Some?
    ensures Finds(db, [s]) && Ran(db, [s]) == Executed(db, s)
  {
    assert [s][1..] == [];
  }

  /** Statements that find what they need are run one by one. */
  lemma {:induction false} StepsRan(w: World, k: nat)
    requires w.pc == 0 && k <= |w.file| && Finds(w.db, w.file[..k])
    ensures After(w, Repeat(InitStep, k)) == w.(pc := k, db := Ran(w.db, w.file[..k]))
  {
    if k > 0 {
      var s := w.file[k - 1];
      assert w.file[..k] == w.file[..k - 1] + [s];
      FindsPrefix(w.db, w.file[..k - 1], [s]);
      StepsRan(w, k - 1);
      RepeatStep(w, InitStep, k - 1);
      OneRan(Ran(w.db, w.file[..k - 1]), s);
      RanConcat(w.db, w.file[..k - 1], [s]);
    }
  }

  lemma {:induction false} FindsPrefix(db: Db, a: seq<Stmt>, b: seq<Stmt>)
    requires Finds(db, a + b)
    ensures Finds(db, a) && Finds(Ran(db, a), b)
    decreases |a|
  {
    if a == [] {
      assert a + b == b;
    } else {
      assert (a + b)[1..] == a[1..] + b;
      FindsPrefix(Executed(db, a[0]), a[1..], b);
    }
  }

  /** The database after a whole init-file: the table is there, not configured and complete; it holds the backup's
      GTID if there is one; what it held before is lost exactly when the table's file was missing or there was no
      table; and the replication source is gone exactly when the data is cloned from a bucket. */
  function AfterInitFile(db: Db, config: Config, ibdMissing: bool, gtid: string): Db {
    var kept := if ibdMissing then None else db.table;
    var backup := if gtid != "" then gtid else if kept.Some? then kept.value.backup else "";
    Db(Some(Table(false, true, backup, if kept.Some? then kept.value.setGtid else "")),
       if config.cloneFromBucket then None else db.source, db.purged)
  }

  lemma OpeningRan(db: Db, ibdMissing: bool)
    ensures var opening := Opening(ibdMissing) + [CreateStatus];
            && Finds(db, opening)
            && Ran(db, opening) == db.(table := if ibdMissing || db.table.None?
                                                then Some(Table(false, false, "", "")) else db.table)
  {
    var first := [Statement("SET @@SESSION.SQL_LOG_BIN = 0"), Statement("CREATE DATABASE IF NOT EXISTS sys_operator")];
    var drop: seq<Stmt> := if ibdMissing then [DropStatus] else [];
    PlainRan(db, first);
    if ibdMissing { OneRan(db, DropStatus); }
    RanConcat(db, first, drop);
    OneRan(Ran(db, first + drop), CreateStatus);
    RanConcat(db, first + drop, [CreateStatus]);
    assert Opening(ibdMissing) == first + drop;
  }

  lemma FromBackupRan(db: Db, config: Config, gtid: string)
    requires db.table.Some?
    ensures Finds(db, FromBackup(config, gtid))
    ensures Ran(db, FromBackup(config, gtid))
            == Db(if gtid != "" then Some(db.table.value.(backup := gtid)) else db.table,
                  if config.cloneFromBucket then None else db.source, db.purged)
  {
    var a: seq<Stmt> := if gtid != "" then [SetBackup(gtid)] else [];
    var b: seq<Stmt> := if config.cloneFromBucket then [ResetReplication] else [];
    if gtid != "" { OneRan(db, SetBackup(gtid)); }
    if config.cloneFromBucket { OneRan(Ran(db, a), ResetReplication); }
    RanConcat(db, a, b);
  }

  lemma AccountsRan(db: Db, users: seq<string>)
    requires db.table.Some?
    ensures Finds(db, Accounts(users)) && Ran(db, Accounts(users)) == Executed(db, ConfiguredPending)
  {
    var readOnly := Statement("SET GLOBAL READ_ONLY = 1");
    var users' := Statements(users, false);
    forall s | s in [readOnly] + users' ensures s.Statement? { if s in users' { StatementsOnly(users, false, s); } }
    PlainRan(Executed(db, ConfiguredPending), [readOnly] + users');
    OneRan(db, ConfiguredPending);
    RanConcat(db, [ConfiguredPending], [readOnly] + users');
    assert Accounts(users) == [ConfiguredPending] + ([readOnly] + users');
  }

  lemma SetupRan(db: Db, config: Config, gtid: string)
    requires db.table.Some?
    ensures Finds(db, Setup(config, gtid))
    ensures Ran(db, Setup(config, gtid)) == Ran(Executed(db, ConfiguredPending), FromBackup(config, gtid))
  {
    var extra := Statements(config.extra, true);
    AccountsRan(db, config.users);
    var db1 := Executed(db, ConfiguredPending);
    FromBackupRan(db1, config, gtid);
    RanConcat(db, Accounts(config.users), FromBackup(config, gtid));
    forall s | s in extra ensures s.Statement? { StatementsOnly(config.extra, true, s); }
    PlainRan(Ran(db1, FromBackup(config, gtid)), extra);
    RanConcat(db, Accounts(config.users) + FromBackup(config, gtid), extra);
  }

  /** The statements between the table's creation and the completion marker. */
  lemma BodyRan(db: Db, config: Config, gtid: string)
    requires db.table.Some?
    ensures Finds(db, Setup(config, gtid) + [Complete])
    ensures var backup := if gtid != "" then gtid else db.table.value.backup;
            Ran(db, Setup(config, gtid) + [Complete])
            == Db(Some(Table(false, true, backup, db.table.value.setGtid)),
                  if config.cloneFromBucket then None else db.source, db.purged)
  {
    SetupRan(db, config, gtid);
    FromBackupRan(Executed(db, ConfiguredPending), config, gtid);
    hide Setup, FromBackup, Ran, Finds;
    OneRan(Ran(db, Setup(config, gtid)), Complete);
    RanConcat(db, Setup(config, gtid), [Complete]);
  }

  /** The init-file, run from the start without anything in between, does what it is for. */
  lemma InitFileRan(w: World, config: Config, ibdMissing: bool)
    requires w.pc == 0 && w.file == InitFile(config, ibdMissing, w.gtid)
    ensures After(w, Repeat(InitStep, |w.file|)).db == AfterInitFile(w.db, config, ibdMissing, w.gtid)
  {
    var opening, body := Opening(ibdMissing) + [CreateStatus], Setup(config, w.gtid) + [Complete];
    assert w.file == opening + body;
    hide Opening, Setup, Ran, Finds, Repeat, After;
    OpeningRan(w.db, ibdMissing);
    BodyRan(Ran(w.db, opening), config, w.gtid);
    RanConcat(w.db, opening, body);
    assert w.file[..|w.file|] == w.file;
    StepsRan(w, |w.file|);
  }

  /** The texts of the plain statements, in order. */
  function Texts(stmts: seq<Stmt>): seq<string> {
    if stmts == [] then []
    else
      var last := stmts[|stmts| - 1];
      Texts(stmts[..|stmts| - 1]) + (if last.Statement? then [last.sql] else [])
  }

  lemma {:induction false} TextsConcat(a: seq<Stmt>, b: seq<Stmt>)
    ensures Texts(a + b) == Texts(a) + Texts(b)
  {
    if b == [] {
      assert a + b == a;
    } else {
      assert (a + b)[..|a + b| - 1] == a + b[..|b| - 1];
      TextsConcat(a, b[..|b| - 1]);
    }
  }

  lemma {:induction false} TextsOfStatements(sql: seq<string>, trimmed: bool)
    ensures Texts(Statements(sql, trimmed)) == if trimmed then Filter((s: string) => !Blank(s), sql) else sql
  {
    if sql != [] {
      hide Blank;
      var last := sql[|sql| - 1];
      TextsOfStatements(sql[..|sql| - 1], trimmed);
      assert sql == sql[..|sql| - 1] + [last];
      var one := if trimmed && Blank(last) then [] else [Statement(last)];
      TextsConcat(Statements(sql[..|sql| - 1], trimmed), one);
      if one != [] { assert one[..0] == []; }
    }
  }

  lemma NoText(stmts: seq<Stmt>)
    requires |stmts| <= 1 && forall s :: s in stmts ==> !s.Statement?
    ensures Texts(stmts) == []
  {
    if stmts != [] { assert stmts[..0] == []; }
  }

  lemma TextOf(sql: string)
    ensures Texts([Statement(sql)]) == [sql]
  {
    assert [Statement(sql)][..0] == [];
  }

  lemma TextsOfOpening(ibdMissing: bool)
    ensures Texts(Opening(ibdMissing) + [CreateStatus])
            == ["SET @@SESSION.SQL_LOG_BIN = 0", "CREATE DATABASE IF NOT EXISTS sys_operator"]
  {
    var log, create := "SET @@SESSION.SQL_LOG_BIN = 0", "CREATE DATABASE IF NOT EXISTS sys_operator";
    var drop: seq<Stmt> := if ibdMissing then [DropStatus] else [];
    TextOf(log);
    TextOf(create);
    NoText(drop);
    NoText([CreateStatus]);
    hide Texts;
    assert [Statement(log), Statement(create)] == [Statement(log)] + [Statement(create)];
    TextsConcat([Statement(log)], [Statement(create)]);
    TextsConcat([Statement(log)] + [Statement(create)], drop);
    TextsConcat([Statement(log)] + [Statement(create)] + drop, [CreateStatus]);
  }

  lemma TextsOfAccounts(users: seq<string>)
    ensures Texts(Accounts(users)) == ["SET GLOBAL READ_ONLY = 1"] + users
  {
    var readOnly := "SET GLOBAL READ_ONLY = 1";
    TextOf(readOnly);
    NoText([ConfiguredPending]);
    TextsOfStatements(users, false);
    hide Texts, Statements;
    assert [ConfiguredPending, Statement(readOnly)] == [ConfiguredPending] + [Statement(readOnly)];
    TextsConcat([ConfiguredPending], [Statement(readOnly)]);
    TextsConcat([ConfiguredPending] + [Statement(readOnly)], Statements(users, false));
  }

  lemma TextsOfFromBackup(config: Config, gtid: string)
    ensures Texts(FromBackup(config, gtid)) == []
  {
    var a: seq<Stmt> := if gtid != "" then [SetBackup(gtid)] else [];
    var b: seq<Stmt> := if config.cloneFromBucket then [ResetReplication] else [];
    NoText(a);
    NoText(b);
    TextsConcat(a, b);
  }

  lemma TextsOfSetup(config: Config, gtid: string)
    ensures Texts(Setup(config, gtid))
            == ["SET GLOBAL READ_ONLY = 1"] + config.users + Filter((s: string) => !Blank(s), config.extra)
  {
    TextsOfAccounts(config.users);
    TextsOfFromBackup(config, gtid);
    TextsOfStatements(config.extra, true);
    hide Texts, Statements, Filter, Blank, Accounts, FromBackup;
    TextsConcat(Accounts(config.users), FromBackup(config, gtid));
    TextsConcat(Accounts(config.users) + FromBackup(config, gtid), Statements(config.extra, true));
  }

  lemma TextsJoined(opening: seq<Stmt>, setup: seq<Stmt>, first: seq<string>, rest: seq<string>)
    requires Texts(opening) == first && Texts(setup) == rest
    ensures Texts(opening + setup + [Complete]) == first + rest
  {
    NoText([Complete]);
    hide Texts;
    TextsConcat(opening, setup);
    TextsConcat(opening + setup, [Complete]);
  }

  /** Apart from what it does to the status table and the replication source, the file turns off binary logging,
      creates the operator's database, makes the server read-only, sets up the users, and runs what else is
      configured but blank statements, in this order. */
  lemma TextsOfInitFile(config: Config, ibdMissing: bool, gtid: string)
    ensures Texts(InitFile(config, ibdMissing, gtid))
            == ["SET @@SESSION.SQL_LOG_BIN = 0", "CREATE DATABASE IF NOT EXISTS sys_operator"]
               + (["SET GLOBAL READ_ONLY = 1"] + config.users + Filter((s: string) => !Blank(s), config.extra))
  {
    TextsOfOpening(ibdMissing);
    TextsOfSetup(config, gtid);
    hide Texts, Setup, Opening, Filter, Blank;
    TextsJoined(Opening(ibdMissing) + [CreateStatus], Setup(config, gtid),
                ["SET @@SESSION.SQL_LOG_BIN = 0", "CREATE DATABASE IF NOT EXISTS sys_operator"],
                ["SET GLOBAL READ_ONLY = 1"] + config.users + Filter((s: string) => !Blank(s), config.extra));
  }

  /* ---- what a configured node was read to be ---- */

  /** A reconcile of the run went on from a cluster that said this: its master, no failover, whether to skip. */
  ghost predicate WasRead(run: seq<Event>, master: string, skip: bool) {
    exists i :: 0 <= i < |run| && run[i] == RecStep(View(master, false, skip))
  }

  /** The master on which a reconcile under way works. */
  function WorksOn(rec: Phase): Option<string> {
    match rec
    case Idle => None
    case WaitComplete => None
    case WaitConfigured => None
    case Refresh => None
    case _ => Some(rec.master)
  }

  /** Between two statements: what a reconcile works on, and what the last one that configured the node worked on,
      was read in this run. */
  ghost predicate ReadHolds(w: World, run: seq<Event>) {
    && (WorksOn(w.rec).Some? ==> WasRead(run, WorksOn(w.rec).value, w.reading))
    && (w.rec.CheckConfigured? || w.rec.DisableReadOnly? ==> w.rec.skip == w.reading)
    && (w.rec.MarkSkipped? ==> w.reading)
    && (w.markedFor.Some? ==> WasRead(run, w.markedFor.value, w.markedSkip))
  }

  lemma WasReadLater(run: seq<Event>, e: Event, master: string, skip: bool)
    requires WasRead(run, master, skip)
    ensures WasRead(run + [e], master, skip)
  {
    var i :| 0 <= i < |run| && run[i] == RecStep(View(master, false, skip));
    assert (run + [e])[i] == run[i];
  }

  lemma ReadHoldsAfter(w: World, run: seq<Event>, e: Event)
    requires ReadHolds(w, run)
    ensures ReadHolds(Step(w, e), run + [e])
  {
    forall master, skip | WasRead(run, master, skip) ensures WasRead(run + [e], master, skip) {
      WasReadLater(run, e, master, skip);
    }
    if e.RecStep? && w.rec.Refresh? && !e.view.failover {
      assert (run + [e])[|run|] == RecStep(View(e.view.master, false, e.view.skip));
      assert WasRead(run + [e], e.view.master, e.view.skip);
    }
    hide WasRead;
  }

  lemma {:induction false} ReadAlways(host: string, gtid: string, config: Config, source: Option<string>,
                                      purged: Option<string>, run: seq<Event>)
    ensures ReadHolds(After(Fresh(host, gtid, config, source, purged), run), run)
  {
    if run != [] {
      var prefix := run[..|run| - 1];
      ReadAlways(host, gtid, config, source, purged, prefix);
      ReadHoldsAfter(After(Fresh(host, gtid, config, source, purged), prefix), prefix, run[|run| - 1]);
      assert prefix + [run[|run| - 1]] == run;
    }
  }

  /* ---- when the GTID is skipped ---- */

  /** SKIPPED is nowhere but where a reconcile that was asked to skip put it. */
  ghost predicate SkipHolds(w: World, asked: bool) {
    && SetBackup(SKIPPED) !in w.file && w.gtid != SKIPPED
    && (w.db.table.Some? ==> w.db.table.value.backup != SKIPPED)
    && (w.rec.TxReset? || w.rec.TxPurge? ==> w.rec.found != Some(SKIPPED))
    && (w.rec.TxRecord? ==> w.rec.gtid != SKIPPED)
    && (w.db.table.Some? && w.db.table.value.setGtid == SKIPPED ==> asked)
    && (w.reading ==> asked)
  }

  /** The event is a reconcile that reads a cluster that asks to skip the GTID. */
  predicate Asks(e: Event) { e.RecStep? && e.view.skip }

  lemma SkipRecStep(w: World, run: seq<Event>, view: View, asked: bool)
    requires SkipHolds(w, asked) && ReadHolds(w, run)
    ensures SkipHolds(Step(w, RecStep(view)), asked || view.skip)
  {
    hide WasRead;
  }

  lemma SkipInitStep(w: World, asked: bool)
    requires SkipHolds(w, asked)
    ensures SkipHolds(InitStepped(w), asked)
  {
    if w.pc < |w.file| { assert w.file[w.pc] in w.file; }
  }

  lemma SkipStep(w: World, run: seq<Event>, e: Event, asked: bool)
    requires SkipHolds(w, asked) && ReadHolds(w, run)
    ensures SkipHolds(Step(w, e), asked || Asks(e))
  {
    match e
    case PodRestart(config) =>
      hide InitFile, ReadHolds;
      MembersOfInitFile(config.(cloneFromBucket := false), w.db.table.None?, w.gtid, SetBackup(SKIPPED));
    case InitStep => SkipInitStep(w, asked);
    case RecStep(view) => SkipRecStep(w, run, view, asked);
    case _ => hide ReadHolds;
  }

  ghost predicate AskedIn(run: seq<Event>) {
    exists i :: 0 <= i < |run| && Asks(run[i])
  }

  lemma {:induction false} SkipAlways(host: string, gtid: string, config: Config, source: Option<string>,
                                      purged: Option<string>, run: seq<Event>)
    requires gtid != SKIPPED
    ensures SkipHolds(After(Fresh(host, gtid, config, source, purged), run), AskedIn(run))
  {
    if run == [] {
      MembersOfInitFile(config, true, gtid, SetBackup(SKIPPED));
    } else {
      var n := |run| - 1;
      var w := After(Fresh(host, gtid, config, source, purged), run[..n]);
      SkipAlways(host, gtid, config, source, purged, run[..n]);
      ReadAlways(host, gtid, config, source, purged, run[..n]);
      SkipStep(w, run[..n], run[n], AskedIn(run[..n]));
      assert AskedIn(run) <==> AskedIn(run[..n]) || Asks(run[n]);
    }
  }

  /** While a reconcile that was asked to skip goes on, and on a node that it configured, the GTID is marked so. */
  ghost predicate MarkedHolds(w: World) {
    && (w.reading && (w.rec.ReadSet? || w.rec.ChangeSource? || w.rec.StartReplication? || w.rec.MarkDone?) ==>
          w.db.table.Some? && w.db.table.value.setGtid == SKIPPED)
    && (w.reading ==> !(w.rec.ReadBackup? || w.rec.TxSelect? || w.rec.TxReset? || w.rec.TxPurge? || w.rec.TxRecord?))
    && (Configured(w) && w.markedSkip ==> w.db.table.value.setGtid == SKIPPED)
  }

  lemma MarkedRecStep(w: World, run: seq<Event>, view: View)
    requires Safe(w) && PhaseHolds(w) && ReadHolds(w, run) && MarkedHolds(w)
    ensures MarkedHolds(Step(w, RecStep(view)))
  {
    hide WasRead, Safe, Settled, PointedAt;
    assert SKIPPED != "" by { assert |SKIPPED| == 7; }
  }

  /** With no drop on an existing table, a statement of the file leaves the GTID's mark alone. */
  lemma MarkedInitStep(w: World)
    requires PhaseHolds(w) && FileHolds(w) && MarkedHolds(w)
    ensures MarkedHolds(InitStepped(w))
  {
    hide GoodFile, Settled, PointedAt;
    if w.pc < |w.file| { assert w.file[w.pc] in w.file[w.pc..]; }
  }

  lemma MarkedStep(w: World, run: seq<Event>, e: Event)
    requires Holds(w) && ReadHolds(w, run) && MarkedHolds(w)
    ensures MarkedHolds(Step(w, e))
  {
    match e
    case InitStep => MarkedInitStep(w);
    case RecStep(view) => MarkedRecStep(w, run, view);
    case _ => hide Holds, ReadHolds, InitFile;
  }

  lemma {:induction false} MarkedAlways(host: string, gtid: string, config: Config, source: Option<string>,
                                        purged: Option<string>, run: seq<Event>)
    requires forall i :: 0 <= i < |run| ==> HarmlessAt(Fresh(host, gtid, config, source, purged), run, i)
    ensures Holds(After(Fresh(host, gtid, config, source, purged), run))
    ensures MarkedHolds(After(Fresh(host, gtid, config, source, purged), run))
  {
    var start := Fresh(host, gtid, config, source, purged);
    FreshHolds(host, gtid, config, source, purged);
    RunHolds(start, run);
    if run != [] {
      var n := |run| - 1;
      forall i | 0 <= i < n ensures HarmlessAt(start, run[..n], i) {
        assert HarmlessAt(start, run, i) && run[..n][..i] == run[..i];
      }
      MarkedAlways(host, gtid, config, source, purged, run[..n]);
      ReadAlways(host, gtid, config, source, purged, run[..n]);
      MarkedStep(After(start, run[..n]), run[..n], run[n]);
    }
  }

  lemma ConfiguredWorld(w: World, run: seq<Event>, asked: bool)
    requires Safe(w) && ReadHolds(w, run) && SkipHolds(w, asked) && MarkedHolds(w) && Configured(w)
    ensures w.markedFor.Some? && WasRead(run, w.markedFor.value, w.markedSkip)
    ensures w.markedFor.value == w.host || w.db.source == w.markedFor
    ensures w.markedSkip ==> w.db.table.value.setGtid == SKIPPED
    ensures w.gtid != "" && w.db.table.value.setGtid != SKIPPED ==>
              w.db.table.value.setGtid == w.gtid && w.db.purged == Some(w.gtid)
    ensures w.db.table.value.setGtid == SKIPPED ==> asked
  {
    hide WasRead;
  }

  lemma {:induction false} StaysTheNode(w: World, run: seq<Event>)
    ensures After(w, run).host == w.host && After(w, run).gtid == w.gtid
  {
    if run != [] {
      hide InitFile, RecStepped, InitStepped;
      StaysTheNode(w, run[..|run| - 1]);
      StepStays(After(w, run[..|run| - 1]), run[|run| - 1]);
    }
  }

  lemma StepStays(w: World, e: Event)
    ensures Step(w, e).host == w.host && Step(w, e).gtid == w.gtid
  {
  }

  /** On every run from a first start without a harmful replay: the reconcile that configured a node read the master
      it is marked for, without a failover, and the skip annotation it is marked for. If it read the annotation, the
      GTID is marked as skipped. If not, and nothing was skipped before, the GTID of the backup, if there is one, has
      been purged and recorded. And the GTID is marked as skipped only if some reconcile of the run read the
      annotation. */
  lemma ConfiguredAsRead(host: string, gtid: string, config: Config, source: Option<string>, purged: Option<string>,
                         run: seq<Event>)
    requires forall i :: 0 <= i < |run| ==> HarmlessAt(Fresh(host, gtid, config, source, purged), run, i)
    requires gtid != "skipped" && Configured(After(Fresh(host, gtid, config, source, purged), run))
    ensures var w := After(Fresh(host, gtid, config, source, purged), run);
            var recorded := w.db.table.value.setGtid;
            && w.markedFor.Some? && WasRead(run, w.markedFor.value, w.markedSkip)
            && (w.markedFor.value == host || w.db.source == w.markedFor)
            && (w.markedSkip ==> recorded == "skipped")
            && (gtid != "" && recorded != "skipped" ==> recorded == gtid && w.db.purged == Some(gtid))
            && (recorded == "skipped" ==> exists i :: 0 <= i < |run| && run[i].RecStep? && run[i].view.skip)
  {
    MarkedAlways(host, gtid, config, source, purged, run);
    ReadAlways(host, gtid, config, source, purged, run);
    SkipAlways(host, gtid, config, source, purged, run);
    StaysTheNode(Fresh(host, gtid, config, source, purged), run);
    var w := After(Fresh(host, gtid, config, source, purged), run);
    hide After, InitFile, PhaseHolds, TableHolds, FileHolds, ReadHolds, SkipHolds, MarkedHolds, Safe, WasRead;
    ConfiguredWorld(w, run, AskedIn(run));
  }
}
