/**
 The forward-only migration runner. Each statement outside `apply_sql` commits on its own, so
 the process can die between any two of them and be started again; the log table is all it
 remembers. A `Fate` says where in one migration a run stopped, if it did.
 */
module Migrations {

  type Version = string

  datatype Status = Succeeded | Failed
  datatype LogRow = LogRow(version: Version, status: Status, completed: bool, error: bool)

  /**
   The database: which tables exist, the log, and two counters no table holds: how often each
   version's SQL was committed, and how often the process stopped after that commit but before
   the success mark, by dying there or because the mark itself raised.
   */
  datatype Db = Db(hasLog: bool, hasTenants: bool, log: seq<LogRow>, commits: multiset<Version>,
      lateDeaths: multiset<Version>)

  datatype Fate =
    | DiesBeforeInsert
    | DiesBeforeCommit
    | SqlFails(reported: bool)
    | DiesAfterCommit
    | MarkFails(reported: bool)
    | Succeeds

  datatype Startup = DiesAtOnce | BaselineFails | DiesBeforeBaselineRow | Starts

  /** One process run: how startup went, and what happened to each migration it reached. */
  datatype Attempt = Attempt(startup: Startup, fates: seq<Fate>)

  const BASELINE: Version := "baseline"

  // ---------------------------------------------------------------- statements

  function Applied(log: seq<LogRow>): (vs: set<Version>)
    ensures forall v :: v in vs <==> exists i :: 0 <= i < |log| && log[i].version == v && log[i].status.Succeeded?
  {
    set i | 0 <= i < |log| && log[i].status.Succeeded? :: log[i].version
  }

  predicate Open(r: LogRow, v: Version) {
    r.version == v && r.status.Failed? && !r.completed
  }

  /** `update ... set status = 'success' ... where version = .. and status = 'failed' and completed_at is null`. */
  function MarkSuccess(log: seq<LogRow>, v: Version): (log': seq<LogRow>)
    ensures |log'| == |log|
    ensures forall i :: 0 <= i < |log| ==> log'[i] == if Open(log[i], v)
            then LogRow(v, Succeeded, true, log[i].error) else log[i]
  {
    if log == [] then []
    else MarkSuccess(log[..|log| - 1], v) +
         [if Open(log[|log| - 1], v) then LogRow(v, Succeeded, true, log[|log| - 1].error) else log[|log| - 1]]
  }

  function MarkError(log: seq<LogRow>, v: Version): (log': seq<LogRow>)
    ensures |log'| == |log|
    ensures forall i :: 0 <= i < |log| ==> log'[i] == if Open(log[i], v) then log[i].(error := true) else log[i]
  {
    if log == [] then []
    else MarkError(log[..|log| - 1], v) + [if Open(log[|log| - 1], v)
        then log[|log| - 1].(error := true) else log[|log| - 1]]
  }

  /** The optimistic failure record inserted before a migration is tried. */
  function Logged(db: Db, v: Version): Db {
    db.(log := db.log + [LogRow(v, Failed, false, false)])
  }

  /** `run_migration` up to the point its fate lets it reach. */
  function RunOne(db: Db, v: Version, fate: Fate): (db': Db) {
    var logged := Logged(db, v);
    match fate
    case DiesBeforeInsert => db
    case DiesBeforeCommit => logged
    case SqlFails(reported) => if reported then logged.(log := MarkError(logged.log, v)) else logged
    case DiesAfterCommit => logged.(commits := db.commits + multiset{v}, lateDeaths := db.lateDeaths + multiset{v})
    case MarkFails(reported) =>
      logged.(commits := db.commits + multiset{v}, lateDeaths := db.lateDeaths + multiset{v},
              log := if reported then MarkError(logged.log, v) else logged.log)
    case Succeeds => logged.(commits := db.commits + multiset{v}, log := MarkSuccess(logged.log, v))
  }

  /** `pending_migrations`: the files not yet applied, in order. */
  function Pending(files: seq<Version>, applied: set<Version>): (p: seq<Version>) {
    if files == [] then []
    else (if files[0] in applied then [] else [files[0]]) + Pending(files[1..], applied)
  }

  /** The loop over pending migrations, stopped by the first that does not succeed. */
  function RunAll(db: Db, pending: seq<Version>, fates: seq<Fate>): (db': Db)
    decreases |pending|
  {
    if pending == [] || fates == [] then db
    else
      var db' := RunOne(db, pending[0], fates[0]);
      if fates[0].Succeeds? then RunAll(db', pending[1..], fates[1..]) else db'
  }

  /** The three-state detection at the top of `main`; the flag says whether the run goes on. */
  function Boot(db: Db, s: Startup): (r: (Db, bool)) {
    var baseline := LogRow(BASELINE, Succeeded, true, false);
    if s.DiesAtOnce? then (db, false)
    else if !db.hasLog && !db.hasTenants then
      if s.BaselineFails? then (db, false)
      else (db.(hasLog := true, hasTenants := true, log := [baseline]), s.Starts?)
    else if !db.hasLog then
      if s.DiesBeforeBaselineRow? then (db.(hasLog := true, log := []), false)
      else (db.(hasLog := true, log := [baseline]), s.Starts?)
    else (db, s.Starts?)
  }

  function Run(db: Db, files: seq<Version>, a: Attempt): (db': Db) {
    var (booted, on) := Boot(db, a.startup);
    if on then RunAll(booted, Pending(files, Applied(booted.log)), a.fates) else booted
  }

  function Runs(db: Db, files: seq<Version>, attempts: seq<Attempt>): (db': Db) {
    if attempts == [] then db else Run(Runs(db, files, attempts[..|attempts| - 1]), files, attempts[|attempts| - 1])
  }

  // ---------------------------------------------------------------- what each statement leaves

  /**
   Startup goes on with a log table in every state. A database that has one is left as it is; one that has none
   gets it with the baseline recorded, and the whole schema with it if it had no tables at all. Dying on the way
   leaves an empty database empty or complete, and an older one possibly with an empty log.
   */
  lemma BootEffect(db: Db, s: Startup)
    ensures var (booted, on) := Boot(db, s);
            && (on <==> s.Starts?)
            && booted.commits == db.commits && booted.lateDeaths == db.lateDeaths
            && (db.hasLog || s.DiesAtOnce? ==> booted == db)
            && (!db.hasLog && !db.hasTenants && s.BaselineFails? ==> booted == db)
            && (on ==> booted.hasLog && booted.hasTenants == (db.hasTenants || !db.hasLog))
            && (on && !db.hasLog ==> Applied(booted.log) == {BASELINE})
            && (!db.hasLog && !db.hasTenants && s.DiesBeforeBaselineRow? ==>
                  booted.hasLog && booted.hasTenants && Applied(booted.log) == {BASELINE})
            && (!db.hasLog && db.hasTenants && s.DiesBeforeBaselineRow? ==>
                  booted.hasLog && booted.hasTenants && booted.log == [])
  {
    if !db.hasLog {
      var log := [LogRow(BASELINE, Succeeded, true, false)];
      assert log[0].status.Succeeded?;
      assert Applied(log) == {BASELINE};
    }
  }

  /** The fates that come after the commit of the migration's SQL. */
  predicate Commits(fate: Fate) {
    fate.DiesAfterCommit? || fate.MarkFails? || fate.Succeeds?
  }

  /** Of the rows already there, only open failures of the same version are marked with the outcome. */
  lemma RunOneEarlierRow(db: Db, v: Version, fate: Fate, i: nat)
    requires i < |db.log|
    ensures |RunOne(db, v, fate).log| >= |db.log|
    ensures var r, r' := db.log[i], RunOne(db, v, fate).log[i];
            && r'.version == r.version
            && (r.version != v || r.status.Succeeded? || r.completed ==> r' == r)
            && (r.version == v && r.status.Failed? && !r.completed ==>
                  && (r'.status.Succeeded? <==> fate.Succeeds?) && (r'.completed <==> fate.Succeeds?)
                  && (r'.error <==> r.error || ((fate.SqlFails? || fate.MarkFails?) && fate.reported)))
  {
    assert Logged(db, v).log[i] == db.log[i];
  }

  /** A migration leaves one new row, marked by how far it came, and its SQL committed or not. */
  lemma RunOneEffect(db: Db, v: Version, fate: Fate)
    ensures var db' := RunOne(db, v, fate);
            && (fate.DiesBeforeInsert? ==> db' == db)
            && (!fate.DiesBeforeInsert? ==>
                  && |db'.log| == |db.log| + 1
                  && var row := db'.log[|db.log|];
                     && row.version == v
                     && (row.status.Succeeded? <==> fate.Succeeds?) && (row.completed <==> fate.Succeeds?)
                     && (row.error <==> (fate.SqlFails? || fate.MarkFails?) && fate.reported))
            && (forall u :: db'.commits[u] == db.commits[u] + if u == v && Commits(fate) then 1 else 0)
            && (forall u :: db'.lateDeaths[u] == db.lateDeaths[u] + if u == v && Commits(fate) && !fate.Succeeds?
                then 1 else 0)
            && db'.hasLog == db.hasLog && db'.hasTenants == db.hasTenants
  {
  }

  // ---------------------------------------------------------------- invariant

  /** A migration directory: no version twice, and none called like the baseline record. */
  predicate Directory(files: seq<Version>) {
    BASELINE !in files && forall i, j :: 0 <= i < j < |files| ==> files[i] != files[j]
  }

  /** Exactly the first `k` files are logged as applied. */
  ghost predicate AppliedPrefix(log: seq<LogRow>, files: seq<Version>, k: nat) {
    k <= |files| && forall i :: 0 <= i < |files| ==> (files[i] in Applied(log) <==> i < k)
  }

  ghost predicate NeverBoth(log: seq<LogRow>) {
    forall i, j :: 0 <= i < |log| && 0 <= j < |log| && log[i].version == log[j].version ==>
        log[i].status == log[j].status
  }

  ghost predicate FailedIsOpen(log: seq<LogRow>) {
    forall i :: 0 <= i < |log| && log[i].status.Failed? ==> !log[i].completed
  }

  /** Commits since the database was first seen with `before` applied. */
  ghost predicate CommitsCounted(db: Db, before: set<Version>) {
    && before <= Applied(db.log)
    && forall v :: db.commits[v] == db.lateDeaths[v] + if v in Applied(db.log) && v !in before &&
        v != BASELINE then 1 else 0
  }

  ghost predicate Consistent(db: Db, files: seq<Version>, before: set<Version>, k: nat) {
    && AppliedPrefix(db.log, files, k)
    && NeverBoth(db.log) && FailedIsOpen(db.log)
    && CommitsCounted(db, before)
    && (forall i :: 0 <= i < |db.log| && db.log[i].status.Failed? ==> db.log[i].version in files)
    && (!db.hasLog ==> db.log == [])
  }

  lemma AppliedAfterOpen(log: seq<LogRow>, r: LogRow)
    requires r.status.Failed?
    ensures Applied(log + [r]) == Applied(log)
  {
    forall v
      ensures v in Applied(log + [r]) <==> v in Applied(log)
    {
      if v in Applied(log) {
        var i :| 0 <= i < |log| && log[i].version == v && log[i].status.Succeeded?;
        assert (log + [r])[i] == log[i];
      }
      if v in Applied(log + [r]) {
        var i :| 0 <= i < |log + [r]| && (log + [r])[i].version == v && (log + [r])[i].status.Succeeded?;
        assert log[i] == (log + [r])[i];
      }
    }
  }

  lemma LoggedConsistent(db: Db, files: seq<Version>, before: set<Version>, k: nat)
    requires Directory(files) && Consistent(db, files, before, k) && db.hasLog && k < |files|
    ensures Consistent(Logged(db, files[k]), files, before, k)
    ensures Applied(Logged(db, files[k]).log) == Applied(db.log)
  {
    AppliedAfterOpen(db.log, LogRow(files[k], Failed, false, false));
    OpenedRows(db.log, files[k]);
  }

  lemma AppliedAfterError(log: seq<LogRow>, v: Version)
    ensures Applied(MarkError(log, v)) == Applied(log)
  {
  }

  lemma ErrorRows(log: seq<LogRow>, v: Version)
    requires NeverBoth(log) && FailedIsOpen(log)
    ensures NeverBoth(MarkError(log, v)) && FailedIsOpen(MarkError(log, v))
  {
  }

  lemma ErrorConsistent(db: Db, files: seq<Version>, before: set<Version>, k: nat, v: Version)
    requires Consistent(db, files, before, k)
    ensures Consistent(db.(log := MarkError(db.log, v)), files, before, k)
  {
    AppliedAfterError(db.log, v);
    ErrorRows(db.log, v);
  }

  lemma AppliedAfterSuccess(log: seq<LogRow>, v: Version, at: nat)
    requires at < |log| && Open(log[at], v)
    ensures Applied(MarkSuccess(log, v)) == Applied(log) + {v}
  {
    assert MarkSuccess(log, v)[at].status.Succeeded?;
  }

  lemma SuccessRows(log: seq<LogRow>, v: Version)
    requires NeverBoth(log) && FailedIsOpen(log)
    ensures NeverBoth(MarkSuccess(log, v)) && FailedIsOpen(MarkSuccess(log, v))
  {
  }

  lemma SuccessPrefix(applied: set<Version>, files: seq<Version>, k: nat)
    requires Directory(files) && k < |files| && forall i :: 0 <= i < |files| ==> (files[i] in applied <==> i < k)
    ensures forall i :: 0 <= i < |files| ==> (files[i] in applied + {files[k]} <==> i < k + 1)
  {
  }

  lemma SuccessCounted(db: Db, before: set<Version>, v: Version, log: seq<LogRow>)
    requires CommitsCounted(db, before) && v !in Applied(db.log) && v != BASELINE &&
             Applied(log) == Applied(db.log) + {v}
    ensures CommitsCounted(db.(commits := db.commits + multiset{v}, log := log), before)
  {
  }

  lemma SuccessConsistent(db: Db, files: seq<Version>, before: set<Version>, k: nat, at: nat)
    requires Directory(files) && Consistent(db, files, before, k) && db.hasLog && k < |files|
    requires at < |db.log| && Open(db.log[at], files[k])
    ensures Consistent(db.(commits := db.commits + multiset{files[k]}, log := MarkSuccess(db.log, files[k])), files,
            before, k + 1)
  {
    AppliedAfterSuccess(db.log, files[k], at);
    SuccessRows(db.log, files[k]);
    SuccessPrefix(Applied(db.log), files, k);
    SuccessCounted(db, before, files[k], MarkSuccess(db.log, files[k]));
  }

  /** Running the next file, whatever its fate, extends the applied prefix by one on success and leaves it otherwise. */
  lemma RunOneConsistent(db: Db, files: seq<Version>, before: set<Version>, k: nat, fate: Fate)
    requires Directory(files) && Consistent(db, files, before, k) && db.hasLog && k < |files|
    ensures Consistent(RunOne(db, files[k], fate), files, before, if fate.Succeeds? then k + 1 else k)
    ensures RunOne(db, files[k], fate).hasLog
  {
    var v := files[k];
    LoggedConsistent(db, files, before, k);
    match fate
    case SqlFails(reported) =>
      ErrorConsistent(Logged(db, v), files, before, k, v);
    case MarkFails(reported) =>
      var late := Logged(db, v).(commits := db.commits + multiset{v}, lateDeaths := db.lateDeaths + multiset{v});
      assert Consistent(late, files, before, k);
      ErrorConsistent(late, files, before, k, v);
    case Succeeds =>
      SuccessConsistent(Logged(db, v), files, before, k, |db.log|);
    case _ =>
  }

  lemma OpenedRows(log: seq<LogRow>, v: Version)
    requires v !in Applied(log) && NeverBoth(log) && FailedIsOpen(log)
    ensures NeverBoth(log + [LogRow(v, Failed, false, false)]) && FailedIsOpen(log + [LogRow(v, Failed, false, false)])
  {
  }

  /** With an applied prefix of length `k`, the pending list is the rest of the directory. */
  lemma {:induction false} PendingIsRest(files: seq<Version>, applied: set<Version>, k: nat)
    requires k <= |files| && forall i :: 0 <= i < |files| ==> (files[i] in applied <==> i < k)
    ensures Pending(files, applied) == files[k..]
    decreases |files|
  {
    if files != [] {
      if k > 0 {
        assert forall i :: 0 <= i < |files[1..]| ==> files[1..][i] == files[i + 1];
        PendingIsRest(files[1..], applied, k - 1);
      } else {
        assert forall i :: 0 <= i < |files[1..]| ==> files[1..][i] == files[i + 1];
        PendingIsRest(files[1..], applied, 0);
      }
    }
  }

  lemma {:induction false} RunAllConsistent(db: Db, files: seq<Version>, before: set<Version>, k: nat,
                                            fates: seq<Fate>)
    returns (k': nat)
    requires Directory(files) && Consistent(db, files, before, k) && db.hasLog
    ensures k <= k' && Consistent(RunAll(db, files[k..], fates), files, before, k')
    ensures |fates| >= |files| - k && (forall i :: 0 <= i < |fates| ==> fates[i].Succeeds?) ==> k' == |files|
    decreases |files| - k
  {
    k' := k;
    if k < |files| && fates != [] {
      RunOneConsistent(db, files, before, k, fates[0]);
      assert files[k..][0] == files[k] && files[k..][1..] == files[k + 1..];
      if fates[0].Succeeds? {
        k' := RunAllConsistent(RunOne(db, files[k], fates[0]), files, before, k + 1, fates[1..]);
      }
    }
  }

  lemma BootConsistent(db: Db, files: seq<Version>, before: set<Version>, k: nat, s: Startup)
    requires Directory(files) && Consistent(db, files, before, k)
    ensures Consistent(Boot(db, s).0, files, before, k)
    ensures Boot(db, s).1 ==> Boot(db, s).0.hasLog
  {
  }

  /**
   Across any sequence of runs, deaths and restarts over one directory: the versions logged as
   applied are an initial segment of the files that never shrinks, no version is logged both
   ways, and the SQL of each version has been committed exactly once per late death, plus once
   if it has been logged as applied since the start.
   */
  lemma {:induction false} RunsStayConsistent(db: Db, files: seq<Version>, before: set<Version>, k: nat,
                                              attempts: seq<Attempt>)
    returns (k': nat)
    requires Directory(files) && Consistent(db, files, before, k)
    ensures k <= k' && Consistent(Runs(db, files, attempts), files, before, k')
    decreases |attempts|
  {
    if attempts == [] {
      k' := k;
    } else {
      var last := |attempts| - 1;
      var mid := Runs(db, files, attempts[..last]);
      k' := RunsStayConsistent(db, files, before, k, attempts[..last]);
      BootConsistent(mid, files, before, k', attempts[last].startup);
      var (booted, on) := Boot(mid, attempts[last].startup);
      if on {
        PendingIsRest(files, Applied(booted.log), k');
        k' := RunAllConsistent(booted, files, before, k', attempts[last].fates);
      }
    }
  }

  /**
   A database without a log, fresh or older than the log, starts out consistent; so all the above holds
   of its whole life.
   */
  lemma LifeOfDatabase(hasTenants: bool, files: seq<Version>, attempts: seq<Attempt>) returns (k: nat)
    requires Directory(files)
    ensures Consistent(Runs(Db(false, hasTenants, [], multiset{}, multiset{}), files, attempts), files, {}, k)
  {
    var db := Db(false, hasTenants, [], multiset{}, multiset{});
    assert Applied(db.log) == {};
    k := RunsStayConsistent(db, files, {}, 0, attempts);
  }

  /** A migration's SQL is committed at most once more than the process died between its commit and its mark. */
  lemma CommittedOncePerLateDeath(db: Db, files: seq<Version>, k: nat, attempts: seq<Attempt>, v: Version)
    requires Directory(files) && Consistent(db, files, Applied(db.log), k)
    ensures Runs(db, files, attempts).commits[v] <= Runs(db, files, attempts).lateDeaths[v] + 1
    ensures v in Applied(db.log) ==> Runs(db, files, attempts).commits[v] == Runs(db, files, attempts).lateDeaths[v]
  {
    var k' := RunsStayConsistent(db, files, Applied(db.log), k, attempts);
  }

  /** However often it was interrupted before, one undisturbed run applies everything that is left. */
  lemma UndisturbedRunFinishes(db: Db, files: seq<Version>, before: set<Version>, k: nat, fates: seq<Fate>)
    requires Directory(files) && Consistent(db, files, before, k)
    requires |fates| >= |files| && forall i :: 0 <= i < |fates| ==> fates[i].Succeeds?
    ensures forall i :: 0 <= i < |files| ==> files[i] in Applied(Run(db, files, Attempt(Starts, fates)).log)
  {
    BootConsistent(db, files, before, k, Starts);
    var (booted, on) := Boot(db, Starts);
    PendingIsRest(files, Applied(booted.log), k);
    var k' := RunAllConsistent(booted, files, before, k, fates);
  }

  // ---------------------------------------------------------------- the runner in place

  class Runner {
    var db: Db

    constructor (start: Db)
      ensures db == start
    {
      db := start;
    }

    /** `run_migration`: statement by statement; returns whether the process is still alive. */
    method RunMigration(v: Version, fate: Fate) returns (alive: bool)
      modifies this
      ensures db == RunOne(old(db), v, fate)
      ensures alive <==> fate.Succeeds?
    {
      alive := false;
      if fate.DiesBeforeInsert? {
        return;
      }
      db := db.(log := db.log + [LogRow(v, Failed, false, false)]);
      if fate.DiesBeforeCommit? {
        return;
      }
      if fate.SqlFails? {
        if fate.reported {
          db := db.(log := MarkError(db.log, v));
        }
        return;
      }
      db := db.(commits := db.commits + multiset{v});
      if fate.DiesAfterCommit? || fate.MarkFails? {
        db := db.(lateDeaths := db.lateDeaths + multiset{v});
        if fate.MarkFails? && fate.reported {
          db := db.(log := MarkError(db.log, v));
        }
        return;
      }
      db := db.(log := MarkSuccess(db.log, v));
      alive := true;
    }

    /** The loop of `pending_migrations`. */
    method PendingMigrations(files: seq<Version>, applied: set<Version>) returns (pending: seq<Version>)
      ensures pending == Pending(files, applied)
    {
      pending := [];
      for i := 0 to |files|
        invariant pending + Pending(files[i..], applied) == Pending(files, applied)
      {
        assert files[i..][1..] == files[i + 1..];
        if files[i] !in applied {
          pending := pending + [files[i]];
        }
      }
    }

    /** `main`, from detection to the last migration it reaches. */
    method Migrate(files: seq<Version>, a: Attempt) returns (finished: bool)
      modifies this
      ensures db == Run(old(db), files, a)
      ensures finished <==>
              var (booted, on) := Boot(old(db), a.startup);
              var n := |Pending(files, Applied(booted.log))|;
              on && n <= |a.fates| && forall i :: 0 <= i < n ==> a.fates[i].Succeeds?
    {
      var (booted, on) := Boot(db, a.startup);
      db := booted;
      if !on {
        return false;
      }
      var pending := PendingMigrations(files, Applied(db.log));
      var i := 0;
      while i < |pending|
        invariant 0 <= i <= |pending| && i <= |a.fates|
        invariant forall j :: 0 <= j < i ==> a.fates[j].Succeeds?
        invariant RunAll(booted, pending, a.fates) == RunAll(db, pending[i..], a.fates[i..])
      {
        if i == |a.fates| {
          return false;
        }
        var alive := RunMigration(pending[i], a.fates[i]);
        assert pending[i..][1..] == pending[i + 1..] && a.fates[i..][1..] == a.fates[i + 1..];
        if !alive {
          return false;
        }
        i := i + 1;
      }
      finished := true;
    }
  }
}
