/**
 Restoring a backup with every primitive file operation allowed to fail
 (app/maintenance/backup.py). A database file holds pages and its write-ahead log holds frames
 that override them; only that logical content matters to the application.
 */
module Restore {
  import opened Prelude

  type Pages = map<nat, int>

  datatype Content = Database(pages: Pages) | Log(frames: Pages) | Text(id: int) | Partial

  /** The contents of each path involved; None where there is no file. */
  datatype Files = Files(
    db: Option<Content>, wal: Option<Content>, shm: Option<Content>, env: Option<Content>,
    dbArchive: Option<Content>, envArchive: Option<Content>,
    dbRollback: Option<Content>, envRollback: Option<Content>,
    dbStage: Option<Content>, envStage: Option<Content>,
    parkedWal: Option<Content>, parkedShm: Option<Content>)

  ghost predicate NoTemporaries(f: Files) {
    && f.dbRollback.None? && f.envRollback.None? && f.dbStage.None? && f.envStage.None?
    && f.parkedWal.None? && f.parkedShm.None?
  }

  function PagesOf(c: Option<Content>): Pages {
    if c.Some? && c.value.Database? then c.value.pages else map[]
  }

  function FramesOf(c: Option<Content>): Pages {
    if c.Some? && c.value.Log? then c.value.frames else map[]
  }

  /** What a reader of the database sees: the frames of a log beside it replayed over its pages. */
  function Logical(f: Files): Option<Pages> {
    if f.db.None? then None else Some(PagesOf(f.db) + FramesOf(f.wal))
  }

  /** Replaying a log over a snapshot that already contains it changes nothing. */
  lemma ReplayIsIdempotent(pages: Pages, frames: Pages)
    ensures (pages + frames) + frames == pages + frames
  {
  }

  /** The files a verified backup and a running installation start from. */
  ghost predicate Initial(f: Files) {
    && NoTemporaries(f)
    && f.dbArchive.Some? && f.dbArchive.value.Database?
    && (f.db.Some? ==> f.db.value.Database?)
  }

  /** One constructor for each place a primitive is called; the C operations compensate. */
  datatype Op =
    | MakeDbRollback | ClearDbRollback | SnapshotDb | ChmodDbRollback
    | MakeEnvRollback | CopyEnvRollback | ChmodEnvRollback
    | MakeDbStage | CopyDbStage | ChmodDbStage | CheckDbStage
    | MakeEnvStage | CopyEnvStage | ChmodEnvStage
    | ParkWal | ParkShm
    | ReplaceDb | ReplaceEnv | CheckDb
    | CDropDbStage | CDropEnvStage | CUnparkWal
    | CRestoreDb | CRestoreEnv | CRestoreWal | CRestoreShm
    | CDiscardWal | CDiscardShm | CUnlinkDbStage | CUnlinkEnvStage | CUnlinkDbRollback | CUnlinkEnvRollback

  predicate Compensates(op: Op) {
    match op
    case CDropDbStage => true
    case CDropEnvStage => true
    case CUnparkWal => true
    case CRestoreDb => true
    case CRestoreEnv => true
    case CRestoreWal => true
    case CRestoreShm => true
    case CDiscardWal => true
    case CDiscardShm => true
    case CUnlinkDbStage => true
    case CUnlinkEnvStage => true
    case CUnlinkDbRollback => true
    case CUnlinkEnvRollback => true
    case _ => false
  }

  /** What an operation does to the files. A failed copy leaves a partial destination. */
  function Perform(f: Files, op: Op, fails: bool): Files {
    match op
    case SnapshotDb => f.(dbRollback := Some(if fails || f.db.None? then Partial else Database(Logical(f).value)))
    case CopyEnvRollback => f.(envRollback := if fails then Some(Partial) else f.env)
    case CopyDbStage => f.(dbStage := if fails then Some(Partial) else f.dbArchive)
    case CopyEnvStage => f.(envStage := if fails then Some(Partial) else f.envArchive)
    case _ =>
      if fails then f
      else match op
        case MakeDbRollback => f.(dbRollback := Some(Partial))
        case ClearDbRollback => f.(dbRollback := None)
        case MakeEnvRollback => f.(envRollback := Some(Partial))
        case MakeDbStage => f.(dbStage := Some(Partial))
        case MakeEnvStage => f.(envStage := Some(Partial))
        case ParkWal => f.(parkedWal := f.wal, wal := None)
        case ParkShm => f.(parkedShm := f.shm, shm := None)
        case ReplaceDb => f.(db := f.dbStage, dbStage := None)
        case ReplaceEnv => f.(env := f.envStage, envStage := None)
        case CDropDbStage => f.(dbStage := None)
        case CDropEnvStage => f.(envStage := None)
        case CUnparkWal => f.(wal := f.parkedWal, parkedWal := None)
        // The rollback copy is moved back; where there was no file before, the new one is removed.
        case CRestoreDb => f.(db := f.dbRollback, dbRollback := None)
        case CRestoreEnv => f.(env := f.envRollback, envRollback := None)
        case CRestoreWal => f.(wal := f.parkedWal, parkedWal := None)
        case CRestoreShm => f.(shm := f.parkedShm, parkedShm := None)
        case CDiscardWal => f.(parkedWal := None)
        case CDiscardShm => f.(parkedShm := None)
        case CUnlinkDbStage => f.(dbStage := None)
        case CUnlinkEnvStage => f.(envStage := None)
        case CUnlinkDbRollback => f.(dbRollback := None)
        case CUnlinkEnvRollback => f.(envRollback := None)
        case _ => f
  }

  /** Whether a forward operation is reached when nothing before it fails. */
  predicate Planned(op: Op, start: Files) {
    match op
    case MakeDbRollback => start.db.Some?
    case ClearDbRollback => start.db.Some?
    case SnapshotDb => start.db.Some?
    case ChmodDbRollback => start.db.Some?
    case MakeEnvRollback => start.envArchive.Some? && start.env.Some?
    case CopyEnvRollback => start.envArchive.Some? && start.env.Some?
    case ChmodEnvRollback => start.envArchive.Some? && start.env.Some?
    case MakeEnvStage => start.envArchive.Some?
    case CopyEnvStage => start.envArchive.Some?
    case ChmodEnvStage => start.envArchive.Some?
    case ReplaceEnv => start.envArchive.Some?
    case ParkWal => start.wal.Some?
    case ParkShm => start.shm.Some?
    case _ => !Compensates(op)
  }

  predicate DatabaseSnapshotFine(start: Files, faults: Op -> bool) {
    start.db.Some? ==>
      !faults(MakeDbRollback) && !faults(ClearDbRollback) && !faults(SnapshotDb) && !faults(ChmodDbRollback)
  }

  predicate EnvironmentSnapshotFine(start: Files, faults: Op -> bool) {
    start.envArchive.Some? && start.env.Some? ==>
      !faults(MakeEnvRollback) && !faults(CopyEnvRollback) && !faults(ChmodEnvRollback)
  }

  predicate DatabaseStageFine(faults: Op -> bool) {
    !faults(MakeDbStage) && !faults(CopyDbStage) && !faults(ChmodDbStage) && !faults(CheckDbStage)
  }

  predicate EnvironmentStageFine(start: Files, faults: Op -> bool) {
    start.envArchive.Some? ==> !faults(MakeEnvStage) && !faults(CopyEnvStage) && !faults(ChmodEnvStage)
  }

  predicate ParkingFine(start: Files, faults: Op -> bool) {
    (start.wal.Some? ==> !faults(ParkWal)) && (start.shm.Some? ==> !faults(ParkShm))
  }

  predicate SwitchFine(start: Files, faults: Op -> bool) {
    !faults(ReplaceDb) && (start.envArchive.Some? ==> !faults(ReplaceEnv)) && !faults(CheckDb)
  }

  ghost predicate NothingPlannedFails(start: Files, faults: Op -> bool) {
    forall op :: Planned(op, start) ==> !faults(op)
  }

  /** The operations of the six stages are all the planned ones. */
  lemma StagesCoverThePlan(start: Files, faults: Op -> bool)
    ensures NothingPlannedFails(start, faults) <==>
              (&& DatabaseSnapshotFine(start, faults) && EnvironmentSnapshotFine(start, faults)
               && DatabaseStageFine(faults) && EnvironmentStageFine(start, faults)
               && ParkingFine(start, faults) && SwitchFine(start, faults))
  {
    if NothingPlannedFails(start, faults) {
      assert Planned(MakeDbStage, start) && Planned(CopyDbStage, start) && Planned(ChmodDbStage, start);
      assert Planned(CheckDbStage, start) && Planned(ReplaceDb, start) && Planned(CheckDb, start);
    }
  }

  // ---- how far the try block gets ----

  predicate SnapshotsFine(start: Files, faults: Op -> bool) {
    DatabaseSnapshotFine(start, faults) && EnvironmentSnapshotFine(start, faults)
  }

  predicate StagesFine(start: Files, faults: Op -> bool) {
    SnapshotsFine(start, faults) && DatabaseStageFine(faults) && EnvironmentStageFine(start, faults)
  }

  predicate ReadyToReplace(start: Files, faults: Op -> bool) {
    StagesFine(start, faults) && ParkingFine(start, faults)
  }

  /** The archived database reaches its place. */
  predicate DatabaseReplaced(start: Files, faults: Op -> bool) {
    ReadyToReplace(start, faults) && !faults(ReplaceDb)
  }

  predicate EnvironmentReplaced(start: Files, faults: Op -> bool) {
    DatabaseReplaced(start, faults) && start.envArchive.Some? && !faults(ReplaceEnv)
  }

  // ---- the files no variable of restore_backup names ----

  /** The rollback name made but not cleared. */
  predicate LeaksRollbackName(start: Files, faults: Op -> bool) {
    start.db.Some? && !faults(MakeDbRollback) && faults(ClearDbRollback)
  }

  predicate LeaksDatabaseStage(faults: Op -> bool) {
    !faults(MakeDbStage) && (faults(CopyDbStage) || faults(ChmodDbStage)) && faults(CDropDbStage)
  }

  predicate LeaksEnvironmentStage(start: Files, faults: Op -> bool) {
    && start.envArchive.Some? && !faults(MakeEnvStage)
    && (faults(CopyEnvStage) || faults(ChmodEnvStage)) && faults(CDropEnvStage)
  }

  /** The log parked, the second sidecar not, and the first one not put back. */
  predicate StrandsLog(start: Files, faults: Op -> bool) {
    start.wal.Some? && start.shm.Some? && !faults(ParkWal) && faults(ParkShm) && faults(CUnparkWal)
  }

  datatype Leaks = Leaks(rollbackName: bool, dbStage: bool, envStage: bool, log: bool)

  const NO_LEAK := Leaks(false, false, false, false)

  function LeaksOf(start: Files, faults: Op -> bool): Leaks {
    Leaks(
      LeaksRollbackName(start, faults),
      SnapshotsFine(start, faults) && LeaksDatabaseStage(faults),
      SnapshotsFine(start, faults) && DatabaseStageFine(faults) && LeaksEnvironmentStage(start, faults),
      StagesFine(start, faults) && StrandsLog(start, faults))
  }

  /** Which of its temporaries restore_backup knows of, and how far it got. */
  datatype Locals = Locals(
    dbRollback: bool, envRollback: bool, dbStage: bool, envStage: bool,
    parkedWal: bool, parkedShm: bool, dbReplaced: bool, envReplaced: bool)

  const NOTHING_DONE := Locals(false, false, false, false, false, false, false, false)

  /** How the files relate to the start and the locals, whatever has failed so far. */
  ghost predicate Tracks(start: Files, f: Files, v: Locals, leaks: Leaks) {
    && f.dbArchive == start.dbArchive && f.envArchive == start.envArchive
    && f.db == (if v.dbReplaced then start.dbArchive else start.db)
    && f.env == (if v.envReplaced then start.envArchive else start.env)
    && f.wal == (if v.parkedWal || leaks.log then None else start.wal)
    && f.parkedWal == (if v.parkedWal || leaks.log then start.wal else None)
    && f.shm == (if v.parkedShm then None else start.shm)
    && f.parkedShm == (if v.parkedShm then start.shm else None)
    && (f.dbRollback.Some? ==> v.dbRollback || leaks.rollbackName)
    && (f.envRollback.Some? ==> v.envRollback)
    && (f.dbStage.Some? ==> v.dbStage || leaks.dbStage)
    && (f.envStage.Some? ==> v.envStage || leaks.envStage)
    && (v.envReplaced ==> start.envArchive.Some?)
    && (leaks.rollbackName ==> f.dbRollback.Some? && !v.dbRollback)
    && (leaks.dbStage ==> f.dbStage.Some? && !v.dbStage)
    && (leaks.envStage ==> f.envStage.Some? && !v.envStage)
    && (leaks.log ==> start.wal.Some? && !v.parkedWal)
  }

  /** The snapshots the compensation would put back are complete. */
  ghost predicate RollbacksReady(start: Files, f: Files, v: Locals) {
    && (v.dbRollback <==> start.db.Some?) && (v.envRollback <==> start.env.Some? && start.envArchive.Some?)
    && (if start.db.Some? then v.dbRollback && f.dbRollback == Some(Database(Logical(start).value))
        else f.dbRollback.None?)
    && (if start.env.Some? && start.envArchive.Some? then v.envRollback && f.envRollback == start.env
        else f.envRollback.None?)
  }

  ghost predicate StagesReady(start: Files, f: Files, v: Locals) {
    && v.dbStage && f.dbStage == start.dbArchive
    && (v.envStage <==> start.envArchive.Some?) && f.envStage == start.envArchive
  }

  /** What the try block leaves. */
  ghost predicate Tried(start: Files, f: Files, v: Locals, faults: Op -> bool) {
    && Tracks(start, f, v, LeaksOf(start, faults))
    && (v.dbReplaced <==> DatabaseReplaced(start, faults))
    && (v.envReplaced <==> EnvironmentReplaced(start, faults))
    && (v.parkedWal <==> ReadyToReplace(start, faults) && start.wal.Some?)
    && (v.parkedShm <==> ReadyToReplace(start, faults) && start.shm.Some?)
    && (v.dbReplaced ==> RollbacksReady(start, f, v) && !v.dbStage)
    && (v.dbReplaced ==> (v.envStage <==> start.envArchive.Some? && !v.envReplaced))
  }

  // ---- the except block ----

  predicate DatabaseBack(v: Locals, faults: Op -> bool) {
    !v.dbReplaced || !faults(CRestoreDb)
  }

  predicate EnvironmentBack(v: Locals, faults: Op -> bool) {
    DatabaseBack(v, faults) && (!v.envReplaced || !faults(CRestoreEnv))
  }

  predicate LogBack(v: Locals, faults: Op -> bool) {
    EnvironmentBack(v, faults) && (!v.parkedWal || !faults(CRestoreWal))
  }

  /** The except block stops at its first failure; what it has not reached stays as it is. */
  function PutBack(f: Files, v: Locals, faults: Op -> bool): Files {
    var db := v.dbReplaced && !faults(CRestoreDb);
    var env := DatabaseBack(v, faults) && v.envReplaced && !faults(CRestoreEnv);
    var wal := EnvironmentBack(v, faults) && v.parkedWal && !faults(CRestoreWal);
    var shm := LogBack(v, faults) && v.parkedShm && !faults(CRestoreShm);
    f.(db := if db then f.dbRollback else f.db, dbRollback := if db then None else f.dbRollback,
       env := if env then f.envRollback else f.env, envRollback := if env then None else f.envRollback,
       wal := if wal then f.parkedWal else f.wal, parkedWal := if wal then None else f.parkedWal,
       shm := if shm then f.parkedShm else f.shm, parkedShm := if shm then None else f.parkedShm)
  }

  /** The rollback copies the except block has moved are no longer its variables' business. */
  function Remaining(v: Locals, faults: Op -> bool): Locals {
    v.(dbRollback := v.dbRollback && !(v.dbReplaced && !faults(CRestoreDb)),
       envRollback := v.envRollback && !(DatabaseBack(v, faults) && v.envReplaced && !faults(CRestoreEnv)))
  }

  // ---- the finally block ----

  predicate PastLog(v: Locals, succeeded: bool, faults: Op -> bool) {
    !(succeeded && v.parkedWal && faults(CDiscardWal))
  }

  predicate PastSidecars(v: Locals, succeeded: bool, faults: Op -> bool) {
    PastLog(v, succeeded, faults) && !(succeeded && v.parkedShm && faults(CDiscardShm))
  }

  predicate PastDbStage(v: Locals, succeeded: bool, faults: Op -> bool) {
    PastSidecars(v, succeeded, faults) && !(v.dbStage && faults(CUnlinkDbStage))
  }

  predicate PastStages(v: Locals, succeeded: bool, faults: Op -> bool) {
    PastDbStage(v, succeeded, faults) && !(v.envStage && faults(CUnlinkEnvStage))
  }

  predicate PastDbRollback(v: Locals, succeeded: bool, faults: Op -> bool) {
    PastStages(v, succeeded, faults) && !(v.dbRollback && faults(CUnlinkDbRollback))
  }

  predicate PastAll(v: Locals, succeeded: bool, faults: Op -> bool) {
    PastDbRollback(v, succeeded, faults) && !(v.envRollback && faults(CUnlinkEnvRollback))
  }

  function Cleared(c: Option<Content>, cleared: bool): Option<Content> {
    if cleared then None else c
  }

  /**
   The finally block discards parked sidecars after a success, then every known temporary, up to
   its first failure.
   */
  function Swept(f: Files, v: Locals, succeeded: bool, faults: Op -> bool): Files {
    f.(parkedWal := Cleared(f.parkedWal, succeeded && v.parkedWal && !faults(CDiscardWal)),
       parkedShm := Cleared(
         f.parkedShm, PastLog(v, succeeded, faults) && succeeded && v.parkedShm && !faults(CDiscardShm)),
       dbStage := Cleared(f.dbStage, PastSidecars(v, succeeded, faults) && v.dbStage && !faults(CUnlinkDbStage)),
       envStage := Cleared(f.envStage, PastDbStage(v, succeeded, faults) && v.envStage && !faults(CUnlinkEnvStage)),
       dbRollback := Cleared(
         f.dbRollback, PastStages(v, succeeded, faults) && v.dbRollback && !faults(CUnlinkDbRollback)),
       envRollback := Cleared(
         f.envRollback, PastDbRollback(v, succeeded, faults) && v.envRollback && !faults(CUnlinkEnvRollback)))
  }

  /** The files and locals a run of the try block ends with decide everything that follows. */
  function Final(f: Files, v: Locals, succeeded: bool, faults: Op -> bool): Files {
    if succeeded then Swept(f, v, true, faults) else Swept(PutBack(f, v, faults), Remaining(v, faults), false, faults)
  }

  /** The cleanup after a success: the sidecars there were and the rollback copies made for it. */
  predicate CleanUpFine(start: Files, faults: Op -> bool) {
    && (start.wal.Some? ==> !faults(CDiscardWal))
    && (start.shm.Some? ==> !faults(CDiscardShm))
    && (start.db.Some? ==> !faults(CUnlinkDbRollback))
    && (start.env.Some? && start.envArchive.Some? ==> !faults(CUnlinkEnvRollback))
  }

  lemma CleanUpFineIff(start: Files, f: Files, v: Locals, faults: Op -> bool)
    requires Tried(start, f, v, faults) && NothingPlannedFails(start, faults)
    ensures PastAll(v, true, faults) <==> CleanUpFine(start, faults)
  {
    StagesCoverThePlan(start, faults);
  }

  /** What restore_backup leaves, whatever fails. */
  ghost predicate Ended(start: Files, end: Files, faults: Op -> bool) {
    exists f, v ::
      && Tried(start, f, v, faults)
      && (NothingPlannedFails(start, faults) ==> f.wal.None? && f.shm.None? && f.dbStage.None? && f.envStage.None?)
      && end == Final(f, v, NothingPlannedFails(start, faults), faults)
  }

  class Disk {
    var files: Files
    const faults: Op -> bool

    constructor (initial: Files, faults: Op -> bool)
      ensures files == initial && this.faults == faults
    {
      files := initial;
      this.faults := faults;
    }

    /** One primitive: it either succeeds or raises. */
    method Do(op: Op) returns (ok: bool)
      modifies this
      ensures ok <==> !faults(op)
      ensures files == Perform(old(files), op, faults(op))
    {
      files := Perform(files, op, faults(op));
      return !faults(op);
    }

    method SnapshotDatabase() returns (ok: bool, v: Locals)
      requires Initial(files)
      modifies this
      ensures v == NOTHING_DONE.(dbRollback := v.dbRollback)
      ensures Tracks(old(files), files, v, NO_LEAK.(rollbackName := LeaksRollbackName(old(files), faults)))
      ensures files.envRollback.None? && files.dbStage.None? && files.envStage.None?
      ensures ok <==> DatabaseSnapshotFine(old(files), faults)
      ensures ok && old(files).db.None? ==> files.dbRollback.None? && !v.dbRollback
      ensures ok && old(files).db.Some? ==>
                v.dbRollback && files.dbRollback == Some(Database(Logical(old(files)).value))
    {
      v := NOTHING_DONE;
      if files.db.None? {
        return true, v;
      }
      ok := Do(MakeDbRollback);
      if !ok {
        return;
      }
      ok := Do(ClearDbRollback);
      if !ok {
        return;
      }
      v := v.(dbRollback := true);
      ok := Do(SnapshotDb);
      if !ok {
        return;
      }
      ok := Do(ChmodDbRollback);
    }

    method CopyEnvironmentRollback() returns (ok: bool, named: bool)
      requires files.env.Some? && files.envRollback.None?
      modifies this
      ensures ok <==> !faults(MakeEnvRollback) && !faults(CopyEnvRollback) && !faults(ChmodEnvRollback)
      ensures named <==> files.envRollback.Some?
      ensures files == old(files).(envRollback := files.envRollback)
      ensures ok ==> files.envRollback == files.env
    {
      named := false;
      ok := Do(MakeEnvRollback);
      if !ok {
        return;
      }
      named := true;
      ok := Do(CopyEnvRollback);
      if ok {
        ok := Do(ChmodEnvRollback);
      }
    }

    method SnapshotEnvironment(ghost start: Files, v0: Locals) returns (ok: bool, v: Locals)
      requires Tracks(start, files, v0, NO_LEAK) && !v0.envReplaced && !v0.dbReplaced && !v0.envRollback
      modifies this
      ensures v == v0.(envRollback := v.envRollback)
      ensures Tracks(start, files, v, NO_LEAK)
      ensures files == old(files).(envRollback := files.envRollback)
      ensures ok ==> (v.envRollback <==> start.env.Some? && start.envArchive.Some?)
      ensures ok <==> EnvironmentSnapshotFine(start, faults)
      ensures ok ==> if start.env.Some? && start.envArchive.Some? then v.envRollback && files.envRollback == start.env
                     else files.envRollback.None?
    {
      v := v0;
      ok := true;
      if files.envArchive.Some? && files.env.Some? {
        var named;
        ok, named := CopyEnvironmentRollback();
        v := v.(envRollback := named);
      }
    }

    /** _stage_file for the database archive, which removes its own temporary when it fails. */
    method CopyDatabaseStage() returns (ok: bool)
      requires files.dbStage.None? && files.dbArchive.Some?
      modifies this
      ensures ok <==> !faults(MakeDbStage) && !faults(CopyDbStage) && !faults(ChmodDbStage)
      ensures files == old(files).(dbStage := files.dbStage)
      ensures ok ==> files.dbStage == files.dbArchive
      ensures !ok ==> (files.dbStage.Some? <==> LeaksDatabaseStage(faults))
    {
      ok := Do(MakeDbStage);
      if !ok {
        return;
      }
      ok := Do(CopyDbStage);
      if ok {
        ok := Do(ChmodDbStage);
      }
      if !ok {
        var dropped := Do(CDropDbStage);
      }
    }

    method StageDatabase(ghost start: Files, v0: Locals) returns (ok: bool, v: Locals)
      requires Tracks(start, files, v0, NO_LEAK) && !v0.dbReplaced && !v0.dbStage && start.dbArchive.Some?
      modifies this
      ensures v == v0.(dbStage := v.dbStage)
      ensures Tracks(start, files, v, NO_LEAK.(dbStage := LeaksDatabaseStage(faults)))
      ensures files == old(files).(dbStage := files.dbStage)
      ensures ok <==> DatabaseStageFine(faults)
      ensures ok ==> v.dbStage && files.dbStage == start.dbArchive
    {
      v := v0;
      ok := CopyDatabaseStage();
      if ok {
        v := v.(dbStage := true);
        ok := Do(CheckDbStage);
      }
    }

    /** _stage_file for the environment archive. */
    method CopyEnvironmentStage() returns (ok: bool)
      requires files.envStage.None? && files.envArchive.Some?
      modifies this
      ensures ok <==> !faults(MakeEnvStage) && !faults(CopyEnvStage) && !faults(ChmodEnvStage)
      ensures files == old(files).(envStage := files.envStage)
      ensures ok ==> files.envStage == files.envArchive
      ensures !ok ==> (files.envStage.Some? <==> LeaksEnvironmentStage(old(files), faults))
    {
      ok := Do(MakeEnvStage);
      if !ok {
        return;
      }
      ok := Do(CopyEnvStage);
      if ok {
        ok := Do(ChmodEnvStage);
      }
      if !ok {
        var dropped := Do(CDropEnvStage);
      }
    }

    method StageEnvironment(ghost start: Files, v0: Locals) returns (ok: bool, v: Locals)
      requires Tracks(start, files, v0, NO_LEAK) && !v0.envReplaced && !v0.envStage
      modifies this
      ensures v == v0.(envStage := v.envStage)
      ensures Tracks(start, files, v, NO_LEAK.(envStage := LeaksEnvironmentStage(start, faults)))
      ensures files == old(files).(envStage := files.envStage)
      ensures ok <==> EnvironmentStageFine(start, faults)
      ensures ok ==> (v.envStage <==> start.envArchive.Some?) && files.envStage == start.envArchive
    {
      v := v0;
      ok := true;
      if files.envArchive.Some? {
        ok := CopyEnvironmentStage();
        v := v.(envStage := ok);
      }
    }

    /** _park_database_sidecars: a failure on the second sidecar puts the first one back. */
    method MoveSidecars() returns (ok: bool, parkedWal: bool, parkedShm: bool)
      requires files.parkedWal.None? && files.parkedShm.None?
      modifies this
      ensures ok <==> ParkingFine(old(files), faults)
      ensures parkedWal == (ok && old(files).wal.Some?) && parkedShm == (ok && old(files).shm.Some?)
      ensures files == if ok then old(files).(parkedWal := old(files).wal, wal := None,
                                              parkedShm := old(files).shm, shm := None)
                       else if StrandsLog(old(files), faults) then old(files).(parkedWal := old(files).wal, wal := None)
                       else old(files)
    {
      ok, parkedWal, parkedShm := true, false, false;
      if files.wal.Some? {
        ok := Do(ParkWal);
        if !ok {
          return;
        }
        parkedWal := true;
      }
      if files.shm.Some? {
        ok := Do(ParkShm);
        if !ok {
          if parkedWal {
            var back := Do(CUnparkWal);
          }
          return false, false, false;
        }
        parkedShm := true;
      }
    }

    method ParkSidecars(ghost start: Files, v0: Locals) returns (ok: bool, v: Locals)
      requires Tracks(start, files, v0, NO_LEAK) && !v0.parkedWal && !v0.parkedShm
      modifies this
      ensures v == v0.(parkedWal := v.parkedWal, parkedShm := v.parkedShm)
      ensures Tracks(start, files, v, NO_LEAK.(log := StrandsLog(start, faults)))
      ensures files == old(files).(wal := files.wal, shm := files.shm,
                                   parkedWal := files.parkedWal, parkedShm := files.parkedShm)
      ensures ok <==> ParkingFine(start, faults)
      ensures ok ==> (v.parkedWal <==> start.wal.Some?) && (v.parkedShm <==> start.shm.Some?)
      ensures !ok ==> !v.parkedWal && !v.parkedShm
      ensures ok ==> files.wal.None? && files.shm.None?
    {
      var parkedWal, parkedShm;
      ok, parkedWal, parkedShm := MoveSidecars();
      v := v0.(parkedWal := parkedWal, parkedShm := parkedShm);
    }

    method SwitchFiles(ghost start: Files, v0: Locals) returns (ok: bool, v: Locals)
      requires Tracks(start, files, v0, NO_LEAK) && StagesReady(start, files, v0) && !v0.dbReplaced && !v0.envReplaced
      requires start.dbArchive.Some?
      modifies this
      ensures v == v0.(dbStage := v.dbStage, envStage := v.envStage,
                       dbReplaced := v.dbReplaced, envReplaced := v.envReplaced)
      ensures Tracks(start, files, v, NO_LEAK)
      ensures files.dbRollback == old(files).dbRollback && files.envRollback == old(files).envRollback
      ensures files.wal == old(files).wal && files.shm == old(files).shm
      ensures ok <==> SwitchFine(start, faults)
      ensures v.dbReplaced <==> !faults(ReplaceDb)
      ensures v.envReplaced <==> !faults(ReplaceDb) && start.envArchive.Some? && !faults(ReplaceEnv)
      ensures v.dbReplaced ==> !v.dbStage && (v.envStage <==> start.envArchive.Some? && !v.envReplaced)
    {
      v := v0;
      ok := Do(ReplaceDb);
      if !ok {
        return;
      }
      v := v.(dbStage := false, dbReplaced := true);
      if v.envStage {
        ok := Do(ReplaceEnv);
        if !ok {
          return;
        }
        v := v.(envStage := false, envReplaced := true);
      }
      ok := Do(CheckDb);
    }

    /** The try block up to the first replacement. */
    method Prepare() returns (ok: bool, v: Locals)
      requires Initial(files)
      modifies this
      ensures Tracks(old(files), files, v, LeaksOf(old(files), faults)) && !v.dbReplaced && !v.envReplaced
      ensures ok <==> ReadyToReplace(old(files), faults)
      ensures (v.parkedWal <==> ok && old(files).wal.Some?) && (v.parkedShm <==> ok && old(files).shm.Some?)
      ensures ok ==> && LeaksOf(old(files), faults) == NO_LEAK
                     && RollbacksReady(old(files), files, v) && StagesReady(old(files), files, v)
                     && files.wal.None? && files.shm.None?
    {
      ghost var start := files;
      ok, v := SnapshotDatabase();
      if !ok {
        return;
      }
      ok, v := SnapshotEnvironment(start, v);
      if !ok {
        return;
      }
      ok, v := StageDatabase(start, v);
      if !ok {
        return;
      }
      ok, v := StageEnvironment(start, v);
      if !ok {
        return;
      }
      ok, v := ParkSidecars(start, v);
    }

    /** The try block. */
    method Forward() returns (ok: bool, v: Locals)
      requires Initial(files)
      modifies this
      ensures ok <==> NothingPlannedFails(old(files), faults)
      ensures Tried(old(files), files, v, faults)
      ensures ok ==> files.wal.None? && files.shm.None? && files.dbStage.None? && files.envStage.None?
    {
      ghost var start := files;
      StagesCoverThePlan(start, faults);
      ok, v := Prepare();
      if !ok {
        return;
      }
      ok, v := SwitchFiles(start, v);
    }

    method RestoreSidecars(parkedWal: bool, parkedShm: bool) returns (ok: bool)
      modifies this
      ensures var wal := parkedWal && !faults(CRestoreWal);
              var shm := (!parkedWal || !faults(CRestoreWal)) && parkedShm && !faults(CRestoreShm);
              files == old(files).(
                wal := if wal then old(files).parkedWal else old(files).wal,
                parkedWal := if wal then None else old(files).parkedWal,
                shm := if shm then old(files).parkedShm else old(files).shm,
                parkedShm := if shm then None else old(files).parkedShm)
    {
      ok := true;
      if parkedWal {
        ok := Do(CRestoreWal);
        if !ok {
          return;
        }
      }
      if parkedShm {
        ok := Do(CRestoreShm);
      }
    }

    method RestoreReplaced(v0: Locals) returns (ok: bool, v: Locals)
      modifies this
      ensures ok <==> EnvironmentBack(v0, faults)
      ensures v == Remaining(v0, faults)
      ensures var db := v0.dbReplaced && !faults(CRestoreDb);
              var env := DatabaseBack(v0, faults) && v0.envReplaced && !faults(CRestoreEnv);
              files == old(files).(
                db := if db then old(files).dbRollback else old(files).db,
                dbRollback := if db then None else old(files).dbRollback,
                env := if env then old(files).envRollback else old(files).env,
                envRollback := if env then None else old(files).envRollback)
    {
      ok, v := true, v0;
      if v.dbReplaced {
        ok := Do(CRestoreDb);
        if !ok {
          return;
        }
        v := v.(dbRollback := false);
      }
      if v.envReplaced {
        ok := Do(CRestoreEnv);
        if !ok {
          return;
        }
        v := v.(envRollback := false);
      }
    }

    /** The except block: put back what was replaced or parked, up to the first failure. */
    method Compensate(v0: Locals) returns (v: Locals)
      modifies this
      ensures files == PutBack(old(files), v0, faults) && v == Remaining(v0, faults)
    {
      var ok;
      ok, v := RestoreReplaced(v0);
      if ok {
        ok := RestoreSidecars(v.parkedWal, v.parkedShm);
      }
    }

    method DiscardSidecars(v: Locals, succeeded: bool) returns (ok: bool)
      modifies this
      ensures ok <==> PastSidecars(v, succeeded, faults)
      ensures files == old(files).(
                parkedWal := Cleared(old(files).parkedWal, succeeded && v.parkedWal && !faults(CDiscardWal)),
                parkedShm := Cleared(old(files).parkedShm,
                                     PastLog(v, succeeded, faults) && succeeded && v.parkedShm && !faults(CDiscardShm)))
    {
      ok := true;
      if succeeded && v.parkedWal {
        ok := Do(CDiscardWal);
        if !ok {
          return;
        }
      }
      if succeeded && v.parkedShm {
        ok := Do(CDiscardShm);
      }
    }

    method UnlinkStages(v: Locals) returns (ok: bool)
      modifies this
      ensures ok <==> !(v.dbStage && faults(CUnlinkDbStage)) && !(v.envStage && faults(CUnlinkEnvStage))
      ensures files == old(files).(
                dbStage := Cleared(old(files).dbStage, v.dbStage && !faults(CUnlinkDbStage)),
                envStage := Cleared(old(files).envStage,
                                    !(v.dbStage && faults(CUnlinkDbStage)) && v.envStage && !faults(CUnlinkEnvStage)))
    {
      ok := true;
      if v.dbStage {
        ok := Do(CUnlinkDbStage);
        if !ok {
          return;
        }
      }
      if v.envStage {
        ok := Do(CUnlinkEnvStage);
      }
    }

    method UnlinkRollbacks(v: Locals) returns (ok: bool)
      modifies this
      ensures ok <==> !(v.dbRollback && faults(CUnlinkDbRollback)) && !(v.envRollback && faults(CUnlinkEnvRollback))
      ensures files == old(files).(
                dbRollback := Cleared(old(files).dbRollback, v.dbRollback && !faults(CUnlinkDbRollback)),
                envRollback := Cleared(
                  old(files).envRollback,
                  !(v.dbRollback && faults(CUnlinkDbRollback)) && v.envRollback && !faults(CUnlinkEnvRollback)))
    {
      ok := true;
      if v.dbRollback {
        ok := Do(CUnlinkDbRollback);
        if !ok {
          return;
        }
      }
      if v.envRollback {
        ok := Do(CUnlinkEnvRollback);
      }
    }

    /** The finally block; an unlink that raises ends it. */
    method CleanUp(v: Locals, succeeded: bool) returns (ok: bool)
      modifies this
      ensures files == Swept(old(files), v, succeeded, faults)
      ensures ok <==> PastAll(v, succeeded, faults)
    {
      ok := DiscardSidecars(v, succeeded);
      if ok {
        ok := UnlinkStages(v);
      }
      if ok {
        ok := UnlinkRollbacks(v);
      }
    }

    /**
     restore_backup, whatever fails: it restores exactly when no planned operation fails, and what it
     leaves is what Ended says. `returned` is false where it raises: after a failure always, and after
     a success exactly when a cleanup operation it reaches fails.
     */
    method RestoreBackup() returns (succeeded: bool, returned: bool)
      requires Initial(files)
      modifies this
      ensures succeeded <==> NothingPlannedFails(old(files), faults)
      ensures returned <==>
                (&& NothingPlannedFails(old(files), faults)
                 && (old(files).wal.Some? ==> !faults(CDiscardWal))
                 && (old(files).shm.Some? ==> !faults(CDiscardShm))
                 && (old(files).db.Some? ==> !faults(CUnlinkDbRollback))
                 && (old(files).env.Some? && old(files).envArchive.Some? ==> !faults(CUnlinkEnvRollback)))
      ensures (forall op :: !faults(op)) ==> returned
      ensures Ended(old(files), files, faults)
    {
      ghost var start := files;
      var v;
      succeeded, v := Forward();
      ghost var f, tried := files, v;
      if !succeeded {
        v := Compensate(v);
      }
      if succeeded {
        CleanUpFineIff(start, files, v, faults);
      }
      returned := CleanUp(v, succeeded);
      returned := returned && succeeded;
      assert files == Final(f, tried, succeeded, faults);
    }
  }

  // ---- what the end means ----

  /** A restore that succeeds has the archive in place and no sidecar, even if its cleanup fails. */
  lemma SuccessInstallsArchive(start: Files, end: Files, faults: Op -> bool)
    requires Initial(start) && Ended(start, end, faults) && NothingPlannedFails(start, faults)
    ensures end.db == start.dbArchive && end.wal.None? && end.shm.None?
    ensures end.env == if start.envArchive.Some? then start.envArchive else start.env
  {
    StagesCoverThePlan(start, faults);
  }

  ghost predicate CompensationsFine(faults: Op -> bool) {
    forall op :: Compensates(op) ==> !faults(op)
  }

  /** CompensationsFine, operation by operation. */
  lemma EachCompensationFine(faults: Op -> bool)
    requires CompensationsFine(faults)
    ensures !faults(CDropDbStage) && !faults(CDropEnvStage) && !faults(CUnparkWal)
    ensures !faults(CRestoreDb) && !faults(CRestoreEnv) && !faults(CRestoreWal) && !faults(CRestoreShm)
    ensures !faults(CDiscardWal) && !faults(CDiscardShm) && !faults(CUnlinkDbStage) && !faults(CUnlinkEnvStage)
    ensures !faults(CUnlinkDbRollback) && !faults(CUnlinkEnvRollback)
  {
  }

  /**
   All or nothing: when every compensating operation succeeds, a failed restore leaves the logical
   database, the environment and both sidecars as before.
   */
  lemma FailureChangesNothing(start: Files, end: Files, faults: Op -> bool)
    requires Initial(start) && Ended(start, end, faults) && CompensationsFine(faults)
    requires !NothingPlannedFails(start, faults)
    ensures Logical(end) == Logical(start) && (end.db.Some? <==> start.db.Some?)
    ensures end.env == start.env && end.wal == start.wal && end.shm == start.shm
    ensures end.dbArchive == start.dbArchive && end.envArchive == start.envArchive
  {
    EachCompensationFine(faults);
    ReplayIsIdempotent(PagesOf(start.db), FramesOf(start.wal));
  }

  /** And then a temporary remains exactly when clearing the rollback name was what failed. */
  lemma TemporariesRemainIff(start: Files, end: Files, faults: Op -> bool)
    requires Initial(start) && Ended(start, end, faults) && CompensationsFine(faults)
    ensures NoTemporaries(end) <==> !LeaksRollbackName(start, faults)
  {
    EachCompensationFine(faults);
    StagesCoverThePlan(start, faults);
  }

  /**
   The old database is still somewhere: in place, in its rollback copy, or in its file with its log
   parked beside it.
   */
  ghost predicate Survives(start: Files, end: Files)
    requires start.db.Some?
  {
    || Logical(end) == Logical(start)
    || end.dbRollback == Some(Database(Logical(start).value))
    || (end.db == start.db && end.parkedWal == start.wal)
  }

  /** The archive is not what it replaces. */
  ghost predicate ArchiveDiffers(start: Files)
    requires start.db.Some?
  {
    start.dbArchive != start.db && start.dbArchive != Some(Database(Logical(start).value))
  }

  /**
   A failed restore loses the old database exactly when the archive had taken its place, putting it
   back fails, and the cleanup gets as far as deleting its rollback copy, which only an environment
   stage that cannot be unlinked, or the unlink itself failing, prevents.
   */
  lemma FailedPutBackLosesDatabase(start: Files, end: Files, faults: Op -> bool)
    requires Initial(start) && start.db.Some? && ArchiveDiffers(start)
    requires Ended(start, end, faults) && !NothingPlannedFails(start, faults)
    ensures !Survives(start, end) <==>
              && DatabaseReplaced(start, faults) && faults(CRestoreDb) && !faults(CUnlinkDbRollback)
              && !(start.envArchive.Some? && faults(ReplaceEnv) && faults(CUnlinkEnvStage))
  {
    var f, v :| Tried(start, f, v, faults) && end == Final(f, v, false, faults);
    if !v.dbReplaced {
      UnreplacedSurvives(start, end, f, v, faults);
    } else if faults(CRestoreDb) {
      assert PagesOf(start.dbArchive) + map[] == PagesOf(start.dbArchive);
      assert Logical(end) == Some(PagesOf(start.dbArchive));
    } else {
      ReplayIsIdempotent(PagesOf(start.db), FramesOf(start.wal));
      assert Logical(start).value + map[] == Logical(start).value;
    }
  }

  /** The log holds something the database file alone does not show. */
  ghost predicate LogMatters(start: Files)
    requires start.db.Some?
  {
    start.wal.Some? ==> Logical(start).value != PagesOf(start.db)
  }

  /**
   What a reader of the database sees after a failed restore differs from before exactly when the
   archive took its place and putting it back failed, or when it did not and the log that belongs
   to it stayed parked: stranded while parking, or not restored.
   */
  lemma ReaderSeesChangeIff(start: Files, end: Files, faults: Op -> bool)
    requires Initial(start) && start.db.Some? && ArchiveDiffers(start) && LogMatters(start)
    requires Ended(start, end, faults) && !NothingPlannedFails(start, faults)
    ensures Logical(end) != Logical(start) <==>
            if DatabaseReplaced(start, faults) then faults(CRestoreDb)
            else && start.wal.Some?
                 && (|| (StagesFine(start, faults) && StrandsLog(start, faults))
                     || (ReadyToReplace(start, faults) && faults(CRestoreWal)))
  {
    var f, v :| Tried(start, f, v, faults) && end == Final(f, v, false, faults);
    ReplayIsIdempotent(PagesOf(start.db), FramesOf(start.wal));
    assert PagesOf(start.dbArchive) + map[] == PagesOf(start.dbArchive);
    assert PagesOf(start.db) + map[] == PagesOf(start.db);
    assert Logical(start).value + map[] == Logical(start).value;
  }

  lemma UnreplacedSurvives(start: Files, end: Files, f: Files, v: Locals, faults: Op -> bool)
    requires start.db.Some? && Tried(start, f, v, faults) && !v.dbReplaced && end == Final(f, v, false, faults)
    ensures Survives(start, end)
  {
    assert end.db == start.db;
    assert end.wal == start.wal || end.parkedWal == start.wal;
  }
}
