/**
 An upgrade in place with every step allowed to fail (app/maintenance/upgrade.py): stage the new
 release, stop the services, install units, switch trees by two renames, then roll back or recover
 according to how far it got.
 */
module Upgrade {
  import opened Prelude

  datatype Tree = Release(version: int) | Unfinished

  /** The contents of each systemd unit file, None where the file is absent. */
  type Units = seq<Option<int>>

  const UNIT_COUNT := 3

  datatype State = State(
    install: Option<Tree>, staging: Option<Tree>, rollback: Option<Tree>, failed: Option<Tree>,
    units: Units, loaded: Units, snapshot: Units, strays: nat,
    data: int, backup: Option<int>, transaction: bool, serviceUp: bool, timerUp: bool)

  /** The release being installed, and what the two releases write to the database while they run. */
  datatype Plan = Plan(target: Tree, units: Units, live: int, migrated: int)

  /** One constructor for each fallible step; the C steps belong to recovery and rollback. */
  datatype Op =
    | Inspect | MakeBackup | MakeTransaction | MakeStaging | WriteStaging
    | CopyPayload | PrepareVenv | ValidateStaged | SnapshotUnit(unit: nat) | WriteManifest | WriteSwitching
    | StopTimer | StopFirmware | StopService | InstallUnit(unit: nat) | ReloadTarget | SetAside | PutTarget
    | WriteValidating | StartTarget | TargetHealth | StartTimer | Postflight
    | CSwapBack | CUnit(unit: nat) | CReload | CStart | CHealth | CStartTimer
    | CWriteRollback | CStopTimer | CStopFirmware | CStopService | CSetAsideTarget | CPutBack | CRestoreBackup
    | RemoveFailed | RemoveRollback | RemoveStaging | RemoveTransaction

  function Put(units: Units, i: nat, content: Option<int>): Units {
    if i < |units| then units[i := content] else units
  }

  function At(units: Units, i: nat): Option<int> {
    if i < |units| then units[i] else None
  }

  /** A unit is written beside its target and renamed over it; a failure leaves the copy behind. */
  function Perform(p: Plan, s: State, op: Op, fails: bool): State {
    match op
    case MakeBackup => if fails then s else s.(backup := Some(s.data))
    case MakeTransaction => if fails then s else s.(transaction := true)
    case MakeStaging => if fails then s else s.(staging := Some(Unfinished))
    case PrepareVenv => if fails then s else s.(staging := Some(p.target))
    case SnapshotUnit(i) => if fails then s else s.(snapshot := s.snapshot + [At(s.units, i)])
    case StopTimer => if fails then s else s.(timerUp := false)
    case StopService => if fails then s.(data := p.live) else s.(data := p.live, serviceUp := false)
    case InstallUnit(i) => if fails then s.(strays := s.strays + 1) else s.(units := Put(s.units, i, At(p.units, i)))
    case ReloadTarget => if fails then s else s.(loaded := s.units)
    case SetAside => if fails then s else s.(rollback := s.install, install := None)
    case PutTarget => if fails then s else s.(install := s.staging, staging := None)
    case StartTarget => s.(data := p.migrated, serviceUp := !fails)
    case StartTimer => if fails then s else s.(timerUp := true)
    case CSwapBack => if fails then s else s.(install := s.rollback, rollback := None)
    case CUnit(i) =>
      if !fails then s.(units := Put(s.units, i, At(s.snapshot, i)))
      else if At(s.snapshot, i).Some? then s.(strays := s.strays + 1)
      else s
    case CReload => if fails then s else s.(loaded := s.units)
    case CStart => if fails then s else s.(serviceUp := true)
    case CStartTimer => if fails then s else s.(timerUp := true)
    case CStopTimer => if fails then s else s.(timerUp := false)
    case CStopService => if fails then s else s.(serviceUp := false)
    case CSetAsideTarget => if fails then s else s.(failed := s.install, install := None)
    case CPutBack => if fails then s else s.(install := s.rollback, rollback := None)
    case CRestoreBackup => if fails || s.backup.None? then s else s.(data := s.backup.value)
    case RemoveFailed => s.(failed := if fails then Some(Unfinished) else None)
    case RemoveRollback => s.(rollback := if fails then Some(Unfinished) else None)
    case RemoveStaging => s.(staging := if fails then Some(Unfinished) else None)
    case RemoveTransaction => if fails then s else s.(transaction := false)
    case _ => s
  }

  predicate Observes(op: Op) {
    op in {Inspect, WriteStaging, CopyPayload, ValidateStaged, WriteManifest, WriteSwitching, StopFirmware,
           WriteValidating, TargetHealth, Postflight, CHealth, CWriteRollback, CStopFirmware}
  }

  predicate BeginFine(faults: Op -> bool) {
    && !faults(Inspect) && !faults(MakeBackup) && !faults(MakeTransaction)
    && !faults(MakeStaging) && !faults(WriteStaging)
  }

  ghost predicate StagingFine(faults: Op -> bool) {
    && !faults(CopyPayload) && !faults(PrepareVenv) && !faults(ValidateStaged)
    && (forall i :: 0 <= i < UNIT_COUNT ==> !faults(SnapshotUnit(i)))
    && !faults(WriteManifest) && !faults(WriteSwitching)
  }

  ghost predicate ReadyToSwitch(faults: Op -> bool) {
    && !faults(StopTimer) && !faults(StopFirmware) && !faults(StopService)
    && (forall i :: 0 <= i < UNIT_COUNT ==> !faults(InstallUnit(i)))
    && !faults(ReloadTarget) && !faults(SetAside)
  }

  ghost predicate DeploymentFine(faults: Op -> bool) {
    ReadyToSwitch(faults) && !faults(PutTarget)
  }

  predicate ServiceFine(faults: Op -> bool) {
    && !faults(WriteValidating) && !faults(StartTarget) && !faults(TargetHealth)
    && !faults(StartTimer) && !faults(Postflight)
  }

  /** The second rename of the switch failed and so did undoing the first. */
  ghost predicate Stranded(faults: Op -> bool) {
    ReadyToSwitch(faults) && faults(PutTarget) && faults(CSwapBack)
  }

  ghost predicate UnitsPutBack(faults: Op -> bool) {
    forall i :: 0 <= i < UNIT_COUNT ==> !faults(CUnit(i))
  }

  predicate RestartFine(faults: Op -> bool) {
    !faults(CStart) && !faults(CHealth) && !faults(CStartTimer)
  }

  predicate TreePutBack(faults: Op -> bool) {
    !faults(CSetAsideTarget) && !faults(CPutBack)
  }

  predicate StopsFine(faults: Op -> bool) {
    !faults(CStopTimer) && !faults(CStopFirmware) && !faults(CStopService)
  }

  /** How far the try block got. */
  datatype Reached = InStaging | InDeployment | Switched | Finished

  datatype Outcome =
    | Refused | FailedEarly | Recovered | RecoveryIncomplete | RolledBack | RollbackIncomplete | Succeeded

  /** An installation at rest: one tree, its units loaded, both services running. */
  ghost predicate AtRest(s: State, previous: Tree) {
    && s.install == Some(previous) && s.staging.None? && s.rollback.None? && s.failed.None?
    && |s.units| == UNIT_COUNT && s.loaded == s.units && s.strays == 0 && s.snapshot == []
    && s.backup.None? && !s.transaction && s.serviceUp && s.timerUp
  }

  ghost predicate OldTreeKept(s: State, previous: Tree) {
    s.install == Some(previous) || s.rollback == Some(previous)
  }

  // ---- what the faults make of each part ----

  /** Units are installed in order up to the first failure. */
  ghost function Installed(base: Units, wanted: Units, faults: Op -> bool): Units
    requires |base| == |wanted| == UNIT_COUNT
  {
    seq(UNIT_COUNT, i requires 0 <= i < UNIT_COUNT =>
      if forall j :: 0 <= j <= i ==> !faults(InstallUnit(j)) then wanted[i] else base[i])
  }

  /** And put back likewise. */
  ghost function Returned(base: Units, wanted: Units, faults: Op -> bool): Units
    requires |base| == |wanted| == UNIT_COUNT
  {
    seq(UNIT_COUNT, i requires 0 <= i < UNIT_COUNT =>
      if forall j :: 0 <= j <= i ==> !faults(CUnit(j)) then wanted[i] else base[i])
  }

  predicate ServicesStopped(faults: Op -> bool) {
    !faults(StopTimer) && !faults(StopFirmware) && !faults(StopService)
  }

  /** The old release writes until its stop is asked for. */
  function DeployedData(start: State, p: Plan, faults: Op -> bool): int {
    if faults(StopTimer) || faults(StopFirmware) then start.data else p.live
  }

  ghost function DeployedUnits(start: State, p: Plan, faults: Op -> bool): Units
    requires |start.units| == |p.units| == UNIT_COUNT
  {
    if ServicesStopped(faults) then Installed(start.units, p.units, faults) else start.units
  }

  ghost predicate TargetLoaded(faults: Op -> bool) {
    && ServicesStopped(faults) && (forall i :: 0 <= i < UNIT_COUNT ==> !faults(InstallUnit(i)))
    && !faults(ReloadTarget)
  }

  /** The target release migrates the database as soon as it is started. */
  function StartedData(p: Plan, faults: Op -> bool): int {
    if faults(WriteValidating) then p.live else p.migrated
  }

  predicate ServiceStarted(faults: Op -> bool) {
    !faults(WriteValidating) && !faults(StartTarget)
  }

  predicate TimerStarted(faults: Op -> bool) {
    ServiceStarted(faults) && !faults(TargetHealth) && !faults(StartTimer)
  }

  /** The switched installation as StartTargetService leaves it. */
  ghost predicate OnTarget(start: State, s: State, p: Plan, previous: Tree, faults: Op -> bool) {
    && s.install == Some(p.target) && s.rollback == Some(previous) && s.staging.None? && s.failed.None?
    && s.units == p.units && s.loaded == p.units && s.snapshot == start.units && s.strays == 0
    && s.data == StartedData(p, faults)
    && (s.serviceUp <==> ServiceStarted(faults)) && (s.timerUp <==> TimerStarted(faults))
  }

  /** The state in which each stage of the try block can stop. */
  ghost predicate StoppedIn(reached: Reached, start: State, s: State, p: Plan, previous: Tree, faults: Op -> bool)
    requires |start.units| == |p.units| == UNIT_COUNT
  {
    && s.backup == Some(start.data) && s.transaction && s.failed.None?
    && match reached
       case InStaging =>
         && s == start.(staging := s.staging, snapshot := s.snapshot, backup := s.backup, transaction := true)
         && s.staging.Some?
       case InDeployment =>
         && s.snapshot == start.units && s.staging == Some(p.target)
         && s.data == DeployedData(start, p, faults)
         && s.units == DeployedUnits(start, p, faults)
         && s.loaded == (if TargetLoaded(faults) then p.units else start.units)
         && (s.serviceUp <==> !ServicesStopped(faults)) && (s.timerUp <==> faults(StopTimer))
         && s.install == (if Stranded(faults) then None else Some(previous))
         && s.rollback == (if Stranded(faults) then Some(previous) else None)
       case _ => OnTarget(start, s, p, previous, faults)
  }

  /** What recovery leaves of a deployment that did not get to the switch, part by part. */
  ghost predicate RecoveryEnd(start: State, s: State, p: Plan, previous: Tree, faults: Op -> bool)
    requires |start.units| == |p.units| == UNIT_COUNT
  {
    && s.install == (if Stranded(faults) then None else Some(previous))
    && s.rollback == (if Stranded(faults) then Some(previous) else None)
    && s.failed.None? && s.staging == Some(p.target) && s.data == DeployedData(start, p, faults)
    && s.units == Returned(DeployedUnits(start, p, faults), start.units, faults)
    && s.loaded == (if UnitsPutBack(faults) && !faults(CReload) then start.units
                    else if TargetLoaded(faults) then p.units else start.units)
    && (s.serviceUp <==> !faults(CStart) || !ServicesStopped(faults))
    && (s.timerUp <==> !faults(CStartTimer) || faults(StopTimer))
  }

  /** What a recorded rollback leaves, part by part. */
  ghost predicate RollbackEnd(start: State, s: State, p: Plan, previous: Tree, faults: Op -> bool)
    requires |start.units| == |p.units| == UNIT_COUNT
  {
    && s.staging.None?
    && s.install == (if TreePutBack(faults) then Some(previous)
                     else if faults(CSetAsideTarget) then Some(p.target) else None)
    && s.rollback == (if TreePutBack(faults) then None else Some(previous))
    && s.failed == (if !faults(CSetAsideTarget) && faults(RemoveFailed) then Some(Unfinished) else None)
    && s.units == Returned(p.units, start.units, faults)
    && s.loaded == (if UnitsPutBack(faults) && !faults(CReload) then start.units else p.units)
    && s.data == (if faults(CRestoreBackup) then StartedData(p, faults) else start.data)
    && (s.serviceUp <==> !faults(CStart) || (faults(CStopService) && ServiceStarted(faults)))
    && (s.timerUp <==> !faults(CStartTimer) || (faults(CStopTimer) && TimerStarted(faults)))
  }

  /** What recovery or rollback leaves, before the cleanup; an unrecorded rollback leaves the target as it stands. */
  ghost predicate Settled(start: State, s: State, switched: bool, p: Plan, previous: Tree, faults: Op -> bool)
    requires |start.units| == |p.units| == UNIT_COUNT
  {
    && s.backup == Some(start.data) && s.transaction
    && if !switched then RecoveryEnd(start, s, p, previous, faults)
       else if faults(CWriteRollback) then OnTarget(start, s, p, previous, faults)
       else RollbackEnd(start, s, p, previous, faults)
  }

  /** Every undoing step succeeds. */
  ghost predicate CompensationsFine(faults: Op -> bool) {
    && !faults(CSwapBack) && UnitsPutBack(faults) && !faults(CReload) && RestartFine(faults)
    && !faults(CWriteRollback) && StopsFine(faults) && TreePutBack(faults) && !faults(CRestoreBackup)
    && !faults(RemoveFailed) && !faults(RemoveStaging) && !faults(RemoveRollback)
  }

  /** Which outcome the faults decide. */
  ghost function Decided(faults: Op -> bool): Outcome {
    if !BeginFine(faults) then Refused
    else if !StagingFine(faults) then FailedEarly
    else if !DeploymentFine(faults) then
      if UnitsPutBack(faults) && !faults(CReload) && RestartFine(faults) then Recovered else RecoveryIncomplete
    else if !ServiceFine(faults) then
      if && !faults(CWriteRollback) && StopsFine(faults) && TreePutBack(faults) && UnitsPutBack(faults)
         && !faults(CReload) && !faults(CRestoreBackup) && RestartFine(faults)
      then RolledBack else RollbackIncomplete
    else Succeeded
  }

  /** The stage in which the first failing step of the try block lies. */
  ghost function Furthest(faults: Op -> bool): Reached {
    if !StagingFine(faults) then InStaging
    else if !DeploymentFine(faults) then InDeployment
    else if !ServiceFine(faults) then Switched
    else Finished
  }

  ghost predicate BeforeCleanUp(start: State, s: State, reached: Reached, p: Plan, previous: Tree, faults: Op -> bool)
    requires |start.units| == |p.units| == UNIT_COUNT
  {
    if reached.InDeployment? || reached.Switched? then Settled(start, s, reached.Switched?, p, previous, faults)
    else StoppedIn(reached, start, s, p, previous, faults)
  }

  /** What the finally block does to the state. */
  function Cleaned(s: State, reached: Reached, faults: Op -> bool): State {
    var rollback := if s.rollback.Some? && faults(RemoveRollback) then Some(Unfinished) else None;
    var staging := if s.staging.Some? && faults(RemoveStaging) then Some(Unfinished) else None;
    if reached.Switched? then s
    else if reached.Finished? then s.(rollback := rollback, transaction := s.transaction && faults(RemoveTransaction))
    else s.(rollback := rollback, staging := staging)
  }

  /** The installation an upgrade leaves behind. */
  ghost predicate Ended(start: State, s: State, outcome: Outcome, p: Plan, previous: Tree, faults: Op -> bool)
    requires |start.units| == |p.units| == UNIT_COUNT
  {
    match outcome
    case Refused =>
      && s == start.(backup := s.backup, transaction := s.transaction, staging := s.staging)
      && (s.staging.Some? <==> (&& !faults(Inspect) && !faults(MakeBackup) && !faults(MakeTransaction)
                                && !faults(MakeStaging)))
    case FailedEarly =>
      && s == start.(backup := Some(start.data), transaction := true, staging := s.staging, snapshot := s.snapshot)
      && (s.staging.Some? <==> faults(RemoveStaging))
    case Succeeded =>
      && s.install == Some(p.target) && s.units == p.units && s.loaded == p.units && s.strays == 0
      && s.data == p.migrated && s.serviceUp && s.timerUp && s.staging.None? && s.failed.None?
      && (s.rollback.Some? <==> faults(RemoveRollback)) && (s.transaction <==> faults(RemoveTransaction))
    case _ =>
      var switched := outcome.RolledBack? || outcome.RollbackIncomplete?;
      exists before: State ::
        && Settled(start, before, switched, p, previous, faults)
        && s == Cleaned(before, if switched then Switched else InDeployment, faults)
  }

  lemma CleanUpEnds(
    start: State, before: State, s: State, reached: Reached, outcome: Outcome,
    p: Plan, previous: Tree, faults: Op -> bool)
    requires AtRest(start, previous) && |p.units| == UNIT_COUNT && BeginFine(faults)
    requires reached == Furthest(faults) && outcome == Decided(faults)
    requires BeforeCleanUp(start, before, reached, p, previous, faults) && s == Cleaned(before, reached, faults)
    ensures Ended(start, s, outcome, p, previous, faults)
  {
  }

  class Installation {
    var state: State
    ghost var lost: bool
    const plan: Plan
    const previous: Tree
    const faults: Op -> bool

    constructor (initial: State, plan: Plan, previous: Tree, faults: Op -> bool)
      requires OldTreeKept(initial, previous)
      ensures state == initial && !lost && this.plan == plan && this.previous == previous && this.faults == faults
    {
      state := initial;
      lost := false;
      this.plan := plan;
      this.previous := previous;
      this.faults := faults;
    }

    ghost predicate Valid()
      reads this
    {
      && |plan.units| == UNIT_COUNT && plan.target != previous && previous.Release? && plan.target.Release?
      && (!lost ==> OldTreeKept(state, previous))
    }

    /** One step. The ghost flag remembers whether any state so far lacked the old tree. */
    method Do(op: Op) returns (ok: bool)
      modifies this
      ensures ok <==> !faults(op)
      ensures state == Perform(plan, old(state), op, faults(op))
      ensures lost <==> old(lost) || !OldTreeKept(state, previous)
    {
      state := Perform(plan, state, op, faults(op));
      lost := lost || !OldTreeKept(state, previous);
      return !faults(op);
    }

    /** A step that reads, records or waits, and changes none of the modelled state. */
    method Observe(op: Op) returns (ok: bool)
      requires Observes(op) && !lost && OldTreeKept(state, previous)
      modifies this
      ensures ok <==> !faults(op)
      ensures state == old(state) && !lost
    {
      ok := Do(op);
    }

    /** Everything before the try block; a staging directory made here is not cleaned up here. */
    method Begin() returns (ok: bool)
      requires AtRest(state, previous) && !lost
      modifies this
      ensures !lost
      ensures ok <==> BeginFine(faults)
      ensures state == old(state).(backup := state.backup, transaction := state.transaction, staging := state.staging)
      ensures ok ==> state.backup == Some(old(state).data) && state.transaction && state.staging.Some?
      ensures state.staging.Some? <==> (&& !faults(Inspect) && !faults(MakeBackup) && !faults(MakeTransaction)
                                        && !faults(MakeStaging))
    {
      ok := Observe(Inspect);
      if ok {
        ok := Do(MakeBackup);
      }
      if ok {
        ok := Do(MakeTransaction);
      }
      if ok {
        ok := Do(MakeStaging);
      }
      if ok {
        ok := Observe(WriteStaging);
      }
    }

    method SnapshotUnits() returns (ok: bool)
      requires !lost && OldTreeKept(state, previous) && state.snapshot == [] && |state.units| == UNIT_COUNT
      modifies this
      ensures !lost && state == old(state).(snapshot := state.snapshot)
      ensures ok <==> (forall i :: 0 <= i < UNIT_COUNT ==> !faults(SnapshotUnit(i))) && !faults(WriteManifest)
      ensures ok ==> state.snapshot == state.units
    {
      var i := 0;
      while i < UNIT_COUNT
        invariant 0 <= i <= UNIT_COUNT
        invariant !lost && state == old(state).(snapshot := state.snapshot)
        invariant state.snapshot == old(state.units)[..i]
        invariant forall j :: 0 <= j < i ==> !faults(SnapshotUnit(j))
      {
        ok := Do(SnapshotUnit(i));
        if !ok {
          return;
        }
        i := i + 1;
      }
      ok := Observe(WriteManifest);
    }

    method Stage() returns (ok: bool)
      requires !lost && OldTreeKept(state, previous) && state.snapshot == [] && |state.units| == UNIT_COUNT
      requires state.staging.Some?
      modifies this
      ensures !lost && state == old(state).(snapshot := state.snapshot, staging := state.staging)
      ensures state.staging.Some?
      ensures ok <==> StagingFine(faults)
      ensures ok ==> state.snapshot == state.units && state.staging == Some(plan.target)
    {
      ok := Observe(CopyPayload);
      if ok {
        ok := Do(PrepareVenv);
      }
      if ok {
        ok := Observe(ValidateStaged);
      }
      if ok {
        ok := SnapshotUnits();
      }
      if ok {
        ok := Observe(WriteSwitching);
      }
    }

    method InstallTargetUnit(i: nat) returns (ok: bool)
      requires !lost && OldTreeKept(state, previous) && i < |state.units| == |plan.units|
      modifies this
      ensures ok <==> !faults(InstallUnit(i))
      ensures !lost && state == old(state).(units := state.units, strays := state.strays)
      ensures state.units == if ok then old(state).units[i := plan.units[i]] else old(state).units
      ensures ok ==> state.strays == old(state).strays
    {
      ok := Do(InstallUnit(i));
    }

    method InstallTargetUnits() returns (ok: bool)
      requires !lost && OldTreeKept(state, previous) && |state.units| == UNIT_COUNT && |plan.units| == UNIT_COUNT
      modifies this
      ensures !lost && state == old(state).(units := state.units, strays := state.strays)
      ensures state.units == Installed(old(state).units, plan.units, faults)
      ensures ok <==> forall i :: 0 <= i < UNIT_COUNT ==> !faults(InstallUnit(i))
      ensures ok ==> state.strays == old(state).strays
    {
      var i := 0;
      while i < UNIT_COUNT
        invariant 0 <= i <= UNIT_COUNT
        invariant !lost && state == old(state).(units := state.units)
        invariant |state.units| == UNIT_COUNT
        invariant forall j :: 0 <= j < UNIT_COUNT ==>
                    state.units[j] == if j < i then plan.units[j] else old(state).units[j]
        invariant forall j :: 0 <= j < i ==> !faults(InstallUnit(j))
      {
        ok := InstallTargetUnit(i);
        if !ok {
          return;
        }
        i := i + 1;
      }
      return true;
    }

    method StopServices() returns (ok: bool)
      requires !lost && OldTreeKept(state, previous) && state.serviceUp && state.timerUp
      modifies this
      ensures !lost && state == old(state).(data := state.data, serviceUp := state.serviceUp, timerUp := state.timerUp)
      ensures state.data == DeployedData(old(state), plan, faults)
      ensures (state.serviceUp <==> !ServicesStopped(faults)) && (state.timerUp <==> faults(StopTimer))
      ensures ok <==> ServicesStopped(faults)
    {
      ok := Do(StopTimer);
      if ok {
        ok := Observe(StopFirmware);
      }
      if ok {
        ok := Do(StopService);
      }
    }

    method StopAndInstall() returns (ok: bool)
      requires !lost && OldTreeKept(state, previous) && |state.units| == UNIT_COUNT && |plan.units| == UNIT_COUNT
      requires state.serviceUp && state.timerUp && state.loaded == state.units
      modifies this
      ensures !lost
      ensures state == old(state).(units := state.units, strays := state.strays, loaded := state.loaded,
                                   data := state.data, serviceUp := state.serviceUp, timerUp := state.timerUp)
      ensures state.data == DeployedData(old(state), plan, faults)
      ensures state.units == DeployedUnits(old(state), plan, faults)
      ensures state.loaded == if TargetLoaded(faults) then plan.units else old(state).loaded
      ensures (state.serviceUp <==> !ServicesStopped(faults)) && (state.timerUp <==> faults(StopTimer))
      ensures ok <==> TargetLoaded(faults)
      ensures ok ==> state.units == plan.units && state.strays == old(state).strays
    {
      ok := StopServices();
      if ok {
        ok := InstallTargetUnits();
      }
      if ok {
        ok := Do(ReloadTarget);
      }
    }

    /** The two renames, with the swap back when the second fails. */
    method SwitchTrees() returns (ok: bool)
      requires !lost && state.install == Some(previous) && state.rollback.None? && state.staging == Some(plan.target)
      modifies this
      ensures !lost
      ensures state == old(state).(install := state.install, rollback := state.rollback, staging := state.staging)
      ensures ok <==> !faults(SetAside) && !faults(PutTarget)
      ensures ok ==> state.install == Some(plan.target) && state.rollback == Some(previous) && state.staging.None?
      ensures !ok ==> var stranded := !faults(SetAside) && faults(CSwapBack);
                      && state.staging == old(state).staging
                      && state.install == (if stranded then None else Some(previous))
                      && state.rollback == (if stranded then Some(previous) else None)
    {
      ok := Do(SetAside);
      if !ok {
        return;
      }
      ok := Do(PutTarget);
      if !ok {
        var back := Do(CSwapBack);
      }
    }

    method StartTargetService() returns (ok: bool)
      requires !lost && OldTreeKept(state, previous) && state.data == plan.live && !state.serviceUp && !state.timerUp
      modifies this
      ensures !lost && state == old(state).(data := state.data, serviceUp := state.serviceUp, timerUp := state.timerUp)
      ensures ok <==> ServiceFine(faults)
      ensures state.data == StartedData(plan, faults)
      ensures (state.serviceUp <==> ServiceStarted(faults)) && (state.timerUp <==> TimerStarted(faults))
    {
      ok := Observe(WriteValidating);
      if !ok {
        return;
      }
      ok := Do(StartTarget);
      if !ok {
        return;
      }
      ok := Observe(TargetHealth);
      if !ok {
        return;
      }
      ok := Do(StartTimer);
      if !ok {
        return;
      }
      ok := Observe(Postflight);
    }

    /** The try block: how far it gets is decided by the first stage that fails. */
    method Attempt(ghost start: State) returns (reached: Reached)
      requires Valid() && !lost && AtRest(start, previous) && BeginFine(faults)
      requires state == start.(backup := Some(start.data), transaction := true, staging := state.staging)
      requires state.staging.Some?
      modifies this
      ensures !lost
      ensures reached == Furthest(faults)
      ensures StoppedIn(reached, start, state, plan, previous, faults)
    {
      var ok := Stage();
      if !ok {
        return InStaging;
      }
      ok := StopAndInstall();
      if !ok {
        return InDeployment;
      }
      ok := SwitchTrees();
      if !ok {
        return InDeployment;
      }
      ok := StartTargetService();
      return if ok then Finished else Switched;
    }

    method PutUnitBack(i: nat) returns (ok: bool)
      requires !lost && OldTreeKept(state, previous) && i < |state.units| == |state.snapshot|
      modifies this
      ensures ok <==> !faults(CUnit(i))
      ensures !lost && state == old(state).(units := state.units, strays := state.strays)
      ensures state.units == if ok then old(state).units[i := state.snapshot[i]] else old(state).units
      ensures ok ==> state.strays == old(state).strays
    {
      ok := Do(CUnit(i));
    }

    /** _restore_units */
    method PutUnitsBack() returns (ok: bool)
      requires !lost && OldTreeKept(state, previous) && |state.units| == UNIT_COUNT && |state.snapshot| == UNIT_COUNT
      modifies this
      ensures !lost && state == old(state).(units := state.units, strays := state.strays)
      ensures ok <==> UnitsPutBack(faults)
      ensures state.units == Returned(old(state).units, state.snapshot, faults)
      ensures ok ==> state.strays == old(state).strays
    {
      var i := 0;
      while i < UNIT_COUNT
        invariant 0 <= i <= UNIT_COUNT
        invariant !lost && state == old(state).(units := state.units)
        invariant |state.units| == UNIT_COUNT
        invariant forall j :: 0 <= j < UNIT_COUNT ==>
                    state.units[j] == if j < i then state.snapshot[j] else old(state).units[j]
        invariant forall j :: 0 <= j < i ==> !faults(CUnit(j))
      {
        ok := PutUnitBack(i);
        if !ok {
          return;
        }
        i := i + 1;
      }
      return true;
    }

    /** And the reload after it, when every unit is back. */
    method RestoreUnits() returns (ok: bool)
      requires !lost && OldTreeKept(state, previous) && |state.units| == UNIT_COUNT && |state.snapshot| == UNIT_COUNT
      modifies this
      ensures !lost && state == old(state).(units := state.units, loaded := state.loaded, strays := state.strays)
      ensures ok <==> UnitsPutBack(faults) && !faults(CReload)
      ensures state.units == Returned(old(state).units, state.snapshot, faults)
      ensures UnitsPutBack(faults) ==> state.units == state.snapshot && state.strays == old(state).strays
      ensures state.loaded == if ok then state.snapshot else old(state).loaded
    {
      ok := PutUnitsBack();
      if ok {
        assert state.units == state.snapshot;
        ok := Do(CReload);
      }
    }

    /** Starting the previous service and, whatever comes of that, its timer. */
    method RestartPrevious() returns (ok: bool)
      requires !lost && OldTreeKept(state, previous)
      modifies this
      ensures !lost && state == old(state).(serviceUp := state.serviceUp, timerUp := state.timerUp)
      ensures ok <==> RestartFine(faults)
      ensures state.serviceUp <==> !faults(CStart) || old(state).serviceUp
      ensures state.timerUp <==> !faults(CStartTimer) || old(state).timerUp
    {
      ok := Do(CStart);
      if ok {
        ok := Observe(CHealth);
      }
      var timer := Do(CStartTimer);
      ok := ok && timer;
    }

    method RecoverBeforeSwitch() returns (ok: bool)
      requires !lost && OldTreeKept(state, previous) && |state.units| == UNIT_COUNT && |state.snapshot| == UNIT_COUNT
      modifies this
      ensures !lost
      ensures state == old(state).(units := state.units, loaded := state.loaded, strays := state.strays,
                                   serviceUp := state.serviceUp, timerUp := state.timerUp)
      ensures ok <==> UnitsPutBack(faults) && !faults(CReload) && RestartFine(faults)
      ensures state.units == Returned(old(state).units, state.snapshot, faults)
      ensures state.loaded == if UnitsPutBack(faults) && !faults(CReload) then state.snapshot else old(state).loaded
      ensures state.serviceUp <==> !faults(CStart) || old(state).serviceUp
      ensures state.timerUp <==> !faults(CStartTimer) || old(state).timerUp
    {
      var units := RestoreUnits();
      var restarted := RestartPrevious();
      ok := units && restarted;
    }

    /** The trees during a rollback; what is left of the target is removed by Rollback itself. */
    method PutTreeBack() returns (ok: bool)
      requires Valid() && !lost && state.install == Some(plan.target) && state.rollback == Some(previous)
      requires state.failed.None?
      modifies this
      ensures !lost
      ensures state == old(state).(install := state.install, rollback := state.rollback, failed := state.failed)
      ensures ok <==> TreePutBack(faults)
      ensures ok ==> state.install == Some(previous) && state.rollback.None?
      ensures !ok ==> && state.rollback == Some(previous)
                      && state.install == if faults(CSetAsideTarget) then Some(plan.target) else None
      ensures state.failed == if faults(CSetAsideTarget) then None else Some(plan.target)
    {
      ok := Do(CSetAsideTarget);
      if ok {
        ok := Do(CPutBack);
      }
    }

    method StopForRollback() returns (ok: bool)
      requires !lost && OldTreeKept(state, previous)
      modifies this
      ensures !lost && state == old(state).(serviceUp := state.serviceUp, timerUp := state.timerUp)
      ensures state.serviceUp <==> faults(CStopService) && old(state).serviceUp
      ensures state.timerUp <==> faults(CStopTimer) && old(state).timerUp
      ensures ok <==> StopsFine(faults)
    {
      var timer := Do(CStopTimer);
      var firmware := Observe(CStopFirmware);
      var service := Do(CStopService);
      ok := timer && firmware && service;
    }

    method RestoreData() returns (ok: bool)
      requires !lost && OldTreeKept(state, previous) && state.backup.Some?
      modifies this
      ensures !lost
      ensures state == old(state).(data := if faults(CRestoreBackup) then old(state).data else old(state).backup.value)
      ensures ok <==> !faults(CRestoreBackup)
    {
      ok := Do(CRestoreBackup);
    }

    method RemoveFailedTree()
      requires !lost && OldTreeKept(state, previous)
      modifies this
      ensures !lost && state == old(state).(failed := state.failed)
      ensures state.failed == if old(state).failed.Some? && faults(RemoveFailed) then Some(Unfinished) else None
    {
      if state.failed.Some? {
        var removed := Do(RemoveFailed);
      }
    }

    /**
     _rollback: each part is attempted whatever became of the others, so each is restored exactly
     when its own steps succeed.
     */
    method Rollback() returns (ok: bool)
      requires Valid() && !lost && state.install == Some(plan.target) && state.rollback == Some(previous)
      requires state.failed.None?
      requires |state.units| == UNIT_COUNT && |state.snapshot| == UNIT_COUNT && state.backup.Some?
      modifies this
      ensures !lost
      ensures state.snapshot == old(state).snapshot && state.backup == old(state).backup
      ensures state.staging == old(state).staging && state.transaction == old(state).transaction
      ensures ok <==> (&& StopsFine(faults) && TreePutBack(faults) && UnitsPutBack(faults) && !faults(CReload)
                       && !faults(CRestoreBackup) && RestartFine(faults))
      ensures if TreePutBack(faults) then state.install == Some(previous) && state.rollback.None?
              else && state.rollback == Some(previous)
                   && state.install == if faults(CSetAsideTarget) then Some(plan.target) else None
      ensures state.failed == if !faults(CSetAsideTarget) && faults(RemoveFailed) then Some(Unfinished) else None
      ensures state.units == Returned(old(state).units, state.snapshot, faults)
      ensures state.loaded == if UnitsPutBack(faults) && !faults(CReload) then state.snapshot else old(state).loaded
      ensures state.data == if faults(CRestoreBackup) then old(state).data else state.backup.value
      ensures state.serviceUp <==> !faults(CStart) || (faults(CStopService) && old(state).serviceUp)
      ensures state.timerUp <==> !faults(CStartTimer) || (faults(CStopTimer) && old(state).timerUp)
    {
      var stopped := StopForRollback();
      var tree := PutTreeBack();
      var units := RestoreUnits();
      var restored := RestoreData();
      var restarted := RestartPrevious();
      RemoveFailedTree();
      ok := stopped && tree && units && restored && restarted;
    }

    /** The except block: recording the rollback is itself inside the protected part. */
    method RollBackSwitched(ghost start: State) returns (ok: bool)
      requires Valid() && !lost && AtRest(start, previous) && StoppedIn(Switched, start, state, plan, previous, faults)
      modifies this
      ensures !lost && Settled(start, state, true, plan, previous, faults)
      ensures ok <==> (&& !faults(CWriteRollback) && StopsFine(faults) && TreePutBack(faults) && UnitsPutBack(faults)
                       && !faults(CReload) && !faults(CRestoreBackup) && RestartFine(faults))
    {
      ok := Observe(CWriteRollback);
      if ok {
        ok := Rollback();
      }
    }

    method RecoverDeployment(ghost start: State) returns (ok: bool)
      requires Valid() && !lost && AtRest(start, previous)
      requires StoppedIn(InDeployment, start, state, plan, previous, faults)
      modifies this
      ensures !lost && Settled(start, state, false, plan, previous, faults)
      ensures ok <==> UnitsPutBack(faults) && !faults(CReload) && RestartFine(faults)
    {
      ok := RecoverBeforeSwitch();
    }

    method RemoveRollbackTree()
      requires previous.Release?
      modifies this
      ensures var left := old(state).rollback.Some? && faults(RemoveRollback);
              state == old(state).(rollback := if left then Some(Unfinished) else None)
      ensures !old(lost) && OldTreeKept(old(state), previous) ==> (lost <==> old(state).install != Some(previous))
    {
      if state.rollback.Some? {
        var removed := Do(RemoveRollback);
      }
    }

    /** The finally block. */
    method CleanUp(reached: Reached)
      requires previous.Release? && (reached.Finished? || (OldTreeKept(state, previous) && !lost))
      modifies this
      ensures state == Cleaned(old(state), reached, faults)
      ensures !reached.Finished? ==> (lost <==> !reached.Switched? && old(state).install != Some(previous))
    {
      var ok;
      if reached.Finished? {
        RemoveRollbackTree();
        ok := Do(RemoveTransaction);
      } else if !reached.Switched? {
        if state.staging.Some? {
          ok := Do(RemoveStaging);
        }
        RemoveRollbackTree();
      }
    }

    /** The except block: nothing, recovery or rollback, by how far the try block got. */
    method HandleFailure(ghost start: State, reached: Reached) returns (outcome: Outcome)
      requires Valid() && !lost && AtRest(start, previous) && BeginFine(faults)
      requires reached == Furthest(faults) && StoppedIn(reached, start, state, plan, previous, faults)
      modifies this
      ensures !lost && outcome == Decided(faults)
      ensures BeforeCleanUp(start, state, reached, plan, previous, faults)
    {
      match reached {
        case InStaging => outcome := FailedEarly;
        case InDeployment =>
          var ok := RecoverDeployment(start);
          outcome := if ok then Recovered else RecoveryIncomplete;
        case Switched =>
          var ok := RollBackSwitched(start);
          outcome := if ok then RolledBack else RollbackIncomplete;
        case Finished => outcome := Succeeded;
      }
    }

    /**
     perform_upgrade. The outcome is the one the faults decide; every part of the installation ends
     as Ended says; and before a success the old tree is missing from both places exactly when the
     second rename of the switch and its undoing have both failed.
     */
    method PerformUpgrade() returns (outcome: Outcome)
      requires Valid() && !lost && AtRest(state, previous)
      modifies this
      ensures outcome == Decided(faults)
      ensures Ended(old(state), state, outcome, plan, previous, faults)
      ensures !outcome.Succeeded? ==> (lost <==> BeginFine(faults) && StagingFine(faults) && Stranded(faults))
    {
      ghost var start := state;
      var ok := Begin();
      if !ok {
        return Refused;
      }
      var reached := Attempt(start);
      outcome := HandleFailure(start, reached);
      ghost var before := state;
      CleanUp(reached);
      CleanUpEnds(start, before, state, reached, outcome, plan, previous, faults);
    }
  }

  /**
   When every undoing step succeeds, a failed upgrade that got as far as deploying leaves the old
   tree, the old units loaded and both services running; the data are those of the backup if the
   trees had been switched, and what the old release itself last wrote otherwise.
   */
  lemma UpgradeIsTransactional(start: State, s: State, p: Plan, previous: Tree, faults: Op -> bool)
    requires AtRest(start, previous) && |p.units| == UNIT_COUNT && CompensationsFine(faults)
    requires Ended(start, s, Decided(faults), p, previous, faults)
    ensures Decided(faults) in {Refused, FailedEarly, Recovered, RolledBack, Succeeded}
    ensures !Decided(faults).Succeeded? ==>
              && s.install == Some(previous) && s.rollback.None? && s.failed.None?
              && s.units == start.units && s.loaded == start.units && s.serviceUp && s.timerUp
              && (s.data == start.data || (Decided(faults).Recovered? && s.data == p.live))
              && (s.staging.Some? ==> faults(WriteStaging))
  {
  }

  /** An upgrade succeeds exactly when none of its forward steps fails. */
  lemma SucceededExactly(faults: Op -> bool)
    ensures Decided(faults) == Succeeded <==>
            (&& !faults(Inspect) && !faults(MakeBackup) && !faults(MakeTransaction) && !faults(MakeStaging)
             && !faults(WriteStaging) && !faults(CopyPayload) && !faults(PrepareVenv) && !faults(ValidateStaged)
             && !faults(SnapshotUnit(0)) && !faults(SnapshotUnit(1)) && !faults(SnapshotUnit(2))
             && !faults(WriteManifest) && !faults(WriteSwitching)
             && !faults(StopTimer) && !faults(StopFirmware) && !faults(StopService)
             && !faults(InstallUnit(0)) && !faults(InstallUnit(1)) && !faults(InstallUnit(2))
             && !faults(ReloadTarget) && !faults(SetAside) && !faults(PutTarget)
             && !faults(WriteValidating) && !faults(StartTarget) && !faults(TargetHealth)
             && !faults(StartTimer) && !faults(Postflight))
  {
  }

  /**
   The previous service is reported restored exactly when the deployment was begun, did not reach
   the switch, and every undoing step succeeds: each unit, the reload, the service, its health and
   the timer. Any of them failing is reported.
   */
  lemma RecoveredExactly(faults: Op -> bool)
    ensures Decided(faults) == Recovered <==>
            (&& BeginFine(faults) && StagingFine(faults) && !DeploymentFine(faults)
             && !faults(CUnit(0)) && !faults(CUnit(1)) && !faults(CUnit(2)) && !faults(CReload)
             && !faults(CStart) && !faults(CHealth) && !faults(CStartTimer))
    ensures Decided(faults) == RecoveryIncomplete <==>
            (&& BeginFine(faults) && StagingFine(faults) && !DeploymentFine(faults)
             && (|| faults(CUnit(0)) || faults(CUnit(1)) || faults(CUnit(2)) || faults(CReload)
                 || faults(CStart) || faults(CHealth) || faults(CStartTimer)))
  {
  }

  /** A rollback is reported complete exactly when it was needed and no step of it fails. */
  lemma RolledBackExactly(faults: Op -> bool)
    ensures Decided(faults) == RolledBack <==>
            (&& BeginFine(faults) && StagingFine(faults) && DeploymentFine(faults) && !ServiceFine(faults)
             && !faults(CWriteRollback) && !faults(CStopTimer) && !faults(CStopFirmware) && !faults(CStopService)
             && !faults(CSetAsideTarget) && !faults(CPutBack)
             && !faults(CUnit(0)) && !faults(CUnit(1)) && !faults(CUnit(2)) && !faults(CReload)
             && !faults(CRestoreBackup) && !faults(CStart) && !faults(CHealth) && !faults(CStartTimer))
    ensures Decided(faults) == RollbackIncomplete <==>
            (&& BeginFine(faults) && StagingFine(faults) && DeploymentFine(faults) && !ServiceFine(faults)
             && (|| faults(CWriteRollback) || faults(CStopTimer) || faults(CStopFirmware) || faults(CStopService)
                 || faults(CSetAsideTarget) || faults(CPutBack)
                 || faults(CUnit(0)) || faults(CUnit(1)) || faults(CUnit(2)) || faults(CReload)
                 || faults(CRestoreBackup) || faults(CStart) || faults(CHealth) || faults(CStartTimer)))
  {
  }

  /**
   What an outcome promises holds: after Recovered and after RolledBack the old units are in place
   and loaded and both services are up; after RolledBack the old tree and the backed-up data are
   back, after Recovered the old tree is in place unless it was stranded.
   */
  lemma OutcomesAreHonest(start: State, s: State, outcome: Outcome, p: Plan, previous: Tree, faults: Op -> bool)
    requires AtRest(start, previous) && |p.units| == UNIT_COUNT && outcome == Decided(faults)
    requires Ended(start, s, outcome, p, previous, faults)
    ensures outcome == Recovered || outcome == RolledBack ==>
              s.units == start.units && s.loaded == start.units && s.serviceUp && s.timerUp
    ensures outcome == RolledBack ==> s.install == Some(previous) && s.data == start.data
    ensures outcome == Recovered ==> (s.install == Some(previous) <==> !Stranded(faults))
    ensures outcome == Refused || outcome == FailedEarly ==>
              && s.install == Some(previous) && s.units == start.units && s.loaded == start.units
              && s.data == start.data && s.serviceUp && s.timerUp
  {
  }

  /** When the swap back fails too, the cleanup removes the only old tree and nothing is installed. */
  lemma StrandedUpgradeLosesOldTree(start: State, s: State, p: Plan, previous: Tree, faults: Op -> bool)
    requires AtRest(start, previous) && previous.Release? && |p.units| == UNIT_COUNT
    requires BeginFine(faults) && StagingFine(faults)
    requires Stranded(faults)
    ensures Decided(faults) in {Recovered, RecoveryIncomplete}
    ensures Ended(start, s, Decided(faults), p, previous, faults) ==> s.install.None? && !OldTreeKept(s, previous)
  {
  }

  /**
   If the state record cannot be written the rollback never starts: the new tree stays installed
   with its units loaded, and data and services stay as starting it left them.
   */
  lemma UnrecordedRollbackNeverStarts(start: State, s: State, p: Plan, previous: Tree, faults: Op -> bool)
    requires AtRest(start, previous) && |p.units| == UNIT_COUNT && faults(CWriteRollback)
    requires BeginFine(faults) && StagingFine(faults) && DeploymentFine(faults) && !ServiceFine(faults)
    requires Ended(start, s, Decided(faults), p, previous, faults)
    ensures Decided(faults) == RollbackIncomplete && OnTarget(start, s, p, previous, faults)
  {
  }
}
