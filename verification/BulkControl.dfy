/**
 Bulk pause, resume and reboot (app/control/bulk.py): request normalization, selection, and the
 fan-out into the per-miner queue while other requests and workers keep changing the table.
 */
module BulkControl {
  import opened Prelude
  import opened ControlJobs
  import opened Sorting

  const BULK_CONTROL_MAX_TARGETS := 50

  // ---- normalization and selection ----

  datatype Payload = Payload(minerIds: Option<seq<int>>, groupId: Option<int>, confirmReboot: bool)

  datatype Selection = Invalid | Miners(ids: seq<int>) | OfGroup(groupId: int)

  ghost predicate Unique(s: seq<int>) {
    forall i, j :: 0 <= i < j < |s| ==> s[i] != s[j]
  }

  /** The comparison of len(set(ids)) with len(ids). */
  predicate HasDuplicate(s: seq<int>) {
    s != [] && (s[0] in s[1..] || HasDuplicate(s[1..]))
  }

  /** `sorted` on ids without duplicates. */
  function SortedIds(s: seq<int>): (r: seq<int>)
    requires !HasDuplicate(s)
    ensures Ascending(r) && |r| == |s|
    ensures forall y :: y in r <==> y in s
  {
    if s == [] then [] else Insert(s[0], SortedIds(s[1..]))
  }

  function Normalize(p: Payload): (s: Selection)
    ensures s.Miners? <==>
            p.groupId.None? && p.minerIds.Some? && 0 < |p.minerIds.value| <= BULK_CONTROL_MAX_TARGETS
            && Unique(p.minerIds.value) && forall x :: x in p.minerIds.value ==> x > 0
    ensures s.Miners? ==> Ascending(s.ids) && |s.ids| == |p.minerIds.value|
    ensures s.Miners? ==> forall x :: x in s.ids <==> x in p.minerIds.value
    ensures s.OfGroup? <==> p.minerIds.None? && p.groupId.Some? && p.groupId.value > 0
  {
    if p.minerIds.Some? == p.groupId.Some? then Invalid
    else if p.minerIds.Some? then
      var ids := p.minerIds.value;
      DuplicatesDecided(ids);
      if ids == [] || !AllPositive(ids) || HasDuplicate(ids) || |ids| > BULK_CONTROL_MAX_TARGETS then Invalid
      else Miners(SortedIds(ids))
    else if p.groupId.value > 0 then OfGroup(p.groupId.value)
    else Invalid
  }

  predicate AllPositive(s: seq<int>) {
    forall x :: x in s ==> x > 0
  }

  lemma {:induction false} DuplicatesDecided(s: seq<int>)
    ensures HasDuplicate(s) <==> !Unique(s)
  {
    if s != [] {
      DuplicatesDecided(s[1..]);
      if s[0] in s[1..] {
        var j :| 0 <= j < |s| - 1 && s[1..][j] == s[0];
        assert s[0] == s[j + 1];
      }
      if !Unique(s[1..]) {
        var i, j :| 0 <= i < j < |s| - 1 && s[1..][i] == s[1..][j];
        assert s[i + 1] == s[j + 1];
      }
    }
  }

  /** A miners row joined with its newest active job. */
  datatype Row = Row(miner: Miner, groupId: Option<int>, activeJob: Option<nat>)

  datatype Target = Target(id: int, row: Option<Row>)

  /** The miners table in id order, as every query returns it. */
  ghost predicate InIdOrder(rows: seq<Row>) {
    forall i, j :: 0 <= i < j < |rows| ==> rows[i].miner.id < rows[j].miner.id
  }

  function RowOf(rows: seq<Row>, id: int): (r: Option<Row>)
    ensures r.Some? ==> r.value in rows && r.value.miner.id == id
    ensures r.None? ==> forall x :: x in rows ==> x.miner.id != id
  {
    if rows == [] then None
    else if rows[0].miner.id == id then Some(rows[0])
    else RowOf(rows[1..], id)
  }

  predicate Joins(t: Target, groupId: int) {
    t.row.Some? && t.id == t.row.value.miner.id && t.row.value.groupId == Some(groupId)
  }

  function GroupTargets(rows: seq<Row>, groupId: int): (ts: seq<Target>)
    ensures forall t :: t in ts <==> t.row.Some? && t.row.value in rows && Joins(t, groupId)
  {
    if rows == [] then []
    else
      var rest := GroupTargets(rows[1..], groupId);
      if rows[0].groupId == Some(groupId) then [Target(rows[0].miner.id, Some(rows[0]))] + rest else rest
  }

  /** resolve_bulk_control_selection; None where it raises a validation error. */
  function Resolve(p: Payload, rows: seq<Row>, groups: set<int>): Option<seq<Target>> {
    match Normalize(p)
    case Invalid => None
    case Miners(ids) => Some(seq(|ids|, i requires 0 <= i < |ids| => Target(ids[i], RowOf(rows, ids[i]))))
    case OfGroup(g) =>
      var ts := GroupTargets(rows, g);
      if g !in groups || ts == [] || |ts| > BULK_CONTROL_MAX_TARGETS then None else Some(ts)
  }

  ghost predicate TargetsInOrder(ts: seq<Target>) {
    forall i, j :: 0 <= i < j < |ts| ==> ts[i].id < ts[j].id
  }

  lemma {:induction false} GroupTargetsInOrder(rows: seq<Row>, groupId: int)
    requires InIdOrder(rows)
    ensures TargetsInOrder(GroupTargets(rows, groupId))
  {
    if rows != [] {
      GroupTargetsInOrder(rows[1..], groupId);
      var rest := GroupTargets(rows[1..], groupId);
      forall j | 0 <= j < |rest| ensures rows[0].miner.id < rest[j].id {
        assert rest[j] in rest;
      }
    }
  }

  /** A selection is never empty, never above the bound, and strictly ascending by id. */
  lemma ResolvedIsBoundedAndOrdered(p: Payload, rows: seq<Row>, groups: set<int>)
    requires InIdOrder(rows) && Resolve(p, rows, groups).Some?
    ensures var ts := Resolve(p, rows, groups).value;
            0 < |ts| <= BULK_CONTROL_MAX_TARGETS && TargetsInOrder(ts)
  {
    match Normalize(p)
    case Miners(ids) =>
    case OfGroup(g) => GroupTargetsInOrder(rows, g);
    case Invalid =>
  }

  ghost predicate Requested(p: Payload, rows: seq<Row>, id: int) {
    if p.minerIds.Some? then id in p.minerIds.value
    else RowOf(rows, id).Some? && RowOf(rows, id).value.groupId == p.groupId
  }

  /** The selection holds exactly the ids asked for, or exactly the group's current members. */
  lemma ResolvedIsWhatWasAsked(p: Payload, rows: seq<Row>, groups: set<int>, id: int)
    requires InIdOrder(rows) && Resolve(p, rows, groups).Some?
    ensures (exists t :: t in Resolve(p, rows, groups).value && t.id == id) <==> Requested(p, rows, id)
  {
    var ts := Resolve(p, rows, groups).value;
    match Normalize(p)
    case Miners(ids) =>
      if id in ids {
        var i :| 0 <= i < |ids| && ids[i] == id;
        assert ts[i] in ts && ts[i].id == id;
      }
      if t :| t in ts && t.id == id {
        var i :| 0 <= i < |ts| && ts[i] == t;
        assert ids[i] in ids;
      }
    case OfGroup(g) =>
      if Requested(p, rows, id) {
        assert Target(id, RowOf(rows, id)) in ts;
      }
      if t :| t in ts && t.id == id {
        RowIsUnique(rows, t.row.value, RowOf(rows, id).value);
      }
    case Invalid =>
  }

  lemma RowIsUnique(rows: seq<Row>, a: Row, b: Row)
    requires InIdOrder(rows) && a in rows && b in rows && a.miner.id == b.miner.id
    ensures a == b
  {
    var i :| 0 <= i < |rows| && rows[i] == a;
    var j :| 0 <= j < |rows| && rows[j] == b;
  }

  /** The ids of a group's members. */
  ghost function MemberIds(rows: seq<Row>, groupId: int): set<int> {
    set r | r in rows && r.groupId == Some(groupId) :: r.miner.id
  }

  lemma MembersSplit(rows: seq<Row>, groupId: int)
    requires InIdOrder(rows) && rows != []
    ensures var rest := MemberIds(rows[1..], groupId);
            && MemberIds(rows, groupId) ==
               (if rows[0].groupId == Some(groupId) then {rows[0].miner.id} + rest else rest)
            && rows[0].miner.id !in rest
  {
    assert forall r :: r in rows <==> r == rows[0] || r in rows[1..];
  }

  lemma {:induction false} TargetsCountMembers(rows: seq<Row>, groupId: int)
    requires InIdOrder(rows)
    ensures |GroupTargets(rows, groupId)| == |MemberIds(rows, groupId)|
  {
    if rows == [] {
      assert MemberIds(rows, groupId) == {};
    } else {
      TargetsCountMembers(rows[1..], groupId);
      MembersSplit(rows, groupId);
    }
  }

  /**
   Which selections are accepted: 1 to 50 distinct positive ids, or one existing group of a positive
   id with 1 to 50 current members; never both, never neither.
   */
  lemma ResolvedExactly(p: Payload, rows: seq<Row>, groups: set<int>)
    requires InIdOrder(rows)
    ensures Resolve(p, rows, groups).Some? <==>
            (|| (&& p.groupId.None? && p.minerIds.Some? && 0 < |p.minerIds.value| <= 50
                 && Unique(p.minerIds.value) && forall x :: x in p.minerIds.value ==> x > 0)
             || (&& p.minerIds.None? && p.groupId.Some? && p.groupId.value > 0 && p.groupId.value in groups
                 && 0 < |MemberIds(rows, p.groupId.value)| <= 50))
  {
    if p.groupId.Some? {
      TargetsCountMembers(rows, p.groupId.value);
    }
  }

  // ---- the fan-out ----

  datatype Code = Fine | NotFound | Disabled | UnsupportedDriver | ActiveJobCode | QueueError

  function Eligibility(row: Option<Row>): Code {
    if row.None? then NotFound
    else if !row.value.miner.enabled then Disabled
    else if row.value.miner.driver == Unset then UnsupportedDriver
    else if row.value.activeJob.Some? then ActiveJobCode
    else Fine
  }

  datatype Result = Result(minerId: int, accepted: bool, jobId: Option<nat>, code: Code)

  /** The job rows and overrides of one moment. */
  datatype Table = Table(jobs: seq<Job>, overrides: map<int, int>)

  /** What the rest of the application does to the table: another request, or a live worker's write. */
  datatype Other = Ask(row: Option<Miner>, action: JobAction, manual: bool, transition: Option<int>)
                 | Work(id: nat, write: Write)

  /**
   Where a queue call raises, if it does: before anything is written, between the override and the
   job row (two transactions), or after the job row is committed (audit log or submit).
   */
  datatype Raise = Never | BeforeWrites | BeforeInsert | AfterInsert

  /**
   What meets one target: the activity just before it, the miner row its queue call reads, the
   transition it computes, and where the call raises.
   */
  datatype Call = Call(before: seq<Other>, row: Option<Miner>, transition: Option<int>, raises: Raise)

  function Asked(t: Table, minerId: int, action: JobAction, manual: bool, transition: Option<int>): Table {
    var s := Enqueued(System(t.jobs, t.overrides, {}, map[]), minerId, action, manual, transition.GetOr(0));
    Table(s.jobs, s.overrides)
  }

  function Acted(t: Table, o: Other): Table {
    match o
    case Ask(row, action, manual, transition) =>
      if Controllable(row) then Asked(t, row.value.id, action, manual, transition) else t
    case Work(id, w) =>
      if id < |t.jobs| && Active(t.jobs[id]) then t.(jobs := t.jobs[id := Written(t.jobs[id], w)]) else t
  }

  function Activity(t: Table, os: seq<Other>): Table {
    if os == [] then t else Acted(Activity(t, os[..|os| - 1]), os[|os| - 1])
  }

  // ---- one target ----

  /** The queue call reaches the insert: nobody else's job is active and nothing raises before. */
  predicate Creates(t: Table, id: int, call: Call) {
    Controllable(call.row) && ActiveJob(t.jobs, id).None? && (call.raises == Never || call.raises == AfterInsert)
  }

  function MadeBy(t: Table, target: Target, call: Call): Option<nat> {
    if Eligibility(target.row) == Fine && Creates(t, target.id, call) then Some(|t.jobs|) else None
  }

  function TableAfter(t: Table, action: JobAction, target: Target, call: Call): Table {
    if Eligibility(target.row) != Fine || call.raises == BeforeWrites then t
    else if !Controllable(call.row) || ActiveJob(t.jobs, target.id).Some? then t
    else if call.raises == BeforeInsert then
      if action == Reboot then t else t.(overrides := t.overrides[target.id := call.transition.GetOr(0)])
    else Asked(t, target.id, action, true, call.transition)
  }

  function ResultOf(t: Table, target: Target, call: Call): Result {
    var code := Eligibility(target.row);
    if code != Fine then Result(target.id, false, if target.row.Some? then target.row.value.activeJob else None, code)
    else if call.raises == BeforeWrites || !Controllable(call.row) then Result(target.id, false, None, QueueError)
    else
      match ActiveJob(t.jobs, target.id)
      case Some(j) =>
        if call.raises == AfterInsert then Result(target.id, false, None, QueueError)
        else Result(target.id, false, Some(j), ActiveJobCode)
      case None =>
        if call.raises == Never then Result(target.id, true, Some(|t.jobs|), Fine)
        else Result(target.id, false, None, QueueError)
  }

  // ---- the whole fan-out ----

  /** After some targets: the table, their results, and the job each of them made. */
  datatype Fanout = Fanout(table: Table, results: seq<Result>, made: seq<Option<nat>>)

  /** Activity, then the target, for each target in turn. */
  function Fan(t: Table, action: JobAction, ts: seq<Target>, env: nat -> Call): (f: Fanout)
    ensures |f.results| == |f.made| == |ts|
  {
    if ts == [] then Fanout(t, [], [])
    else
      var n := |ts| - 1;
      var f := Fan(t, action, ts[..n], env);
      var met := Activity(f.table, env(n).before);
      Fanout(TableAfter(met, action, ts[n], env(n)), f.results + [ResultOf(met, ts[n], env(n))],
             f.made + [MadeBy(met, ts[n], env(n))])
  }

  /** The table target `i` meets. */
  function Met(t: Table, action: JobAction, ts: seq<Target>, env: nat -> Call, i: nat): Table
    requires i < |ts|
  {
    Activity(Fan(t, action, ts[..i], env).table, env(i).before)
  }

  // ---- the loops of the source ----

  method OtherActivity(table: JobTable, activity: seq<Other>)
    requires OneActivePerMiner(table.jobs)
    modifies table
    ensures Table(table.jobs, table.overrides) == Activity(Table(old(table.jobs), old(table.overrides)), activity)
    ensures OneActivePerMiner(table.jobs)
  {
    ghost var start := Table(table.jobs, table.overrides);
    for i := 0 to |activity|
      invariant Table(table.jobs, table.overrides) == Activity(start, activity[..i])
      invariant OneActivePerMiner(table.jobs)
    {
      assert activity[..i + 1][..i] == activity[..i];
      ActedKeepsOneActive(Table(table.jobs, table.overrides), activity[i]);
      match activity[i] {
        case Ask(row, action, manual, transition) =>
          var r := table.Queue(row, action, manual, transition);
        case Work(id, w) =>
          if id < |table.jobs| && Active(table.jobs[id]) {
            table.UpdateControlJob(id, w);
          }
      }
    }
    assert activity[..|activity|] == activity;
  }

  /** The queue call of one target that passed the preview. */
  method QueueOne(table: JobTable, action: JobAction, target: Target, call: Call) returns (result: Result)
    requires OneActivePerMiner(table.jobs) && Eligibility(target.row) == Fine
    modifies table
    ensures OneActivePerMiner(table.jobs)
    ensures Table(table.jobs, table.overrides) ==
            TableAfter(Table(old(table.jobs), old(table.overrides)), action, target, call)
    ensures result == ResultOf(Table(old(table.jobs), old(table.overrides)), target, call)
  {
    if call.raises == BeforeWrites {
      return Result(target.id, false, None, QueueError);
    }
    if call.raises == BeforeInsert && Controllable(call.row) {
      var active := table.GetActiveControlJob(target.id);
      if active.Some? {
        return Result(target.id, false, active, ActiveJobCode);
      }
      if action != Reboot {
        table.SetManualOverride(target.id, call.transition.GetOr(0));
      }
      return Result(target.id, false, None, QueueError);
    }
    var row := if call.row.Some? then Some(call.row.value.(id := target.id)) else None;
    var queued := table.Queue(row, action, true, call.transition);
    match queued {
      case Refused =>
        return Result(target.id, false, None, QueueError);
      case AlreadyActive(job) =>
        if call.raises == AfterInsert {
          return Result(target.id, false, None, QueueError);
        }
        return Result(target.id, false, Some(job), ActiveJobCode);
      case Accepted(job) =>
        if call.raises == AfterInsert {
          return Result(target.id, false, None, QueueError);
        }
        return Result(target.id, true, Some(job), Fine);
    }
  }

  /** One pass of the loop. */
  method ServeTarget(table: JobTable, action: JobAction, target: Target, call: Call) returns (result: Result)
    requires OneActivePerMiner(table.jobs)
    modifies table
    ensures OneActivePerMiner(table.jobs)
    ensures Table(table.jobs, table.overrides) ==
            TableAfter(Table(old(table.jobs), old(table.overrides)), action, target, call)
    ensures result == ResultOf(Table(old(table.jobs), old(table.overrides)), target, call)
  {
    var code := Eligibility(target.row);
    if code != Fine {
      return Result(target.id, false, if target.row.Some? then target.row.value.activeJob else None, code);
    }
    result := QueueOne(table, action, target, call);
  }

  lemma FanStep(t: Table, action: JobAction, ts: seq<Target>, env: nat -> Call, i: nat)
    requires i < |ts|
    ensures var f, g := Fan(t, action, ts[..i], env), Fan(t, action, ts[..i + 1], env);
            var met := Activity(f.table, env(i).before);
            && g.table == TableAfter(met, action, ts[i], env(i))
            && g.results == f.results + [ResultOf(met, ts[i], env(i))]
  {
    assert ts[..i + 1][..i] == ts[..i];
  }

  /** The loop of execute_bulk_control. */
  method FanOut(table: JobTable, action: JobAction, ts: seq<Target>, env: nat -> Call) returns (results: seq<Result>)
    requires OneActivePerMiner(table.jobs)
    modifies table
    ensures OneActivePerMiner(table.jobs)
    ensures var f := Fan(Table(old(table.jobs), old(table.overrides)), action, ts, env);
            Table(table.jobs, table.overrides) == f.table && results == f.results
  {
    results := [];
    ghost var start := Table(table.jobs, table.overrides);
    for i := 0 to |ts|
      invariant OneActivePerMiner(table.jobs)
      invariant Table(table.jobs, table.overrides) == Fan(start, action, ts[..i], env).table
      invariant results == Fan(start, action, ts[..i], env).results
    {
      FanStep(start, action, ts, env, i);
      OtherActivity(table, env(i).before);
      var result := ServeTarget(table, action, ts[i], env(i));
      results := results + [result];
    }
    assert ts[..|ts|] == ts;
  }

  /**
   execute_bulk_control: None where it raises a validation error. A bulk reboot must be confirmed.
   What the fan-out does and reports is exactly Fan of the resolved selection.
   */
  method ExecuteBulk(
    table: JobTable, action: JobAction, payload: Payload, rows: seq<Row>, groups: set<int>, env: nat -> Call)
    returns (results: Option<seq<Result>>)
    requires OneActivePerMiner(table.jobs)
    modifies table
    ensures OneActivePerMiner(table.jobs)
    ensures results.None? <==> Resolve(payload, rows, groups).None? || (action == Reboot && !payload.confirmReboot)
    ensures results.None? ==> table.jobs == old(table.jobs) && table.overrides == old(table.overrides)
    ensures results.Some? ==>
              var ts := Resolve(payload, rows, groups).value;
              var f := Fan(Table(old(table.jobs), old(table.overrides)), action, ts, env);
              Table(table.jobs, table.overrides) == f.table && results.value == f.results
  {
    var resolved := Resolve(payload, rows, groups);
    if resolved.None? || (action == Reboot && !payload.confirmReboot) {
      return None;
    }
    var reported := FanOut(table, action, resolved.value, env);
    return Some(reported);
  }

  // ---- what the fan-out keeps and touches ----

  lemma ActedKeepsOneActive(t: Table, o: Other)
    requires OneActivePerMiner(t.jobs)
    ensures OneActivePerMiner(Acted(t, o).jobs)
  {
  }

  /** Later tables only add rows, and never change whose job a row is. */
  ghost predicate Grown(before: seq<Job>, after: seq<Job>) {
    && |before| <= |after|
    && forall i :: 0 <= i < |before| ==> after[i].minerId == before[i].minerId && after[i].action == before[i].action
  }

  /** The override of a miner, None where it has none. */
  function OverrideOf(t: Table, m: int): Option<int> {
    if m in t.overrides then Some(t.overrides[m]) else None
  }

  predicate AsksFor(o: Other, m: int) {
    o.Ask? && o.row.Some? && o.row.value.id == m
  }

  ghost predicate SomeoneAsks(os: seq<Other>, m: int) {
    exists x :: 0 <= x < |os| && AsksFor(os[x], m)
  }

  /** A target's queue call concerns no other miner, and no existing row. */
  lemma ServingConcernsTarget(t: Table, action: JobAction, target: Target, call: Call, m: int)
    requires m != target.id
    ensures var after := TableAfter(t, action, target, call);
            && OverrideOf(after, m) == OverrideOf(t, m)
            && ActiveJob(after.jobs, m) == ActiveJob(t.jobs, m)
            && t.jobs <= after.jobs
            && (forall j :: |t.jobs| <= j < |after.jobs| ==> after.jobs[j].minerId == target.id)
  {
    var after := TableAfter(t, action, target, call);
    assert after.jobs != t.jobs ==> after.jobs[..|after.jobs| - 1] == t.jobs;
  }

  lemma ActedGrows(t: Table, o: Other)
    ensures Grown(t.jobs, Acted(t, o).jobs)
    ensures forall j :: |t.jobs| <= j < |Acted(t, o).jobs| ==> AsksFor(o, Acted(t, o).jobs[j].minerId)
    ensures forall m :: !AsksFor(o, m) ==> OverrideOf(Acted(t, o), m) == OverrideOf(t, m)
  {
  }

  lemma SomeoneAsksPrefix(os: seq<Other>, m: int)
    requires os != []
    ensures SomeoneAsks(os, m) <==> SomeoneAsks(os[..|os| - 1], m) || AsksFor(os[|os| - 1], m)
  {
    if SomeoneAsks(os[..|os| - 1], m) {
      var x :| 0 <= x < |os| - 1 && AsksFor(os[..|os| - 1][x], m);
      assert os[x] == os[..|os| - 1][x];
    }
    if x :| 0 <= x < |os| && AsksFor(os[x], m) {
      assert x < |os| - 1 ==> os[..|os| - 1][x] == os[x];
    }
  }

  lemma {:induction false} ActivityGrows(t: Table, os: seq<Other>)
    ensures Grown(t.jobs, Activity(t, os).jobs)
  {
    if os != [] {
      ActivityGrows(t, os[..|os| - 1]);
      ActedGrows(Activity(t, os[..|os| - 1]), os[|os| - 1]);
    }
  }

  /** Activity adds rows, and moves overrides, only for miners somebody asks for. */
  lemma {:induction false} ActivityConcernsAsked(t: Table, os: seq<Other>, m: int)
    requires !SomeoneAsks(os, m)
    ensures OverrideOf(Activity(t, os), m) == OverrideOf(t, m)
    ensures forall j :: |t.jobs| <= j < |Activity(t, os).jobs| ==> Activity(t, os).jobs[j].minerId != m
  {
    if os != [] {
      var before := os[..|os| - 1];
      SomeoneAsksPrefix(os, m);
      ActivityConcernsAsked(t, before, m);
      ActivityGrows(t, before);
      ActedGrows(Activity(t, before), os[|os| - 1]);
    }
  }

  /** What target `i` meets and reports, whatever comes after it. */
  lemma {:induction false} FanAt(t: Table, action: JobAction, ts: seq<Target>, env: nat -> Call, i: nat)
    requires i < |ts|
    ensures var met := Met(t, action, ts, env, i);
            && Fan(t, action, ts, env).results[i] == ResultOf(met, ts[i], env(i))
            && Fan(t, action, ts, env).made[i] == MadeBy(met, ts[i], env(i))
  {
    var n := |ts| - 1;
    if i < n {
      FanAt(t, action, ts[..n], env, i);
      assert ts[..n][..i] == ts[..i];
    }
  }

  /** What the preview asks of a target's row. */
  ghost predicate PreviewPasses(row: Option<Row>) {
    && row.Some? && row.value.miner.enabled
    && row.value.miner.driver in {Awesome, BitmainStock} && row.value.activeJob.None?
  }

  /** And what its queue call asks again of the row it reads. */
  ghost predicate RowPasses(row: Option<Miner>) {
    row.Some? && row.value.enabled && row.value.driver in {Awesome, BitmainStock}
  }

  /** No row of the miner is queued or running. */
  ghost predicate Free(t: Table, id: int) {
    forall j :: 0 <= j < |t.jobs| && t.jobs[j].minerId == id ==> t.jobs[j].status !in {Queued, Running}
  }

  /**
   What the rest of the application does: a request adds its job exactly where its miner's row
   passes and it has no queued or running job, and a worker's write reaches exactly a job that is
   queued or running.
   */
  lemma ActivityMeans(t: Table, o: Other)
    ensures match o
            case Ask(row, action, manual, transition) =>
              Acted(t, o).jobs == (if RowPasses(row) && Free(t, row.value.id)
                                   then t.jobs + [NewJob(row.value.id, action, manual)] else t.jobs)
            case Work(id, w) =>
              && Acted(t, o).overrides == t.overrides && |Acted(t, o).jobs| == |t.jobs|
              && (forall j :: 0 <= j < |t.jobs| ==>
                    Acted(t, o).jobs[j] ==
                    if j == id && t.jobs[j].status in {Queued, Running} then Written(t.jobs[j], w) else t.jobs[j])
  {
  }

  /**
   Every target is decided by the table it meets: a job is made for it exactly when the preview
   lets it through, its row still passes, it has no queued or running job and nothing raises before
   the insert; it is reported accepted, with that job, exactly when nothing raises after it either.
   */
  lemma TargetsAreDecided(t: Table, action: JobAction, ts: seq<Target>, env: nat -> Call, i: nat)
    requires i < |ts|
    ensures var f := Fan(t, action, ts, env);
            var met := Met(t, action, ts, env, i);
            && (f.made[i].Some? <==>
                (&& PreviewPasses(ts[i].row) && RowPasses(env(i).row) && Free(met, ts[i].id)
                 && env(i).raises in {Never, AfterInsert}))
            && f.results[i].minerId == ts[i].id
            && (f.results[i].accepted <==> f.made[i].Some? && env(i).raises == Never)
            && (f.results[i].accepted ==> f.results[i].jobId == f.made[i])
  {
    FanAt(t, action, ts, env, i);
  }

  /** The code each target is reported with. */
  lemma CodesAreDecided(t: Table, action: JobAction, ts: seq<Target>, env: nat -> Call, i: nat)
    requires i < |ts|
    ensures var row, code := ts[i].row, Fan(t, action, ts, env).results[i].code;
            && (row.None? <==> code == NotFound)
            && (row.Some? && !row.value.miner.enabled <==> code == Disabled)
            && (row.Some? && row.value.miner.enabled && row.value.miner.driver == Unset <==> code == UnsupportedDriver)
            && (code == Fine <==> Fan(t, action, ts, env).results[i].accepted)
            && (PreviewPasses(row) && code == ActiveJobCode ==>
                  && !Free(Met(t, action, ts, env, i), ts[i].id)
                  && Fan(t, action, ts, env).results[i].jobId == ActiveJob(Met(t, action, ts, env, i).jobs, ts[i].id))
            && (code == QueueError ==> PreviewPasses(row) && (env(i).raises != Never || !RowPasses(env(i).row)))
  {
    FanAt(t, action, ts, env, i);
  }

  /** `made[i]` is the row target i created: ids ascend, and each row is the job asked for. */
  ghost predicate Attributed(made: seq<Option<nat>>, ts: seq<Target>, action: JobAction, first: nat, jobs: seq<Job>)
    requires |made| <= |ts|
  {
    && (forall i :: 0 <= i < |made| && made[i].Some? ==>
          && first <= made[i].value < |jobs|
          && jobs[made[i].value].minerId == ts[i].id && jobs[made[i].value].action == action)
    && Ascends(made)
  }

  ghost predicate Ascends(made: seq<Option<nat>>) {
    forall i, j :: 0 <= i < j < |made| && made[i].Some? && made[j].Some? ==> made[i].value < made[j].value
  }

  /** A row has an origin in the run: a target of this call made it, or some other request asked for its miner. */
  ghost predicate HasOrigin(f: Fanout, env: nat -> Call, j: nat)
    requires j < |f.table.jobs|
  {
    Some(j) in f.made || exists i :: 0 <= i < |f.made| && SomeoneAsks(env(i).before, f.table.jobs[j].minerId)
  }

  lemma {:induction false} FanGrows(t: Table, action: JobAction, ts: seq<Target>, env: nat -> Call)
    ensures Grown(t.jobs, Fan(t, action, ts, env).table.jobs)
  {
    if ts != [] {
      var n := |ts| - 1;
      var f := Fan(t, action, ts[..n], env);
      FanGrows(t, action, ts[..n], env);
      ActivityGrows(f.table, env(n).before);
    }
  }

  lemma AttributionSurvives(made: seq<Option<nat>>, ts: seq<Target>, action: JobAction, first: nat,
                            before: seq<Job>, after: seq<Job>)
    requires |made| <= |ts| && Attributed(made, ts, action, first, before) && Grown(before, after)
    ensures Attributed(made, ts, action, first, after)
  {
  }

  lemma AttributionGrows(made: seq<Option<nat>>, job: Option<nat>, ts: seq<Target>, action: JobAction, first: nat,
                         before: seq<Job>, after: seq<Job>)
    requires |made| < |ts| && Attributed(made, ts, action, first, before) && first <= |before| && Grown(before, after)
    requires job.Some? ==> job.value == |before| && after == before + [NewJob(ts[|made|].id, action, true)]
    ensures Attributed(made + [job], ts, action, first, after)
  {
    AttributionSurvives(made, ts, action, first, before, after);
  }

  lemma MadeIsAppended(t: Table, action: JobAction, target: Target, call: Call)
    ensures var after := TableAfter(t, action, target, call).jobs;
            && Grown(t.jobs, after)
            && (if MadeBy(t, target, call).Some? then after == t.jobs + [NewJob(target.id, action, true)]
                else after == t.jobs)
  {
  }

  /**
   A target's own override moves exactly when a pause or resume gets past its active-job check,
   even where the insert after it fails; a reboot never moves it.
   */
  lemma TargetOverrideMovesIff(t: Table, action: JobAction, target: Target, call: Call)
    requires OverrideOf(t, target.id) != Some(call.transition.GetOr(0))
    ensures OverrideOf(TableAfter(t, action, target, call), target.id) != OverrideOf(t, target.id) <==>
            (&& action != Reboot && Eligibility(target.row) == Fine && Controllable(call.row)
             && ActiveJob(t.jobs, target.id).None? && call.raises != BeforeWrites)
    ensures OverrideOf(TableAfter(t, action, target, call), target.id) in
              {OverrideOf(t, target.id), Some(call.transition.GetOr(0))}
  {
  }

  /** Rows are attributed to the target they were made for. */
  lemma {:induction false} RowsAreAttributed(t: Table, action: JobAction, ts: seq<Target>, env: nat -> Call)
    ensures Attributed(Fan(t, action, ts, env).made, ts, action, |t.jobs|, Fan(t, action, ts, env).table.jobs)
  {
    if ts != [] {
      var n := |ts| - 1;
      var f := Fan(t, action, ts[..n], env);
      var met := Activity(f.table, env(n).before);
      RowsAreAttributed(t, action, ts[..n], env);
      assert Attributed(f.made, ts, action, |t.jobs|, f.table.jobs);
      FanGrows(t, action, ts[..n], env);
      ActivityGrows(f.table, env(n).before);
      AttributionSurvives(f.made, ts, action, |t.jobs|, f.table.jobs, met.jobs);
      MadeIsAppended(met, action, ts[n], env(n));
      var after := TableAfter(met, action, ts[n], env(n));
      AttributionGrows(f.made, MadeBy(met, ts[n], env(n)), ts, action, |t.jobs|, met.jobs, after.jobs);
    }
  }

  lemma OriginSurvives(f: Fanout, g: Fanout, env: nat -> Call, j: nat)
    requires j < |f.table.jobs| && HasOrigin(f, env, j) && Grown(f.table.jobs, g.table.jobs) && f.made <= g.made
    ensures HasOrigin(g, env, j)
  {
    if Some(j) in f.made {
      var i :| 0 <= i < |f.made| && f.made[i] == Some(j);
      assert g.made[i] == Some(j);
    }
  }

  /** Every new row was made by a target of the call or asked for by somebody else. */
  lemma {:induction false} NewRowsHaveOrigin(t: Table, action: JobAction, ts: seq<Target>, env: nat -> Call, j: nat)
    requires |t.jobs| <= j < |Fan(t, action, ts, env).table.jobs|
    ensures HasOrigin(Fan(t, action, ts, env), env, j)
  {
    if ts != [] {
      var n := |ts| - 1;
      var f, g := Fan(t, action, ts[..n], env), Fan(t, action, ts, env);
      var met := Activity(f.table, env(n).before);
      ActivityGrows(f.table, env(n).before);
      MadeIsAppended(met, action, ts[n], env(n));
      if j < |f.table.jobs| {
        NewRowsHaveOrigin(t, action, ts[..n], env, j);
        OriginSurvives(f, g, env, j);
      } else if j < |met.jobs| {
        assert g.table.jobs[j].minerId == met.jobs[j].minerId;
        if !SomeoneAsks(env(n).before, met.jobs[j].minerId) {
          ActivityConcernsAsked(f.table, env(n).before, met.jobs[j].minerId);
        }
      } else {
        assert g.made[n] == Some(j);
      }
    }
  }

  /** A miner that is no target and that nobody else asks for is left alone: no new job, no moved override. */
  lemma {:induction false} OutsiderUntouched(t: Table, action: JobAction, ts: seq<Target>, env: nat -> Call, m: int)
    requires forall i :: 0 <= i < |ts| ==> ts[i].id != m
    requires forall i :: 0 <= i < |ts| ==> !SomeoneAsks(env(i).before, m)
    ensures var after := Fan(t, action, ts, env).table;
            && OverrideOf(after, m) == OverrideOf(t, m)
            && (forall j :: |t.jobs| <= j < |after.jobs| ==> after.jobs[j].minerId != m)
  {
    if ts != [] {
      var n := |ts| - 1;
      var f := Fan(t, action, ts[..n], env);
      OutsiderUntouched(t, action, ts[..n], env, m);
      ActivityGrows(f.table, env(n).before);
      ActivityConcernsAsked(f.table, env(n).before, m);
      ServingConcernsTarget(Activity(f.table, env(n).before), action, ts[n], env(n), m);
    }
  }

  // ---- conservation ----

  function CountAccepted(results: seq<Result>): nat {
    if results == [] then 0
    else CountAccepted(results[..|results| - 1]) + if results[|results| - 1].accepted then 1 else 0
  }

  ghost function MadeIds(made: seq<Option<nat>>): (s: set<nat>)
    ensures forall j :: j in s <==> Some(j) in made
  {
    if made == [] then {}
    else
      var before := MadeIds(made[..|made| - 1]);
      assert made == made[..|made| - 1] + [made[|made| - 1]];
      if made[|made| - 1].Some? then before + {made[|made| - 1].value} else before
  }

  lemma LastIdIsNew(made: seq<Option<nat>>)
    requires made != [] && made[|made| - 1].Some? && Ascends(made)
    ensures made[|made| - 1].value !in MadeIds(made[..|made| - 1])
  {
  }

  /** The queue calls that raised after committing their job. */
  ghost function LateFailures(made: seq<Option<nat>>, env: nat -> Call): nat {
    if made == [] then 0
    else
      var n := |made| - 1;
      LateFailures(made[..n], env) + if made[n].Some? && env(n).raises == AfterInsert then 1 else 0
  }

  /** Conservation: every job the call created is an accepted result or a late failure. */
  lemma {:induction false} CreatedIsAcceptedOrLate(t: Table, action: JobAction, ts: seq<Target>, env: nat -> Call)
    ensures var f := Fan(t, action, ts, env);
            |MadeIds(f.made)| == CountAccepted(f.results) + LateFailures(f.made, env)
  {
    if ts != [] {
      var n := |ts| - 1;
      var f, g := Fan(t, action, ts, env), Fan(t, action, ts[..n], env);
      CreatedIsAcceptedOrLate(t, action, ts[..n], env);
      RowsAreAttributed(t, action, ts, env);
      TargetsAreDecided(t, action, ts, env, n);
      assert f.made[..n] == g.made && f.results[..n] == g.results;
      if f.made[n].Some? {
        LastIdIsNew(f.made);
      }
    }
  }

  lemma {:induction false} NoLateFailures(made: seq<Option<nat>>, env: nat -> Call)
    ensures LateFailures(made, env) == 0 <==>
            forall i :: 0 <= i < |made| && made[i].Some? ==> env(i).raises != AfterInsert
  {
    if made != [] {
      NoLateFailures(made[..|made| - 1], env);
    }
  }

  /**
   The reported accepted count equals the number of jobs created exactly when no queue call
   raised after committing its job; otherwise jobs exist that no result accounts for.
   */
  lemma AcceptedMatchesCreated(t: Table, action: JobAction, ts: seq<Target>, env: nat -> Call)
    ensures var f := Fan(t, action, ts, env);
            CountAccepted(f.results) == |MadeIds(f.made)| <==>
            forall i :: 0 <= i < |f.made| && f.made[i].Some? ==> env(i).raises != AfterInsert
  {
    CreatedIsAcceptedOrLate(t, action, ts, env);
    NoLateFailures(Fan(t, action, ts, env).made, env);
  }

  /** The environment in which nothing intervenes and every queue call raises after its insert. */
  function AlwaysLate(m: Miner, transition: Option<int>): nat -> Call {
    (i: nat) => Call([], Some(m), transition, AfterInsert)
  }

  /**
   Any one eligible miner and any action: the run whose queue call raises late ends with the job
   queued and active, and nothing accepted.
   */
  lemma LateFailureLeavesJob(m: Miner, action: JobAction, transition: Option<int>)
    requires Controllable(Some(m))
    ensures var f := Fan(Table([], map[]), action, [Target(m.id, Some(Row(m, None, None)))], AlwaysLate(m, transition));
            && f.table.jobs == [NewJob(m.id, action, true)] && ActiveJob(f.table.jobs, m.id) == Some(0)
            && |f.results| == 1 && CountAccepted(f.results) == 0
  {
    var ts := [Target(m.id, Some(Row(m, None, None)))];
    var f := Fan(Table([], map[]), action, ts, AlwaysLate(m, transition));
    assert ts[..0] == [];
    assert Met(Table([], map[]), action, ts, AlwaysLate(m, transition), 0) == Table([], map[]);
    TargetsAreDecided(Table([], map[]), action, ts, AlwaysLate(m, transition), 0);
    assert f.results[..0] == [];
  }
}
