/**
 The scan loop (app/anomalies/service.py): what one scan observes for every miner and condition,
 under its effective policy and the active maintenance windows, and what whole runs of scans
 leave in the issue tables and the audit log.
 */
module AnomalyScan {
  import opened Prelude
  import opened AnomalyIssues
  import P = AnomalyPolicy
  import Policies = PolicyStore
  import J = ControlJobs

  // ---- active maintenance ----

  datatype Scope = FarmWide | OneMiner(miner: int) | Members(miners: set<int>)

  datatype Window = Window(scope: Scope, startsAt: int, endsAt: int, endedAt: Option<int>)

  predicate Open(w: Window, now: int) {
    w.endedAt.None? && w.startsAt <= now < w.endsAt
  }

  predicate Covers(w: Window, miner: int) {
    match w.scope
    case FarmWide => true
    case OneMiner(m) => m == miner
    case Members(ms) => miner in ms
  }

  ghost predicate InMaintenance(windows: seq<Window>, miner: int, now: int) {
    exists w :: w in windows
      && w.endedAt.None? && w.startsAt <= now < w.endsAt
      && (w.scope.FarmWide? || w.scope == OneMiner(miner) || (w.scope.Members? && miner in w.scope.miners))
  }

  /** One more window covers who it covers. */
  lemma OneMoreWindow(windows: seq<Window>, i: nat, m: int, now: int)
    requires i < |windows|
    ensures InMaintenance(windows[..i + 1], m, now) <==>
            InMaintenance(windows[..i], m, now) || (Open(windows[i], now) && Covers(windows[i], m))
  {
    assert forall w :: w in windows[..i + 1] <==> w in windows[..i] || w == windows[i];
  }

  /** active_maintenance_snapshot: a farm flag and a set of miners that together say who is covered. */
  method ActiveMaintenance(windows: seq<Window>, now: int) returns (farm: bool, miners: set<int>)
    ensures forall m :: farm || m in miners <==> InMaintenance(windows, m, now)
  {
    farm, miners := false, {};
    for i := 0 to |windows|
      invariant forall m :: farm || m in miners <==> InMaintenance(windows[..i], m, now)
    {
      ghost var farmBefore, minersBefore := farm, miners;
      if Open(windows[i], now) {
        match windows[i].scope {
          case FarmWide => farm := true;
          case OneMiner(m) => miners := miners + {m};
          case Members(ms) => miners := miners + ms;
        }
      }
      forall m ensures farm || m in miners <==> InMaintenance(windows[..i + 1], m, now) {
        OneMoreWindow(windows, i, m, now);
        assert farmBefore || m in minersBefore <==> InMaintenance(windows[..i], m, now);
      }
    }
    assert windows[..|windows|] == windows;
  }

  // ---- one scan ----

  /** A row of anomaly_scan_snapshot; `activeAction` is the action of the newest active job, if any. */
  datatype Row = Row(
    id: int, enabled: bool, scheduleEnabled: bool, state: J.MinerState, temp: Option<real>,
    overrideUntil: int, activeAction: Option<J.JobAction>)

  /**
   Everything one scan reads. `at` is the clock of each pair's own transition; `desired` is the
   effective schedule state of each miner.
   */
  datatype Input = Input(
    now: int, at: Key -> int, policies: Policies.Tables, schedulerEnabled: bool,
    rows: seq<Row>, windows: seq<Window>, desired: int -> Option<J.MinerState>)

  /** One row per miner, and a global policy that passed normalization. */
  ghost predicate ValidInput(input: Input) {
    && P.ValidPolicy(input.policies.global)
    && forall i, j :: 0 <= i < j < |input.rows| ==> input.rows[i].id != input.rows[j].id
  }

  function RowOf(rows: seq<Row>, id: int): (r: Option<Row>)
    ensures r.Some? ==> r.value in rows && r.value.id == id
    ensures r.None? <==> forall x :: x in rows ==> x.id != id
  {
    if rows == [] then None
    else if rows[|rows| - 1].id == id then Some(rows[|rows| - 1])
    else RowOf(rows[..|rows| - 1], id)
  }

  /** The loaders ignore what does not resolve, so a scan always has a policy for every miner. */
  lemma ScanHasPolicy(t: Policies.Tables, miner: int)
    requires P.ValidPolicy(t.global)
    ensures Policies.Effective(t, miner).Some? && P.ValidPolicy(Policies.Effective(t, miner).value)
  {
    Policies.GlobalAlone(t);
    var group := Policies.LoadGroup(t, Policies.GroupOf(t, miner));
    assert t.global + group + map[] == t.global + group;
  }

  function PolicyOf(input: Input, miner: int): (p: P.Values)
    requires P.ValidPolicy(input.policies.global)
    ensures P.ValidPolicy(p)
  {
    ScanHasPolicy(input.policies, miner);
    Policies.Effective(input.policies, miner).value
  }

  /** schedule_applicable */
  predicate Applicable(input: Input, row: Row) {
    && input.schedulerEnabled && input.desired(row.id).Some? && row.scheduleEnabled
    && row.overrideUntil <= input.now && row.activeAction.None?
  }

  /** What is observed of an enabled miner; `active` says whether the pair's issue is open. */
  function Observed(input: Input, row: Row, code: Code, active: bool): bool
    requires P.ValidPolicy(input.policies.global)
  {
    match code
    case OFFLINE => row.state == J.Offline && row.activeAction != Some(J.Reboot)
    case OVERHEAT =>
      OverheatObserved(row.temp, active, PolicyOf(input, row.id)[P.HotTemp], PolicyOf(input, row.id)[P.HotClear])
    case SCHEDULE_MISMATCH => Applicable(input, row) && Some(row.state) != input.desired(row.id)
  }

  function Grace(input: Input, row: Row, code: Code): int
    requires P.ValidPolicy(input.policies.global)
  {
    var p := PolicyOf(input, row.id);
    match code
    case OFFLINE => p[P.OfflineGrace].Floor
    case OVERHEAT => p[P.HotGrace].Floor
    case SCHEDULE_MISMATCH => p[P.ScheduleGrace].Floor
  }

  /** The transition a scan makes for one pair of a listed miner. */
  function ScanOf(input: Input, row: Row, code: Code, active: bool, suppressed: bool): Scan
    requires P.ValidPolicy(input.policies.global)
  {
    Scan(input.at(Key(row.id, code)), row.enabled && Observed(input, row, code, active), suppressed,
         if row.enabled then Grace(input, row, code) else 0)
  }

  /** What a scan asks of one pair: nothing of a miner it does not list. */
  ghost function Asked(input: Input, rows: seq<Row>, key: Key, active: bool): Option<Scan>
    requires P.ValidPolicy(input.policies.global)
  {
    var row := RowOf(rows, key.minerId);
    if row.None? then None
    else Some(ScanOf(input, row.value, key.code, active, InMaintenance(input.windows, key.minerId, input.now)))
  }

  datatype Event = Event(key: Key, change: Change)

  /** The audit events of one pair. */
  function Project(log: seq<Event>, key: Key): seq<Change> {
    if log == [] then []
    else
      var n := |log| - 1;
      if log[n].key == key then Project(log[..n], key) + [log[n].change] else Project(log[..n], key)
  }

  function Shown(c: Change): seq<Change> {
    if c == Nothing then [] else [c]
  }

  function Moved(t: Track, s: Option<Scan>): Track {
    if s.None? then t else Next(t, s.value)
  }

  function Told(t: Track, s: Option<Scan>): seq<Change> {
    if s.None? then [] else Shown(ChangeOf(t, s.value))
  }

  /** What a scan does to one pair. */
  ghost function TrackAfter(t: Track, input: Input, rows: seq<Row>, key: Key): Track
    requires P.ValidPolicy(input.policies.global)
  {
    Moved(t, Asked(input, rows, key, IsActive(t)))
  }

  ghost function LoggedBy(t: Track, input: Input, rows: seq<Row>, key: Key): seq<Change>
    requires P.ValidPolicy(input.policies.global)
  {
    Told(t, Asked(input, rows, key, IsActive(t)))
  }

  /** set_anomaly_condition: one transition and its audit event. */
  method SetCondition(tables: IssueTables, log: seq<Event>, key: Key, s: Scan) returns (after: seq<Event>)
    requires tables.Valid()
    modifies tables
    ensures tables.Valid()
    ensures tables.TrackOf(key) == Next(old(tables.TrackOf(key)), s)
    ensures forall k :: k != key ==> tables.TrackOf(k) == old(tables.TrackOf(k))
    ensures Project(after, key) == Project(log, key) + Shown(ChangeOf(old(tables.TrackOf(key)), s))
    ensures forall k :: k != key ==> Project(after, k) == Project(log, k)
  {
    var opens, resolves := tables.Transition(key, s);
    after := log;
    if opens {
      after := log + [Event(key, Opened)];
    }
    if resolves {
      after := log + [Event(key, Resolved)];
    }
    assert after != log ==> after[..|after| - 1] == log;
  }

  /** Only the temperature threshold depends on whether an issue is open. */
  lemma OnlyOverheatLooksBack(input: Input, row: Row, code: Code, a: bool, b: bool, suppressed: bool)
    requires P.ValidPolicy(input.policies.global) && code != OVERHEAT
    ensures ScanOf(input, row, code, a, suppressed) == ScanOf(input, row, code, b, suppressed)
  {
  }

  /** One of the three conditions of a listed miner. */
  method ServePair(tables: IssueTables, log: seq<Event>, input: Input, row: Row, code: Code, suppressed: bool)
    returns (after: seq<Event>)
    requires tables.Valid() && ValidInput(input)
    modifies tables
    ensures tables.Valid()
    ensures var k := Key(row.id, code);
            var t := old(tables.TrackOf(k));
            var s := ScanOf(input, row, code, IsActive(t), suppressed);
            tables.TrackOf(k) == Next(t, s) && Project(after, k) == Project(log, k) + Shown(ChangeOf(t, s))
    ensures forall k :: k != Key(row.id, code) ==>
              tables.TrackOf(k) == old(tables.TrackOf(k)) && Project(after, k) == Project(log, k)
  {
    var key := Key(row.id, code);
    var active := false;
    if code == OVERHEAT {
      active := LastActive(tables.TrackOf(key).issues).Some?;
    }
    ActiveIsNewest(tables.TrackOf(key));
    if code != OVERHEAT {
      OnlyOverheatLooksBack(input, row, code, active, IsActive(tables.TrackOf(key)), suppressed);
    }
    after := SetCondition(tables, log, key, ScanOf(input, row, code, active, suppressed));
  }

  lemma ThreeCodes(k: Key)
    ensures k == Key(k.minerId, OFFLINE) || k == Key(k.minerId, OVERHEAT) || k == Key(k.minerId, SCHEDULE_MISMATCH)
  {
    match k.code
    case OFFLINE =>
    case OVERHEAT =>
    case SCHEDULE_MISMATCH =>
  }

  /** The body of the loop for one miner: its three pairs move, all others stay. */
  method ScanMiner(tables: IssueTables, log: seq<Event>, input: Input, row: Row, suppressed: bool)
    returns (after: seq<Event>)
    requires tables.Valid() && ValidInput(input)
    modifies tables
    ensures tables.Valid()
    ensures forall k: Key :: k.minerId == row.id ==>
              var s := ScanOf(input, row, k.code, IsActive(old(tables.TrackOf(k))), suppressed);
              && tables.TrackOf(k) == Next(old(tables.TrackOf(k)), s)
              && Project(after, k) == Project(log, k) + Shown(ChangeOf(old(tables.TrackOf(k)), s))
    ensures forall k: Key :: k.minerId != row.id ==>
              tables.TrackOf(k) == old(tables.TrackOf(k)) && Project(after, k) == Project(log, k)
  {
    after := ServePair(tables, log, input, row, OFFLINE, suppressed);
    after := ServePair(tables, after, input, row, OVERHEAT, suppressed);
    after := ServePair(tables, after, input, row, SCHEDULE_MISMATCH, suppressed);
    forall k: Key | k.minerId == row.id
      ensures var s := ScanOf(input, row, k.code, IsActive(old(tables.TrackOf(k))), suppressed);
              && tables.TrackOf(k) == Next(old(tables.TrackOf(k)), s)
              && Project(after, k) == Project(log, k) + Shown(ChangeOf(old(tables.TrackOf(k)), s))
    {
      ThreeCodes(k);
    }
  }

  /** One more row concerns exactly its own miner's pairs. */
  lemma RowStep(input: Input, i: nat, k: Key, active: bool)
    requires ValidInput(input) && i < |input.rows|
    ensures var row := input.rows[i];
            if k.minerId == row.id then
              && Asked(input, input.rows[..i], k, active) == None
              && Asked(input, input.rows[..i + 1], k, active) ==
                 Some(ScanOf(input, row, k.code, active, InMaintenance(input.windows, row.id, input.now)))
            else Asked(input, input.rows[..i + 1], k, active) == Asked(input, input.rows[..i], k, active)
  {
    assert input.rows[..i + 1][..i] == input.rows[..i];
    forall x | x in input.rows[..i] ensures x.id != input.rows[i].id {
    }
  }

  /** anomaly_scan: every pair of a listed miner makes exactly its own transition. */
  method AnomalyScan(tables: IssueTables, log: seq<Event>, input: Input) returns (after: seq<Event>)
    requires tables.Valid() && ValidInput(input)
    modifies tables
    ensures tables.Valid()
    ensures forall k :: tables.TrackOf(k) == TrackAfter(old(tables.TrackOf(k)), input, input.rows, k)
    ensures forall k :: Project(after, k) == Project(log, k) + LoggedBy(old(tables.TrackOf(k)), input, input.rows, k)
  {
    after := log;
    var farm, covered := ActiveMaintenance(input.windows, input.now);
    for i := 0 to |input.rows|
      invariant tables.Valid()
      invariant forall k :: tables.TrackOf(k) == TrackAfter(old(tables.TrackOf(k)), input, input.rows[..i], k)
      invariant forall k ::
                  Project(after, k) == Project(log, k) + LoggedBy(old(tables.TrackOf(k)), input, input.rows[..i], k)
    {
      var row := input.rows[i];
      label Before:
      ghost var logged := after;
      after := ScanMiner(tables, after, input, row, farm || row.id in covered);
      forall k
        ensures tables.TrackOf(k) == TrackAfter(old(tables.TrackOf(k)), input, input.rows[..i + 1], k)
        ensures Project(after, k) == Project(log, k) + LoggedBy(old(tables.TrackOf(k)), input, input.rows[..i + 1], k)
      {
        RowStep(input, i, k, IsActive(old(tables.TrackOf(k))));
        assert old@Before(tables.TrackOf(k)) == TrackAfter(old(tables.TrackOf(k)), input, input.rows[..i], k);
        assert Project(logged, k) == Project(log, k) + LoggedBy(old(tables.TrackOf(k)), input, input.rows[..i], k);
      }
    }
    assert input.rows[..|input.rows|] == input.rows;
  }

  // ---- whole runs ----

  ghost predicate AllValid(inputs: seq<Input>) {
    forall i :: 0 <= i < |inputs| ==> ValidInput(inputs[i])
  }

  /** The scans one pair sees over a run. */
  ghost function ScansFor(key: Key, inputs: seq<Input>): (scans: seq<Scan>)
    requires AllValid(inputs)
  {
    if inputs == [] then []
    else
      var n := |inputs| - 1;
      var before := ScansFor(key, inputs[..n]);
      match Asked(inputs[n], inputs[n].rows, key, IsActive(Fold(before)))
      case None => before
      case Some(s) => before + [s]
  }

  lemma HistorySnoc(before: seq<Scan>, s: Scan)
    ensures Fold(before + [s]) == Next(Fold(before), s)
    ensures Events(before + [s]) == Events(before) + Shown(ChangeOf(Fold(before), s))
  {
    assert (before + [s])[..|before|] == before;
  }

  lemma OneMoreScan(key: Key, inputs: seq<Input>)
    requires inputs != [] && AllValid(inputs)
    ensures var n := |inputs| - 1;
            var before := ScansFor(key, inputs[..n]);
            && Fold(ScansFor(key, inputs)) == TrackAfter(Fold(before), inputs[n], inputs[n].rows, key)
            && Events(ScansFor(key, inputs)) == Events(before) + LoggedBy(Fold(before), inputs[n], inputs[n].rows, key)
  {
    var n := |inputs| - 1;
    var before := ScansFor(key, inputs[..n]);
    var s := Asked(inputs[n], inputs[n].rows, key, IsActive(Fold(before)));
    if s.Some? {
      HistorySnoc(before, s.value);
    }
  }

  lemma PassStep(inputs: seq<Input>, i: nat, k: Key)
    requires i < |inputs| && AllValid(inputs)
    ensures Fold(ScansFor(k, inputs[..i + 1])) ==
            TrackAfter(Fold(ScansFor(k, inputs[..i])), inputs[i], inputs[i].rows, k)
    ensures Events(ScansFor(k, inputs[..i + 1])) ==
            Events(ScansFor(k, inputs[..i])) + LoggedBy(Fold(ScansFor(k, inputs[..i])), inputs[i], inputs[i].rows, k)
  {
    assert inputs[..i + 1][..i] == inputs[..i];
    OneMoreScan(k, inputs[..i + 1]);
  }

  lemma OneMorePass(inputs: seq<Input>, i: nat)
    requires i < |inputs| && AllValid(inputs)
    ensures forall k :: Fold(ScansFor(k, inputs[..i + 1])) ==
                        TrackAfter(Fold(ScansFor(k, inputs[..i])), inputs[i], inputs[i].rows, k)
    ensures forall k :: Events(ScansFor(k, inputs[..i + 1])) ==
                        Events(ScansFor(k, inputs[..i])) +
                        LoggedBy(Fold(ScansFor(k, inputs[..i])), inputs[i], inputs[i].rows, k)
  {
    forall k
      ensures Fold(ScansFor(k, inputs[..i + 1])) ==
              TrackAfter(Fold(ScansFor(k, inputs[..i])), inputs[i], inputs[i].rows, k)
    {
      PassStep(inputs, i, k);
    }
    forall k
      ensures Events(ScansFor(k, inputs[..i + 1])) ==
              Events(ScansFor(k, inputs[..i])) + LoggedBy(Fold(ScansFor(k, inputs[..i])), inputs[i], inputs[i].rows, k)
    {
      PassStep(inputs, i, k);
    }
  }

  /**
   A run of scans from empty tables: every pair's track is the fold of the scans it saw, and its
   part of the audit log is that history's events, so it alternates between opened and resolved.
   */
  method RunScans(tables: IssueTables, inputs: seq<Input>) returns (log: seq<Event>)
    requires tables.Valid() && forall k :: tables.TrackOf(k) == EMPTY
    requires AllValid(inputs)
    modifies tables
    ensures tables.Valid()
    ensures forall k :: tables.TrackOf(k) == Fold(ScansFor(k, inputs))
    ensures forall k :: Project(log, k) == Events(ScansFor(k, inputs))
    ensures forall k :: Alternate(Project(log, k))
  {
    log := [];
    for i := 0 to |inputs|
      invariant tables.Valid()
      invariant forall k :: tables.TrackOf(k) == Fold(ScansFor(k, inputs[..i]))
      invariant forall k :: Project(log, k) == Events(ScansFor(k, inputs[..i]))
    {
      OneMorePass(inputs, i);
      log := AnomalyScan(tables, log, inputs[i]);
    }
    assert inputs[..|inputs|] == inputs;
    forall k ensures Alternate(Project(log, k)) {
      EventsAlternate(ScansFor(k, inputs));
    }
  }

  /** The reason an alert of each kind may be raised for a miner at one scan. */
  ghost predicate Cause(input: Input, key: Key)
    requires P.ValidPolicy(input.policies.global)
  {
    var row := RowOf(input.rows, key.minerId);
    && row.Some? && row.value.enabled && !InMaintenance(input.windows, key.minerId, input.now)
    && match key.code
       case OFFLINE => row.value.state == J.Offline && row.value.activeAction != Some(J.Reboot)
       case OVERHEAT => row.value.temp.Some? && row.value.temp.value >= PolicyOf(input, key.minerId)[P.HotTemp]
       case SCHEDULE_MISMATCH =>
         && input.schedulerEnabled && row.value.scheduleEnabled && row.value.overrideUntil <= input.now
         && row.value.activeAction.None?
         && input.desired(key.minerId).Some? && row.value.state != input.desired(key.minerId).value
  }

  ghost predicate AlwaysListed(inputs: seq<Input>, key: Key) {
    forall i :: 0 <= i < |inputs| ==> ValidInput(inputs[i]) && RowOf(inputs[i].rows, key.minerId).Some?
  }

  /** Scan `k` of the pair's history raises an alert. */
  ghost predicate AlertAt(inputs: seq<Input>, key: Key, k: nat)
    requires AllValid(inputs)
  {
    k < |ScansFor(key, inputs)| && OpensAt(ScansFor(key, inputs), k)
  }

  lemma HistoryGrows(inputs: seq<Input>, key: Key)
    requires AlwaysListed(inputs, key) && inputs != []
    ensures var n := |inputs| - 1;
            var before := ScansFor(key, inputs[..n]);
            var s := Asked(inputs[n], inputs[n].rows, key, IsActive(Fold(before)));
            s.Some? && ScansFor(key, inputs) == before + [s.value]
  {
  }

  lemma ListedPrefix(inputs: seq<Input>, key: Key, n: nat)
    requires AlwaysListed(inputs, key) && n <= |inputs|
    ensures AlwaysListed(inputs[..n], key)
  {
  }

  lemma {:induction false} HistoryLength(inputs: seq<Input>, key: Key)
    requires AlwaysListed(inputs, key)
    ensures |ScansFor(key, inputs)| == |inputs|
  {
    if inputs != [] {
      ListedPrefix(inputs, key, |inputs| - 1);
      HistoryLength(inputs[..|inputs| - 1], key);
      HistoryGrows(inputs, key);
    }
  }

  /** Earlier scans of a history do not depend on later ones. */
  lemma {:induction false} HistoryPrefix(inputs: seq<Input>, key: Key, n: nat)
    requires AlwaysListed(inputs, key) && n <= |inputs|
    ensures |ScansFor(key, inputs)| == |inputs|
    ensures ScansFor(key, inputs)[..n] == ScansFor(key, inputs[..n])
  {
    HistoryLength(inputs, key);
    if n < |inputs| {
      var init := inputs[..|inputs| - 1];
      ListedPrefix(inputs, key, |inputs| - 1);
      HistoryLength(init, key);
      HistoryGrows(inputs, key);
      HistoryPrefix(init, key, n);
      assert init[..n] == inputs[..n];
      assert ScansFor(key, inputs)[..n] == ScansFor(key, init)[..n];
    } else {
      assert inputs[..n] == inputs;
    }
  }

  lemma HistoryAt(inputs: seq<Input>, key: Key, i: nat)
    requires AlwaysListed(inputs, key) && i < |inputs|
    ensures var before := ScansFor(key, inputs[..i]);
            var s := Asked(inputs[i], inputs[i].rows, key, IsActive(Fold(before)));
            s.Some? && ScansFor(key, inputs[..i + 1]) == before + [s.value]
  {
    ListedPrefix(inputs, key, i + 1);
    HistoryGrows(inputs[..i + 1], key);
    assert inputs[..i + 1][..i] == inputs[..i];
  }

  /** While a miner stays listed, scan i of its history is the i-th scan of the run. */
  lemma ScanAt(inputs: seq<Input>, key: Key, i: nat)
    requires AlwaysListed(inputs, key) && i < |inputs|
    ensures var scans := ScansFor(key, inputs);
            && |scans| == |inputs|
            && Asked(inputs[i], inputs[i].rows, key, ActiveBefore(scans, i)) == Some(scans[i])
  {
    var scans := ScansFor(key, inputs);
    HistoryPrefix(inputs, key, i);
    HistoryPrefix(inputs, key, i + 1);
    ListedPrefix(inputs, key, i);
    HistoryLength(inputs[..i], key);
    HistoryAt(inputs, key, i);
    assert scans[i] == scans[..i + 1][i];
  }

  /** The cause holds at every scan j .. k, and long enough for the grace in force at k. */
  ghost predicate CauseLasts(inputs: seq<Input>, key: Key, j: int, k: int)
    requires AlwaysListed(inputs, key) && k < |inputs|
  {
    && 0 <= j < k && (forall i :: j <= i <= k ==> Cause(inputs[i], key))
    && inputs[k].at(key) - inputs[j].at(key) >= Grace(inputs[k], RowOf(inputs[k].rows, key.minerId).value, key.code)
  }

  /**
   An alert is raised only where none is active, and after its cause was there, outside maintenance,
   at every scan of a stretch at least as long as the grace in force when it is raised.
   */
  lemma AlertsHaveLastingCause(inputs: seq<Input>, key: Key, k: nat)
    requires AlwaysListed(inputs, key) && k < |inputs| && AlertAt(inputs, key, k)
    ensures !ActiveBefore(ScansFor(key, inputs), k) && exists j :: CauseLasts(inputs, key, j, k)
  {
    var scans := ScansFor(key, inputs);
    OpensExactly(scans, k);
    var j :| DueAt(scans, j, k);
    BlockWithoutIssue(scans, j, k);
    forall i | j <= i <= k ensures Cause(inputs[i], key) {
      ScanAt(inputs, key, i);
      assert Armed(scans[i]);
    }
    ScanAt(inputs, key, j);
    ScanAt(inputs, key, k);
    assert CauseLasts(inputs, key, j, k);
  }

  /** A cause is observed, whether an issue is open or not: the clear temperature is below the hot one. */
  lemma CauseIsObserved(input: Input, key: Key, active: bool)
    requires ValidInput(input) && Cause(input, key)
    ensures var s := Asked(input, input.rows, key, active);
            s.Some? && Armed(s.value) && s.value.now == input.at(key)
    ensures RowOf(input.rows, key.minerId).Some?
            && Asked(input, input.rows, key, active).value.grace
               == Grace(input, RowOf(input.rows, key.minerId).value, key.code)
  {
  }

  /** The pair's clock never goes back. */
  ghost predicate PairForward(inputs: seq<Input>, key: Key) {
    forall i, j :: 0 <= i <= j < |inputs| ==> inputs[i].at(key) <= inputs[j].at(key)
  }

  /** The scan `i` of a pair's history, where its cause holds. */
  lemma CauseArms(inputs: seq<Input>, key: Key, i: nat)
    requires AlwaysListed(inputs, key) && i < |inputs| && Cause(inputs[i], key)
    ensures var scans := ScansFor(key, inputs);
            && |scans| == |inputs| && Armed(scans[i]) && scans[i].now == inputs[i].at(key)
            && scans[i].grace == Grace(inputs[i], RowOf(inputs[i].rows, key.minerId).value, key.code)
  {
    ScanAt(inputs, key, i);
    CauseIsObserved(inputs[i], key, ActiveBefore(ScansFor(key, inputs), i));
  }

  lemma ClockAt(inputs: seq<Input>, key: Key, i: nat)
    requires AlwaysListed(inputs, key) && i < |inputs|
    ensures |ScansFor(key, inputs)| == |inputs| && ScansFor(key, inputs)[i].now == inputs[i].at(key)
  {
    ScanAt(inputs, key, i);
  }

  /** A cause that lasts as long as the grace leaves the pair with an active issue. */
  lemma LastingCauseRaises(inputs: seq<Input>, key: Key, j: nat, k: nat)
    requires AlwaysListed(inputs, key) && PairForward(inputs, key) && k < |inputs|
    requires CauseLasts(inputs, key, j, k)
    ensures k < |ScansFor(key, inputs)| && ActiveBefore(ScansFor(key, inputs), k + 1)
  {
    var scans := ScansFor(key, inputs);
    CauseArms(inputs, key, k);
    forall i | j <= i <= k ensures Armed(scans[i]) {
      CauseArms(inputs, key, i);
    }
    PrefixStep(scans, k);
    FoldStep(scans, k);
    if !ActiveBefore(scans, k) {
      CandidateIsBlockStart(scans, k);
      var b := BlockStart(scans, k);
      assert b <= j;
      ClockAt(inputs, key, b);
      ClockAt(inputs, key, j);
    }
  }

  /** An alert is raised exactly when none is active and its cause has lasted as long as the grace. */
  lemma AlertsExactly(inputs: seq<Input>, key: Key, k: nat)
    requires AlwaysListed(inputs, key) && PairForward(inputs, key) && k < |inputs|
    ensures |ScansFor(key, inputs)| == |inputs|
    ensures AlertAt(inputs, key, k) <==>
            !ActiveBefore(ScansFor(key, inputs), k) && exists j :: CauseLasts(inputs, key, j, k)
  {
    ClockAt(inputs, key, k);
    if AlertAt(inputs, key, k) {
      AlertsHaveLastingCause(inputs, key, k);
    }
    if j :| CauseLasts(inputs, key, j, k) {
      LastingCauseRaises(inputs, key, j, k);
      PrefixStep(ScansFor(key, inputs), k);
    }
  }

  /** Each condition's grace is the whole number its policy field holds. */
  lemma GraceIsPolicyField(input: Input, row: Row)
    requires ValidInput(input)
    ensures Grace(input, row, OFFLINE) as real == PolicyOf(input, row.id)[P.OfflineGrace]
    ensures Grace(input, row, OVERHEAT) as real == PolicyOf(input, row.id)[P.HotGrace]
    ensures Grace(input, row, SCHEDULE_MISMATCH) as real == PolicyOf(input, row.id)[P.ScheduleGrace]
  {
  }

  /** Disabling a miner settles it: after one scan it has neither an active issue nor a candidate. */
  lemma DisabledSettles(t: Track, input: Input, key: Key)
    requires ValidInput(input) && WellFormed(t)
    requires RowOf(input.rows, key.minerId).Some? && !RowOf(input.rows, key.minerId).value.enabled
    ensures !IsActive(TrackAfter(t, input, input.rows, key)) && TrackAfter(t, input, input.rows, key).candidate.None?
    ensures LoggedBy(t, input, input.rows, key) == if IsActive(t) then [Resolved] else []
  {
  }
}
