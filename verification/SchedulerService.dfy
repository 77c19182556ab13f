/**
 One pass of the scheduler (app/scheduler/service.py) and the manual override that a pause or
 resume request sets against it (app/control/queue.py).
 */
module SchedulerService {
  import opened Prelude
  import opened ScheduleTimes
  import opened ScheduleState
  import opened ScheduleStore
  import Jobs = ControlJobs

  const CONTROL_COOLDOWN := 30
  const STALE_AFTER := 60

  /** The columns of a miners row the scheduler reads; NULL numbers are 0, a NULL state is Unknown. */
  datatype Miner = Miner(
    id: int, groupId: Option<int>, enabled: bool, scheduleEnabled: bool, supported: bool,
    overrideUntil: int, lastState: Jobs.MinerState, lastSeen: int, lastActionAt: int)

  datatype Command = Command(minerId: int, action: Action)

  /** The action that brings a miner in `state` to the scheduled state, if one is needed. */
  function Correction(target: Action, state: Jobs.MinerState): Option<Action> {
    match target
    case Resume => if state == Jobs.Paused || state == Jobs.Idle then Some(Resume) else None
    case Pause => if state == Jobs.Mining || state == Jobs.Starting || state == Jobs.Idle then Some(Pause) else None
  }

  predicate Listed(m: Miner) {
    m.enabled && m.scheduleEnabled && m.supported
  }

  predicate OverrideBlocks(m: Miner, now: int) {
    m.overrideUntil > now
  }

  /** What one pass does for one miner. */
  ghost function Decide(m: Miner, rules: seq<Rule>, now: int): Option<Action>
    requires ValidRules(rules)
  {
    var d := EffectiveDetails(m.groupId, rules, now);
    if !Listed(m) || d.desired.None? || OverrideBlocks(m, now) then None
    else if now - m.lastSeen > STALE_AFTER || now - m.lastActionAt < CONTROL_COOLDOWN then None
    else Correction(d.desired.value, m.lastState)
  }

  ghost function Commands(miners: seq<Miner>, rules: seq<Rule>, now: int): seq<Command>
    requires ValidRules(rules)
  {
    if miners == [] then []
    else
      var n := |miners| - 1;
      var before := Commands(miners[..n], rules, now);
      match Decide(miners[n], rules, now)
      case None => before
      case Some(a) => before + [Command(miners[n].id, a)]
  }

  /** Two tables that differ at most in the occurrences recorded as seen. */
  ghost predicate SameRules(a: seq<Rule>, b: seq<Rule>) {
    |a| == |b| && forall i :: 0 <= i < |a| ==> a[i].(lastRun := None) == b[i].(lastRun := None)
  }

  lemma SameRulesTransitive(a: seq<Rule>, b: seq<Rule>, c: seq<Rule>)
    requires SameRules(a, b) && SameRules(b, c)
    ensures SameRules(a, c)
  {
  }

  lemma MarkingKeepsTiming(rows: seq<Rule>, r: Rule, occurrence: int)
    requires DistinctIds(rows) && r in rows
    ensures SameRules(Replaced(rows, r.(lastRun := Some(occurrence))), rows)
  {
    forall i | 0 <= i < |rows| && rows[i].id == r.id ensures rows[i] == r {
      IdsIdentify(rows, rows[i], r);
    }
  }

  /** The rows once a winning occurrence is recorded as seen. */
  ghost function Marked(rows: seq<Rule>, winner: Option<Winner>): seq<Rule> {
    if winner.None? || Find(rows, winner.value.rule.id).None? then rows
    else Replaced(rows, Find(rows, winner.value.rule.id).value.(lastRun := Some(winner.value.occurrence)))
  }

  /** The winner a pass records for one miner; a miner it does not list has none. */
  ghost function WinnerOf(m: Miner, rules: seq<Rule>, now: int): Option<Winner>
    requires ValidRules(rules)
  {
    if Listed(m) then EffectiveDetails(m.groupId, rules, now).winner else None
  }

  /** The rows after a pass has recorded the winner of every listed miner. */
  ghost function MarkedAll(rows: seq<Rule>, miners: seq<Miner>, rules: seq<Rule>, now: int): seq<Rule>
    requires ValidRules(rules)
  {
    if miners == [] then rows
    else
      var n := |miners| - 1;
      Marked(MarkedAll(rows, miners[..n], rules, now), WinnerOf(miners[n], rules, now))
  }

  lemma {:induction false} FindReplaced(rows: seq<Rule>, r: Rule, id: int)
    ensures Find(Replaced(rows, r), id) ==
            if Find(rows, id).None? then None else if id == r.id then Some(r) else Find(rows, id)
  {
    if rows != [] {
      assert Replaced(rows, r)[1..] == Replaced(rows[1..], r);
      FindReplaced(rows[1..], r, id);
    }
  }

  /** Recording again what is recorded changes nothing. */
  lemma SeenAgain(rows: seq<Rule>, r: Rule)
    requires DistinctIds(rows) && r in rows
    ensures Replaced(rows, r) == rows
  {
    forall i | 0 <= i < |rows| && rows[i].id == r.id ensures rows[i] == r {
      IdsIdentify(rows, rows[i], r);
    }
  }

  /** schedule_mark_rule_seen: the winning occurrence is recorded, and logged the first time. */
  method MarkRuleSeen(table: RuleTable, winner: Option<Winner>) returns (logged: bool)
    requires table.Valid()
    modifies table
    ensures table.Valid() && table.clock == old(table.clock)
    ensures table.rows == Marked(old(table.rows), winner)
    ensures SameRules(table.rows, old(table.rows))
    ensures logged <==> winner.Some? && Find(old(table.rows), winner.value.rule.id).Some?
                        && Find(old(table.rows), winner.value.rule.id).value.lastRun != Some(winner.value.occurrence)
  {
    if winner.None? {
      return false;
    }
    ghost var found := Find(table.rows, winner.value.rule.id);
    logged := table.MarkSeen(winner.value.rule.id, winner.value.occurrence);
    if logged {
      MarkingKeepsTiming(old(table.rows), found.value, winner.value.occurrence);
    } else if found.Some? {
      SeenAgain(table.rows, found.value);
    }
  }

  /** The body of the per-miner loop. */
  method ServeMiner(table: RuleTable, rules: seq<Rule>, m: Miner, now: int) returns (action: Option<Action>)
    requires table.Valid() && EnabledRules(rules)
    modifies table
    ensures table.Valid() && table.clock == old(table.clock)
    ensures table.rows == Marked(old(table.rows), WinnerOf(m, rules, now))
    ensures SameRules(table.rows, old(table.rows))
    ensures action == Decide(m, rules, now)
  {
    if !Listed(m) {
      return None;
    }
    var details := EffectiveScheduleDetails(m.groupId, rules, now);
    var logged := MarkRuleSeen(table, details.winner);
    if details.desired.None? {
      return None;
    }
    if m.overrideUntil > now {
      return None;
    }
    if now - m.lastSeen > STALE_AFTER {
      return None;
    }
    if now - m.lastActionAt < CONTROL_COOLDOWN {
      return None;
    }
    return Correction(details.desired.value, m.lastState);
  }

  /** A pass issues exactly the decided commands, and records exactly the winners of listed miners. */
  method SchedulerIteration(table: RuleTable, schedulerEnabled: bool, miners: seq<Miner>, now: int)
    returns (commands: seq<Command>)
    requires table.Valid()
    modifies table
    ensures table.Valid() && table.clock == old(table.clock)
    ensures SameRules(table.rows, old(table.rows))
    ensures !schedulerEnabled ==> table.rows == old(table.rows)
    ensures schedulerEnabled ==> table.rows == MarkedAll(old(table.rows), miners, EnabledOf(old(table.rows)), now)
    ensures commands == if schedulerEnabled then Commands(miners, EnabledOf(old(table.rows)), now) else []
  {
    commands := [];
    if !schedulerEnabled {
      return;
    }
    var rules := EnabledOf(table.rows);
    for i := 0 to |miners|
      invariant table.Valid() && table.clock == old(table.clock)
      invariant SameRules(table.rows, old(table.rows))
      invariant table.rows == MarkedAll(old(table.rows), miners[..i], rules, now)
      invariant commands == Commands(miners[..i], rules, now)
    {
      assert miners[..i + 1][..i] == miners[..i];
      ghost var before := table.rows;
      var action := ServeMiner(table, rules, miners[i], now);
      SameRulesTransitive(table.rows, before, old(table.rows));
      if action.Some? {
        commands := commands + [Command(miners[i].id, action.value)];
      }
    }
    assert miners[..|miners|] == miners;
  }

  /** The rule `id` is the winner a pass records for the miner. */
  ghost predicate Wins(m: Miner, rules: seq<Rule>, now: int, id: int)
    requires ValidRules(rules)
  {
    WinnerOf(m, rules, now).Some? && WinnerOf(m, rules, now).value.rule.id == id
  }

  ghost predicate SomeoneWins(miners: seq<Miner>, rules: seq<Rule>, now: int, id: int)
    requires ValidRules(rules)
  {
    exists m :: m in miners && Wins(m, rules, now, id)
  }

  /** Some listed miner's winner is rule `id` with occurrence `o`. */
  ghost predicate WonAt(miners: seq<Miner>, rules: seq<Rule>, now: int, id: int, o: Option<int>)
    requires ValidRules(rules)
  {
    exists m :: m in miners && Wins(m, rules, now, id) && o == Some(WinnerOf(m, rules, now).value.occurrence)
  }

  lemma OneMoreMiner(miners: seq<Miner>, rules: seq<Rule>, now: int, id: int)
    requires ValidRules(rules) && miners != []
    ensures var n := |miners| - 1;
            && (SomeoneWins(miners, rules, now, id) <==>
                SomeoneWins(miners[..n], rules, now, id) || Wins(miners[n], rules, now, id))
            && (forall o :: WonAt(miners[..n], rules, now, id, o) ==> WonAt(miners, rules, now, id, o))
            && (Wins(miners[n], rules, now, id) ==>
                WonAt(miners, rules, now, id, Some(WinnerOf(miners[n], rules, now).value.occurrence)))
  {
    var n := |miners| - 1;
    assert miners[n] in miners;
    assert forall m :: m in miners <==> m in miners[..n] || m == miners[n];
  }

  lemma MarkedRecords(rows: seq<Rule>, winner: Option<Winner>, id: int)
    requires Find(rows, id).Some?
    ensures Find(Marked(rows, winner), id).Some?
    ensures Find(Marked(rows, winner), id).value.lastRun ==
            if winner.Some? && winner.value.rule.id == id then Some(winner.value.occurrence)
            else Find(rows, id).value.lastRun
  {
    if winner.Some? && Find(rows, winner.value.rule.id).Some? {
      FindReplaced(rows, Find(rows, winner.value.rule.id).value.(lastRun := Some(winner.value.occurrence)), id);
    }
  }

  /** What a pass records for a rule: the occurrence it wins with for some listed miner, or what was there. */
  lemma {:induction false} RecordedIs(rows: seq<Rule>, miners: seq<Miner>, rules: seq<Rule>, now: int, id: int)
    requires ValidRules(rules)
    requires Find(rows, id).Some?
    ensures var after := Find(MarkedAll(rows, miners, rules, now), id);
            && after.Some?
            && (if SomeoneWins(miners, rules, now, id) then WonAt(miners, rules, now, id, after.value.lastRun)
                else after.value.lastRun == Find(rows, id).value.lastRun)
  {
    if miners != [] {
      var n := |miners| - 1;
      RecordedIs(rows, miners[..n], rules, now, id);
      MarkedRecords(MarkedAll(rows, miners[..n], rules, now), WinnerOf(miners[n], rules, now), id);
      OneMoreMiner(miners, rules, now, id);
    }
  }

  /** After a pass the winner of every listed miner is recorded with its winning occurrence. */
  lemma WinnersAreSeen(rows: seq<Rule>, clock: int, miners: seq<Miner>, now: int, m: Miner)
    requires Consistent(rows, clock) && m in miners
    requires WinnerOf(m, EnabledOf(rows), now).Some?
    ensures var w := WinnerOf(m, EnabledOf(rows), now).value;
            var after := Find(MarkedAll(rows, miners, EnabledOf(rows), now), w.rule.id);
            after.Some? && after.value.lastRun == Some(w.occurrence)
  {
    var rules := EnabledOf(rows);
    var w := WinnerOf(m, rules, now).value;
    WinnerIsItsLast(m, rules, now);
    assert w.rule in rows;
    RecordedIs(rows, miners, rules, now, w.rule.id);
    assert Wins(m, rules, now, w.rule.id);
    var after := Find(MarkedAll(rows, miners, rules, now), w.rule.id);
    assert SomeoneWins(miners, rules, now, w.rule.id);
    var x :| x in miners && Wins(x, rules, now, w.rule.id)
             && after.value.lastRun == Some(WinnerOf(x, rules, now).value.occurrence);
    WinnerIsItsLast(x, rules, now);
    IdsIdentify(rows, WinnerOf(x, rules, now).value.rule, w.rule);
  }

  lemma WinnerIsItsLast(m: Miner, rules: seq<Rule>, now: int)
    requires ValidRules(rules) && WinnerOf(m, rules, now).Some?
    ensures var w := WinnerOf(m, rules, now).value;
            w.rule in rules && LastOccurrence(w.rule, now) == Some(w.occurrence)
  {
    WinnerIsLatest(GroupLayer(rules, m.groupId), now);
    WinnerIsLatest(FarmLayer(rules), now);
  }

  /** A command in the list is some listed miner's decision. */
  lemma {:induction false} CommandsAreDecisions(miners: seq<Miner>, rules: seq<Rule>, now: int, c: Command)
    requires ValidRules(rules)
    requires c in Commands(miners, rules, now)
    ensures exists m :: m in miners && m.id == c.minerId && Decide(m, rules, now) == Some(c.action)
  {
    var n := |miners| - 1;
    if c in Commands(miners[..n], rules, now) {
      CommandsAreDecisions(miners[..n], rules, now, c);
    } else {
      assert miners[n] in miners;
    }
  }

  /**
   Who is commanded, and to do what: an enabled, scheduled, supported miner without an override in
   force, seen within the last minute and not acted on for 30 s, whose leading rule pauses it while
   it is mining, starting or idle, or resumes it while it is paused or idle; and every such miner.
   */
  lemma CommandedExactly(m: Miner, rules: seq<Rule>, now: int, action: Action)
    requires ValidRules(rules)
    ensures Decide(m, rules, now) == Some(action) <==>
            (&& m.enabled && m.scheduleEnabled && m.supported && m.overrideUntil <= now
             && now - m.lastSeen <= 60 && now - m.lastActionAt >= 30
             && (if action == Pause then m.lastState in {Jobs.Mining, Jobs.Starting, Jobs.Idle}
                 else m.lastState in {Jobs.Paused, Jobs.Idle})
             && exists w, layer ::
                  && Leads(w, layer, m.groupId, rules, now) && w.rule.action == action
                  && EffectiveDetails(m.groupId, rules, now).winner == Some(w)
                  && (layer == Farm ==> !HasOccurred(Group, m.groupId, rules, now)))
  {
    DetailsMean(m.groupId, rules, now);
  }

  /** The value an accepted manual request at `t0` stores: the next transition, or 0 for none. */
  ghost function OverrideUntil(group: Option<int>, rules: seq<Rule>, t0: int): int
    requires ValidRules(rules)
  {
    EffectiveDetails(group, rules, t0).next.GetOr(0)
  }

  /** Without any deciding rule there is no target, now or later. */
  lemma NoTransitionNoTarget(group: Option<int>, rules: seq<Rule>, t0: int, t: int)
    requires EnabledRules(rules) && t0 <= t
    requires EffectiveDetails(group, rules, t0).next.None?
    ensures EffectiveDetails(group, rules, t).desired.None?
  {
    NextAfterNow(group, rules, t0);
    WinnerIsLatest(GroupLayer(rules, group), t0);
    WinnerIsLatest(FarmLayer(rules), t0);
    ScheduleStable(group, rules, t0, t);
  }

  /**
   The override contract over a pass at any later time, whatever else happened to the miner:
   before the transition no command names it, and from the transition on (or when there was
   none) the stored value no longer blocks anything.
   */
  lemma OverrideContract(miners: seq<Miner>, m: Miner, rules: seq<Rule>, t0: int, t: int)
    requires EnabledRules(rules) && 0 <= t0 <= t
    requires forall x :: x in miners && x.id == m.id ==> x == m
    requires m.overrideUntil == OverrideUntil(m.groupId, rules, t0)
    ensures var next := EffectiveDetails(m.groupId, rules, t0).next;
            && ((next.None? || t < next.value) ==> forall c :: c in Commands(miners, rules, t) ==> c.minerId != m.id)
            && ((next.None? || next.value <= t) <==> !OverrideBlocks(m, t))
  {
    var next := EffectiveDetails(m.groupId, rules, t0).next;
    NextAfterNow(m.groupId, rules, t0);
    if next.None? {
      NoTransitionNoTarget(m.groupId, rules, t0, t);
    }
    if next.None? || t < next.value {
      forall c | c in Commands(miners, rules, t) ensures c.minerId != m.id {
        CommandsAreDecisions(miners, rules, t, c);
      }
    }
  }

  lemma {:induction false} DecidedIsCommanded(miners: seq<Miner>, m: Miner, rules: seq<Rule>, t: int)
    requires ValidRules(rules) && m in miners
    requires Decide(m, rules, t).Some?
    ensures Command(m.id, Decide(m, rules, t).value) in Commands(miners, rules, t)
  {
    var n := |miners| - 1;
    if m in miners[..n] {
      DecidedIsCommanded(miners[..n], m, rules, t);
    } else {
      assert m == miners[n];
    }
  }

  /**
   The override ends by itself: from the stored transition on, a listed miner seen within the
   minute and past its cooldown is commanded whenever its state differs from its target.
   */
  lemma OverrideEnds(miners: seq<Miner>, m: Miner, rules: seq<Rule>, t0: int, t: int)
    requires EnabledRules(rules) && m in miners && Listed(m)
    requires m.overrideUntil == OverrideUntil(m.groupId, rules, t0)
    requires var next := EffectiveDetails(m.groupId, rules, t0).next; next.Some? && next.value <= t
    requires t - m.lastSeen <= STALE_AFTER && t - m.lastActionAt >= CONTROL_COOLDOWN
    requires var d := EffectiveDetails(m.groupId, rules, t).desired;
             d.Some? && Correction(d.value, m.lastState).Some?
    ensures var d := EffectiveDetails(m.groupId, rules, t).desired;
            Command(m.id, Correction(d.value, m.lastState).value) in Commands(miners, rules, t)
  {
    DecidedIsCommanded(miners, m, rules, t);
  }

  // ---- whole runs ----

  lemma SameTimes(a: Rule, b: Rule, now: int)
    requires a.Valid() && b.Valid() && a.(lastRun := None) == b.(lastRun := None)
    ensures LastOccurrence(a, now) == LastOccurrence(b, now) && NextRun(a, now) == NextRun(b, now)
  {
    assert forall t :: Eligible(a, t) <==> Eligible(b, t);
    assert IsLastOccurrence(b, now, LastOccurrence(a, now));
    assert IsNextRun(b, now, NextRun(a, now));
  }

  lemma SameInit(a: seq<Rule>, b: seq<Rule>)
    requires SameRules(a, b) && a != []
    ensures SameRules(a[..|a| - 1], b[..|b| - 1])
    ensures a[|a| - 1].(lastRun := None) == b[|b| - 1].(lastRun := None)
  {
  }

  lemma {:induction false} SameEnabled(a: seq<Rule>, b: seq<Rule>)
    requires SameRules(a, b)
    ensures SameRules(EnabledOf(a), EnabledOf(b))
  {
    if a != [] {
      SameInit(a, b);
      SameEnabled(a[..|a| - 1], b[..|b| - 1]);
    }
  }

  lemma {:induction false} SameScope(a: seq<Rule>, b: seq<Rule>, scope: Scope, group: Option<int>)
    requires SameRules(a, b)
    ensures SameRules(RulesForScope(a, scope, group), RulesForScope(b, scope, group))
  {
    if a != [] {
      SameInit(a, b);
      SameScope(a[..|a| - 1], b[..|b| - 1], scope, group);
    }
  }

  lemma {:induction false} SameWinnerAndNext(a: seq<Rule>, b: seq<Rule>, now: int)
    requires ValidRules(a) && ValidRules(b) && SameRules(a, b)
    ensures ScopeNext(a, now) == ScopeNext(b, now)
    ensures match (ScopeWinner(a, now), ScopeWinner(b, now))
            case (None, None) => true
            case (Some(v), Some(w)) => v.occurrence == w.occurrence && v.rule.action == w.rule.action
            case _ => false
  {
    if a != [] {
      var n := |a| - 1;
      SameInit(a, b);
      SameWinnerAndNext(a[..n], b[..n], now);
      SameTimes(a[n], b[n], now);
    }
  }

  /** Recording occurrences as seen changes neither the scheduled action nor the next transition. */
  lemma SeenMarksDecideNothing(group: Option<int>, a: seq<Rule>, b: seq<Rule>, now: int)
    requires ValidRules(a) && ValidRules(b) && SameRules(a, b)
    ensures EffectiveDetails(group, a, now).desired == EffectiveDetails(group, b, now).desired
    ensures EffectiveDetails(group, a, now).next == EffectiveDetails(group, b, now).next
  {
    SameScope(a, b, Group, group);
    SameScope(a, b, Farm, None);
    SameWinnerAndNext(GroupLayer(a, group), GroupLayer(b, group), now);
    SameWinnerAndNext(FarmLayer(a), FarmLayer(b), now);
  }

  lemma {:induction false} SameCommands(miners: seq<Miner>, a: seq<Rule>, b: seq<Rule>, now: int)
    requires ValidRules(a) && ValidRules(b) && SameRules(a, b)
    ensures Commands(miners, a, now) == Commands(miners, b, now)
  {
    if miners != [] {
      var n := |miners| - 1;
      SameCommands(miners[..n], a, b, now);
      SeenMarksDecideNothing(miners[n].groupId, a, b, now);
    }
  }

  /** What one iteration of the service loop finds. */
  datatype Iteration = Iteration(schedulerEnabled: bool, miners: seq<Miner>, now: int)

  ghost predicate LogOf(log: seq<seq<Command>>, passes: seq<Iteration>, rules: seq<Rule>)
    requires ValidRules(rules)
  {
    && |log| == |passes|
    && forall i :: 0 <= i < |log| ==>
         log[i] == if passes[i].schedulerEnabled then Commands(passes[i].miners, rules, passes[i].now) else []
  }

  lemma LogGrows(log: seq<seq<Command>>, commands: seq<Command>, passes: seq<Iteration>, i: nat, rules: seq<Rule>)
    requires ValidRules(rules) && i < |passes| && LogOf(log, passes[..i], rules)
    requires commands == if passes[i].schedulerEnabled then Commands(passes[i].miners, rules, passes[i].now) else []
    ensures LogOf(log + [commands], passes[..i + 1], rules)
  {
  }

  /** However many passes run, each issues the commands the initial rules decide at its time. */
  method RunScheduler(table: RuleTable, passes: seq<Iteration>) returns (log: seq<seq<Command>>)
    requires table.Valid()
    modifies table
    ensures table.Valid() && SameRules(table.rows, old(table.rows))
    ensures EnabledRules(EnabledOf(old(table.rows))) && LogOf(log, passes, EnabledOf(old(table.rows)))
  {
    log := [];
    ghost var rules := EnabledOf(table.rows);
    for i := 0 to |passes|
      invariant table.Valid() && SameRules(table.rows, old(table.rows))
      invariant LogOf(log, passes[..i], rules)
    {
      ghost var before := table.rows;
      var commands := SchedulerIteration(table, passes[i].schedulerEnabled, passes[i].miners, passes[i].now);
      SameEnabled(before, old(table.rows));
      SameCommands(passes[i].miners, EnabledOf(before), rules, passes[i].now);
      SameRulesTransitive(table.rows, before, old(table.rows));
      LogGrows(log, commands, passes, i, rules);
      log := log + [commands];
    }
    assert passes[..|passes|] == passes;
  }

  /**
   The override contract over a whole run: while the rules, the miner's group and its override
   stay as they were at t0, no pass before the transition commands the miner; with no transition,
   none ever does.
   */
  lemma OverrideHoldsOverRuns(
    log: seq<seq<Command>>, passes: seq<Iteration>, rules: seq<Rule>, id: int, group: Option<int>, t0: int,
    i: nat, c: Command)
    requires EnabledRules(rules) && LogOf(log, passes, rules)
    requires i < |passes| && 0 <= t0 <= passes[i].now
    requires forall x :: x in passes[i].miners && x.id == id ==>
               x.groupId == group && x.overrideUntil == OverrideUntil(group, rules, t0)
    requires c in log[i] && c.minerId == id
    ensures var next := EffectiveDetails(group, rules, t0).next;
            next.Some? && next.value <= passes[i].now
  {
    NextAfterNow(group, rules, t0);
    CommandsAreDecisions(passes[i].miners, rules, passes[i].now, c);
    if EffectiveDetails(group, rules, t0).next.None? {
      NoTransitionNoTarget(group, rules, t0, passes[i].now);
    }
  }

  // ---- the request that sets the override ----

  /**
   queue_control for a manual pause or resume: the transition is computed and stored in the lock
   section that inserts the job.
   */
  method RequestManually(
    jobs: Jobs.JobTable, miner: Option<Jobs.Miner>, group: Option<int>, rules: seq<Rule>,
    action: Jobs.JobAction, t0: int)
    returns (result: Jobs.QueueResult)
    requires Jobs.OneActivePerMiner(jobs.jobs) && ValidRules(rules) && action != Jobs.Reboot
    modifies jobs
    ensures Jobs.OneActivePerMiner(jobs.jobs)
    ensures result.Accepted? <==> Jobs.Controllable(miner) && Jobs.ActiveJob(old(jobs.jobs), miner.value.id).None?
    ensures result.Accepted? ==>
              && jobs.overrides == old(jobs.overrides)[miner.value.id := OverrideUntil(group, rules, t0)]
              && jobs.jobs == old(jobs.jobs) + [Jobs.NewJob(miner.value.id, action, true)]
    ensures !result.Accepted? ==> jobs.overrides == old(jobs.overrides) && jobs.jobs == old(jobs.jobs)
  {
    var details := EffectiveScheduleDetails(group, rules, t0);
    result := jobs.Queue(miner, action, true, details.next);
  }

  /** The miners of a pass carry the override the job table holds for `id`. */
  ghost predicate CarryOverride(passes: seq<Iteration>, id: int, group: Option<int>, until: int) {
    forall i, x :: 0 <= i < |passes| && x in passes[i].miners && x.id == id ==>
      x.groupId == group && x.overrideUntil == until
  }

  /**
   From an accepted manual request at t0 to the passes that follow it: no pass commands the miner
   before its next transition, whatever states the miner reports meanwhile.
   */
  method PauseThenRun(
    jobs: Jobs.JobTable, miner: Jobs.Miner, group: Option<int>, action: Jobs.JobAction, t0: int,
    table: RuleTable, passes: int -> seq<Iteration>)
    returns (result: Jobs.QueueResult, log: seq<seq<Command>>, ghost ran: seq<Iteration>)
    requires Jobs.OneActivePerMiner(jobs.jobs) && table.Valid() && action != Jobs.Reboot && 0 <= t0
    requires forall until :: CarryOverride(passes(until), miner.id, group, until)
    requires forall until, i :: 0 <= i < |passes(until)| ==> t0 <= passes(until)[i].now
    modifies jobs, table
    ensures EnabledRules(EnabledOf(old(table.rows)))
    ensures |log| == |ran|
    ensures result.Accepted? ==>
              var next := EffectiveDetails(group, EnabledOf(old(table.rows)), t0).next;
              && ran == passes(next.GetOr(0))
              && forall i, c :: 0 <= i < |log| && c in log[i] && c.minerId == miner.id ==>
                   next.Some? && next.value <= ran[i].now
  {
    ghost var rules := EnabledOf(table.rows);
    result := RequestManually(jobs, Some(miner), group, EnabledOf(table.rows), action, t0);
    var stored := if miner.id in jobs.overrides then jobs.overrides[miner.id] else 0;
    var todo := passes(stored);
    ran := todo;
    log := RunScheduler(table, todo);
    if result.Accepted? {
      forall i, c | 0 <= i < |log| && c in log[i] && c.minerId == miner.id
        ensures var next := EffectiveDetails(group, rules, t0).next; next.Some? && next.value <= todo[i].now
      {
        OverrideHoldsOverRuns(log, todo, rules, miner.id, group, t0, i, c);
      }
    }
  }

  /** The table's own invariant supplies the hypothesis of exact transitions. */
  lemma StoredTransitionsAreExact(rows: seq<Rule>, clock: int, group: Option<int>, now: int, later: int)
    requires Consistent(rows, clock) && clock <= now <= later
    ensures EnabledRules(EnabledOf(rows))
    ensures (forall t :: now <= t <= later ==>
              WinningOccurrence(group, EnabledOf(rows), t) == WinningOccurrence(group, EnabledOf(rows), now))
            <==> (EffectiveDetails(group, EnabledOf(rows), now).next.Some?
                  ==> later < EffectiveDetails(group, EnabledOf(rows), now).next.value)
  {
    TransitionIsFirstChange(group, EnabledOf(rows), now, later);
  }
}
