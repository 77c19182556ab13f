/**
 The schedule_rules table under its request handlers (app/api/scheduler.py), with the conflict
 query that keeps the winner of a scope independent of row order.
 */
module ScheduleStore {
  import opened Prelude
  import opened Calendar
  import opened ScheduleTimes
  import opened ScheduleState

  /** A request body; integers outside 0..255 fail the same mask test as 128..255. */
  datatype Draft = Draft(enabled: bool, action: Action, daysMask: bv8, minutes: int, scope: Scope, groupId: Option<int>)

  datatype Response = BadRequest | NotFound | Conflict(ruleId: int) | Done(id: int)

  /** schedule_normalize_input: what it lets through. */
  predicate WellFormed(d: Draft) {
    && 0 <= d.minutes <= 1439
    && 1 <= d.daysMask <= 127
    && (if d.scope == Farm then d.groupId.None? else d.groupId.Some? && d.groupId.value > 0)
  }

  function PlanOf(d: Draft): Plan {
    Plan(d.daysMask, d.minutes)
  }

  /** One row of schedule_conflicting_rule's WHERE clause. */
  predicate Clashes(r: Rule, d: Draft, exclude: Option<int>) {
    && r.enabled
    && Overlap(r.plan, PlanOf(d))
    && r.scope == d.scope
    && r.groupId == d.groupId
    && (exclude.Some? ==> r.id != exclude.value)
  }

  /** ORDER BY id LIMIT 1 over the clashing rows; a disabled draft is never compared. */
  function ConflictingRule(rows: seq<Rule>, d: Draft, exclude: Option<int>): (r: Option<Rule>)
    ensures r.None? <==> !d.enabled || forall x :: x in rows ==> !Clashes(x, d, exclude)
    ensures r.Some? ==> r.value in rows && Clashes(r.value, d, exclude)
  {
    if !d.enabled || rows == [] then None
    else if Clashes(rows[0], d, exclude) then Some(rows[0])
    else ConflictingRule(rows[1..], d, exclude)
  }

  function Find(rows: seq<Rule>, id: int): (r: Option<Rule>)
    ensures r.Some? ==> r.value in rows && r.value.id == id
    ensures r.None? <==> forall x :: x in rows ==> x.id != id
  {
    if rows == [] then None
    else if rows[0].id == id then Some(rows[0])
    else Find(rows[1..], id)
  }

  function Replaced(rows: seq<Rule>, r: Rule): (s: seq<Rule>)
    ensures |s| == |rows|
    ensures forall i :: 0 <= i < |rows| ==> s[i] == if rows[i].id == r.id then r else rows[i]
  {
    seq(|rows|, i requires 0 <= i < |rows| => if rows[i].id == r.id then r else rows[i])
  }

  function Removed(rows: seq<Rule>, id: int): (s: seq<Rule>)
    ensures forall x :: x in s <==> x in rows && x.id != id
  {
    if rows == [] then []
    else if rows[0].id == id then Removed(rows[1..], id)
    else [rows[0]] + Removed(rows[1..], id)
  }

  // ---- the invariant ----

  ghost predicate SameLayer(a: Rule, b: Rule) {
    a.scope == b.scope && a.groupId == b.groupId
  }

  /** No two distinct enabled rules of one scope and group ever share an occurrence instant. */
  ghost predicate NoSharedInstant(rows: seq<Rule>) {
    forall a, b, t :: a in rows && b in rows && a.id != b.id && a.enabled && b.enabled && SameLayer(a, b) ==>
      !(OccursAt(a.plan, t) && OccursAt(b.plan, t))
  }

  ghost predicate DistinctIds(rows: seq<Rule>) {
    forall i, j :: 0 <= i < j < |rows| ==> rows[i].id < rows[j].id
  }

  ghost predicate Consistent(rows: seq<Rule>, clock: int) {
    && DistinctIds(rows)
    && (forall r :: r in rows ==> r.Valid() && r.effectiveFrom <= clock)
    && NoSharedInstant(rows)
  }

  /** The rule `r` may join `rows` in place of any row carrying its id. */
  ghost predicate Fits(rows: seq<Rule>, r: Rule) {
    r.enabled ==> forall x :: x in rows && x.id != r.id && x.enabled && SameLayer(x, r) ==> !Overlap(x.plan, r.plan)
  }

  lemma IdsIdentify(rows: seq<Rule>, a: Rule, b: Rule)
    requires DistinctIds(rows) && a in rows && b in rows && a.id == b.id
    ensures a == b
  {
    var i :| 0 <= i < |rows| && rows[i] == a;
    var j :| 0 <= j < |rows| && rows[j] == b;
  }

  lemma FittingPair(a: Rule, b: Rule, t: int)
    requires a.Valid() && b.Valid() && !Overlap(a.plan, b.plan)
    ensures !(OccursAt(a.plan, t) && OccursAt(b.plan, t))
  {
    if OccursAt(a.plan, t) && OccursAt(b.plan, t) {
      MeetOverlaps(a.plan, b.plan, t);
    }
  }

  /** Adding or replacing one fitting rule keeps the table free of shared instants. */
  lemma FitKeepsApart(rows: seq<Rule>, r: Rule, after: seq<Rule>)
    requires NoSharedInstant(rows) && Fits(rows, r) && r.Valid()
    requires forall x :: x in rows ==> x.Valid()
    requires forall x :: x in after ==> x == r || (x in rows && x.id != r.id)
    ensures NoSharedInstant(after)
  {
    forall a, b, t | a in after && b in after && a.id != b.id && a.enabled && b.enabled && SameLayer(a, b)
      ensures !(OccursAt(a.plan, t) && OccursAt(b.plan, t))
    {
      if a == r {
        OverlapSymmetric(b.plan, a.plan);
        FittingPair(b, a, t);
      } else if b == r {
        FittingPair(a, b, t);
      }
    }
  }

  lemma OverlapSymmetric(p: Plan, q: Plan)
    ensures Overlap(p, q) <==> Overlap(q, p)
  {
  }

  /** The conflict query decides fitting: it finds no row exactly when the rule fits. */
  lemma QueryDecidesFit(rows: seq<Rule>, d: Draft, r: Rule)
    requires r.plan == PlanOf(d) && r.scope == d.scope && r.groupId == d.groupId && r.enabled == d.enabled
    ensures ConflictingRule(rows, d, Some(r.id)).None? <==> Fits(rows, r)
    ensures (forall x :: x in rows ==> x.id != r.id) ==> (ConflictingRule(rows, d, None).None? <==> Fits(rows, r))
  {
  }

  /** What the validator lets through is exactly a valid plan with a well-formed scope. */
  lemma WellFormedIff(d: Draft)
    ensures WellFormed(d) <==>
            (&& PlanOf(d).Valid()
             && (d.scope == Farm <==> d.groupId.None?) && (d.groupId.Some? ==> d.groupId.value > 0))
  {
  }

  /** Enabling a stored rule conflicts exactly when, enabled, it would not fit. */
  lemma ToggleConflictsIff(rows: seq<Rule>, r: Rule)
    ensures ConflictingRule(rows, RuleTable.AsDraft(r, true), Some(r.id)).None? <==> Fits(rows, r.(enabled := true))
    ensures ConflictingRule(rows, RuleTable.AsDraft(r, false), Some(r.id)).None?
  {
    QueryDecidesFit(rows, RuleTable.AsDraft(r, true), r.(enabled := true));
  }

  // ---- order independence ----

  lemma WinnerIgnoresOrder(a: seq<Rule>, b: seq<Rule>, now: int)
    requires EnabledRules(a) && NoSharedInstant(a) && DistinctRules(a)
    requires forall r, s :: r in a && s in a ==> SameLayer(r, s)
    requires forall r :: r in a <==> r in b
    ensures ScopeWinner(a, now) == ScopeWinner(b, now)
  {
    WinnerIsLatest(a, now);
    WinnerIsLatest(b, now);
    var x, y := ScopeWinner(a, now), ScopeWinner(b, now);
    if x.Some? && y.Some? {
      assert y.value.rule in a && x.value.rule in b;
      assert x.value.occurrence == y.value.occurrence;
      assert OccursAt(x.value.rule.plan, x.value.occurrence) && OccursAt(y.value.rule.plan, x.value.occurrence);
      assert SameLayer(x.value.rule, y.value.rule);
    }
  }

  /** The earliest next run of a list is no later than that of any part of it. */
  lemma NextAtMost(a: seq<Rule>, b: seq<Rule>, now: int)
    requires EnabledRules(a)
    requires forall r :: r in b ==> r in a
    requires ScopeNext(b, now).Some?
    ensures ScopeNext(a, now).Some? && ScopeNext(a, now).value <= ScopeNext(b, now).value
  {
    NextIsEarliest(a, now);
    NextIsEarliest(b, now);
    var s :| s in b && NextRun(s, now) == ScopeNext(b, now);
    assert s in a && s.enabled;
  }

  lemma NextIgnoresOrder(a: seq<Rule>, b: seq<Rule>, now: int)
    requires EnabledRules(a) && EnabledRules(b)
    requires forall r :: r in a <==> r in b
    ensures ScopeNext(a, now) == ScopeNext(b, now)
  {
    if ScopeNext(a, now).Some? {
      NextAtMost(b, a, now);
    }
    if ScopeNext(b, now).Some? {
      NextAtMost(a, b, now);
    }
  }

  ghost predicate DistinctRules(rows: seq<Rule>) {
    forall a, b :: a in rows && b in rows && a.id == b.id ==> a == b
  }

  lemma LayerIgnoresOrder(a: seq<Rule>, b: seq<Rule>, rows: seq<Rule>, now: int)
    requires EnabledRules(a) && NoSharedInstant(rows) && DistinctRules(rows)
    requires forall r :: r in a ==> r in rows
    requires forall r, s :: r in a && s in a ==> SameLayer(r, s)
    requires forall r :: r in a <==> r in b
    ensures ScopeWinner(a, now) == ScopeWinner(b, now)
    ensures ScopeNext(a, now) == ScopeNext(b, now)
  {
    WinnerIgnoresOrder(a, b, now);
    NextIgnoresOrder(a, b, now);
  }

  /** In a consistent table every listing of the enabled rows gives every miner the same schedule. */
  lemma ScheduleIgnoresOrder(rows: seq<Rule>, listing: seq<Rule>, group: Option<int>, clock: int, now: int)
    requires Consistent(rows, clock)
    requires forall r :: r in listing <==> r in EnabledOf(rows)
    ensures EnabledRules(listing)
    ensures EffectiveDetails(group, listing, now) == EffectiveDetails(group, EnabledOf(rows), now)
  {
    forall a, b | a in rows && b in rows && a.id == b.id ensures a == b {
      IdsIdentify(rows, a, b);
    }
    LayerIgnoresOrder(FarmLayer(listing), FarmLayer(EnabledOf(rows)), rows, now);
    LayerIgnoresOrder(GroupLayer(listing, group), GroupLayer(EnabledOf(rows), group), rows, now);
  }

  /** Without the conflict checks row order would matter: two rules at one instant, two winners. */
  lemma OrderMattersOnClash() returns (a: Rule, b: Rule, now: int)
    ensures a.Valid() && b.Valid() && a.enabled && b.enabled && SameLayer(a, b)
    ensures ScopeWinner([a, b], now) != ScopeWinner([b, a], now)
  {
    now := 2 * DAY;
    a := Rule(1, true, Pause, Plan(127, 0), Farm, None, 0, None);
    b := Rule(2, true, Resume, Plan(127, 0), Farm, None, 0, None);
    EveryDay(2);
    OccursWhenSelected(a.plan, 2);
    assert IsLastOccurrence(a, now, Some(now)) && IsLastOccurrence(b, now, Some(now));
    assert [a, b][..1] == [a] && [b, a][..1] == [b];
    assert ScopeWinner([a][..0], now).None? && ScopeWinner([b][..0], now).None?;
    assert ScopeWinner([a], now) == Some(Winner(a, now));
    assert ScopeWinner([b], now) == Some(Winner(b, now));
  }

  // ---- the table and its handlers ----

  lemma AppendKeeps(rows: seq<Rule>, clock: int, now: int, r: Rule)
    requires Consistent(rows, clock) && clock <= now
    requires r.Valid() && r.effectiveFrom <= now && Fits(rows, r)
    requires forall x :: x in rows ==> x.id < r.id
    ensures Consistent(rows + [r], now)
  {
    FitKeepsApart(rows, r, rows + [r]);
  }

  lemma ReplaceKeeps(rows: seq<Rule>, clock: int, now: int, nextId: int, r: Rule)
    requires Consistent(rows, clock) && clock <= now
    requires r.Valid() && r.effectiveFrom <= now && Fits(rows, r) && r.id < nextId
    requires forall x :: x in rows ==> x.id < nextId
    ensures Consistent(Replaced(rows, r), now)
    ensures forall x :: x in Replaced(rows, r) ==> x.id < nextId
  {
    var after := Replaced(rows, r);
    forall x | x in after ensures x == r || (x in rows && x.id != r.id) {
      var i :| 0 <= i < |after| && after[i] == x;
      assert rows[i] in rows;
    }
    FitKeepsApart(rows, r, after);
  }

  /** The row a POST writes, in force from now on. */
  function NewRule(d: Draft, id: int, now: int): Rule {
    Rule(id, d.enabled, d.action, PlanOf(d), d.scope, d.groupId, now, None)
  }

  /** The row a PUT writes; a change of timing or a switch-on moves effective_from to now. */
  function Edited(current: Rule, d: Draft, now: int): Rule {
    var changed :=
      || current.action != d.action
      || current.plan.minutes != d.minutes
      || current.plan.daysMask != d.daysMask
      || current.scope != d.scope
      || current.groupId != d.groupId
      || (!current.enabled && d.enabled);
    Rule(current.id, d.enabled, d.action, PlanOf(d), d.scope, d.groupId,
         if d.enabled && changed then now else current.effectiveFrom, None)
  }

  /** A new rule has the draft's values, is in force from its creation, and has not run. */
  lemma CreatedMeans(d: Draft, id: int, now: int)
    ensures var r := NewRule(d, id, now);
            && r.id == id && r.enabled == d.enabled && r.action == d.action
            && r.scope == d.scope && r.groupId == d.groupId
            && r.plan.daysMask == d.daysMask && r.plan.minutes == d.minutes
            && r.effectiveFrom == now && r.lastRun == None
  {
  }

  /**
   An edit takes the draft's values under the old id; it puts the rule in force from now exactly
   when it enables a rule that was off or changes the timing, action or target of one it leaves on.
   */
  lemma EditedMeans(current: Rule, d: Draft, now: int)
    ensures var r := Edited(current, d, now);
            && r.id == current.id && r.enabled == d.enabled && r.action == d.action && r.lastRun == None
            && r.plan.daysMask == d.daysMask && r.plan.minutes == d.minutes
            && r.scope == d.scope && r.groupId == d.groupId
            && (current.effectiveFrom != now ==>
                  (r.effectiveFrom == now <==>
                   (d.enabled && (!current.enabled || AsWritten(current) != AsWritten(r)))))
            && (r.effectiveFrom == now || r.effectiveFrom == current.effectiveFrom)
  {
  }

  /** What of a rule decides when it does what for whom. */
  function AsWritten(r: Rule): (Action, Plan, Scope, Option<int>) {
    (r.action, r.plan, r.scope, r.groupId)
  }

  lemma CreateKeeps(rows: seq<Rule>, clock: int, now: int, nextId: int, d: Draft)
    requires Consistent(rows, clock) && clock <= now && WellFormed(d) && ConflictingRule(rows, d, None).None?
    requires forall x :: x in rows ==> x.id < nextId
    ensures Consistent(rows + [NewRule(d, nextId, now)], now)
  {
    QueryDecidesFit(rows, d, NewRule(d, nextId, now));
    AppendKeeps(rows, clock, now, NewRule(d, nextId, now));
  }

  lemma EditKeeps(rows: seq<Rule>, clock: int, now: int, nextId: int, current: Rule, d: Draft)
    requires Consistent(rows, clock) && clock <= now && current in rows
    requires WellFormed(d) && ConflictingRule(rows, d, Some(current.id)).None?
    requires forall x :: x in rows ==> x.id < nextId
    ensures Consistent(Replaced(rows, Edited(current, d, now)), now)
    ensures forall x :: x in Replaced(rows, Edited(current, d, now)) ==> x.id < nextId
  {
    var r := Edited(current, d, now);
    QueryDecidesFit(rows, d, r);
    ReplaceKeeps(rows, clock, now, nextId, r);
  }

  lemma SeenKeepsApart(rows: seq<Rule>, r: Rule, occurrence: int)
    requires DistinctIds(rows) && NoSharedInstant(rows) && r in rows
    ensures NoSharedInstant(Replaced(rows, r.(lastRun := Some(occurrence))))
  {
    var after := Replaced(rows, r.(lastRun := Some(occurrence)));
    forall x | x in after
      ensures exists y :: y in rows && y.id == x.id && y.enabled == x.enabled && SameLayer(x, y) && y.plan == x.plan
    {
      var i :| 0 <= i < |after| && after[i] == x;
      if rows[i].id == r.id {
        IdsIdentify(rows, rows[i], r);
      }
      assert rows[i] in rows;
    }
  }

  lemma SeenKeeps(rows: seq<Rule>, clock: int, nextId: int, r: Rule, occurrence: int)
    requires Consistent(rows, clock) && r in rows
    requires forall x :: x in rows ==> x.id < nextId
    ensures Consistent(Replaced(rows, r.(lastRun := Some(occurrence))), clock)
    ensures forall x :: x in Replaced(rows, r.(lastRun := Some(occurrence))) ==> x.id < nextId
  {
    SeenKeepsApart(rows, r, occurrence);
    var after := Replaced(rows, r.(lastRun := Some(occurrence)));
    forall x | x in after ensures x.Valid() && x.effectiveFrom <= clock && x.id < nextId {
      var i :| 0 <= i < |after| && after[i] == x;
      assert rows[i] in rows;
    }
  }

  class RuleTable {
    var rows: seq<Rule>
    var nextId: int
    ghost var clock: int

    ghost predicate Valid()
      reads this
    {
      Consistent(rows, clock) && forall r :: r in rows ==> r.id < nextId
    }

    constructor ()
      ensures Valid() && rows == []
    {
      rows, nextId, clock := [], 1, 0;
    }

    method Create(d: Draft, groups: set<int>, now: int) returns (response: Response)
      requires Valid() && clock <= now
      modifies this
      ensures Valid() && clock == now
      ensures response ==
              if !WellFormed(d) then BadRequest
              else if d.scope == Group && d.groupId.value !in groups then NotFound
              else match ConflictingRule(old(rows), d, None)
                case Some(c) => Conflict(c.id)
                case None => Done(old(nextId))
      ensures rows == if response.Done?
                      then old(rows) + [NewRule(d, old(nextId), now)]
                      else old(rows)
      ensures nextId == if response.Done? then old(nextId) + 1 else old(nextId)
    {
      clock := now;
      if !WellFormed(d) {
        return BadRequest;
      }
      if d.scope == Group && d.groupId.value !in groups {
        return NotFound;
      }
      var conflict := ConflictingRule(rows, d, None);
      if conflict.Some? {
        return Conflict(conflict.value.id);
      }
      CreateKeeps(rows, old(clock), now, nextId, d);
      rows, nextId := rows + [NewRule(d, nextId, now)], nextId + 1;
      return Done(nextId - 1);
    }

    method Update(id: int, d: Draft, groups: set<int>, now: int) returns (response: Response)
      requires Valid() && clock <= now
      modifies this
      ensures Valid() && clock == now && nextId == old(nextId)
      ensures response ==
              if Find(old(rows), id).None? then NotFound
              else if !WellFormed(d) then BadRequest
              else if d.scope == Group && d.groupId.value !in groups then NotFound
              else match ConflictingRule(old(rows), d, Some(id))
                case Some(c) => Conflict(c.id)
                case None => Done(id)
      ensures rows == if response.Done?
                      then Replaced(old(rows), Edited(Find(old(rows), id).value, d, now))
                      else old(rows)
    {
      clock := now;
      var current := Find(rows, id);
      if current.None? {
        return NotFound;
      }
      if !WellFormed(d) {
        return BadRequest;
      }
      if d.scope == Group && d.groupId.value !in groups {
        return NotFound;
      }
      var conflict := ConflictingRule(rows, d, Some(id));
      if conflict.Some? {
        return Conflict(conflict.value.id);
      }
      EditKeeps(rows, old(clock), now, nextId, current.value, d);
      rows := Replaced(rows, Edited(current.value, d, now));
      return Done(id);
    }

    static function AsDraft(r: Rule, enabled: bool): Draft {
      Draft(enabled, r.action, r.plan.daysMask, r.plan.minutes, r.scope, r.groupId)
    }

    method Toggle(id: int, groups: set<int>, now: int) returns (response: Response)
      requires Valid() && clock <= now
      modifies this
      ensures Valid() && clock == now && nextId == old(nextId)
      ensures response ==
              match Find(old(rows), id)
              case None => NotFound
              case Some(r) =>
                if r.enabled then Done(id)
                else if r.scope == Group && r.groupId.value !in groups then NotFound
                else match ConflictingRule(old(rows), AsDraft(r, true), Some(id))
                  case Some(c) => Conflict(c.id)
                  case None => Done(id)
      ensures rows == if response.Done?
                      then var r := Find(old(rows), id).value;
                           Replaced(old(rows), r.(enabled := !r.enabled, lastRun := None,
                                                  effectiveFrom := if r.enabled then r.effectiveFrom else now))
                      else old(rows)
    {
      clock := now;
      var found := Find(rows, id);
      if found.None? {
        return NotFound;
      }
      var current := found.value;
      var enable := !current.enabled;
      if enable {
        if current.scope == Group && current.groupId.value !in groups {
          return NotFound;
        }
        var conflict := ConflictingRule(rows, AsDraft(current, true), Some(id));
        if conflict.Some? {
          return Conflict(conflict.value.id);
        }
      }
      var r := current.(enabled := enable, lastRun := None,
                        effectiveFrom := if enable then now else current.effectiveFrom);
      QueryDecidesFit(rows, AsDraft(current, enable), r);
      ReplaceKeeps(rows, old(clock), now, nextId, r);
      rows := Replaced(rows, r);
      return Done(id);
    }

    method Delete(id: int) returns (response: Response)
      requires Valid()
      modifies this
      ensures Valid() && clock == old(clock) && nextId == old(nextId)
      ensures response == if Find(old(rows), id).None? then NotFound else Done(id)
      ensures rows == Removed(old(rows), id)
    {
      var current := Find(rows, id);
      RemovedKeepsOrder(rows, id);
      rows := Removed(rows, id);
      return if current.None? then NotFound else Done(id);
    }

    /** True only the first time an occurrence of the rule is recorded. */
    method MarkSeen(id: int, occurrence: int) returns (changed: bool)
      requires Valid()
      modifies this
      ensures Valid() && clock == old(clock) && nextId == old(nextId)
      ensures changed <==> Find(old(rows), id).Some? && Find(old(rows), id).value.lastRun != Some(occurrence)
      ensures rows == if changed then Replaced(old(rows), Find(old(rows), id).value.(lastRun := Some(occurrence)))
                      else old(rows)
    {
      var found := Find(rows, id);
      if found.None? || found.value.lastRun == Some(occurrence) {
        return false;
      }
      var r := found.value.(lastRun := Some(occurrence));
      SeenKeeps(rows, clock, nextId, found.value, occurrence);
      rows := Replaced(rows, r);
      return true;
    }
  }

  lemma {:induction false} RemovedKeepsOrder(rows: seq<Rule>, id: int)
    requires DistinctIds(rows)
    ensures DistinctIds(Removed(rows, id))
  {
    if rows != [] {
      var rest := Removed(rows[1..], id);
      RemovedKeepsOrder(rows[1..], id);
      forall j | 0 <= j < |rest| ensures rows[0].id < rest[j].id {
        assert rest[j] in rest;
      }
    }
  }
}
