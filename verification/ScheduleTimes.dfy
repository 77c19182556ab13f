/**
 Weekly schedule rules and the two bounded day searches over one rule
 (app/scheduler/repository.py and app/scheduler/policy.py).
 */
module ScheduleTimes {
  import opened Prelude
  import opened Calendar

  datatype Action = Pause | Resume
  datatype Scope = Farm | Group

  /** A row of schedule_rules; `lastRun` is the occurrence named by last_run_key. */
  datatype Rule = Rule(
    id: int, enabled: bool, action: Action, plan: Plan, scope: Scope, groupId: Option<int>,
    effectiveFrom: int, lastRun: Option<int>)
  {
    ghost predicate Valid() {
      plan.Valid() && (scope == Farm <==> groupId.None?)
    }
  }

  /** A stored effective_from of 0 means "no lower bound". */
  predicate Admits(rule: Rule, t: int) {
    rule.effectiveFrom == 0 || rule.effectiveFrom <= t
  }

  ghost predicate Eligible(rule: Rule, t: int) {
    OccursAt(rule.plan, t) && Admits(rule, t)
  }

  /** The unbounded meaning of "last occurrence": the greatest eligible instant not after `now`. */
  ghost predicate IsLastOccurrence(rule: Rule, now: int, o: Option<int>) {
    match o
    case Some(v) => Eligible(rule, v) && v <= now && forall t :: Eligible(rule, t) && t <= now ==> t <= v
    case None => forall t :: Eligible(rule, t) ==> now < t
  }

  /** The unbounded meaning of "next run": the least occurrence after `now` of an enabled rule. */
  ghost predicate IsNextRun(rule: Rule, now: int, o: Option<int>) {
    if rule.enabled then o.Some? && IsEarliestAfter(rule.plan, now, o.value) else o.None?
  }

  lemma LastOccurrenceExists(rule: Rule, now: int) returns (o: Option<int>)
    requires rule.Valid()
    ensures IsLastOccurrence(rule, now, o)
  {
    var t := LatestExists(rule.plan, now);
    o := if Admits(rule, t) then Some(t) else None;
    assert forall u :: Eligible(rule, u) ==> OccursAt(rule.plan, u);
  }

  ghost function LastOccurrence(rule: Rule, now: int): (o: Option<int>)
    requires rule.Valid()
    ensures IsLastOccurrence(rule, now, o)
  {
    assert exists o :: IsLastOccurrence(rule, now, o) by {
      var o := LastOccurrenceExists(rule, now);
    }
    var o :| IsLastOccurrence(rule, now, o);
    o
  }

  /** A rule has no occurrence before it took effect, and every one since counts. */
  lemma InForceOnly(rule: Rule, now: int, t: int)
    requires rule.Valid() && OccursAt(rule.plan, t) && t <= now
    requires rule.effectiveFrom == 0 || rule.effectiveFrom <= t
    ensures LastOccurrence(rule, now).Some? && t <= LastOccurrence(rule, now).value <= now
    ensures OccursAt(rule.plan, LastOccurrence(rule, now).value)
    ensures rule.effectiveFrom != 0 ==> rule.effectiveFrom <= LastOccurrence(rule, now).value
  {
    assert Eligible(rule, t);
  }

  ghost function NextRun(rule: Rule, now: int): (o: Option<int>)
    requires rule.Valid()
    ensures IsNextRun(rule, now, o)
  {
    if rule.enabled then
      assert exists t :: IsEarliestAfter(rule.plan, now, t) by {
        var t := EarliestAfterExists(rule.plan, now);
      }
      var t :| IsEarliestAfter(rule.plan, now, t);
      Some(t)
    else None
  }

  /** Within eight days every weekday is seen with a past instant, so an older hit is impossible. */
  lemma NothingOlder(rule: Rule, now: int)
    requires rule.Valid()
    requires forall t :: Eligible(rule, t) && DayOf(t) > DayOf(now) - 8 ==> now < t
    ensures forall t :: Eligible(rule, t) ==> now < t
  {
    var k := SelectedWithinWeek(rule.plan.daysMask, DayOf(now) - 7);
    var s := StartOn(DayOf(now) - 7 + k, rule.plan.minutes);
    StartOnDay(DayOf(now) - 7 + k, rule.plan.minutes);
    assert OccursAt(rule.plan, s) && s <= now;
    assert !Eligible(rule, s);
    forall t | Eligible(rule, t) ensures now < t {
      OccursOnItsDay(rule.plan, t);
    }
  }

  /** The eight-day backward search computes the unbounded last occurrence. */
  method RuleLastOccurrence(rule: Rule, now: int) returns (o: Option<int>)
    requires rule.Valid()
    ensures o == LastOccurrence(rule, now)
  {
    var offset := 0;
    while offset < 8
      invariant 0 <= offset <= 8
      invariant forall t :: Eligible(rule, t) && DayOf(t) > DayOf(now) - offset ==> now < t
    {
      var day := DayOf(now - offset * DAY);
      OccursWhenSelected(rule.plan, day);
      OrderedByDay(rule.plan, day);
      if Selected(rule.plan.daysMask, day) {
        var occurrence := StartOn(day, rule.plan.minutes);
        if occurrence <= now && !(rule.effectiveFrom != 0 && occurrence < rule.effectiveFrom) {
          assert IsLastOccurrence(rule, now, Some(occurrence));
          return Some(occurrence);
        }
      }
      offset := offset + 1;
    }
    NothingOlder(rule, now);
    return None;
  }

  /** The nine-day forward search computes the unbounded next run. */
  method RuleNextRun(rule: Rule, now: int) returns (o: Option<int>)
    requires rule.Valid()
    ensures o == NextRun(rule, now)
  {
    if !rule.enabled {
      return None;
    }
    var offset := 0;
    while offset < 9
      invariant 0 <= offset <= 9
      invariant forall t :: OccursAt(rule.plan, t) && DayOf(t) < DayOf(now) + offset ==> t <= now
    {
      var day := DayOf(now + offset * DAY);
      OccursWhenSelected(rule.plan, day);
      if Selected(rule.plan.daysMask, day) {
        var candidate := StartOn(day, rule.plan.minutes);
        if candidate > now {
          return Some(candidate);
        }
      }
      offset := offset + 1;
    }
    var k := SelectedWithinWeek(rule.plan.daysMask, DayOf(now) + 1);
    OccursWhenSelected(rule.plan, DayOf(now) + 1 + k);
    assert false;
  }
}
