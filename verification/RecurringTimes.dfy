/**
 Occurrences of a recurring maintenance rule (app/recurring_maintenance/policy.py). A list of
 (start, end) pairs is given by its starts; every end is the start plus the rule's duration.
 */
module RecurringTimes {
  import opened Prelude
  import opened Calendar
  import opened Sorting

  const MAX_DURATION_MINUTES := 10080

  datatype Target = FARM | MINER(minerId: int) | GROUP(groupId: int)

  datatype Rule = Rule(
    id: int, enabled: bool, deleted: bool, target: Target, plan: Plan, durationMinutes: int,
    createdAt: int, updatedAt: Option<int>)
  {
    ghost predicate Valid() {
      plan.Valid() && 1 <= durationMinutes <= MAX_DURATION_MINUTES
    }

    function Duration(): int {
      durationMinutes * 60
    }
  }

  function StartsOf(rule: Rule, day: int): int {
    StartOn(day, rule.plan.minutes)
  }

  /** The occurrences in progress at `now`: all of them, in order. */
  ghost predicate IsActiveList(rule: Rule, now: int, starts: seq<int>) {
    Ascending(starts)
    && forall s :: s in starts <==> OccursAt(rule.plan, s) && s <= now < s + rule.Duration()
  }

  /** The occurrences starting in [a, b): all of them, in order. */
  ghost predicate IsRangeList(rule: Rule, a: int, b: int, starts: seq<int>) {
    Ascending(starts)
    && forall s :: s in starts <==> OccursAt(rule.plan, s) && a <= s < b
  }

  ghost predicate IsEarliestFrom(rule: Rule, now: int, s: int) {
    OccursAt(rule.plan, s) && now <= s && forall u :: OccursAt(rule.plan, u) && now <= u ==> s <= u
  }

  /** Eight days are enough because no occurrence lasts more than seven. */
  method ActiveOccurrences(rule: Rule, now: int) returns (results: seq<int>)
    requires rule.Valid()
    ensures IsActiveList(rule, now, results)
  {
    results := [];
    for daysBack := 0 to 8
      invariant Ascending(results)
      invariant forall s :: s in results <==>
                  OccursAt(rule.plan, s) && s <= now < s + rule.Duration() && DayOf(s) > DayOf(now) - daysBack
    {
      var date := DayOf(now) - daysBack;
      OccursWhenSelected(rule.plan, date);
      OrderedByDay(rule.plan, date);
      StartOnDay(date, rule.plan.minutes);
      forall s | OccursAt(rule.plan, s) && DayOf(s) == date ensures s == StartsOf(rule, date) {
      }
      if !Selected(rule.plan.daysMask, date) {
        continue;
      }
      var start := StartsOf(rule, date);
      if start <= now < start + rule.Duration() {
        results := Insert(start, results);
      }
    }
  }

  method NextOccurrence(rule: Rule, now: int) returns (next: Option<int>)
    requires rule.Valid()
    ensures next.Some? && IsEarliestFrom(rule, now, next.value)
  {
    for daysForward := 0 to 8
      invariant forall s :: OccursAt(rule.plan, s) && now <= s ==> DayOf(s) >= DayOf(now) + daysForward
    {
      var date := DayOf(now) + daysForward;
      OccursWhenSelected(rule.plan, date);
      OrderedByDay(rule.plan, date);
      StartOnDay(date, rule.plan.minutes);
      if !Selected(rule.plan.daysMask, date) {
        continue;
      }
      var start := StartsOf(rule, date);
      if start >= now {
        return Some(start);
      }
    }
    var k := SelectedWithinWeek(rule.plan.daysMask, DayOf(now) + 1);
    OccursWhenSelected(rule.plan, DayOf(now) + 1 + k);
    StartOnDay(DayOf(now) + 1 + k, rule.plan.minutes);
    assert false;
  }

  method OccurrencesBetween(rule: Rule, startsAt: int, endsBefore: int) returns (results: seq<int>)
    requires rule.Valid()
    ensures IsRangeList(rule, startsAt, endsBefore, results)
  {
    results := [];
    if endsBefore <= startsAt {
      return;
    }
    var dayCount := DayOf(endsBefore) - DayOf(startsAt) + 1;
    for dayOffset := 0 to dayCount
      invariant Ascending(results)
      invariant forall s :: s in results <==>
                  OccursAt(rule.plan, s) && startsAt <= s < endsBefore && DayOf(s) < DayOf(startsAt) + dayOffset
    {
      var date := DayOf(startsAt) + dayOffset;
      OccursWhenSelected(rule.plan, date);
      OrderedByDay(rule.plan, date);
      StartOnDay(date, rule.plan.minutes);
      if !Selected(rule.plan.daysMask, date) {
        continue;
      }
      var start := StartsOf(rule, date);
      if !(startsAt <= start < endsBefore) {
        continue;
      }
      results := Insert(start, results);
    }
  }

  /** The complete list of a range, as a function of the range. */
  ghost function Between(rule: Rule, a: int, b: int): (starts: seq<int>)
    requires rule.Valid()
    ensures IsRangeList(rule, a, b, starts)
    decreases if a < b then b - a else 0
  {
    if b <= a then []
    else
      var before := Between(rule, a, b - 1);
      if OccursAt(rule.plan, b - 1) then
        assert forall i :: 0 <= i < |before| ==> before[i] in before;
        before + [b - 1]
      else before
  }

  /** The list is unique, so the search returns it. */
  lemma RangeListIsBetween(rule: Rule, a: int, b: int, starts: seq<int>)
    requires rule.Valid() && IsRangeList(rule, a, b, starts)
    ensures starts == Between(rule, a, b)
  {
    AscendingIsDetermined(starts, Between(rule, a, b));
  }

  /** The text key of an occurrence carries exactly its minute, so it names the occurrence. */
  function KeyOf(start: int): int {
    start / 60
  }

  lemma KeyIsInjective(rule: Rule, s: int, t: int)
    requires rule.Valid() && OccursAt(rule.plan, s)
    requires KeyOf(s) == KeyOf(t) && t % 60 == 0
    ensures s == t
  {
    OccursOnItsDay(rule.plan, s);
  }
}
