/**
 The effective schedule of a miner: a winner per scope, GROUP layered over FARM, and the
 reported next transition (app/scheduler/repository.py).
 */
module ScheduleState {
  import opened Prelude
  import opened Calendar
  import opened ScheduleTimes

  datatype Winner = Winner(rule: Rule, occurrence: int)

  datatype Details = Details(desired: Option<Action>, source: Option<Scope>, winner: Option<Winner>, next: Option<int>)

  ghost predicate ValidRules(rules: seq<Rule>) {
    forall r :: r in rules ==> r.Valid()
  }

  /** Rows as _enabled_schedule_rules returns them. */
  ghost predicate EnabledRules(rules: seq<Rule>) {
    forall r :: r in rules ==> r.Valid() && r.enabled
  }

  function EnabledOf(rules: seq<Rule>): (s: seq<Rule>)
    ensures forall r :: r in s <==> r in rules && r.enabled
  {
    if rules == [] then []
    else
      var n := |rules| - 1;
      if rules[n].enabled then EnabledOf(rules[..n]) + [rules[n]] else EnabledOf(rules[..n])
  }

  predicate InScope(r: Rule, scope: Scope, group: Option<int>) {
    r.scope == scope && (scope == Group ==> group.Some? && r.groupId == group)
  }

  function RulesForScope(rules: seq<Rule>, scope: Scope, group: Option<int>): (s: seq<Rule>)
    ensures forall r :: r in s <==> r in rules && InScope(r, scope, group)
  {
    if rules == [] then []
    else
      var n := |rules| - 1;
      var before := RulesForScope(rules[..n], scope, group);
      if InScope(rules[n], scope, group) then before + [rules[n]] else before
  }

  /** The rule a left-to-right scan keeps when only a strictly later occurrence replaces it. */
  ghost function ScopeWinner(rules: seq<Rule>, now: int): Option<Winner>
    requires ValidRules(rules)
  {
    if rules == [] then None
    else
      var n := |rules| - 1;
      var before := ScopeWinner(rules[..n], now);
      match LastOccurrence(rules[n], now)
      case None => before
      case Some(o) =>
        if before.None? || o > before.value.occurrence then Some(Winner(rules[n], o)) else before
  }

  function EarlierOf(a: Option<int>, b: Option<int>): Option<int> {
    if a.None? then b else if b.None? || a.value <= b.value then a else b
  }

  ghost function ScopeNext(rules: seq<Rule>, now: int): Option<int>
    requires ValidRules(rules)
  {
    if rules == [] then None
    else
      var n := |rules| - 1;
      EarlierOf(ScopeNext(rules[..n], now), NextRun(rules[n], now))
  }

  /** The rules that can decide for a miner of `group`, one list per layer. */
  function GroupLayer(rules: seq<Rule>, group: Option<int>): (s: seq<Rule>) {
    if group.None? then [] else RulesForScope(rules, Group, group)
  }

  function FarmLayer(rules: seq<Rule>): (s: seq<Rule>) {
    RulesForScope(rules, Farm, None)
  }

  ghost function EffectiveDetails(group: Option<int>, rules: seq<Rule>, now: int): Details
    requires ValidRules(rules)
  {
    var groupWinner := ScopeWinner(GroupLayer(rules, group), now);
    var farmWinner := ScopeWinner(FarmLayer(rules), now);
    var groupNext := ScopeNext(GroupLayer(rules, group), now);
    if groupWinner.Some? then
      Details(Some(groupWinner.value.rule.action), Some(Group), groupWinner, groupNext)
    else
      Details(
        if farmWinner.Some? then Some(farmWinner.value.rule.action) else None,
        if farmWinner.Some? then Some(Farm) else None,
        farmWinner,
        EarlierOf(ScopeNext(FarmLayer(rules), now), groupNext))
  }

  // ---- the loops of the source ----

  method SelectRulesForScope(rules: seq<Rule>, scope: Scope, group: Option<int>) returns (result: seq<Rule>)
    ensures result == RulesForScope(rules, scope, group)
  {
    result := [];
    for i := 0 to |rules|
      invariant result == RulesForScope(rules[..i], scope, group)
    {
      assert rules[..i + 1][..i] == rules[..i];
      if rules[i].scope != scope {
        continue;
      }
      if scope == Group {
        if group.None? || rules[i].groupId.None? || rules[i].groupId.value != group.value {
          continue;
        }
      }
      result := result + [rules[i]];
    }
    assert rules[..|rules|] == rules;
  }

  method ScopeStateDetails(rules: seq<Rule>, now: int) returns (winner: Option<Winner>)
    requires ValidRules(rules)
    ensures winner == ScopeWinner(rules, now)
  {
    winner := None;
    for i := 0 to |rules|
      invariant winner == ScopeWinner(rules[..i], now)
    {
      assert rules[..i + 1][..i] == rules[..i];
      var occurrence := RuleLastOccurrence(rules[i], now);
      if occurrence.None? {
        continue;
      }
      if winner.None? || occurrence.value > winner.value.occurrence {
        winner := Some(Winner(rules[i], occurrence.value));
      }
    }
    assert rules[..|rules|] == rules;
  }

  /** Python's `min` over a list that is not empty. */
  function MinOf(s: seq<int>): (m: int)
    requires s != []
    ensures m in s && forall x :: x in s ==> m <= x
  {
    if |s| == 1 then s[0]
    else
      var rest := MinOf(s[..|s| - 1]);
      assert s == s[..|s| - 1] + [s[|s| - 1]];
      if rest <= s[|s| - 1] then rest else s[|s| - 1]
  }

  method ScopeNextTransition(rules: seq<Rule>, now: int) returns (next: Option<int>)
    requires ValidRules(rules)
    ensures next == ScopeNext(rules, now)
  {
    var candidates: seq<int> := [];
    for i := 0 to |rules|
      invariant ScopeNext(rules[..i], now) == if candidates == [] then None else Some(MinOf(candidates))
    {
      assert rules[..i + 1][..i] == rules[..i];
      var candidate := RuleNextRun(rules[i], now);
      if candidate.Some? {
        assert (candidates + [candidate.value])[..|candidates|] == candidates;
        candidates := candidates + [candidate.value];
      }
    }
    assert rules[..|rules|] == rules;
    next := if candidates == [] then None else Some(MinOf(candidates));
  }

  method EffectiveScheduleDetails(group: Option<int>, rules: seq<Rule>, now: int) returns (d: Details)
    requires ValidRules(rules)
    ensures d == EffectiveDetails(group, rules, now)
  {
    var farmRules := SelectRulesForScope(rules, Farm, None);
    var groupRules: seq<Rule> := [];
    if group.Some? {
      groupRules := SelectRulesForScope(rules, Group, group);
    }
    var farm := ScopeStateDetails(farmRules, now);
    var farmNext := ScopeNextTransition(farmRules, now);
    var grouped := ScopeStateDetails(groupRules, now);
    var groupNext := ScopeNextTransition(groupRules, now);
    if grouped.Some? {
      return Details(Some(grouped.value.rule.action), Some(Group), grouped, groupNext);
    }
    return Details(
      if farm.Some? then Some(farm.value.rule.action) else None,
      if farm.Some? then Some(Farm) else None,
      farm,
      EarlierOf(farmNext, groupNext));
  }

  // ---- what the winner and the next transition mean ----

  /** The winner holds the greatest last occurrence of its scope, and no earlier row ties it. */
  lemma {:induction false} WinnerIsLatest(rules: seq<Rule>, now: int)
    requires ValidRules(rules)
    ensures match ScopeWinner(rules, now)
            case None => forall r :: r in rules ==> LastOccurrence(r, now).None?
            case Some(w) => w.rule in rules && LastOccurrence(w.rule, now) == Some(w.occurrence)
                            && forall r ::
                                 r in rules && LastOccurrence(r, now).Some? ==>
                                   LastOccurrence(r, now).value <= w.occurrence
  {
    if rules != [] {
      var n := |rules| - 1;
      WinnerIsLatest(rules[..n], now);
      assert forall r :: r in rules <==> r in rules[..n] || r == rules[n];
    }
  }

  lemma {:induction false} NextIsEarliest(rules: seq<Rule>, now: int)
    requires ValidRules(rules)
    ensures match ScopeNext(rules, now)
            case None => forall r :: r in rules ==> !r.enabled
            case Some(t) => (exists r :: r in rules && NextRun(r, now) == Some(t))
                            && forall r :: r in rules && r.enabled ==> t <= NextRun(r, now).value
  {
    if rules != [] {
      var n := |rules| - 1;
      NextIsEarliest(rules[..n], now);
      assert forall r :: r in rules <==> r in rules[..n] || r == rules[n];
      var before := ScopeNext(rules[..n], now);
      if before.Some? {
        var r :| r in rules[..n] && NextRun(r, now) == before;
        assert r in rules;
      }
    }
  }

  /** A rule that can decide for a miner of `group` in a layer. */
  ghost predicate OfLayer(r: Rule, layer: Scope, group: Option<int>) {
    r.scope == layer && (layer == Group ==> group.Some? && r.groupId == group)
  }

  /** The winner of a layer: one of its rules, with the greatest last occurrence of them all. */
  ghost predicate Leads(w: Winner, layer: Scope, group: Option<int>, rules: seq<Rule>, now: int)
    requires ValidRules(rules)
  {
    && w.rule in rules && OfLayer(w.rule, layer, group) && LastOccurrence(w.rule, now) == Some(w.occurrence)
    && forall r :: r in rules && OfLayer(r, layer, group) && LastOccurrence(r, now).Some? ==>
         LastOccurrence(r, now).value <= w.occurrence
  }

  ghost predicate HasOccurred(layer: Scope, group: Option<int>, rules: seq<Rule>, now: int)
    requires ValidRules(rules)
  {
    exists r :: r in rules && OfLayer(r, layer, group) && LastOccurrence(r, now).Some?
  }

  /**
   What the effective schedule says: the action of the rule that leads the reported layer, which is
   GROUP exactly when some rule of the miner's group has occurred, and FARM exactly when none has
   and some farm rule has; nothing otherwise.
   */
  lemma DetailsMean(group: Option<int>, rules: seq<Rule>, now: int)
    requires ValidRules(rules)
    ensures var d := EffectiveDetails(group, rules, now);
            && (d.source == Some(Group) <==> HasOccurred(Group, group, rules, now))
            && (d.source == Some(Farm) <==>
                !HasOccurred(Group, group, rules, now) && HasOccurred(Farm, group, rules, now))
            && (d.desired.Some? <==> d.source.Some?) && (d.winner.Some? <==> d.source.Some?)
            && (d.source.Some? ==>
                  && Leads(d.winner.value, d.source.value, group, rules, now)
                  && d.desired.value == d.winner.value.rule.action)
  {
    var grouped, farm := GroupLayer(rules, group), FarmLayer(rules);
    WinnerIsLatest(grouped, now);
    WinnerIsLatest(farm, now);
    assert forall r :: r in grouped <==> r in rules && OfLayer(r, Group, group);
    assert forall r :: r in farm <==> r in rules && OfLayer(r, Farm, group);
  }

  /** No rule of the list occurs in (now, later]. */
  ghost predicate Quiet(rules: seq<Rule>, now: int, later: int) {
    forall r, t :: r in rules && OccursAt(r.plan, t) ==> t <= now || later < t
  }

  lemma QuietUntilNext(rules: seq<Rule>, now: int, later: int)
    requires EnabledRules(rules) && now <= later
    requires ScopeNext(rules, now).Some? ==> later < ScopeNext(rules, now).value
    ensures Quiet(rules, now, later)
  {
    NextIsEarliest(rules, now);
  }

  lemma QuietRule(r: Rule, now: int, later: int)
    requires r.Valid() && Quiet([r], now, later) && now <= later
    ensures LastOccurrence(r, later) == LastOccurrence(r, now)
    ensures NextRun(r, later) == NextRun(r, now)
  {
    assert r in [r];
    assert IsLastOccurrence(r, later, LastOccurrence(r, now));
  }

  lemma {:induction false} QuietScope(rules: seq<Rule>, now: int, later: int)
    requires ValidRules(rules) && Quiet(rules, now, later) && now <= later
    ensures ScopeWinner(rules, later) == ScopeWinner(rules, now)
    ensures ScopeNext(rules, later) == ScopeNext(rules, now)
  {
    if rules != [] {
      QuietScope(rules[..|rules| - 1], now, later);
      QuietRule(rules[|rules| - 1], now, later);
    }
  }

  /** Nothing about a miner's effective schedule changes before the reported transition. */
  lemma ScheduleStable(group: Option<int>, rules: seq<Rule>, now: int, later: int)
    requires EnabledRules(rules) && now <= later
    requires EffectiveDetails(group, rules, now).next.Some? ==> later < EffectiveDetails(group, rules, now).next.value
    ensures EffectiveDetails(group, rules, later) == EffectiveDetails(group, rules, now)
  {
    var grouped := GroupLayer(rules, group);
    var farm := FarmLayer(rules);
    WinnerIsLatest(grouped, now);
    NextIsEarliest(grouped, now);
    QuietUntilNext(grouped, now, later);
    QuietScope(grouped, now, later);
    if ScopeWinner(grouped, now).None? {
      QuietUntilNext(farm, now, later);
      QuietScope(farm, now, later);
    }
  }

  // ---- exactness of the reported transition ----

  /** The rows whose occurrences the reported transition is taken from. */
  ghost function Deciding(group: Option<int>, rules: seq<Rule>, now: int): seq<Rule>
    requires ValidRules(rules)
  {
    if ScopeWinner(GroupLayer(rules, group), now).Some? then GroupLayer(rules, group)
    else FarmLayer(rules) + GroupLayer(rules, group)
  }

  ghost function WinningOccurrence(group: Option<int>, rules: seq<Rule>, at: int): Option<int>
    requires ValidRules(rules)
  {
    var w := EffectiveDetails(group, rules, at).winner;
    if w.None? then None else Some(w.value.occurrence)
  }

  /** No rule of the list has an eligible occurrence in (now, later]. */
  ghost predicate NothingAdmitted(rules: seq<Rule>, now: int, later: int) {
    forall r, t :: r in rules && Eligible(r, t) ==> t <= now || later < t
  }

  lemma {:induction false} SameWinner(rules: seq<Rule>, now: int, later: int)
    requires ValidRules(rules) && NothingAdmitted(rules, now, later) && now <= later
    ensures ScopeWinner(rules, later) == ScopeWinner(rules, now)
  {
    if rules != [] {
      var n := |rules| - 1;
      SameWinner(rules[..n], now, later);
      assert rules[n] in rules;
      assert IsLastOccurrence(rules[n], later, LastOccurrence(rules[n], now));
    }
  }

  /** A rule of the list that occurs, admitted, at `at` puts the winner there. */
  lemma WinnerAt(rules: seq<Rule>, at: int, r: Rule)
    requires ValidRules(rules) && r in rules && Eligible(r, at)
    ensures ScopeWinner(rules, at).Some? && ScopeWinner(rules, at).value.occurrence == at
  {
    WinnerIsLatest(rules, at);
    assert LastOccurrence(r, at) == Some(at);
  }

  lemma NextAfterNow(group: Option<int>, rules: seq<Rule>, now: int)
    requires EnabledRules(rules)
    ensures var n := EffectiveDetails(group, rules, now).next;
            n.Some? ==> now < n.value
                        && forall r, t ::
                             r in Deciding(group, rules, now) && OccursAt(r.plan, t) && now < t ==> n.value <= t
    ensures EffectiveDetails(group, rules, now).next.None? <==> Deciding(group, rules, now) == []
  {
    var grouped := GroupLayer(rules, group);
    var farm := FarmLayer(rules);
    WinnerIsLatest(grouped, now);
    NextIsEarliest(grouped, now);
    NextIsEarliest(farm, now);
    assert grouped != [] ==> grouped[0] in grouped;
    assert farm != [] ==> farm[0] in farm;
    forall r | r in Deciding(group, rules, now) ensures r in grouped || r in farm {
    }
  }

  /** A deciding rule that occurs, in force, at the reported transition holds the win there. */
  lemma OccurrenceTakesOver(group: Option<int>, rules: seq<Rule>, now: int, r: Rule)
    requires EnabledRules(rules) && EffectiveDetails(group, rules, now).next.Some?
    requires r in Deciding(group, rules, now) && Eligible(r, EffectiveDetails(group, rules, now).next.value)
    ensures var n := EffectiveDetails(group, rules, now).next.value;
            WinningOccurrence(group, rules, n) == Some(n)
  {
    var n := EffectiveDetails(group, rules, now).next.value;
    var grouped := GroupLayer(rules, group);
    if r in grouped {
      WinnerAt(grouped, n, r);
    } else {
      WinnerAt(FarmLayer(rules), n, r);
      NextAfterNow(group, rules, now);
      WinnerIsLatest(grouped, now);
      WinnerIsLatest(grouped, n);
      if ScopeWinner(grouped, n).Some? {
        var w := ScopeWinner(grouped, n).value;
        assert w.rule in Deciding(group, rules, now);
        assert LastOccurrence(w.rule, now).None?;
        assert w.occurrence == n;
      }
    }
  }

  lemma NoOccurrenceNoChange(group: Option<int>, rules: seq<Rule>, now: int)
    requires EnabledRules(rules) && EffectiveDetails(group, rules, now).next.Some?
    requires forall r :: r in Deciding(group, rules, now) ==>
               !Eligible(r, EffectiveDetails(group, rules, now).next.value)
    ensures var n := EffectiveDetails(group, rules, now).next.value;
            WinningOccurrence(group, rules, n) == WinningOccurrence(group, rules, now)
  {
    var n := EffectiveDetails(group, rules, now).next.value;
    var grouped := GroupLayer(rules, group);
    NextAfterNow(group, rules, now);
    assert forall r :: r in grouped ==> r in Deciding(group, rules, now);
    SameWinner(grouped, now, n);
    if ScopeWinner(grouped, now).None? {
      var farm := FarmLayer(rules);
      assert forall r :: r in farm ==> r in Deciding(group, rules, now);
      SameWinner(farm, now, n);
    }
  }

  /**
   The reported transition is a change of the winning occurrence exactly when some deciding
   rule that occurs then is already in force at that instant.
   */
  lemma TransitionChangesIff(group: Option<int>, rules: seq<Rule>, now: int)
    requires EnabledRules(rules)
    requires EffectiveDetails(group, rules, now).next.Some?
    ensures var n := EffectiveDetails(group, rules, now).next.value;
            WinningOccurrence(group, rules, n) != WinningOccurrence(group, rules, now)
            <==> exists r :: r in Deciding(group, rules, now) && Eligible(r, n)
  {
    var n := EffectiveDetails(group, rules, now).next.value;
    if r :| r in Deciding(group, rules, now) && Eligible(r, n) {
      OccurrenceTakesOver(group, rules, now, r);
      WinnerIsLatest(GroupLayer(rules, group), now);
      WinnerIsLatest(FarmLayer(rules), now);
      NextAfterNow(group, rules, now);
    } else {
      NoOccurrenceNoChange(group, rules, now);
    }
  }

  /**
   With every rule already in force, the reported transition is the first instant at which the
   winning occurrence changes: it is constant up to `later` exactly when `later` precedes it.
   */
  lemma TransitionIsFirstChange(group: Option<int>, rules: seq<Rule>, now: int, later: int)
    requires EnabledRules(rules) && now <= later
    requires forall r :: r in rules ==> r.effectiveFrom <= now
    ensures var next := EffectiveDetails(group, rules, now).next;
            (forall t :: now <= t <= later ==>
               WinningOccurrence(group, rules, t) == WinningOccurrence(group, rules, now))
            <==> (next.Some? ==> later < next.value)
  {
    var next := EffectiveDetails(group, rules, now).next;
    NextAfterNow(group, rules, now);
    if next.Some? && next.value <= later {
      TransitionChangesIff(group, rules, now);
      var r := NextHolder(group, rules, now);
    } else {
      forall t | now <= t <= later ensures WinningOccurrence(group, rules, t) == WinningOccurrence(group, rules, now) {
        ScheduleStable(group, rules, now, t);
      }
    }
  }

  lemma NextHolder(group: Option<int>, rules: seq<Rule>, now: int) returns (r: Rule)
    requires EnabledRules(rules)
    requires EffectiveDetails(group, rules, now).next.Some?
    ensures r in Deciding(group, rules, now) && OccursAt(r.plan, EffectiveDetails(group, rules, now).next.value)
  {
    var n := EffectiveDetails(group, rules, now).next;
    var grouped := GroupLayer(rules, group);
    var farm := FarmLayer(rules);
    NextIsEarliest(grouped, now);
    NextIsEarliest(farm, now);
    if n == ScopeNext(grouped, now) {
      r :| r in grouped && NextRun(r, now) == n;
    } else {
      r :| r in farm && NextRun(r, now) == n;
    }
  }

  /**
   A rule that is not yet in force still contributes its next run: the transition reported for
   it is then no change at all.
   */
  lemma ReportedTransitionCanBeEmpty() returns (rules: seq<Rule>, now: int)
    ensures EnabledRules(rules)
    ensures var n := EffectiveDetails(None, rules, now).next;
            n.Some? && WinningOccurrence(None, rules, n.value) == WinningOccurrence(None, rules, now)
  {
    var r := Rule(1, true, Pause, Plan(127, 60), Farm, None, 10 * DAY, None);
    rules, now := [r], DAY;
    assert RulesForScope(rules[..0], Farm, None) == [];
    assert FarmLayer(rules) == [r];
    assert ScopeWinner([r][..0], now).None?;
    var day1 := DAY + 3600;
    OccursWhenSelected(r.plan, 1);
    EveryDay(1);
    NextAfterNow(None, rules, now);
    assert NextRun(r, now).value <= day1;
    assert ScopeNext([r][..0], now).None?;
    TransitionChangesIff(None, rules, now);
  }

  lemma EveryDay(day: int)
    ensures Selected(127, day)
  {
    var b := DayBit(Weekday(day));
    assert b == 1 || b == 2 || b == 4 || b == 8 || b == 16 || b == 32 || b == 64;
  }

  /** Once a GROUP rule has taken over, GROUP stays the deciding layer for good. */
  lemma GroupTakeoverSticks(group: Option<int>, rules: seq<Rule>, now: int, later: int)
    requires EnabledRules(rules) && now <= later
    requires EffectiveDetails(group, rules, now).source == Some(Group)
    ensures EffectiveDetails(group, rules, later).source == Some(Group)
  {
    WinnerIsLatest(GroupLayer(rules, group), now);
    WinnerIsLatest(GroupLayer(rules, group), later);
  }
}
