/**
 Exactly-once materialization of recurring occurrences into maintenance windows, with a
 seven-day catch-up (app/recurring_maintenance/service.py and repository.py).
 */
module Materializer {
  import opened Prelude
  import opened Calendar
  import opened Sorting
  import opened RecurringTimes

  const CATCHUP: int := 7 * DAY

  /** The primary key (rule_id, occurrence_key). */
  datatype Key = Key(ruleId: int, occurrence: int)

  datatype Occurrence = Occurrence(windowId: nat, startsAt: int, endsAt: int, materializedAt: int)

  /** A maintenance_windows row; its id is its position. */
  datatype Window = Window(target: Target, members: set<int>, startsAt: int, endsAt: int)

  /** The instant this version of the rule took effect: updated_at, or created_at without one. */
  function EffectiveSince(rule: Rule): int {
    if rule.updatedAt.Some? && rule.updatedAt.value != 0 then rule.updatedAt.value else rule.createdAt
  }

  function Since(rule: Rule, now: int): int {
    if EffectiveSince(rule) > now - CATCHUP then EffectiveSince(rule) else now - CATCHUP
  }

  /** An occurrence the pass at `now` has to materialize. */
  ghost predicate Due(rule: Rule, now: int, s: int) {
    OccursAt(rule.plan, s) && Since(rule, now) <= s <= now
  }

  method DueOccurrences(rule: Rule, now: int) returns (starts: seq<int>)
    requires rule.Valid()
    ensures Ascending(starts) && forall s :: s in starts <==> Due(rule, now, s)
  {
    var candidates := OccurrencesBetween(rule, Since(rule, now), now + 1);
    starts := [];
    for i := 0 to |candidates|
      invariant Ascending(starts) && forall s :: s in starts <==> s in candidates[..i] && s <= now
    {
      assert candidates[..i + 1] == candidates[..i] + [candidates[i]];
      if candidates[i] <= now {
        assert forall k :: 0 <= k < |starts| ==> starts[k] in starts;
        starts := starts + [candidates[i]];
      }
    }
    assert candidates[..|candidates|] == candidates;
  }

  /** What the tables outside this component hold during one pass. */
  datatype World = World(miners: set<int>, groups: set<int>, groupOf: map<int, int>)

  predicate TargetExists(w: World, t: Target) {
    match t
    case FARM => true
    case MINER(m) => m in w.miners
    case GROUP(g) => g in w.groups
  }

  function MembersOf(w: World, t: Target): set<int> {
    if t.GROUP? then set m | m in w.groupOf && w.groupOf[m] == t.groupId else {}
  }

  /** The window made for one occurrence of a rule, with the group's members at that moment. */
  function WindowOf(target: Target, w: World, rule: Rule, start: int): Window {
    Window(target, MembersOf(w, target), start, start + rule.Duration())
  }

  function OccurrenceOf(rule: Rule, windowId: nat, start: int, now: int): Occurrence {
    Occurrence(windowId, start, start + rule.Duration(), now)
  }

  /** The rules a pass walks: at most one row per id. */
  ghost predicate ValidRules(rules: seq<Rule>) {
    && (forall r :: r in rules ==> r.Valid())
    && (forall a, b :: a in rules && b in rules && a.id == b.id ==> a == b)
  }

  predicate Walked(r: Rule) {
    r.enabled && !r.deleted
  }

  /** One pass at time `now` over the rules and the world it finds. */
  datatype Pass = Pass(now: int, rules: seq<Rule>, world: World)

  /** The keys one rule's due occurrences have. */
  ghost predicate EnsuredByRule(r: Rule, w: World, now: int, key: Key) {
    TargetExists(w, r.target) && key.ruleId == r.id && exists s :: Due(r, now, s) && key.occurrence == KeyOf(s)
  }

  /** The keys a pass makes sure of. */
  ghost predicate Ensured(p: Pass, key: Key) {
    exists r :: r in p.rules && Walked(r) && EnsuredByRule(r, p.world, p.now, key)
  }

  /** Every occurrence row has its own window, with the occurrence's own times. */
  ghost predicate OneWindowEach(occurrences: map<Key, Occurrence>, windows: seq<Window>) {
    && (forall k :: k in occurrences ==>
          && occurrences[k].windowId < |windows|
          && KeyOf(occurrences[k].startsAt) == k.occurrence
          && windows[occurrences[k].windowId].startsAt == occurrences[k].startsAt
          && windows[occurrences[k].windowId].endsAt == occurrences[k].endsAt)
    && (forall k, l :: k in occurrences && l in occurrences && k != l ==>
        occurrences[k].windowId != occurrences[l].windowId)
  }

  /** Rows are only ever added. */
  ghost predicate Extends(before: map<Key, Occurrence>, after: map<Key, Occurrence>) {
    forall k :: k in before ==> k in after && after[k] == before[k]
  }

  /** Some new occurrence owns window `w`. */
  ghost predicate Owned(before: map<Key, Occurrence>, after: map<Key, Occurrence>, w: nat) {
    exists k :: k in after && k !in before && after[k].windowId == w
  }

  /**
   Occurrences and windows were only added, `created` of each, and every added window belongs to
   an added occurrence (to exactly one, as no two occurrences share a window).
   */
  ghost predicate Grew(
    before: map<Key, Occurrence>, oldWindows: seq<Window>,
    after: map<Key, Occurrence>, windows: seq<Window>, created: nat)
  {
    && Extends(before, after) && oldWindows <= windows
    && |after| == |before| + created && |windows| == |oldWindows| + created
    && (forall k :: k in after && k !in before ==> |oldWindows| <= after[k].windowId)
    && (forall w :: |oldWindows| <= w < |windows| ==> Owned(before, after, w))
  }

  lemma GrewByOne(o: map<Key, Occurrence>, ws: seq<Window>, key: Key, item: Occurrence, w: Window)
    requires key !in o && item.windowId == |ws|
    ensures Grew(o, ws, o[key := item], ws + [w], 1)
  {
    assert Owned(o, o[key := item], |ws|) by {
      assert key in o[key := item];
    }
  }

  lemma GrewTwice(
    o1: map<Key, Occurrence>, w1: seq<Window>, o2: map<Key, Occurrence>, w2: seq<Window>,
    o3: map<Key, Occurrence>, w3: seq<Window>, c: nat, d: nat)
    requires Grew(o1, w1, o2, w2, c) && Grew(o2, w2, o3, w3, d)
    ensures Grew(o1, w1, o3, w3, c + d)
  {
    forall w | |w1| <= w < |w3| ensures Owned(o1, o3, w) {
      if w < |w2| {
        assert Owned(o1, o2, w);
        var k :| k in o2 && k !in o1 && o2[k].windowId == w;
        assert k in o3 && o3[k] == o2[k];
      } else {
        assert Owned(o2, o3, w);
        var k :| k in o3 && k !in o2 && o3[k].windowId == w;
        assert k !in o1;
      }
    }
  }

  // ---- what an added occurrence is for ----

  /** A rule as one pass finds it: the world and the time of that pass. */
  datatype Origin = Origin(rule: Rule, world: World, now: int)

  /** The row and its window are those of a due occurrence of the origin's rule. */
  ghost predicate MadeFor(g: Origin, key: Key, o: Occurrence, windows: seq<Window>) {
    && key == Key(g.rule.id, KeyOf(o.startsAt)) && Due(g.rule, g.now, o.startsAt)
    && o == OccurrenceOf(g.rule, o.windowId, o.startsAt, g.now)
    && o.windowId < |windows| && windows[o.windowId] == WindowOf(g.rule.target, g.world, g.rule, o.startsAt)
  }

  ghost predicate MadeForSome(from: iset<Origin>, key: Key, o: Occurrence, windows: seq<Window>) {
    exists g :: g in from && MadeFor(g, key, o, windows)
  }

  /** Every added occurrence was made for one of the origins. */
  ghost predicate AddedFrom(
    before: map<Key, Occurrence>, after: map<Key, Occurrence>, windows: seq<Window>, from: iset<Origin>)
  {
    forall k :: k in after && k !in before ==> MadeForSome(from, k, after[k], windows)
  }

  lemma AddedTwice(
    o1: map<Key, Occurrence>, o2: map<Key, Occurrence>, w2: seq<Window>, o3: map<Key, Occurrence>, w3: seq<Window>,
    from12: iset<Origin>, from23: iset<Origin>, from: iset<Origin>)
    requires AddedFrom(o1, o2, w2, from12) && AddedFrom(o2, o3, w3, from23) && Extends(o2, o3) && w2 <= w3
    requires from12 <= from && from23 <= from
    ensures AddedFrom(o1, o3, w3, from)
  {
    forall k | k in o3 && k !in o1 ensures MadeForSome(from, k, o3[k], w3) {
      if k in o2 {
        assert MadeForSome(from12, k, o2[k], w2);
        var g :| g in from12 && MadeFor(g, k, o2[k], w2);
        assert g in from && MadeFor(g, k, o3[k], w3);
      } else {
        assert MadeForSome(from23, k, o3[k], w3);
        var g :| g in from23 && MadeFor(g, k, o3[k], w3);
        assert g in from;
      }
    }
  }

  /** The rules a pass may materialize, among the first `n` it walks. */
  ghost function OriginsOf(p: Pass, n: nat): iset<Origin>
    requires n <= |p.rules|
  {
    iset r | r in p.rules[..n] && Walked(r) && TargetExists(p.world, r.target) :: Origin(r, p.world, p.now)
  }

  /** The origins of the first `n` passes. */
  ghost function OriginsOfRun(passes: seq<Pass>, n: nat): iset<Origin>
    requires n <= |passes|
  {
    if n == 0 then iset{} else OriginsOfRun(passes, n - 1) + OriginsOf(passes[n - 1], |passes[n - 1].rules|)
  }

  lemma OneMoreRule(p: Pass, n: nat)
    requires n < |p.rules|
    ensures OriginsOf(p, n) <= OriginsOf(p, n + 1)
    ensures Walked(p.rules[n]) && TargetExists(p.world, p.rules[n].target) ==>
              Origin(p.rules[n], p.world, p.now) in OriginsOf(p, n + 1)
  {
    assert p.rules[..n + 1] == p.rules[..n] + [p.rules[n]];
  }

  /** When an occurrence is due, in the rule's columns: a stored updated_at of 0 counts as none. */
  lemma DueInColumns(rule: Rule, now: int, s: int)
    ensures Due(rule, now, s) <==>
            (&& OccursAt(rule.plan, s) && s <= now && now - s <= 7 * 86400
             && (if rule.updatedAt.None? || rule.updatedAt == Some(0) then rule.createdAt <= s
                 else rule.updatedAt.value <= s))
  {
  }

  /** What is made for an occurrence: its own minutes, the rule's target, and the group's members then. */
  lemma MadeInColumns(g: Origin, key: Key, o: Occurrence, windows: seq<Window>)
    requires MadeFor(g, key, o, windows)
    ensures key.ruleId == g.rule.id && OccursAt(g.rule.plan, o.startsAt)
    ensures o.endsAt == o.startsAt + g.rule.durationMinutes * 60 && o.materializedAt == g.now
    ensures o.windowId < |windows|
    ensures var w := windows[o.windowId];
            && w.startsAt == o.startsAt && w.endsAt == o.endsAt && w.target == g.rule.target
            && (forall m :: m in w.members <==>
                  g.rule.target.GROUP? && m in g.world.groupOf && g.world.groupOf[m] == g.rule.target.groupId)
  {
  }

  /** An origin of a run is a walked rule of some pass, with its target in place there. */
  lemma {:induction false} OriginsAreWalked(passes: seq<Pass>, n: nat, g: Origin)
    requires n <= |passes| && g in OriginsOfRun(passes, n)
    ensures exists p :: p in passes && p.now == g.now && p.world == g.world && g.rule in p.rules
    ensures g.rule.enabled && !g.rule.deleted
    ensures match g.rule.target
            case FARM => true
            case MINER(m) => m in g.world.miners
            case GROUP(id) => id in g.world.groups
  {
    if g in OriginsOf(passes[n - 1], |passes[n - 1].rules|) {
      assert passes[n - 1] in passes;
    } else {
      OriginsAreWalked(passes, n - 1, g);
    }
  }

  /** The one origin of a rule in a pass, if its target exists. */
  ghost function OriginOf(r: Rule, w: World, now: int): iset<Origin> {
    if TargetExists(w, r.target) then iset{Origin(r, w, now)} else iset{}
  }

  lemma AddedFromMore(
    before: map<Key, Occurrence>, after: map<Key, Occurrence>, windows: seq<Window>,
    from: iset<Origin>, more: iset<Origin>)
    requires AddedFrom(before, after, windows, from) && from <= more
    ensures AddedFrom(before, after, windows, more)
  {
    forall k | k in after && k !in before ensures MadeForSome(more, k, after[k], windows) {
      assert MadeForSome(from, k, after[k], windows);
      var g :| g in from && MadeFor(g, k, after[k], windows);
      assert g in more;
    }
  }

  /** The key of every start of the list is in the table. */
  ghost predicate KeysPresent(r: Rule, starts: seq<int>, occurrences: map<Key, Occurrence>) {
    forall j :: 0 <= j < |starts| ==> Key(r.id, KeyOf(starts[j])) in occurrences
  }

  lemma OneMoreKey(
    r: Rule, starts: seq<int>, i: nat, before: map<Key, Occurrence>, after: map<Key, Occurrence>)
    requires i < |starts| && KeysPresent(r, starts[..i], before) && Extends(before, after)
    requires Key(r.id, KeyOf(starts[i])) in after
    ensures KeysPresent(r, starts[..i + 1], after)
  {
    var upto := starts[..i + 1];
    forall j | 0 <= j < i + 1 ensures Key(r.id, KeyOf(upto[j])) in after {
      if j < i {
        assert starts[..i][j] == upto[j];
        assert Key(r.id, KeyOf(starts[..i][j])) in before;
      }
    }
  }

  /** Everything the first `n` passes ensure is in the table. */
  ghost predicate AllPresent(passes: seq<Pass>, n: nat, occurrences: map<Key, Occurrence>)
    requires n <= |passes|
  {
    forall k :: EnsuredBySome(passes[..n], k) ==> k in occurrences
  }

  lemma OneMorePass(passes: seq<Pass>, n: nat, before: map<Key, Occurrence>, after: map<Key, Occurrence>)
    requires n < |passes| && AllPresent(passes, n, before) && Extends(before, after)
    requires forall k :: Ensured(passes[n], k) ==> k in after
    ensures AllPresent(passes, n + 1, after)
  {
    forall k | EnsuredBySome(passes[..n + 1], k) ensures k in after {
      var upto := passes[..n + 1];
      var j :| 0 <= j < n + 1 && Ensured(upto[j], k);
      if j < n {
        assert passes[..n][j] == upto[j];
        assert EnsuredBySome(passes[..n], k);
      }
    }
  }

  lemma DueIsPresent(r: Rule, w: World, now: int, starts: seq<int>, occurrences: map<Key, Occurrence>, key: Key)
    requires forall s :: s in starts <==> Due(r, now, s)
    requires TargetExists(w, r.target) ==> KeysPresent(r, starts, occurrences)
    requires EnsuredByRule(r, w, now, key)
    ensures key in occurrences
  {
    var s :| Due(r, now, s) && key.occurrence == KeyOf(s);
    var j :| 0 <= j < |starts| && starts[j] == s;
    assert key == Key(r.id, KeyOf(starts[j]));
  }

  lemma MadeByRuleIsEnsured(r: Rule, w: World, now: int, key: Key, o: Occurrence, windows: seq<Window>)
    requires MadeForSome(OriginOf(r, w, now), key, o, windows)
    ensures EnsuredByRule(r, w, now, key)
  {
    var g :| g in OriginOf(r, w, now) && MadeFor(g, key, o, windows);
    assert Due(r, now, o.startsAt);
  }

  lemma MadeByPassIsEnsured(p: Pass, key: Key, o: Occurrence, windows: seq<Window>)
    requires MadeForSome(OriginsOf(p, |p.rules|), key, o, windows)
    ensures Ensured(p, key)
  {
    var g :| g in OriginsOf(p, |p.rules|) && MadeFor(g, key, o, windows);
    assert p.rules[..|p.rules|] == p.rules;
    assert Due(g.rule, p.now, o.startsAt);
    assert EnsuredByRule(g.rule, p.world, p.now, key);
  }

  lemma {:induction false} MadeByRunIsEnsured(passes: seq<Pass>, n: nat, key: Key, o: Occurrence, windows: seq<Window>)
    requires n <= |passes| && MadeForSome(OriginsOfRun(passes, n), key, o, windows)
    ensures EnsuredBySome(passes, key)
  {
    var g :| g in OriginsOfRun(passes, n) && MadeFor(g, key, o, windows);
    if g in OriginsOf(passes[n - 1], |passes[n - 1].rules|) {
      MadeByPassIsEnsured(passes[n - 1], key, o, windows);
    } else {
      MadeByRunIsEnsured(passes, n - 1, key, o, windows);
    }
  }

  /** Where a run stands after `n` passes. */
  ghost predicate RunSoFar(
    passes: seq<Pass>, n: nat, o0: map<Key, Occurrence>, w0: seq<Window>,
    o: map<Key, Occurrence>, ws: seq<Window>, created: nat)
    requires n <= |passes|
  {
    Grew(o0, w0, o, ws, created) && AddedFrom(o0, o, ws, OriginsOfRun(passes, n)) && AllPresent(passes, n, o)
  }

  lemma RunStep(
    passes: seq<Pass>, n: nat, o0: map<Key, Occurrence>, w0: seq<Window>, o1: map<Key, Occurrence>, w1: seq<Window>,
    o2: map<Key, Occurrence>, w2: seq<Window>, c: nat, d: nat)
    requires n < |passes| && RunSoFar(passes, n, o0, w0, o1, w1, c) && Grew(o1, w1, o2, w2, d)
    requires AddedFrom(o1, o2, w2, OriginsOf(passes[n], |passes[n].rules|))
    requires forall k :: Ensured(passes[n], k) ==> k in o2
    ensures RunSoFar(passes, n + 1, o0, w0, o2, w2, c + d)
  {
    GrewTwice(o0, w0, o1, w1, o2, w2, c, d);
    AddedTwice(o0, o1, w1, o2, w2,
               OriginsOfRun(passes, n), OriginsOf(passes[n], |passes[n].rules|), OriginsOfRun(passes, n + 1));
    OneMorePass(passes, n, o1, o2);
  }

  lemma RunIsExact(
    passes: seq<Pass>, o0: map<Key, Occurrence>, w0: seq<Window>,
    o: map<Key, Occurrence>, ws: seq<Window>, created: nat)
    requires RunSoFar(passes, |passes|, o0, w0, o, ws, created)
    ensures forall k :: k in o <==> k in o0 || EnsuredBySome(passes, k)
  {
    forall k | k in o && k !in o0 ensures EnsuredBySome(passes, k) {
      MadeByRunIsEnsured(passes, |passes|, k, o[k], ws);
    }
    assert passes[..|passes|] == passes;
  }

  class Tables {
    var occurrences: map<Key, Occurrence>
    var windows: seq<Window>

    ghost predicate Valid()
      reads this
    {
      OneWindowEach(occurrences, windows)
    }

    constructor ()
      ensures Valid() && occurrences == map[] && windows == []
    {
      occurrences, windows := map[], [];
    }

    /** materialize_occurrence: one transaction, absent-or-created; `failed` where it raises. */
    method MaterializeOccurrence(rule: Rule, current: Option<Rule>, w: World, start: int, now: int)
      returns (created: Option<nat>, failed: bool)
      requires Valid()
      requires current.Some? ==> Walked(current.value) && current.value.id == rule.id
      modifies this
      ensures Valid() && Extends(old(occurrences), occurrences)
      ensures var key := Key(rule.id, KeyOf(start));
              && (failed <==> key !in old(occurrences) && current.Some? && !TargetExists(w, current.value.target))
              && (created.Some? <==> key !in old(occurrences) && current.Some? && TargetExists(w, current.value.target))
              && (created.None? ==> occurrences == old(occurrences) && windows == old(windows))
              && Grew(old(occurrences), old(windows), occurrences, windows, if created.Some? then 1 else 0)
              && (created.Some? ==>
                    && created.value == |old(windows)|
                    && occurrences == old(occurrences)[key := OccurrenceOf(rule, created.value, start, now)]
                    && windows == old(windows) + [WindowOf(current.value.target, w, rule, start)])
    {
      var key := Key(rule.id, KeyOf(start));
      if key in occurrences {
        return None, false;
      }
      if current.None? {
        return None, false;
      }
      if !TargetExists(w, current.value.target) {
        return None, true;
      }
      var id := |windows|;
      var target := current.value.target;
      GrewByOne(occurrences, windows, key, OccurrenceOf(rule, id, start, now), WindowOf(target, w, rule, start));
      windows := windows + [Window(target, MembersOf(w, target), start, start + rule.Duration())];
      occurrences := occurrences[key := Occurrence(id, start, start + rule.Duration(), now)];
      return Some(id), false;
    }

    /** One due start of a walked rule. */
    method MaterializeOne(r: Rule, w: World, start: int, now: int) returns (created: nat, failed: bool)
      requires Valid() && Walked(r) && Due(r, now, start)
      modifies this
      ensures Valid() && Grew(old(occurrences), old(windows), occurrences, windows, created)
      ensures AddedFrom(old(occurrences), occurrences, windows, OriginOf(r, w, now))
      ensures TargetExists(w, r.target) ==> Key(r.id, KeyOf(start)) in occurrences && !failed
    {
      var item;
      item, failed := MaterializeOccurrence(r, Some(r), w, start, now);
      created := if item.Some? then 1 else 0;
      if item.Some? {
        var key := Key(r.id, KeyOf(start));
        assert MadeFor(Origin(r, w, now), key, occurrences[key], windows);
      }
    }

    /** The inner loop for one rule, which no failure stops. */
    method MaterializeStarts(r: Rule, w: World, now: int, starts: seq<int>) returns (created: nat, errors: nat)
      requires Valid() && Walked(r) && forall s :: s in starts ==> Due(r, now, s)
      modifies this
      ensures Valid() && Grew(old(occurrences), old(windows), occurrences, windows, created)
      ensures AddedFrom(old(occurrences), occurrences, windows, OriginOf(r, w, now))
      ensures TargetExists(w, r.target) ==> errors == 0 && KeysPresent(r, starts, occurrences)
    {
      created, errors := 0, 0;
      for i := 0 to |starts|
        invariant Valid() && Grew(old(occurrences), old(windows), occurrences, windows, created)
        invariant AddedFrom(old(occurrences), occurrences, windows, OriginOf(r, w, now))
        invariant TargetExists(w, r.target) ==> errors == 0 && KeysPresent(r, starts[..i], occurrences)
      {
        ghost var o, ws := occurrences, windows;
        var c, failed := MaterializeOne(r, w, starts[i], now);
        GrewTwice(old(occurrences), old(windows), o, ws, occurrences, windows, created, c);
        AddedTwice(old(occurrences), o, ws, occurrences, windows,
                   OriginOf(r, w, now), OriginOf(r, w, now), OriginOf(r, w, now));
        if TargetExists(w, r.target) {
          OneMoreKey(r, starts, i, o, occurrences);
        }
        created := created + c;
        if failed {
          errors := errors + 1;
        }
      }
      assert starts[..|starts|] == starts;
    }

    method MaterializeRule(r: Rule, w: World, now: int) returns (created: nat, errors: nat)
      requires Valid() && r.Valid() && Walked(r)
      modifies this
      ensures Valid() && Grew(old(occurrences), old(windows), occurrences, windows, created)
      ensures AddedFrom(old(occurrences), occurrences, windows, OriginOf(r, w, now))
      ensures forall k :: k in occurrences <==> k in old(occurrences) || EnsuredByRule(r, w, now, k)
      ensures TargetExists(w, r.target) ==> errors == 0
    {
      var starts := DueOccurrences(r, now);
      created, errors := MaterializeStarts(r, w, now, starts);
      forall k | EnsuredByRule(r, w, now, k) ensures k in occurrences {
        DueIsPresent(r, w, now, starts, occurrences, k);
      }
      forall k | k in occurrences && k !in old(occurrences) ensures EnsuredByRule(r, w, now, k) {
        MadeByRuleIsEnsured(r, w, now, k, occurrences[k], windows);
      }
    }

    /** materialize_due_occurrences */
    method MaterializeDue(p: Pass) returns (created: nat, errors: nat)
      requires Valid() && ValidRules(p.rules)
      modifies this
      ensures Valid() && Grew(old(occurrences), old(windows), occurrences, windows, created)
      ensures AddedFrom(old(occurrences), occurrences, windows, OriginsOf(p, |p.rules|))
      ensures forall k :: k in occurrences <==> k in old(occurrences) || Ensured(p, k)
      ensures (forall r :: r in p.rules && Walked(r) ==> TargetExists(p.world, r.target)) ==> errors == 0
    {
      created, errors := 0, 0;
      for i := 0 to |p.rules|
        invariant Valid() && Grew(old(occurrences), old(windows), occurrences, windows, created)
        invariant AddedFrom(old(occurrences), occurrences, windows, OriginsOf(p, i))
        invariant forall k :: Ensured(Pass(p.now, p.rules[..i], p.world), k) ==> k in occurrences
        invariant (forall r :: r in p.rules && Walked(r) ==> TargetExists(p.world, r.target)) ==> errors == 0
      {
        EnsuredStep(p, i);
        var r := p.rules[i];
        if Walked(r) {
          OneMoreRule(p, i);
          ghost var o, ws := occurrences, windows;
          var c, e := MaterializeRule(r, p.world, p.now);
          GrewTwice(old(occurrences), old(windows), o, ws, occurrences, windows, created, c);
          AddedTwice(old(occurrences), o, ws, occurrences, windows,
                     OriginsOf(p, i), OriginOf(r, p.world, p.now), OriginsOf(p, i + 1));
          created, errors := created + c, errors + e;
        } else {
          OneMoreRule(p, i);
          AddedFromMore(old(occurrences), occurrences, windows, OriginsOf(p, i), OriginsOf(p, i + 1));
        }
      }
      assert Pass(p.now, p.rules[..|p.rules|], p.world) == p by {
        assert p.rules[..|p.rules|] == p.rules;
      }
      forall k | k in occurrences && k !in old(occurrences) ensures Ensured(p, k) {
        MadeByPassIsEnsured(p, k, occurrences[k], windows);
      }
    }

    /** Any number of passes, each over the rules and the world of its own moment. */
    method RunPasses(passes: seq<Pass>) returns (created: nat)
      requires Valid() && forall p :: p in passes ==> ValidRules(p.rules)
      modifies this
      ensures Valid() && Grew(old(occurrences), old(windows), occurrences, windows, created)
      ensures AddedFrom(old(occurrences), occurrences, windows, OriginsOfRun(passes, |passes|))
      ensures forall k :: k in occurrences <==> k in old(occurrences) || EnsuredBySome(passes, k)
    {
      created := 0;
      ghost var o0, w0 := occurrences, windows;
      for i := 0 to |passes|
        invariant Valid() && RunSoFar(passes, i, o0, w0, occurrences, windows, created)
      {
        ghost var o, ws := occurrences, windows;
        var c, errors := MaterializeDue(passes[i]);
        RunStep(passes, i, o0, w0, o, ws, occurrences, windows, created, c);
        created := created + c;
      }
      RunIsExact(passes, o0, w0, occurrences, windows, created);
    }
  }

  /** The keys some pass makes sure of. */
  ghost predicate EnsuredBySome(passes: seq<Pass>, key: Key) {
    exists i :: 0 <= i < |passes| && Ensured(passes[i], key)
  }

  lemma EnsuredStep(p: Pass, i: nat)
    requires i < |p.rules|
    ensures forall k :: Ensured(Pass(p.now, p.rules[..i + 1], p.world), k) <==>
              || Ensured(Pass(p.now, p.rules[..i], p.world), k)
              || (Walked(p.rules[i]) && EnsuredByRule(p.rules[i], p.world, p.now, k))
  {
    assert p.rules[..i + 1] == p.rules[..i] + [p.rules[i]];
  }

  // ---- catch-up over whole runs ----

  /** Passes at increasing times, never more than the catch-up window apart. */
  ghost predicate Regular(passes: seq<Pass>) {
    forall i :: 0 < i < |passes| ==> passes[i - 1].now <= passes[i].now <= passes[i - 1].now + CATCHUP
  }

  /** The rule is in every pass, unchanged and walked, with its target in place. */
  ghost predicate Unchanged(passes: seq<Pass>, r: Rule) {
    forall i :: 0 <= i < |passes| ==>
      ValidRules(passes[i].rules) && r in passes[i].rules && Walked(r) && TargetExists(passes[i].world, r.target)
  }

  /** A rule's keys name its occurrences: it ensures the key of one exactly when that one is due. */
  lemma EnsuredByRuleIffDue(r: Rule, w: World, now: int, s: int)
    requires r.Valid() && TargetExists(w, r.target) && OccursAt(r.plan, s)
    ensures EnsuredByRule(r, w, now, Key(r.id, KeyOf(s))) <==> Due(r, now, s)
  {
    if u :| Due(r, now, u) && KeyOf(s) == KeyOf(u) {
      OccursOnItsDay(r.plan, u);
      KeyIsInjective(r, s, u);
    }
  }

  lemma EnsuredForRule(p: Pass, r: Rule, s: int)
    requires ValidRules(p.rules) && r in p.rules && Walked(r) && TargetExists(p.world, r.target)
    requires OccursAt(r.plan, s)
    ensures Ensured(p, Key(r.id, KeyOf(s))) <==> Due(r, p.now, s)
  {
    EnsuredByRuleIffDue(r, p.world, p.now, s);
    var key := Key(r.id, KeyOf(s));
    if x :| x in p.rules && Walked(x) && EnsuredByRule(x, p.world, p.now, key) {
      assert x.id == r.id;
    }
  }

  /**
   What a pass ensures, in columns: an occurrence of a rule it finds enabled and not deleted, whose
   target exists, that lies in the last seven days, not in the future, and not before the rule's
   last edit or, without one, its creation.
   */
  lemma EnsuredInColumns(p: Pass, r: Rule, s: int)
    requires ValidRules(p.rules) && r in p.rules && OccursAt(r.plan, s)
    ensures Ensured(p, Key(r.id, KeyOf(s))) <==>
            (&& r.enabled && !r.deleted
             && (match r.target
                 case FARM => true
                 case MINER(m) => m in p.world.miners
                 case GROUP(g) => g in p.world.groups)
             && p.now - 7 * 86400 <= s <= p.now
             && (if r.updatedAt.None? || r.updatedAt == Some(0) then r.createdAt <= s else r.updatedAt.value <= s))
  {
    var key := Key(r.id, KeyOf(s));
    DueInColumns(r, p.now, s);
    if Walked(r) && TargetExists(p.world, r.target) {
      EnsuredForRule(p, r, s);
    }
  }

  lemma {:induction false} SomePassIsInTime(passes: seq<Pass>, r: Rule, s: int)
    requires passes != [] && Regular(passes)
    requires Since(r, passes[0].now) <= s <= passes[|passes| - 1].now
    ensures exists i :: 0 <= i < |passes| && Since(r, passes[i].now) <= s <= passes[i].now
  {
    var n := |passes| - 1;
    if n > 0 && s <= passes[n - 1].now {
      SomePassIsInTime(passes[..n], r, s);
      var i :| 0 <= i < n && Since(r, passes[..n][i].now) <= s <= passes[..n][i].now;
      assert passes[i] == passes[..n][i];
    } else {
      assert Since(r, passes[n].now) <= s;
    }
  }

  lemma {:induction false} TimesAscend(passes: seq<Pass>, i: nat, j: nat)
    requires Regular(passes) && i <= j < |passes|
    ensures passes[i].now <= passes[j].now
  {
    if i < j {
      TimesAscend(passes, i, j - 1);
    }
  }

  /**
   Catch-up completeness: passes at most seven days apart ensure exactly the occurrences of an
   unchanged rule from max(effective time, first pass - 7 days) to the last pass.
   */
  lemma CatchUpIsComplete(passes: seq<Pass>, r: Rule, s: int)
    requires passes != [] && Regular(passes) && Unchanged(passes, r) && OccursAt(r.plan, s)
    ensures EnsuredBySome(passes, Key(r.id, KeyOf(s)))
            <==> Since(r, passes[0].now) <= s <= passes[|passes| - 1].now
  {
    forall i | 0 <= i < |passes| ensures Ensured(passes[i], Key(r.id, KeyOf(s))) <==> Due(r, passes[i].now, s) {
      EnsuredForRule(passes[i], r, s);
    }
    if i :| 0 <= i < |passes| && Ensured(passes[i], Key(r.id, KeyOf(s))) {
      TimesAscend(passes, 0, i);
      TimesAscend(passes, i, |passes| - 1);
    }
    if Since(r, passes[0].now) <= s <= passes[|passes| - 1].now {
      SomePassIsInTime(passes, r, s);
    }
  }

  /** Passes at times that never go back, however far apart. */
  ghost predicate Forward(passes: seq<Pass>) {
    forall i, j :: 0 <= i <= j < |passes| ==> passes[i].now <= passes[j].now
  }

  lemma InOrder(passes: seq<Pass>, i: nat, j: nat)
    requires Forward(passes) && i <= j < |passes|
    ensures passes[i].now <= passes[j].now
  {
  }

  /** Only passes after the gap can find the occurrence due, and then the first of them does. */
  lemma DueAfterGap(passes: seq<Pass>, r: Rule, s: int, i: nat, j: nat)
    requires Forward(passes) && i + 1 < |passes| && j < |passes| && passes[i].now < s
    ensures Due(r, passes[j].now, s) ==> passes[i + 1].now - CATCHUP <= s
  {
    if j <= i {
      InOrder(passes, j, i);
    } else {
      InOrder(passes, i + 1, j);
    }
  }

  /**
   An occurrence between two consecutive passes is ensured by the run exactly when the later of the
   two still finds it within the catch-up window: what a longer gap loses no later pass recovers.
   */
  lemma LongGapLosesOccurrences(passes: seq<Pass>, r: Rule, s: int, i: nat)
    requires Forward(passes) && Unchanged(passes, r) && OccursAt(r.plan, s) && EffectiveSince(r) <= s
    requires i + 1 < |passes| && passes[i].now < s <= passes[i + 1].now
    ensures EnsuredBySome(passes, Key(r.id, KeyOf(s))) <==> passes[i + 1].now - CATCHUP <= s
  {
    forall j | 0 <= j < |passes| ensures Ensured(passes[j], Key(r.id, KeyOf(s))) <==> Due(r, passes[j].now, s) {
      EnsuredForRule(passes[j], r, s);
    }
    forall j: nat | j < |passes| ensures Due(r, passes[j].now, s) ==> passes[i + 1].now - CATCHUP <= s {
      DueAfterGap(passes, r, s, i, j);
    }
    assert Due(r, passes[i + 1].now, s) ==> Ensured(passes[i + 1], Key(r.id, KeyOf(s)));
  }
}
