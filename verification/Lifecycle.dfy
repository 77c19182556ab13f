/**
 Exactly-once lifecycle events of materialized occurrences while operators end or extend their
 windows (app/recurring_maintenance/repository.py and lifecycle.py, app/maintenance_windows).
 */
module Lifecycle {
  import opened Prelude

  /**
   A row of the lifecycle query: the occurrence's own times, its window's end as extended and its
   ended_at, and the three event columns.
   */
  datatype Row = Row(
    startsAt: int, endsAt: int, windowEndsAt: int, endedAt: Option<int>,
    startedEvent: Option<int>, completedEvent: Option<int>, cancelledEvent: Option<int>)

  datatype Action = START | COMPLETE | CANCEL

  datatype State = CANCELLED | COMPLETED | ACTIVE | SCHEDULED

  /** lifecycle_state */
  function LifecycleState(r: Row, now: int): State {
    if r.endedAt.Some? && r.endedAt.value < r.endsAt then CANCELLED
    else if r.endsAt <= now then COMPLETED
    else if r.startsAt <= now then ACTIVE
    else SCHEDULED
  }

  predicate CancelledEarly(r: Row) {
    r.endedAt.Some? && r.endedAt.value < r.endsAt
  }

  /** The event one scan claims for a row. */
  function Claim(r: Row, now: int): Option<Action> {
    if CancelledEarly(r) then if r.cancelledEvent.None? then Some(CANCEL) else None
    else if r.endsAt <= now then if r.completedEvent.None? then Some(COMPLETE) else None
    else if r.endedAt.None? && r.startsAt <= now && r.startedEvent.None? then Some(START)
    else None
  }

  /** The row after the claim: a terminal event also fills an empty started_event_at. */
  function Claimed(r: Row, now: int): Row {
    match Claim(r, now)
    case None => r
    case Some(START) => r.(startedEvent := Some(now))
    case Some(COMPLETE) => r.(startedEvent := Some(r.startedEvent.GetOr(r.startsAt)), completedEvent := Some(now))
    case Some(CANCEL) => r.(startedEvent := Some(r.startedEvent.GetOr(r.startsAt)), cancelledEvent := Some(now))
  }

  datatype Event = Event(row: nat, action: Action)

  /** The rows in ORDER BY starts_at, rule_id, and the audit events claimed so far. */
  class LifecycleTable {
    var rows: seq<Row>

    constructor (initial: seq<Row>)
      ensures rows == initial
    {
      rows := initial;
    }

    /** claim_lifecycle_events: every row is claimed once, in order. */
    method ClaimLifecycleEvents(now: int) returns (events: seq<Event>)
      modifies this
      ensures |rows| == |old(rows)|
      ensures forall i :: 0 <= i < |rows| ==> rows[i] == Claimed(old(rows)[i], now)
      ensures events == ClaimsOf(old(rows), now)
    {
      events := [];
      var i := 0;
      while i < |rows|
        invariant 0 <= i <= |rows| == |old(rows)|
        invariant forall k :: 0 <= k < |rows| ==> rows[k] == if k < i then Claimed(old(rows)[k], now) else old(rows)[k]
        invariant events == ClaimsOf(old(rows)[..i], now)
      {
        assert old(rows)[..i + 1][..i] == old(rows)[..i];
        var r := rows[i];
        var cancelled := r.endedAt.Some? && r.endedAt.value < r.endsAt;
        var completed := !cancelled && r.endsAt <= now;
        var active := !cancelled && r.endedAt.None? && r.startsAt <= now < r.endsAt;
        if cancelled {
          if r.cancelledEvent.None? {
            rows := rows[i := r.(startedEvent := Some(r.startedEvent.GetOr(r.startsAt)), cancelledEvent := Some(now))];
            events := events + [Event(i, CANCEL)];
          }
        } else if completed {
          if r.completedEvent.None? {
            rows := rows[i := r.(startedEvent := Some(r.startedEvent.GetOr(r.startsAt)), completedEvent := Some(now))];
            events := events + [Event(i, COMPLETE)];
          }
        } else if active && r.startedEvent.None? {
          rows := rows[i := r.(startedEvent := Some(now))];
          events := events + [Event(i, START)];
        }
        i := i + 1;
      }
      assert old(rows)[..|rows|] == old(rows);
    }

    /** end_maintenance_window behind its handler: only a window that is still open can be ended. */
    method EndWindow(i: nat, now: int) returns (ended: bool)
      requires i < |rows|
      modifies this
      ensures ended <==> old(rows)[i].endedAt.None? && now < old(rows)[i].windowEndsAt
      ensures rows == if ended then old(rows)[i := Ended(old(rows)[i], now)] else old(rows)
    {
      if rows[i].endedAt.Some? || now >= rows[i].windowEndsAt {
        return false;
      }
      rows := rows[i := rows[i].(endedAt := Some(now))];
      return true;
    }

    /**
     extend_maintenance_window behind its handler; `conflict` says whether the extended window would
     overlap another open one of the same target.
     */
    method ExtendWindow(i: nat, endsAt: int, now: int, conflict: bool) returns (extended: bool)
      requires i < |rows|
      modifies this
      ensures extended <==>
                (&& old(rows)[i].endedAt.None? && now < old(rows)[i].windowEndsAt < endsAt
                 && endsAt - old(rows)[i].startsAt <= 7 * 24 * 60 * 60 && !conflict)
      ensures rows == if extended then old(rows)[i := Extended(old(rows)[i], endsAt)] else old(rows)
    {
      var r := rows[i];
      if r.endedAt.Some? || r.windowEndsAt <= now || endsAt <= r.windowEndsAt || endsAt - r.startsAt > 604800 {
        return false;
      }
      if conflict {
        return false;
      }
      rows := rows[i := r.(windowEndsAt := endsAt)];
      return true;
    }
  }

  function ClaimsOf(rows: seq<Row>, now: int): seq<Event> {
    if rows == [] then []
    else
      var n := |rows| - 1;
      match Claim(rows[n], now)
      case None => ClaimsOf(rows[..n], now)
      case Some(a) => ClaimsOf(rows[..n], now) + [Event(n, a)]
  }

  // ---- one occurrence over a whole run ----

  predicate CanEnd(r: Row, now: int) {
    r.endedAt.None? && now < r.windowEndsAt
  }

  function Ended(r: Row, now: int): Row {
    r.(endedAt := Some(now))
  }

  predicate CanExtend(r: Row, endsAt: int, now: int) {
    r.endedAt.None? && now < r.windowEndsAt < endsAt <= r.startsAt + 604800
  }

  function Extended(r: Row, endsAt: int): Row {
    r.(windowEndsAt := endsAt)
  }

  datatype Op = Scan(now: int) | End(now: int) | Extend(now: int, endsAt: int, conflict: bool)

  /** One operation on the row, with what it adds to the audit log. */
  function Step(r: Row, op: Op): Row {
    match op
    case Scan(now) => Claimed(r, now)
    case End(now) => if CanEnd(r, now) then Ended(r, now) else r
    case Extend(now, e, conflict) => if CanExtend(r, e, now) && !conflict then Extended(r, e) else r
  }

  function Emitted(r: Row, op: Op): seq<Action> {
    if op.Scan? && Claim(r, op.now).Some? then [Claim(r, op.now).value] else []
  }

  function RowAfter(r: Row, ops: seq<Op>): Row {
    if ops == [] then r else Step(RowAfter(r, ops[..|ops| - 1]), ops[|ops| - 1])
  }

  function EventsOf(r: Row, ops: seq<Op>): seq<Action> {
    if ops == [] then []
    else EventsOf(r, ops[..|ops| - 1]) + Emitted(RowAfter(r, ops[..|ops| - 1]), ops[|ops| - 1])
  }

  /** A row as materialization leaves it. */
  ghost predicate Fresh(r: Row) {
    && r.startsAt < r.endsAt == r.windowEndsAt && r.endedAt.None?
    && r.startedEvent.None? && r.completedEvent.None? && r.cancelledEvent.None?
  }

  /** The clock never goes back between operations. */
  ghost predicate Monotone(ops: seq<Op>) {
    forall i, j :: 0 <= i <= j < |ops| ==> ops[i].now <= ops[j].now
  }

  predicate IsTerminal(a: Action) {
    a != START
  }

  /** At most one START, before at most one terminal event; nothing else. */
  ghost predicate Orderly(events: seq<Action>) {
    && |events| <= 2
    && (|events| == 2 ==> events[0] == START && IsTerminal(events[1]))
  }

  /** The event columns say what was emitted, and what was emitted can never be contradicted. */
  ghost predicate Inv(r: Row, events: seq<Action>, now: int) {
    && Orderly(events)
    && r.startsAt < r.endsAt <= r.windowEndsAt
    && (r.startedEvent.Some? <==> events != [])
    && (r.completedEvent.Some? <==> COMPLETE in events)
    && (r.cancelledEvent.Some? <==> CANCEL in events)
    && (r.endedAt.Some? ==> r.endedAt.value <= now)
    && (COMPLETE in events ==> r.endsAt <= now && !CancelledEarly(r))
    && (CANCEL in events ==> CancelledEarly(r))
  }

  lemma StepKeepsInv(r: Row, events: seq<Action>, now: int, op: Op)
    requires Inv(r, events, now) && now <= op.now
    ensures Inv(Step(r, op), events + Emitted(r, op), op.now)
  {
    var after := events + Emitted(r, op);
    assert forall a :: a in after <==> a in events || a in Emitted(r, op);
  }

  lemma {:induction false} RunKeepsInv(r: Row, ops: seq<Op>, now: int)
    requires Fresh(r) && Monotone(ops)
    requires ops != [] ==> ops[|ops| - 1].now <= now
    ensures Inv(RowAfter(r, ops), EventsOf(r, ops), now)
  {
    if ops != [] {
      var n := |ops| - 1;
      RunKeepsInv(r, ops[..n], ops[n].now);
      StepKeepsInv(RowAfter(r, ops[..n]), EventsOf(r, ops[..n]), ops[n].now, ops[n]);
    }
  }

  /** Over any run, each occurrence emits START at most once and one terminal event at most once. */
  lemma EventsAreOrderly(r: Row, ops: seq<Op>)
    requires Fresh(r) && Monotone(ops)
    ensures Orderly(EventsOf(r, ops))
    ensures !(COMPLETE in EventsOf(r, ops) && CANCEL in EventsOf(r, ops))
  {
    RunKeepsInv(r, ops, if ops == [] then 0 else ops[|ops| - 1].now);
  }

  lemma PrefixIsMonotone(ops: seq<Op>, op: Op)
    requires Monotone(ops + [op])
    ensures Monotone(ops)
    ensures ops != [] ==> ops[|ops| - 1].now <= op.now
  {
    var all := ops + [op];
    assert all[|ops|] == op;
    assert forall i :: 0 <= i < |ops| ==> all[i] == ops[i];
  }

  lemma {:induction false} TimesAreFixed(r: Row, ops: seq<Op>)
    ensures RowAfter(r, ops).startsAt == r.startsAt && RowAfter(r, ops).endsAt == r.endsAt
  {
    if ops != [] {
      TimesAreFixed(r, ops[..|ops| - 1]);
    }
  }

  /** One scan of an occurrence that is over, from any row a run can leave. */
  lemma ScanSettles(r: Row, events: seq<Action>, now: int)
    requires Inv(r, events, now) && r.endsAt <= now
    ensures var after := events + Emitted(r, Scan(now));
            && after != [] && IsTerminal(after[|after| - 1])
            && (CANCEL in after <==> CancelledEarly(r))
            && (COMPLETE in after <==> !CancelledEarly(r))
  {
    if Claim(r, now).None? {
      assert events[|events| - 1] in events;
    }
  }

  /**
   A scan at or after the end leaves exactly one terminal event: CANCEL when an operator ended the
   window before the occurrence's own end, COMPLETE otherwise, extensions notwithstanding.
   */
  lemma ScanAfterEndSettles(r: Row, ops: seq<Op>, now: int)
    requires Fresh(r) && Monotone(ops + [Scan(now)]) && r.endsAt <= now
    ensures var events := EventsOf(r, ops + [Scan(now)]);
            && events != [] && IsTerminal(events[|events| - 1])
            && (CANCEL in events <==> CancelledEarly(RowAfter(r, ops)))
            && (COMPLETE in events <==> !CancelledEarly(RowAfter(r, ops)))
  {
    var all := ops + [Scan(now)];
    assert all[..|ops|] == ops;
    PrefixIsMonotone(ops, Scan(now));
    RunKeepsInv(r, ops, now);
    TimesAreFixed(r, ops);
    ScanSettles(RowAfter(r, ops), EventsOf(r, ops), now);
  }

  // ---- the occurrence's own end against the extended window ----

  /** An extension the handler lets through. */
  predicate Extends(r: Row, op: Op) {
    op.Extend? && CanExtend(r, op.endsAt, op.now) && !op.conflict
  }

  ghost predicate ExtendsAt(r: Row, ops: seq<Op>, i: nat)
    requires i < |ops|
  {
    Extends(RowAfter(r, ops[..i]), ops[i])
  }

  /** Some operation of the run extended the window. */
  ghost predicate WasExtended(r: Row, ops: seq<Op>) {
    exists i :: 0 <= i < |ops| && ExtendsAt(r, ops, i)
  }

  lemma WasExtendedStep(r: Row, ops: seq<Op>)
    requires ops != []
    ensures WasExtended(r, ops) <==> WasExtended(r, ops[..|ops| - 1]) || ExtendsAt(r, ops, |ops| - 1)
  {
    var n := |ops| - 1;
    forall i: nat | i < n ensures ExtendsAt(r, ops[..n], i) <==> ExtendsAt(r, ops, i) {
      assert ops[..n][..i] == ops[..i];
    }
  }

  /** One operation moves the window's end exactly when it is such an extension, and then upwards. */
  lemma StepMovesEndIff(x: Row, op: Op)
    ensures Step(x, op).windowEndsAt >= x.windowEndsAt
    ensures Step(x, op).windowEndsAt > x.windowEndsAt <==> Extends(x, op)
  {
  }

  /** The window outlasts the occurrence exactly when some operation has extended it. */
  lemma {:induction false} OutlastsIffExtended(r: Row, ops: seq<Op>)
    requires Fresh(r)
    ensures RowAfter(r, ops).windowEndsAt >= r.endsAt
    ensures RowAfter(r, ops).windowEndsAt > r.endsAt <==> WasExtended(r, ops)
  {
    if ops != [] {
      var n := |ops| - 1;
      OutlastsIffExtended(r, ops[..n]);
      WasExtendedStep(r, ops);
      StepMovesEndIff(RowAfter(r, ops[..n]), ops[n]);
    }
  }

  /** A scan completes an occurrence whose window is still open. */
  predicate CompletesOpenWindow(r: Row, now: int) {
    Claim(r, now) == Some(COMPLETE) && CanEnd(r, now)
  }

  /**
   After any run, a scan reports COMPLETE for a window that is still open exactly when the window
   has not been ended, `now` lies between the occurrence's own end and the window's, and nothing
   was completed before; and only a window some operation has extended can get there.
   */
  lemma CompletesOpenWindowIff(r: Row, ops: seq<Op>, now: int)
    requires Fresh(r) && Monotone(ops + [Scan(now)])
    ensures var x := RowAfter(r, ops);
            && (CompletesOpenWindow(x, now) <==>
                 x.endedAt.None? && r.endsAt <= now < x.windowEndsAt && COMPLETE !in EventsOf(r, ops))
            && (CompletesOpenWindow(x, now) ==> WasExtended(r, ops))
  {
    PrefixIsMonotone(ops, Scan(now));
    RunKeepsInv(r, ops, now);
    TimesAreFixed(r, ops);
    OutlastsIffExtended(r, ops);
  }

  /** A window extended from 100 to 200 is reported complete at 100, while it is still open. */
  lemma ExtendedWindowCompletesEarly() returns (r: Row, ops: seq<Op>)
    ensures Fresh(r) && Monotone(ops + [Scan(100)]) && WasExtended(r, ops)
    ensures CompletesOpenWindow(RowAfter(r, ops), 100)
    ensures EventsOf(r, ops + [Scan(100)]) == [COMPLETE]
  {
    r := Row(0, 100, 100, None, None, None, None);
    ops := [Extend(50, 200, false)];
    assert ops[..0] == [];
    assert RowAfter(r, ops) == r.(windowEndsAt := 200) && ExtendsAt(r, ops, 0);
    OutlastsIffExtended(r, ops);
    assert (ops + [Scan(100)])[..1] == ops;
    assert EventsOf(r, ops) == [];
  }

  /** Whatever a scan emits is what the read model says of the occurrence at that moment. */
  lemma EventsAgreeWithState(r: Row, now: int)
    ensures match Claim(r, now)
            case None => true
            case Some(START) => LifecycleState(r, now) == ACTIVE
            case Some(COMPLETE) => LifecycleState(r, now) == COMPLETED
            case Some(CANCEL) => LifecycleState(r, now) == CANCELLED
    ensures LifecycleState(Claimed(r, now), now) == LifecycleState(r, now)
  {
  }

  /** The state of an occurrence, in its columns. */
  lemma StateInColumns(r: Row, now: int)
    ensures LifecycleState(r, now) == CANCELLED <==> r.endedAt.Some? && r.endedAt.value < r.endsAt
    ensures LifecycleState(r, now) == COMPLETED <==> !(r.endedAt.Some? && r.endedAt.value < r.endsAt) && r.endsAt <= now
    ensures LifecycleState(r, now) == ACTIVE <==>
            !(r.endedAt.Some? && r.endedAt.value < r.endsAt) && r.startsAt <= now < r.endsAt
  {
  }

  /**
   What a claim writes: the event's own column gets the time of the scan, and a terminal event fills
   an empty started column with the occurrence's start; nothing else changes.
   */
  lemma ClaimStamps(r: Row, now: int)
    ensures var x := Claimed(r, now);
            && x.(startedEvent := r.startedEvent, completedEvent := r.completedEvent,
                  cancelledEvent := r.cancelledEvent) == r
            && match Claim(r, now)
               case None => x == r
               case Some(START) =>
                 && r.startedEvent.None? && x.startedEvent == Some(now)
                 && x.completedEvent == r.completedEvent && x.cancelledEvent == r.cancelledEvent
               case Some(COMPLETE) =>
                 && r.completedEvent.None? && x.completedEvent == Some(now) && x.cancelledEvent == r.cancelledEvent
                 && x.startedEvent == (if r.startedEvent.Some? then r.startedEvent else Some(r.startsAt))
               case Some(CANCEL) =>
                 && r.cancelledEvent.None? && x.cancelledEvent == Some(now) && x.completedEvent == r.completedEvent
                 && x.startedEvent == (if r.startedEvent.Some? then r.startedEvent else Some(r.startsAt))
  {
  }

  /** A scan reports each row's claim, and nothing else, in row order. */
  lemma {:induction false} ClaimsInOrder(rows: seq<Row>, now: int)
    ensures forall i: nat, a :: Event(i, a) in ClaimsOf(rows, now) <==> i < |rows| && Claim(rows[i], now) == Some(a)
    ensures forall x, y :: 0 <= x < y < |ClaimsOf(rows, now)| ==>
              ClaimsOf(rows, now)[x].row < ClaimsOf(rows, now)[y].row
    ensures forall x :: 0 <= x < |ClaimsOf(rows, now)| ==> ClaimsOf(rows, now)[x].row < |rows|
  {
    if rows != [] {
      ClaimsInOrder(rows[..|rows| - 1], now);
    }
  }

  /** Once claimed, the same moment has nothing more to claim. */
  lemma ClaimingIsIdempotent(r: Row, now: int)
    ensures Claim(Claimed(r, now), now).None?
  {
  }

  // ---- both terminal events, whatever the clock does ----

  /** Operation `j` of the run ends the window before the occurrence's own end. */
  ghost predicate EarlyEndAt(r: Row, ops: seq<Op>, j: nat)
    requires j < |ops|
  {
    ops[j].End? && ops[j].now < r.endsAt && CanEnd(RowAfter(r, ops[..j]), ops[j].now)
  }

  ghost predicate LateScanAt(r: Row, ops: seq<Op>, i: nat)
    requires i < |ops|
  {
    ops[i].Scan? && r.endsAt <= ops[i].now
  }

  ghost predicate EndedEarly(r: Row, ops: seq<Op>) {
    exists j :: 0 <= j < |ops| && EarlyEndAt(r, ops, j)
  }

  /** A scan follows an early end. */
  ghost predicate ScannedAfterEarlyEnd(r: Row, ops: seq<Op>) {
    exists j, k :: 0 <= j < k < |ops| && EarlyEndAt(r, ops, j) && ops[k].Scan?
  }

  /** A late scan comes with no early end before it. */
  ghost predicate ScannedLateUnended(r: Row, ops: seq<Op>) {
    exists i :: 0 <= i < |ops| && LateScanAt(r, ops, i) && !EndedEarly(r, ops[..i])
  }

  lemma EarlyEndInPrefix(r: Row, ops: seq<Op>, n: nat, j: nat)
    requires j < n <= |ops|
    ensures EarlyEndAt(r, ops[..n], j) <==> EarlyEndAt(r, ops, j)
  {
    assert ops[..n][..j] == ops[..j];
  }

  lemma EndedEarlyStep(r: Row, ops: seq<Op>)
    requires ops != []
    ensures EndedEarly(r, ops) <==> EndedEarly(r, ops[..|ops| - 1]) || EarlyEndAt(r, ops, |ops| - 1)
  {
    var n := |ops| - 1;
    forall j: nat | j < n ensures EarlyEndAt(r, ops[..n], j) <==> EarlyEndAt(r, ops, j) {
      EarlyEndInPrefix(r, ops, n, j);
    }
  }

  lemma ScannedAfterStep(r: Row, ops: seq<Op>)
    requires ops != []
    ensures var n := |ops| - 1;
            ScannedAfterEarlyEnd(r, ops) <==>
            ScannedAfterEarlyEnd(r, ops[..n]) || (EndedEarly(r, ops[..n]) && ops[n].Scan?)
  {
    var n := |ops| - 1;
    forall j: nat | j < n ensures EarlyEndAt(r, ops[..n], j) <==> EarlyEndAt(r, ops, j) {
      EarlyEndInPrefix(r, ops, n, j);
    }
    if ScannedAfterEarlyEnd(r, ops[..n]) {
      var j, k :| 0 <= j < k < n && EarlyEndAt(r, ops[..n], j) && ops[..n][k].Scan?;
      assert EarlyEndAt(r, ops, j) && ops[k].Scan?;
    }
    if j, k :| 0 <= j < k < |ops| && EarlyEndAt(r, ops, j) && ops[k].Scan? {
      assert EarlyEndAt(r, ops[..n], j);
      assert k < n ==> ops[..n][k].Scan?;
    }
  }

  lemma ScannedLateStep(r: Row, ops: seq<Op>)
    requires ops != []
    ensures var n := |ops| - 1;
            ScannedLateUnended(r, ops) <==>
            ScannedLateUnended(r, ops[..n]) || (LateScanAt(r, ops, n) && !EndedEarly(r, ops[..n]))
  {
    var n := |ops| - 1;
    var before := ops[..n];
    if ScannedLateUnended(r, before) {
      var i :| 0 <= i < n && LateScanAt(r, before, i) && !EndedEarly(r, before[..i]);
      assert before[..i] == ops[..i] && LateScanAt(r, ops, i);
    }
    if i :| 0 <= i < |ops| && LateScanAt(r, ops, i) && !EndedEarly(r, ops[..i]) {
      if i < n {
        assert before[..i] == ops[..i] && LateScanAt(r, before, i);
      }
    }
  }

  /** What the columns tell of an early end and of each terminal event. */
  ghost predicate Decided(x: Row, events: seq<Action>, early: bool, cancelled: bool, completed: bool) {
    && (CancelledEarly(x) <==> early)
    && (x.cancelledEvent.Some? <==> CANCEL in events) && (x.completedEvent.Some? <==> COMPLETE in events)
    && (CANCEL in events <==> cancelled) && (COMPLETE in events <==> completed)
  }

  lemma StepDecides(x: Row, events: seq<Action>, op: Op, early: bool, cancelled: bool, completed: bool)
    requires Decided(x, events, early, cancelled, completed)
    ensures Decided(Step(x, op), events + Emitted(x, op),
                    early || (op.End? && op.now < x.endsAt && CanEnd(x, op.now)),
                    cancelled || (early && op.Scan?),
                    completed || (op.Scan? && x.endsAt <= op.now && !early))
  {
    assert forall a :: a in events + Emitted(x, op) <==> a in events || a in Emitted(x, op);
  }

  /** Without any assumption on the clock: what decides the early end and each terminal event. */
  lemma {:induction false} TerminalsAreDecided(r: Row, ops: seq<Op>)
    requires Fresh(r)
    ensures Decided(RowAfter(r, ops), EventsOf(r, ops),
                    EndedEarly(r, ops), ScannedAfterEarlyEnd(r, ops), ScannedLateUnended(r, ops))
  {
    if ops != [] {
      var n := |ops| - 1;
      TerminalsAreDecided(r, ops[..n]);
      TimesAreFixed(r, ops[..n]);
      EndedEarlyStep(r, ops);
      ScannedAfterStep(r, ops);
      ScannedLateStep(r, ops);
      StepDecides(RowAfter(r, ops[..n]), EventsOf(r, ops[..n]), ops[n],
                  EndedEarly(r, ops[..n]), ScannedAfterEarlyEnd(r, ops[..n]), ScannedLateUnended(r, ops[..n]));
    }
  }

  // ---- the START event, whatever the clock does ----

  ghost predicate EndAt(r: Row, ops: seq<Op>, j: nat)
    requires j < |ops|
  {
    ops[j].End? && CanEnd(RowAfter(r, ops[..j]), ops[j].now)
  }

  ghost predicate WasEnded(r: Row, ops: seq<Op>) {
    exists j :: 0 <= j < |ops| && EndAt(r, ops, j)
  }

  ghost predicate ScannedLate(r: Row, ops: seq<Op>) {
    exists i :: 0 <= i < |ops| && LateScanAt(r, ops, i)
  }

  /** A scan of the running occurrence, its window not ended and no scan before it late. */
  ghost predicate RunningScanAt(r: Row, ops: seq<Op>, i: nat)
    requires i < |ops|
  {
    && ops[i].Scan? && r.startsAt <= ops[i].now < r.endsAt
    && !WasEnded(r, ops[..i]) && !ScannedLate(r, ops[..i])
  }

  ghost predicate ScannedRunning(r: Row, ops: seq<Op>) {
    exists i :: 0 <= i < |ops| && RunningScanAt(r, ops, i)
  }

  lemma WasEndedStep(r: Row, ops: seq<Op>)
    requires ops != []
    ensures WasEnded(r, ops) <==> WasEnded(r, ops[..|ops| - 1]) || EndAt(r, ops, |ops| - 1)
  {
    var n := |ops| - 1;
    forall j: nat | j < n ensures EndAt(r, ops[..n], j) <==> EndAt(r, ops, j) {
      assert ops[..n][..j] == ops[..j];
    }
  }

  lemma ScannedLateOneMore(r: Row, ops: seq<Op>)
    requires ops != []
    ensures ScannedLate(r, ops) <==> ScannedLate(r, ops[..|ops| - 1]) || LateScanAt(r, ops, |ops| - 1)
  {
    var n := |ops| - 1;
    forall j: nat | j < n ensures LateScanAt(r, ops[..n], j) <==> LateScanAt(r, ops, j) {
    }
  }

  lemma ScannedRunningStep(r: Row, ops: seq<Op>)
    requires ops != []
    ensures ScannedRunning(r, ops) <==> ScannedRunning(r, ops[..|ops| - 1]) || RunningScanAt(r, ops, |ops| - 1)
  {
    var n := |ops| - 1;
    forall j: nat | j < n ensures RunningScanAt(r, ops[..n], j) <==> RunningScanAt(r, ops, j) {
      assert ops[..n][..j] == ops[..j];
    }
  }

  /** What a row's columns remember of ends, late scans and emitted events. */
  ghost predicate Remembers(x: Row, events: seq<Action>, ended: bool, late: bool) {
    && (x.endedAt.Some? <==> ended)
    && (x.startedEvent.Some? <==> events != [])
    && (x.completedEvent.Some? <==> COMPLETE in events)
    && (!ended ==> (COMPLETE in events <==> late) && CANCEL !in events)
  }

  lemma StepRemembers(x: Row, events: seq<Action>, op: Op, ended: bool, late: bool)
    requires Remembers(x, events, ended, late)
    ensures Remembers(Step(x, op), events + Emitted(x, op), ended || (op.End? && CanEnd(x, op.now)),
                      late || (op.Scan? && x.endsAt <= op.now))
  {
    assert forall a :: a in events + Emitted(x, op) <==> a in events || a in Emitted(x, op);
  }

  lemma {:induction false} ColumnsRemember(r: Row, ops: seq<Op>)
    requires Fresh(r)
    ensures Remembers(RowAfter(r, ops), EventsOf(r, ops), WasEnded(r, ops), ScannedLate(r, ops))
  {
    if ops != [] {
      var n := |ops| - 1;
      ColumnsRemember(r, ops[..n]);
      TimesAreFixed(r, ops[..n]);
      WasEndedStep(r, ops);
      ScannedLateOneMore(r, ops);
      StepRemembers(RowAfter(r, ops[..n]), EventsOf(r, ops[..n]), ops[n],
                    WasEnded(r, ops[..n]), ScannedLate(r, ops[..n]));
    }
  }

  lemma StepStarts(x: Row, events: seq<Action>, op: Op, ended: bool, late: bool)
    requires Remembers(x, events, ended, late)
    ensures START in events + Emitted(x, op) <==>
            || START in events
            || (op.Scan? && x.startsAt <= op.now < x.endsAt && !ended && !late)
  {
    assert forall a :: a in events + Emitted(x, op) <==> a in events || a in Emitted(x, op);
    assert START in Emitted(x, op) <==> op.Scan? && Claim(x, op.now) == Some(START);
    if events != [] {
      var first := events[0];
      assert first in events && (first == START || first == COMPLETE || first == CANCEL);
    }
  }

  /**
   START is emitted exactly when some scan falls between the occurrence's start and its own end,
   before its window is ended and before any scan that came after the end.
   */
  lemma {:induction false} StartedIff(r: Row, ops: seq<Op>)
    requires Fresh(r)
    ensures START in EventsOf(r, ops) <==> ScannedRunning(r, ops)
  {
    if ops != [] {
      var n := |ops| - 1;
      StartedIff(r, ops[..n]);
      ColumnsRemember(r, ops[..n]);
      TimesAreFixed(r, ops[..n]);
      ScannedRunningStep(r, ops);
      StepStarts(RowAfter(r, ops[..n]), EventsOf(r, ops[..n]), ops[n], WasEnded(r, ops[..n]), ScannedLate(r, ops[..n]));
    }
  }

  /** An ended window stays ended, so only one End of a run is accepted. */
  lemma {:induction false} EndIsForGood(r: Row, ops: seq<Op>, j: nat)
    requires j < |ops| && ops[j].End? && CanEnd(RowAfter(r, ops[..j]), ops[j].now)
    ensures RowAfter(r, ops).endedAt.Some?
  {
    var n := |ops| - 1;
    if j < n {
      assert ops[..n][..j] == ops[..j];
      EndIsForGood(r, ops[..n], j);
    }
  }

  /**
   An occurrence is reported both completed and cancelled exactly when a scan at or after its own
   end is followed by an accepted end of its window at an earlier time, and that by another scan.
   */
  lemma BothTerminalsIff(r: Row, ops: seq<Op>)
    requires Fresh(r)
    ensures COMPLETE in EventsOf(r, ops) && CANCEL in EventsOf(r, ops) <==>
            exists i, j, k :: 0 <= i < j < k < |ops|
              && LateScanAt(r, ops, i) && EarlyEndAt(r, ops, j) && ops[k].Scan?
  {
    TerminalsAreDecided(r, ops);
    if ScannedLateUnended(r, ops) && ScannedAfterEarlyEnd(r, ops) {
      var i :| 0 <= i < |ops| && LateScanAt(r, ops, i) && !EndedEarly(r, ops[..i]);
      var j, k :| 0 <= j < k < |ops| && EarlyEndAt(r, ops, j) && ops[k].Scan?;
      if j < i {
        EarlyEndInPrefix(r, ops, i, j);
      }
      assert LateScanAt(r, ops, i) && EarlyEndAt(r, ops, j) && ops[k].Scan?;
    }
    if i, j, k :| 0 <= i < j < k < |ops| && LateScanAt(r, ops, i) && EarlyEndAt(r, ops, j) && ops[k].Scan? {
      if EndedEarly(r, ops[..i]) {
        var e :| 0 <= e < i && EarlyEndAt(r, ops[..i], e);
        EarlyEndInPrefix(r, ops, i, e);
        EarlyEndInPrefix(r, ops, j, e);
        EndIsForGood(r, ops[..j], e);
      }
    }
  }

  /** Such a run exists, so a clock that goes back can make an occurrence emit both. */
  lemma BackwardClockBreaksExclusion() returns (r: Row, ops: seq<Op>)
    ensures Fresh(r) && !Monotone(ops)
    ensures COMPLETE in EventsOf(r, ops) && CANCEL in EventsOf(r, ops)
  {
    r := Row(0, 100, 100, None, None, None, None);
    ops := [Scan(100), End(50), Scan(50)];
    assert ops[0].now == 100 && ops[1].now == 50;
    assert ops[..2] == [Scan(100), End(50)] && ops[..2][..1] == [Scan(100)] && ops[..2][..1][..0] == [];
    var r1 := Row(0, 100, 100, None, Some(0), Some(100), None);
    assert RowAfter(r, [Scan(100)]) == r1 && EventsOf(r, [Scan(100)]) == [COMPLETE];
    assert RowAfter(r, [Scan(100), End(50)]) == r1.(endedAt := Some(50));
    assert EventsOf(r, [Scan(100), End(50)]) == [COMPLETE];
    assert EventsOf(r, ops) == [COMPLETE, CANCEL];
  }
}
