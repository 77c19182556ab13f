/**
 Weekly calendar arithmetic in UTC.

 An instant is a number of seconds since 1970-01-01T00:00Z. A weekly plan is a seven-bit
 weekday mask (bit 0 is Monday) together with a minute of the day.
 */
module Calendar {
  const DAY: int := 86400

  /** A weekly plan as the validators leave it: at least one weekday, a minute within the day. */
  datatype Plan = Plan(daysMask: bv8, minutes: int) {
    ghost predicate Valid() {
      1 <= daysMask <= 127 && 0 <= minutes < 1440
    }
  }

  function DayOf(t: int): int {
    t / DAY
  }

  /** 1970-01-01 was a Thursday, which Python numbers 3. */
  function Weekday(day: int): (wd: int)
    ensures 0 <= wd < 7
  {
    (day + 3) % 7
  }

  function DayBit(wd: int): bv8
    requires 0 <= wd < 7
  {
    match wd
    case 0 => 1
    case 1 => 2
    case 2 => 4
    case 3 => 8
    case 4 => 16
    case 5 => 32
    case _ => 64
  }

  /** `mask & (1 << day.weekday())` */
  predicate Selected(mask: bv8, day: int) {
    mask & DayBit(Weekday(day)) != 0
  }

  /** Midnight of `day` plus the minute of the day. */
  function StartOn(day: int, minutes: int): int {
    day * DAY + minutes * 60
  }

  /** The calendar meaning of a plan: it occurs at its minute of every selected day. */
  ghost predicate OccursAt(p: Plan, t: int) {
    t % DAY == p.minutes * 60 && Selected(p.daysMask, DayOf(t))
  }

  lemma StartOnDay(day: int, minutes: int)
    requires 0 <= minutes < 1440
    ensures DayOf(StartOn(day, minutes)) == day
    ensures StartOn(day, minutes) % DAY == minutes * 60
  {
  }

  lemma OccursOnItsDay(p: Plan, t: int)
    requires p.Valid() && OccursAt(p, t)
    ensures t == StartOn(DayOf(t), p.minutes)
  {
  }

  /** Occurrences of one plan are ordered as their days are. */
  lemma OrderedByDay(p: Plan, day: int)
    requires p.Valid()
    ensures forall t :: OccursAt(p, t) && DayOf(t) <= day ==> t <= StartOn(day, p.minutes)
    ensures forall t :: OccursAt(p, t) && DayOf(t) >= day ==> StartOn(day, p.minutes) <= t
  {
    forall t | OccursAt(p, t)
      ensures DayOf(t) <= day ==> t <= StartOn(day, p.minutes)
      ensures DayOf(t) >= day ==> StartOn(day, p.minutes) <= t
    {
      OccursOnItsDay(p, t);
    }
  }

  /** An occurrence on each selected day, and only there. */
  lemma OccursWhenSelected(p: Plan, day: int)
    requires p.Valid()
    ensures OccursAt(p, StartOn(day, p.minutes)) <==> Selected(p.daysMask, day)
  {
    StartOnDay(day, p.minutes);
  }

  lemma SomeBitSet(mask: bv8) returns (wd: int)
    requires 1 <= mask <= 127
    ensures 0 <= wd < 7 && mask & DayBit(wd) != 0
  {
    if mask & 1 != 0 { return 0; }
    if mask & 2 != 0 { return 1; }
    if mask & 4 != 0 { return 2; }
    if mask & 8 != 0 { return 3; }
    if mask & 16 != 0 { return 4; }
    if mask & 32 != 0 { return 5; }
    return 6;
  }

  /** Every weekday falls within any seven consecutive days. */
  lemma WeekdayWithin(wd: int, day: int) returns (k: int)
    requires 0 <= wd < 7
    ensures 0 <= k < 7 && Weekday(day + k) == wd
  {
    k := (wd - Weekday(day)) % 7;
  }

  lemma SelectedWithinWeek(mask: bv8, day: int) returns (k: int)
    requires 1 <= mask <= 127
    ensures 0 <= k < 7 && Selected(mask, day + k)
  {
    var wd := SomeBitSet(mask);
    k := WeekdayWithin(wd, day);
  }

  /** The seven bits are Monday to Sunday: day 0 of the epoch was a Thursday, day 4 a Monday. */
  lemma BitsAreWeekdays(day: int)
    ensures Selected(1, day) <==> day % 7 == 4
    ensures Selected(2, day) <==> day % 7 == 5
    ensures Selected(4, day) <==> day % 7 == 6
    ensures Selected(8, day) <==> day % 7 == 0
    ensures Selected(16, day) <==> day % 7 == 1
    ensures Selected(32, day) <==> day % 7 == 2
    ensures Selected(64, day) <==> day % 7 == 3
  {
    var wd := Weekday(day);
    assert wd == (day % 7 + 3) % 7;
    assert DayBit(wd) == 1 || DayBit(wd) == 2 || DayBit(wd) == 4 || DayBit(wd) == 8
           || DayBit(wd) == 16 || DayBit(wd) == 32 || DayBit(wd) == 64;
  }

  /** The guard of the conflict query: same minute of the day, overlapping masks. */
  predicate Overlap(p: Plan, q: Plan) {
    p.minutes == q.minutes && p.daysMask & q.daysMask != 0
  }

  lemma CommonWeekday(a: bv8, b: bv8) returns (wd: int)
    requires a <= 127 && a & b != 0
    ensures 0 <= wd < 7 && a & DayBit(wd) != 0 && b & DayBit(wd) != 0
  {
    MaskBound(a, b);
    wd := SomeBitSet(a & b);
    MaskSplit(a, b, DayBit(wd));
  }

  lemma OverlapMeets(p: Plan, q: Plan) returns (t: int)
    requires p.Valid() && q.Valid() && Overlap(p, q)
    ensures OccursAt(p, t) && OccursAt(q, t)
  {
    var wd := CommonWeekday(p.daysMask, q.daysMask);
    var day := WeekdayWithin(wd, 0);
    t := StartOn(day, p.minutes);
    StartOnDay(day, p.minutes);
  }

  lemma MeetOverlaps(p: Plan, q: Plan, t: int)
    requires p.Valid() && q.Valid() && OccursAt(p, t) && OccursAt(q, t)
    ensures Overlap(p, q)
  {
    MaskJoin(p.daysMask, q.daysMask, Weekday(DayOf(t)));
  }

  /** Two plans share an instant exactly when the conflict query's guard holds. */
  lemma PlansMeet(p: Plan, q: Plan)
    requires p.Valid() && q.Valid()
    ensures Overlap(p, q) <==> exists t :: OccursAt(p, t) && OccursAt(q, t)
  {
    if Overlap(p, q) {
      var t := OverlapMeets(p, q);
    }
    if t :| OccursAt(p, t) && OccursAt(q, t) {
      MeetOverlaps(p, q, t);
    }
  }

  lemma MaskBound(a: bv8, b: bv8)
    requires a <= 127 && a & b != 0
    ensures 1 <= a & b <= 127
  {
  }

  lemma MaskSplit(a: bv8, b: bv8, bit: bv8)
    requires (a & b) & bit != 0
    ensures a & bit != 0 && b & bit != 0
  {
  }

  lemma MaskJoin(a: bv8, b: bv8, wd: int)
    requires 0 <= wd < 7
    requires a & DayBit(wd) != 0 && b & DayBit(wd) != 0
    ensures a & b != 0
  {
    var bit := DayBit(wd);
    assert bit == 1 || bit == 2 || bit == 4 || bit == 8 || bit == 16 || bit == 32 || bit == 64;
    SingleBit(a, b, bit);
  }

  lemma SingleBit(a: bv8, b: bv8, bit: bv8)
    requires bit == 1 || bit == 2 || bit == 4 || bit == 8 || bit == 16 || bit == 32 || bit == 64
    requires a & bit != 0 && b & bit != 0
    ensures a & b != 0
  {
  }

  /** The nearest selected day at or before `day`, within `k` days when day - k is selected. */
  lemma NearestBack(mask: bv8, day: int, k: nat) returns (n: nat)
    requires Selected(mask, day - k)
    ensures n <= k && Selected(mask, day - n)
    ensures forall e :: day - n < e <= day ==> !Selected(mask, e)
  {
    if e :| day - k < e <= day && Selected(mask, e) {
      n := NearestBack(mask, day, day - e);
    } else {
      n := k;
    }
  }

  lemma NearestForward(mask: bv8, day: int, k: nat) returns (n: nat)
    requires Selected(mask, day + k)
    ensures n <= k && Selected(mask, day + n)
    ensures forall e :: day <= e < day + n ==> !Selected(mask, e)
  {
    if e :| day <= e < day + k && Selected(mask, e) {
      n := NearestForward(mask, day, e - day);
    } else {
      n := k;
    }
  }

  /** The latest occurrence at or before `now`; it is less than eight days old. */
  ghost predicate IsLatest(p: Plan, now: int, t: int) {
    OccursAt(p, t) && t <= now && forall u :: OccursAt(p, u) && u <= now ==> u <= t
  }

  /** The earliest occurrence strictly after `now`. */
  ghost predicate IsEarliestAfter(p: Plan, now: int, t: int) {
    OccursAt(p, t) && t > now && forall u :: OccursAt(p, u) && u > now ==> t <= u
  }

  lemma LatestExists(p: Plan, now: int) returns (t: int)
    requires p.Valid()
    ensures IsLatest(p, now, t)
  {
    var top := if StartOn(DayOf(now), p.minutes) <= now then DayOf(now) else DayOf(now) - 1;
    var k := SelectedWithinWeek(p.daysMask, top - 6);
    var n := NearestBack(p.daysMask, top, 6 - k);
    t := StartOn(top - n, p.minutes);
    StartOnDay(top - n, p.minutes);
    forall u | OccursAt(p, u) && u <= now ensures u <= t {
      OccursOnItsDay(p, u);
      assert DayOf(u) <= top;
    }
  }

  lemma EarliestAfterExists(p: Plan, now: int) returns (t: int)
    requires p.Valid()
    ensures IsEarliestAfter(p, now, t)
  {
    var low := if StartOn(DayOf(now), p.minutes) > now then DayOf(now) else DayOf(now) + 1;
    var k := SelectedWithinWeek(p.daysMask, low);
    var n := NearestForward(p.daysMask, low, k);
    t := StartOn(low + n, p.minutes);
    StartOnDay(low + n, p.minutes);
    forall u | OccursAt(p, u) && u > now ensures t <= u {
      OccursOnItsDay(p, u);
      assert DayOf(u) >= low;
    }
  }
}
