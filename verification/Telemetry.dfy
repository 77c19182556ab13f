/**
 Bucketed telemetry history and its retention (app/telemetry/history.py, repository.py and
 analytics.py).
 */
module Telemetry {
  datatype HistoryRange = HistoryRange(hours: nat, bucketSeconds: int) {
    function ExpectedPoints(): int
      requires bucketSeconds > 0
    {
      hours * 3600 / bucketSeconds
    }
  }

  const HISTORY_RANGES: set<HistoryRange> :=
    {HistoryRange(24, 300), HistoryRange(168, 900), HistoryRange(720, 3600), HistoryRange(2160, 10800)}

  const RETENTION: int := 90 * 86400

  /** SQLite's integer division truncates toward zero. */
  function TruncDiv(a: int, b: int): int
    requires b > 0
  {
    if a >= 0 then a / b else -(-a / b)
  }

  datatype Sample = Sample(ts: int, minerId: int, state: int)

  /** aligned_history_window */
  function Window(now: int, r: HistoryRange): (w: (int, int))
    requires r.bucketSeconds > 0
  {
    (now / r.bucketSeconds * r.bucketSeconds - (r.ExpectedPoints() - 1) * r.bucketSeconds, now)
  }

  predicate InWindow(s: Sample, minerId: int, w: (int, int)) {
    s.minerId == minerId && w.0 <= s.ts <= w.1
  }

  function Selected(rows: seq<Sample>, minerId: int, w: (int, int)): (s: seq<Sample>)
    ensures forall x :: x in s <==> x in rows && InWindow(x, minerId, w)
  {
    if rows == [] then []
    else
      var n := |rows| - 1;
      if InWindow(rows[n], minerId, w) then Selected(rows[..n], minerId, w) + [rows[n]]
      else Selected(rows[..n], minerId, w)
  }

  /** COUNT(*) of one bucket. */
  function CountIn(rows: seq<Sample>, b: int, k: int): nat
    requires b > 0
  {
    if rows == [] then 0
    else CountIn(rows[..|rows| - 1], b, k) + if TruncDiv(rows[|rows| - 1].ts, b) == k then 1 else 0
  }

  /** The newest row of one bucket, as ROW_NUMBER() OVER (... ORDER BY ts DESC) = 1 picks it. */
  function NewestIn(rows: seq<Sample>, b: int, k: int): (s: Sample)
    requires b > 0 && CountIn(rows, b, k) > 0
    ensures s in rows && TruncDiv(s.ts, b) == k
    ensures forall x :: x in rows && TruncDiv(x.ts, b) == k ==> x.ts <= s.ts
  {
    var n := |rows| - 1;
    assert rows == rows[..n] + [rows[n]];
    if TruncDiv(rows[n].ts, b) != k then NewestIn(rows[..n], b, k)
    else if CountIn(rows[..n], b, k) == 0 then
      CountZero(rows[..n], b, k);
      rows[n]
    else
      var earlier := NewestIn(rows[..n], b, k);
      if rows[n].ts >= earlier.ts then rows[n] else earlier
  }

  lemma {:induction false} CountZero(rows: seq<Sample>, b: int, k: int)
    requires b > 0
    ensures CountIn(rows, b, k) == 0 <==> forall x :: x in rows ==> TruncDiv(x.ts, b) != k
  {
    if rows != [] {
      var n := |rows| - 1;
      CountZero(rows[..n], b, k);
      assert rows == rows[..n] + [rows[n]];
    }
  }

  datatype Point = Point(bucketTs: int, state: int, sampleCount: nat)

  /** GROUP BY bucket, ORDER BY bucket: one point for each bucket of lo .. hi-1 that has a row. */
  function Points(rows: seq<Sample>, b: int, lo: int, hi: int): (ps: seq<Point>)
    requires b > 0
    decreases hi - lo
  {
    if hi <= lo then []
    else if CountIn(rows, b, hi - 1) > 0 then
      Points(rows, b, lo, hi - 1) + [Point((hi - 1) * b, NewestIn(rows, b, hi - 1).state, CountIn(rows, b, hi - 1))]
    else Points(rows, b, lo, hi - 1)
  }

  function TotalSamples(ps: seq<Point>): nat {
    if ps == [] then 0 else TotalSamples(ps[..|ps| - 1]) + ps[|ps| - 1].sampleCount
  }

  /** telemetry_history_rows over a window. */
  function History(rows: seq<Sample>, minerId: int, now: int, r: HistoryRange): seq<Point>
    requires r in HISTORY_RANGES
  {
    var w := Window(now, r);
    var b := r.bucketSeconds;
    Points(Selected(rows, minerId, w), b, TruncDiv(w.0, b), TruncDiv(w.1, b) + 1)
  }

  /** missing_point_count */
  function Missing(r: HistoryRange, pointCount: nat): int
    requires r.bucketSeconds > 0
  {
    if r.ExpectedPoints() - pointCount > 0 then r.ExpectedPoints() - pointCount else 0
  }

  // ---- the bucket bound ----

  lemma MulMonotone(x: int, y: int, b: int)
    requires b > 0 && x <= y
    ensures x * b <= y * b
  {
    assert (y - x) * b >= 0;
  }

  /** The quotient is the number that brackets the dividend. */
  lemma DivBracket(a: int, b: int)
    requires b > 0
    ensures (a / b) * b <= a < (a / b + 1) * b
  {
    assert a == b * (a / b) + a % b;
    assert (a / b + 1) * b == (a / b) * b + b;
  }

  lemma BracketOrders(q: int, p: int, a: int, c: int, b: int)
    requires b > 0 && a <= c
    requires q * b <= a && c < (p + 1) * b
    ensures q <= p
  {
    if q > p {
      MulMonotone(p + 1, q, b);
    }
  }

  lemma DivMonotone(a: int, c: int, b: int)
    requires b > 0 && a <= c
    ensures a / b <= c / b
  {
    DivBracket(a, b);
    DivBracket(c, b);
    BracketOrders(a / b, c / b, a, c, b);
  }

  lemma TruncDivMonotone(a: int, c: int, b: int)
    requires b > 0 && a <= c
    ensures TruncDiv(a, b) <= TruncDiv(c, b)
  {
    if a >= 0 {
      DivMonotone(a, c, b);
    } else {
      DivMonotone(0, -a, b);
      if c < 0 {
        DivMonotone(-c, -a, b);
      } else {
        DivMonotone(0, c, b);
      }
    }
  }

  lemma DivOfMultiple(q: int, b: int)
    requires b > 0
    ensures q * b / b == q
  {
    DivBracket(q * b, b);
    assert (q + 1) * b == q * b + b;
    BracketOrders(q, q * b / b, q * b, q * b, b);
    BracketOrders(q * b / b, q, q * b, q * b, b);
  }

  lemma TruncDivOfMultiple(q: int, b: int)
    requires b > 0
    ensures TruncDiv(q * b, b) == q
  {
    DivOfMultiple(q, b);
    DivOfMultiple(-q, b);
    assert -(q * b) == (-q) * b;
  }

  /** A window spans exactly `expected_points` buckets. */
  lemma WindowSpansExpected(now: int, r: HistoryRange)
    requires r.bucketSeconds > 0 && now >= 0
    ensures var w := Window(now, r);
            TruncDiv(w.1, r.bucketSeconds) - TruncDiv(w.0, r.bucketSeconds) + 1 == r.ExpectedPoints()
  {
    var b := r.bucketSeconds;
    var q := now / b;
    var e := r.ExpectedPoints();
    assert Window(now, r).0 == (q - (e - 1)) * b;
    TruncDivOfMultiple(q - (e - 1), b);
  }

  lemma {:induction false} PointsBounded(rows: seq<Sample>, b: int, lo: int, hi: int)
    requires b > 0 && lo <= hi
    ensures |Points(rows, b, lo, hi)| <= hi - lo
    ensures forall i :: 0 <= i < |Points(rows, b, lo, hi)| ==> Points(rows, b, lo, hi)[i].bucketTs < hi * b
    ensures forall i, j :: 0 <= i < j < |Points(rows, b, lo, hi)| ==>
              Points(rows, b, lo, hi)[i].bucketTs < Points(rows, b, lo, hi)[j].bucketTs
    decreases hi - lo
  {
    if lo < hi {
      PointsBounded(rows, b, lo, hi - 1);
      assert (hi - 1) * b < hi * b;
    }
  }

  /**
   For every supported range and non-negative now, the points never exceed the expected number, so
   the missing count is exact and never clamped; and the points ascend strictly in time.
   */
  lemma MissingIsExact(rows: seq<Sample>, minerId: int, now: int, r: HistoryRange)
    requires r in HISTORY_RANGES && now >= 0
    ensures var ps := History(rows, minerId, now, r);
            && |ps| <= r.ExpectedPoints()
            && Missing(r, |ps|) == r.ExpectedPoints() - |ps|
            && forall i, j :: 0 <= i < j < |ps| ==> ps[i].bucketTs < ps[j].bucketTs
  {
    var w := Window(now, r);
    var b := r.bucketSeconds;
    WindowSpansExpected(now, r);
    PointsBounded(Selected(rows, minerId, w), b, TruncDiv(w.0, b), TruncDiv(w.1, b) + 1);
  }

  // ---- conservation ----

  /** The rows whose bucket lies in lo .. hi-1. */
  function CountRange(rows: seq<Sample>, b: int, lo: int, hi: int): nat
    requires b > 0
  {
    if rows == [] then 0
    else CountRange(rows[..|rows| - 1], b, lo, hi) + if lo <= TruncDiv(rows[|rows| - 1].ts, b) < hi then 1 else 0
  }

  lemma {:induction false} CountRangeSplits(rows: seq<Sample>, b: int, lo: int, hi: int)
    requires b > 0 && lo < hi
    ensures CountRange(rows, b, lo, hi) == CountRange(rows, b, lo, hi - 1) + CountIn(rows, b, hi - 1)
  {
    if rows != [] {
      CountRangeSplits(rows[..|rows| - 1], b, lo, hi);
    }
  }

  lemma {:induction false} CountRangeEmpty(rows: seq<Sample>, b: int, lo: int)
    requires b > 0
    ensures CountRange(rows, b, lo, lo) == 0
  {
    if rows != [] {
      CountRangeEmpty(rows[..|rows| - 1], b, lo);
    }
  }

  lemma {:induction false} CountRangeFull(rows: seq<Sample>, b: int, lo: int, hi: int)
    requires b > 0 && forall x :: x in rows ==> lo <= TruncDiv(x.ts, b) < hi
    ensures CountRange(rows, b, lo, hi) == |rows|
  {
    if rows != [] {
      var n := |rows| - 1;
      assert rows == rows[..n] + [rows[n]];
      CountRangeFull(rows[..n], b, lo, hi);
    }
  }

  lemma {:induction false} PointsTotal(rows: seq<Sample>, b: int, lo: int, hi: int)
    requires b > 0 && lo <= hi
    ensures TotalSamples(Points(rows, b, lo, hi)) == CountRange(rows, b, lo, hi)
    decreases hi - lo
  {
    if lo < hi {
      PointsTotal(rows, b, lo, hi - 1);
      CountRangeSplits(rows, b, lo, hi);
      var before := Points(rows, b, lo, hi - 1);
      if CountIn(rows, b, hi - 1) > 0 {
        var p := Point((hi - 1) * b, NewestIn(rows, b, hi - 1).state, CountIn(rows, b, hi - 1));
        assert (before + [p])[..|before|] == before;
      }
    } else {
      CountRangeEmpty(rows, b, lo);
    }
  }

  lemma BucketStartsDiffer(k: int, m: int, b: int)
    requires b > 0 && k < m
    ensures k * b < m * b
  {
    MulMonotone(k + 1, m, b);
    assert (k + 1) * b == k * b + b;
  }

  lemma {:induction false} PointPerBucket(rows: seq<Sample>, b: int, lo: int, hi: int, k: int)
    requires b > 0 && lo <= k < hi
    ensures forall p :: p in Points(rows, b, lo, hi) && p.bucketTs == k * b ==>
              CountIn(rows, b, k) > 0 && p == Point(k * b, NewestIn(rows, b, k).state, CountIn(rows, b, k))
    ensures CountIn(rows, b, k) > 0 ==> exists p :: p in Points(rows, b, lo, hi) && p.bucketTs == k * b
    decreases hi - lo
  {
    var before := Points(rows, b, lo, hi - 1);
    if k < hi - 1 {
      PointPerBucket(rows, b, lo, hi - 1, k);
      BucketStartsDiffer(k, hi - 1, b);
      if CountIn(rows, b, k) > 0 {
        var p :| p in before && p.bucketTs == k * b;
        assert p in Points(rows, b, lo, hi);
      }
    } else {
      PointsBounded(rows, b, lo, hi - 1);
      if CountIn(rows, b, k) > 0 {
        var p := Point(k * b, NewestIn(rows, b, k).state, CountIn(rows, b, k));
        assert p in Points(rows, b, lo, hi);
      }
    }
  }

  /** Each bucket that holds a row of the window has a point with its row count, and no other has one. */
  lemma PointsAreTheBuckets(rows: seq<Sample>, minerId: int, now: int, r: HistoryRange, k: int)
    requires r in HISTORY_RANGES && now >= 0
    requires TruncDiv(Window(now, r).0, r.bucketSeconds) <= k <= TruncDiv(now, r.bucketSeconds)
    ensures var b := r.bucketSeconds;
            var rs := Selected(rows, minerId, Window(now, r));
            && ((exists p :: p in History(rows, minerId, now, r) && p.bucketTs == k * b)
                <==> (exists x :: x in rs && TruncDiv(x.ts, b) == k))
            && (forall p :: p in History(rows, minerId, now, r) && p.bucketTs == k * b ==>
                  && p.sampleCount == CountIn(rs, b, k)
                  && exists x :: x in rs && TruncDiv(x.ts, b) == k && x.state == p.state
                       && forall y :: y in rs && TruncDiv(y.ts, b) == k ==> y.ts <= x.ts)
  {
    var w := Window(now, r);
    var b := r.bucketSeconds;
    var rs := Selected(rows, minerId, w);
    PointPerBucket(rs, b, TruncDiv(w.0, b), TruncDiv(w.1, b) + 1, k);
    CountZero(rs, b, k);
  }

  /** Every row of the window is counted in exactly one point. */
  lemma SamplesAreConserved(rows: seq<Sample>, minerId: int, now: int, r: HistoryRange)
    requires r in HISTORY_RANGES && now >= 0
    ensures TotalSamples(History(rows, minerId, now, r)) == |Selected(rows, minerId, Window(now, r))|
  {
    var w := Window(now, r);
    var b := r.bucketSeconds;
    var lo, hi := TruncDiv(w.0, b), TruncDiv(w.1, b) + 1;
    var rs := Selected(rows, minerId, w);
    WindowSpansExpected(now, r);
    forall x | x in rs ensures lo <= TruncDiv(x.ts, b) < hi {
      TruncDivMonotone(w.0, x.ts, b);
      TruncDivMonotone(x.ts, w.1, b);
    }
    PointsTotal(rs, b, lo, hi);
    CountRangeFull(rs, b, lo, hi);
  }

  // ---- retention ----

  function Retained(rows: seq<Sample>, now: int): (s: seq<Sample>)
    ensures forall x :: x in s <==> x in rows && x.ts >= now - RETENTION
  {
    if rows == [] then []
    else
      var n := |rows| - 1;
      if rows[n].ts < now - RETENTION then Retained(rows[..n], now) else Retained(rows[..n], now) + [rows[n]]
  }

  class TelemetryTable {
    var rows: seq<Sample>

    constructor ()
      ensures rows == []
    {
      rows := [];
    }

    /** save_telemetry_snapshot: one row per miner, then the retention delete. */
    method SaveSnapshot(miners: seq<(int, int)>, now: int)
      modifies this
      ensures rows == Retained(old(rows) + Snapshot(miners, now), now)
    {
      var added: seq<Sample> := [];
      for i := 0 to |miners|
        invariant added == Snapshot(miners[..i], now)
      {
        assert miners[..i + 1][..i] == miners[..i];
        added := added + [Sample(now, miners[i].0, miners[i].1)];
      }
      assert miners[..|miners|] == miners;
      rows := Retained(rows + added, now);
    }
  }

  function Snapshot(miners: seq<(int, int)>, now: int): seq<Sample> {
    if miners == [] then []
    else Snapshot(miners[..|miners| - 1], now) + [Sample(now, miners[|miners| - 1].0, miners[|miners| - 1].1)]
  }

  /** A snapshot has one row for every miner, with its state, at the moment it is taken. */
  lemma {:induction false} SnapshotHasEveryMiner(miners: seq<(int, int)>, now: int)
    ensures |Snapshot(miners, now)| == |miners|
    ensures forall i :: 0 <= i < |miners| ==> Snapshot(miners, now)[i] == Sample(now, miners[i].0, miners[i].1)
  {
    if miners != [] {
      SnapshotHasEveryMiner(miners[..|miners| - 1], now);
    }
  }

  /** The supported ranges: 1, 7, 30 and 90 days in 288, 672, 720 and 720 buckets that fill them exactly. */
  lemma SupportedRanges(r: HistoryRange)
    requires r in HISTORY_RANGES
    ensures (r.hours, r.ExpectedPoints()) in {(24, 288), (168, 672), (720, 720), (2160, 720)}
    ensures r.ExpectedPoints() * r.bucketSeconds == r.hours * 3600
  {
  }

  lemma WindowWithinRetention(now: int, r: HistoryRange)
    requires r in HISTORY_RANGES
    ensures Window(now, r).0 > now - RETENTION
  {
  }

  /** The retention delete never changes what any supported window shows at that instant. */
  lemma {:induction false} RetentionIsInvisible(rows: seq<Sample>, minerId: int, now: int, r: HistoryRange)
    requires r in HISTORY_RANGES
    ensures Selected(Retained(rows, now), minerId, Window(now, r)) == Selected(rows, minerId, Window(now, r))
  {
    if rows != [] {
      var n := |rows| - 1;
      RetentionIsInvisible(rows[..n], minerId, now, r);
      WindowWithinRetention(now, r);
      var kept := Retained(rows[..n], now);
      assert (kept + [rows[n]])[..|kept|] == kept;
    }
  }
}
