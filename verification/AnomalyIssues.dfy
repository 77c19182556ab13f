/**
 The issue state machine of one (miner, code) pair and the tables that hold all of them
 (app/anomalies/repository.py, app/anomalies/service.py).
 */
module AnomalyIssues {
  import opened Prelude

  datatype Issue = Issue(active: bool, firstSeen: int, lastSeen: int, resolvedAt: Option<int>)

  /** What the tables hold for one pair: its candidate's since_ts and its issues in id order. */
  datatype Track = Track(candidate: Option<int>, issues: seq<Issue>)

  const EMPTY := Track(None, [])

  /** The arguments of one transition. */
  datatype Scan = Scan(now: int, observed: bool, suppressed: bool, grace: int)

  /** SELECT ... status='ACTIVE' ORDER BY id DESC LIMIT 1 */
  function LastActive(issues: seq<Issue>): (i: Option<nat>)
    ensures i.Some? ==> i.value < |issues| && issues[i.value].active
    ensures i.None? <==> forall k :: 0 <= k < |issues| ==> !issues[k].active
  {
    if issues == [] then None
    else
      var n := |issues| - 1;
      if issues[n].active then Some(n) else LastActive(issues[..n])
  }

  /** Whether the newest issue is active; no other one ever is. */
  predicate IsActive(t: Track) {
    t.issues != [] && t.issues[|t.issues| - 1].active
  }

  /** Only the newest issue of a pair can be active, and never beside a candidate. */
  ghost predicate WellFormed(t: Track) {
    && (forall i :: 0 <= i < |t.issues| - 1 ==> !t.issues[i].active)
    && (t.candidate.Some? ==> !IsActive(t))
  }

  lemma ActiveIsNewest(t: Track)
    requires WellFormed(t)
    ensures LastActive(t.issues) == if IsActive(t) then Some(|t.issues| - 1) else None
  {
  }

  datatype Change = Nothing | Opened | Resolved

  function ChangeOf(t: Track, s: Scan): Change {
    if s.observed then
      if !IsActive(t) && !s.suppressed && t.candidate.Some? && s.now - t.candidate.value >= s.grace then Opened
      else Nothing
    else if IsActive(t) then Resolved else Nothing
  }

  function UpdateNewest(issues: seq<Issue>, i: Issue): seq<Issue>
    requires issues != []
  {
    issues[|issues| - 1 := i]
  }

  /** The row changes of one transition. */
  function Next(t: Track, s: Scan): Track {
    var n := |t.issues| - 1;
    if s.observed then
      if IsActive(t) then t.(issues := UpdateNewest(t.issues, t.issues[n].(lastSeen := s.now)))
      else if s.suppressed then t.(candidate := None)
      else if t.candidate.None? then t.(candidate := Some(s.now))
      else if s.now - t.candidate.value >= s.grace then
        Track(None, t.issues + [Issue(true, t.candidate.value, s.now, None)])
      else t
    else if IsActive(t) then
      Track(None, UpdateNewest(t.issues, t.issues[n].(active := false, lastSeen := s.now, resolvedAt := Some(s.now))))
    else Track(None, t.issues)
  }

  lemma NextIsWellFormed(t: Track, s: Scan)
    requires WellFormed(t)
    ensures WellFormed(Next(t, s))
    ensures IsActive(Next(t, s)) <==> ChangeOf(t, s) == Opened || (IsActive(t) && s.observed)
  {
  }

  /**
   What a transition stamps: an observed active issue is last seen now; a resolved one is closed now,
   its beginning kept; an opened one begins where its candidate did.
   */
  lemma TransitionStamps(t: Track, s: Scan)
    requires WellFormed(t)
    ensures IsActive(t) && s.observed ==>
              var i := Next(t, s).issues[|t.issues| - 1];
              i == t.issues[|t.issues| - 1].(lastSeen := s.now)
    ensures ChangeOf(t, s) == Resolved ==>
              && t.issues != [] && |Next(t, s).issues| == |t.issues|
              && Next(t, s).issues[|t.issues| - 1] ==
                 Issue(false, t.issues[|t.issues| - 1].firstSeen, s.now, Some(s.now))
    ensures ChangeOf(t, s) == Opened ==>
              && t.candidate.Some?
              && Next(t, s).issues == t.issues + [Issue(true, t.candidate.value, s.now, None)]
    ensures ChangeOf(t, s) == Resolved <==> IsActive(t) && !s.observed
  {
  }

  datatype Code = OFFLINE | OVERHEAT | SCHEDULE_MISMATCH

  datatype Key = Key(minerId: int, code: Code)

  /** The tables. Issues of one pair are listed in id order. */
  class IssueTables {
    var candidates: map<Key, int>
    var issues: map<Key, seq<Issue>>

    function TrackOf(key: Key): Track
      reads this
    {
      Track(if key in candidates then Some(candidates[key]) else None,
            if key in issues then issues[key] else [])
    }

    ghost predicate Valid()
      reads this
    {
      forall k :: WellFormed(TrackOf(k))
    }

    constructor ()
      ensures Valid() && forall k :: TrackOf(k) == EMPTY
    {
      candidates, issues := map[], map[];
    }

    /** transition_anomaly_condition: one pair moves by `Next`, every other pair stays. */
    method Transition(key: Key, s: Scan) returns (didOpen: bool, didResolve: bool)
      requires Valid()
      modifies this
      ensures Valid()
      ensures TrackOf(key) == Next(old(TrackOf(key)), s)
      ensures forall k :: k != key ==> TrackOf(k) == old(TrackOf(k))
      ensures didOpen <==> ChangeOf(old(TrackOf(key)), s) == Opened
      ensures didResolve <==> ChangeOf(old(TrackOf(key)), s) == Resolved
    {
      didOpen, didResolve := false, false;
      var rows := if key in issues then issues[key] else [];
      var active := LastActive(rows);
      ActiveIsNewest(TrackOf(key));
      NextIsWellFormed(TrackOf(key), s);
      if s.observed {
        if active.Some? {
          issues := issues[key := rows[active.value := rows[active.value].(lastSeen := s.now)]];
        } else if s.suppressed {
          candidates := candidates - {key};
        } else if key !in candidates {
          candidates := candidates[key := s.now];
        } else if s.now - candidates[key] >= s.grace {
          issues := issues[key := rows + [Issue(true, candidates[key], s.now, None)]];
          candidates := candidates - {key};
          didOpen := true;
        }
      } else {
        candidates := candidates - {key};
        if active.Some? {
          var closed := rows[active.value].(active := false, lastSeen := s.now, resolvedAt := Some(s.now));
          issues := issues[key := rows[active.value := closed]];
          didResolve := true;
        }
      }
      assert forall k :: k != key ==> TrackOf(k) == old(TrackOf(k));
    }
  }

  // ---- whole histories ----

  /** The state before scan |scans|. */
  function Fold(scans: seq<Scan>): Track {
    if scans == [] then EMPTY else Next(Fold(scans[..|scans| - 1]), scans[|scans| - 1])
  }

  predicate OpensAt(scans: seq<Scan>, k: nat)
    requires k < |scans|
  {
    ChangeOf(Fold(scans[..k]), scans[k]) == Opened
  }

  predicate ActiveBefore(scans: seq<Scan>, k: nat)
    requires k <= |scans|
  {
    IsActive(Fold(scans[..k]))
  }

  /** A scan that counts towards the grace period. */
  predicate Armed(s: Scan) {
    s.observed && !s.suppressed
  }

  /** The scans j .. k are armed and the one before j is not. */
  ghost predicate MaximalBlock(scans: seq<Scan>, j: int, k: int) {
    && 0 <= j <= k < |scans|
    && (forall i :: j <= i <= k ==> Armed(scans[i]))
    && (j > 0 ==> !Armed(scans[j - 1]))
  }

  /** The declarative opening condition, with `j` the start of the block. */
  ghost predicate DueAt(scans: seq<Scan>, j: int, k: int) {
    && MaximalBlock(scans, j, k) && j < k
    && scans[k].now - scans[j].now >= scans[k].grace
    && forall i :: j < i < k ==> scans[i].now - scans[j].now < scans[i].grace
  }

  /** The start of the maximal armed block that ends just before scan k. */
  function BlockStart(scans: seq<Scan>, k: nat): (j: nat)
    requires k <= |scans|
    ensures j <= k && (forall i :: j <= i < k ==> Armed(scans[i])) && (j > 0 ==> !Armed(scans[j - 1]))
  {
    if k == 0 || !Armed(scans[k - 1]) then k else BlockStart(scans, k - 1)
  }

  lemma FoldStep(scans: seq<Scan>, k: nat)
    requires k < |scans|
    ensures Fold(scans[..k + 1]) == Next(Fold(scans[..k]), scans[k])
  {
    assert scans[..k + 1][..k] == scans[..k];
  }

  lemma {:induction false} FoldIsWellFormed(scans: seq<Scan>)
    ensures WellFormed(Fold(scans))
  {
    if scans != [] {
      FoldIsWellFormed(scans[..|scans| - 1]);
      NextIsWellFormed(Fold(scans[..|scans| - 1]), scans[|scans| - 1]);
    }
  }

  lemma PrefixStep(scans: seq<Scan>, k: nat)
    requires k < |scans|
    ensures WellFormed(Fold(scans[..k])) && WellFormed(Fold(scans[..k + 1]))
    ensures ActiveBefore(scans, k + 1) <==> OpensAt(scans, k) || (ActiveBefore(scans, k) && scans[k].observed)
  {
    FoldStep(scans, k);
    FoldIsWellFormed(scans[..k]);
    NextIsWellFormed(Fold(scans[..k]), scans[k]);
  }

  /** The candidate remembers where the current block began, and no scan of it was due yet. */
  lemma {:induction false} CandidateIsBlockStart(scans: seq<Scan>, k: nat)
    requires k <= |scans| && !ActiveBefore(scans, k)
    ensures var j := BlockStart(scans, k);
            && Fold(scans[..k]).candidate == (if j < k then Some(scans[j].now) else None)
            && (forall i :: j < i < k ==> scans[i].now - scans[j].now < scans[i].grace)
  {
    if k > 0 {
      FoldStep(scans, k - 1);
      PrefixStep(scans, k - 1);
      if scans[k - 1].observed {
        CandidateIsBlockStart(scans, k - 1);
      }
    }
  }

  /** An issue opens at scan k exactly when none is active and k is the first due scan of its block. */
  lemma OpensExactly(scans: seq<Scan>, k: nat)
    requires k < |scans|
    ensures OpensAt(scans, k) <==> !ActiveBefore(scans, k) && exists j :: DueAt(scans, j, k)
    ensures forall j :: OpensAt(scans, k) && DueAt(scans, j, k) ==>
              Fold(scans[..k + 1]).issues == Fold(scans[..k]).issues + [Issue(true, scans[j].now, scans[k].now, None)]
  {
    if !ActiveBefore(scans, k) {
      var b := BlockStart(scans, k);
      CandidateIsBlockStart(scans, k);
      FoldStep(scans, k);
      if OpensAt(scans, k) {
        assert DueAt(scans, b, k);
      }
      forall j | DueAt(scans, j, k) ensures j == b {
        BlocksCoincide(scans, j, b, k);
      }
    }
  }

  lemma BlocksCoincide(scans: seq<Scan>, j: int, b: nat, k: nat)
    requires MaximalBlock(scans, j, k) && j < k
    requires b <= k && (forall i :: b <= i < k ==> Armed(scans[i])) && (b > 0 ==> !Armed(scans[b - 1]))
    ensures j == b
  {
  }

  /** An issue is active exactly from its opening for as long as the condition stays observed. */
  lemma {:induction false} ActiveSinceOpening(scans: seq<Scan>, k: nat)
    requires k <= |scans|
    ensures ActiveBefore(scans, k) <==>
            exists m :: 0 <= m < k && OpensAt(scans, m) && forall i :: m < i < k ==> scans[i].observed
  {
    if k > 0 {
      PrefixStep(scans, k - 1);
      ActiveSinceOpening(scans, k - 1);
      if ActiveBefore(scans, k) && !OpensAt(scans, k - 1) {
        var m :| 0 <= m < k - 1 && OpensAt(scans, m) && forall i :: m < i < k - 1 ==> scans[i].observed;
        assert forall i :: m < i < k ==> scans[i].observed;
      }
      if m :| 0 <= m < k && OpensAt(scans, m) && forall i :: m < i < k ==> scans[i].observed {
        assert m < k - 1 ==> scans[k - 1].observed;
      }
    }
  }

  /** Maintenance restarts the grace period: a scan within `grace` of a suppressed one cannot open. */
  lemma MaintenanceRestartsGrace(scans: seq<Scan>, m: nat, k: nat)
    requires m < k < |scans| && scans[m].suppressed
    requires forall i, j :: 0 <= i <= j < |scans| ==> scans[i].now <= scans[j].now
    requires scans[k].now - scans[m].now < scans[k].grace
    ensures !OpensAt(scans, k)
  {
    OpensExactly(scans, k);
    assert forall j :: MaximalBlock(scans, j, k) ==> m < j;
  }

  // ---- issue history ----

  /** The audit events of a history in order. */
  function Events(scans: seq<Scan>): seq<Change> {
    if scans == [] then []
    else
      var n := |scans| - 1;
      var c := ChangeOf(Fold(scans[..n]), scans[n]);
      if c == Nothing then Events(scans[..n]) else Events(scans[..n]) + [c]
  }

  /** ISSUE_OPEN and ISSUE_RESOLVED strictly alternate, starting with an opening. */
  ghost predicate Alternate(events: seq<Change>) {
    forall i :: 0 <= i < |events| ==> events[i] == if i % 2 == 0 then Opened else Resolved
  }

  lemma {:induction false} EventsAlternate(scans: seq<Scan>)
    ensures Alternate(Events(scans))
    ensures |Events(scans)| % 2 == (if IsActive(Fold(scans)) then 1 else 0)
    ensures |Fold(scans).issues| == (|Events(scans)| + 1) / 2
  {
    if scans != [] {
      var n := |scans| - 1;
      EventsAlternate(scans[..n]);
      FoldIsWellFormed(scans[..n]);
      NextIsWellFormed(Fold(scans[..n]), scans[n]);
    }
  }

  /** With a clock that never goes back, the issues of a pair occupy disjoint stretches of time. */
  ghost predicate Disjoint(issues: seq<Issue>, now: int) {
    && (forall i :: 0 <= i < |issues| ==>
          && issues[i].firstSeen <= issues[i].lastSeen <= now
          && (!issues[i].active <==> issues[i].resolvedAt.Some?)
          && (issues[i].resolvedAt.Some? ==> issues[i].resolvedAt.value == issues[i].lastSeen))
    && (forall i :: 0 <= i < |issues| - 1 ==>
          && issues[i].resolvedAt.Some?
          && issues[i].resolvedAt.value <= issues[i + 1].firstSeen)
  }

  lemma {:induction false} IssuesAreDisjoint(scans: seq<Scan>, now: int)
    requires forall i, j :: 0 <= i <= j < |scans| ==> scans[i].now <= scans[j].now
    requires scans != [] ==> scans[|scans| - 1].now <= now
    ensures Disjoint(Fold(scans).issues, now)
    ensures var t := Fold(scans);
            t.candidate.Some? ==>
              && t.candidate.value <= now
              && (t.issues != [] ==>
                    && t.issues[|t.issues| - 1].resolvedAt.Some?
                    && t.issues[|t.issues| - 1].resolvedAt.value <= t.candidate.value)
  {
    if scans != [] {
      var n := |scans| - 1;
      IssuesAreDisjoint(scans[..n], scans[n].now);
      FoldIsWellFormed(scans[..n]);
      NextIsWellFormed(Fold(scans[..n]), scans[n]);
    }
  }

  // ---- overheating with hysteresis ----

  datatype Reading = Reading(now: int, temp: Option<real>, suppressed: bool)

  /** overheat_observed: the threshold drops to `clear` while an issue is active. */
  function OverheatObserved(temp: Option<real>, active: bool, hot: real, clear: real): bool {
    temp.Some? && temp.value >= if active then clear else hot
  }

  /** The OVERHEAT scans a history of readings produces under one effective policy. */
  function HotScans(readings: seq<Reading>, hot: real, clear: real, grace: int): (scans: seq<Scan>)
    ensures |scans| == |readings|
  {
    if readings == [] then []
    else
      var n := |readings| - 1;
      var before := HotScans(readings[..n], hot, clear, grace);
      before + [Scan(readings[n].now, OverheatObserved(readings[n].temp, IsActive(Fold(before)), hot, clear),
                     readings[n].suppressed, grace)]
  }

  lemma {:induction false} HotScansPrefix(readings: seq<Reading>, hot: real, clear: real, grace: int, k: nat)
    requires k < |readings|
    ensures var scans := HotScans(readings, hot, clear, grace);
            && scans[..k] == HotScans(readings[..k], hot, clear, grace)
            && scans[k].now == readings[k].now && scans[k].suppressed == readings[k].suppressed
            && scans[k].grace == grace
            && (scans[k].observed <==> OverheatObserved(readings[k].temp, ActiveBefore(scans, k), hot, clear))
  {
    var n := |readings| - 1;
    var scans := HotScans(readings, hot, clear, grace);
    assert scans[..n] == HotScans(readings[..n], hot, clear, grace);
    if k < n {
      HotScansPrefix(readings[..n], hot, clear, grace, k);
      assert readings[..n][..k] == readings[..k];
      assert scans[..n][..k] == scans[..k];
    }
  }

  lemma {:induction false} BlockWithoutIssue(scans: seq<Scan>, j: nat, k: nat)
    requires j <= k < |scans| && !ActiveBefore(scans, k)
    requires forall i :: j <= i <= k ==> scans[i].observed
    ensures forall i :: j <= i <= k ==> !ActiveBefore(scans, i)
  {
    if j < k {
      PrefixStep(scans, k - 1);
      BlockWithoutIssue(scans, j, k - 1);
    }
  }

  /** An OVERHEAT issue opens only after consecutive unsuppressed readings at or above `hot`. */
  lemma OverheatOpensOnlyWhenHot(readings: seq<Reading>, hot: real, clear: real, grace: int, k: nat)
    requires clear < hot && k < |readings|
    requires OpensAt(HotScans(readings, hot, clear, grace), k)
    ensures exists j: nat :: j < k && readings[k].now - readings[j].now >= grace
              && forall i :: j <= i <= k ==>
                   readings[i].temp.Some? && readings[i].temp.value >= hot && !readings[i].suppressed
  {
    var scans := HotScans(readings, hot, clear, grace);
    OpensExactly(scans, k);
    var j :| DueAt(scans, j, k);
    BlockWithoutIssue(scans, j, k);
    forall i | j <= i <= k
      ensures readings[i].temp.Some? && readings[i].temp.value >= hot && !readings[i].suppressed
    {
      HotScansPrefix(readings, hot, clear, grace, i);
      assert Armed(scans[i]);
    }
    HotScansPrefix(readings, hot, clear, grace, j);
    HotScansPrefix(readings, hot, clear, grace, k);
  }

  /** A reading in [clear, hot) neither opens nor resolves; below `clear`, or missing, resolves. */
  lemma HysteresisBand(readings: seq<Reading>, hot: real, clear: real, grace: int, k: nat)
    requires clear < hot && k < |readings|
    ensures var scans := HotScans(readings, hot, clear, grace);
            var change := ChangeOf(Fold(scans[..k]), scans[k]);
            && (readings[k].temp.Some? && clear <= readings[k].temp.value < hot ==> change == Nothing)
            && (change == Resolved <==>
                 (ActiveBefore(scans, k) && (readings[k].temp.None? || readings[k].temp.value < clear)))
  {
    HotScansPrefix(readings, hot, clear, grace, k);
  }
}
