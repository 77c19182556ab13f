/**
 The control_jobs table, the lock-protected enqueue of app/control/queue.py and the restart step
 of app/db.py, under every interleaving with the workers.
 */
module ControlJobs {
  import opened Prelude

  datatype Status = Queued | Running | Verified | Failed | Aborted

  datatype JobAction = Pause | Resume | Reboot

  datatype MinerState = Mining | Paused | Starting | Restarting | Idle | Offline | Unknown

  datatype Driver = Awesome | BitmainStock | Unset

  const CONTROL_MAX_ATTEMPTS := 3

  datatype Miner = Miner(id: int, enabled: bool, driver: Driver, lastState: MinerState)

  /** A control_jobs row; the job's id is its position in the table, which only grows. */
  datatype Job = Job(minerId: int, action: JobAction, manual: bool, maxAttempts: nat,
                     status: Status, attempts: nat, finalState: Option<MinerState>)

  predicate Active(j: Job) {
    j.status == Queued || j.status == Running
  }

  predicate Terminal(j: Job) {
    !Active(j)
  }

  /** get_active_control_job: the newest active job of a miner. */
  function ActiveJob(jobs: seq<Job>, minerId: int): (id: Option<nat>)
    ensures id.Some? ==> id.value < |jobs| && Active(jobs[id.value]) && jobs[id.value].minerId == minerId
    ensures id.None? <==> forall i :: 0 <= i < |jobs| && jobs[i].minerId == minerId ==> !Active(jobs[i])
  {
    if jobs == [] then None
    else
      var n := |jobs| - 1;
      if jobs[n].minerId == minerId && Active(jobs[n]) then Some(n) else ActiveJob(jobs[..n], minerId)
  }

  function NewJob(minerId: int, action: JobAction, manual: bool): Job {
    Job(minerId, action, manual, if action == Reboot then 1 else CONTROL_MAX_ATTEMPTS, Queued, 0, None)
  }

  // ---- the writes a worker makes to its own job ----

  datatype Write =
    | MinerNotFound
    | Begin(attempts: nat)
    | Attempt(n: nat)
    | Observe(state: MinerState)
    | Finish(ok: bool, state: MinerState)

  /** How far a worker is with its job. */
  datatype Phase = Waiting | Executing(attempts: nat) | Done

  /** The write protocol of a worker: what may follow what. */
  function After(p: Phase, maxAttempts: nat, w: Write): Option<Phase> {
    match (p, w)
    case (Waiting, MinerNotFound) => Some(Done)
    case (Waiting, Begin(a)) => if a <= maxAttempts then Some(Executing(a)) else None
    case (Executing(a), Attempt(n)) => if n == a + 1 && n <= maxAttempts then Some(Executing(n)) else None
    case (Executing(a), Observe(_)) => Some(p)
    case (Executing(_), Finish(_, _)) => Some(Done)
    case _ => None
  }

  /** A worker's writes in order. */
  datatype Script = NoWrites | Then(before: Script, write: Write)

  /** The phase a script of writes reaches, if every write of it follows the protocol. */
  function Follows(maxAttempts: nat, ws: Script): Option<Phase> {
    match ws
    case NoWrites => Some(Waiting)
    case Then(before, w) =>
      match Follows(maxAttempts, before)
      case None => None
      case Some(p) => After(p, maxAttempts, w)
  }

  /** update_control_job: the named columns of one row are overwritten, whatever its status. */
  function Written(j: Job, w: Write): Job {
    match w
    case MinerNotFound => j.(status := Failed)
    case Begin(a) => j.(status := Running, attempts := if a > 0 then a else j.attempts)
    case Attempt(n) => j.(attempts := n)
    case Observe(s) => j.(finalState := Some(s))
    case Finish(ok, s) => j.(status := if ok then Verified else Failed, finalState := Some(s))
  }

  /** The row a script of writes leaves. */
  function AfterScript(j: Job, ws: Script): Job {
    match ws
    case NoWrites => j
    case Then(before, w) => Written(AfterScript(j, before), w)
  }

  /**
   What a protocol-keeping script makes of a queued row: QUEUED before any write, FAILED for a
   missing miner, RUNNING with the phase's attempts while it executes, and then VERIFIED or FAILED
   with the reported state, as the closing write says.
   */
  lemma {:induction false} ScriptDecidesRow(j: Job, ws: Script)
    requires j.status == Queued && j.attempts == 0
    requires Follows(j.maxAttempts, ws).Some?
    ensures var r := AfterScript(j, ws);
            && r.minerId == j.minerId && r.action == j.action && r.maxAttempts == j.maxAttempts && r.manual == j.manual
            && (ws.Then? && ws.write.Observe? ==> r.finalState == Some(ws.write.state))
            && (match Follows(j.maxAttempts, ws).value
                case Waiting => r.status == Queued && r.attempts == 0
                case Executing(a) => r.status == Running && r.attempts == a
                case Done =>
                  && ws.Then? && (ws.write == MinerNotFound || ws.write.Finish?)
                  && (ws.write == MinerNotFound ==> r.status == Failed)
                  && (ws.write.Finish? ==> r.finalState == Some(ws.write.state))
                  && (ws.write.Finish? ==> r.status == if ws.write.ok then Verified else Failed))
  {
    match ws
    case NoWrites =>
    case Then(before, w) => ScriptDecidesRow(j, before);
  }

  // ---- the whole system ----

  /**
   `awaiting` holds the jobs whose enqueue has left the lock but not yet handed them to the
   executor; `workers` holds the tasks the executor owns.
   */
  datatype System = System(jobs: seq<Job>, overrides: map<int, int>, awaiting: set<nat>, workers: map<nat, Phase>)

  const EMPTY := System([], map[], {}, map[])

  datatype Step =
    | Enqueue(minerId: int, action: JobAction, manual: bool, overrideUntil: int)
    | Submit(id: nat)
    | Work(id: nat, write: Write)
    | Vanish(id: nat)
    | Restart

  /** Manual pause and resume set an override; a reboot and the scheduler do not. */
  function Enqueued(s: System, minerId: int, action: JobAction, manual: bool, overrideUntil: int): System {
    if ActiveJob(s.jobs, minerId).Some? then s
    else
      s.(jobs := s.jobs + [NewJob(minerId, action, manual)],
         overrides := if manual && action != Reboot then s.overrides[minerId := overrideUntil] else s.overrides,
         awaiting := s.awaiting + {|s.jobs|})
  }

  function AbortedJob(j: Job): Job {
    if Active(j) then j.(status := Aborted) else j
  }

  function AbortActive(jobs: seq<Job>): (after: seq<Job>)
    ensures |after| == |jobs|
    ensures forall i :: 0 <= i < |jobs| ==> after[i] == AbortedJob(jobs[i])
  {
    seq(|jobs|, i requires 0 <= i < |jobs| => AbortedJob(jobs[i]))
  }

  predicate Enabled(s: System, step: Step) {
    match step
    case Enqueue(_, _, _, _) => true
    case Submit(id) => id in s.awaiting
    case Work(id, w) => id in s.workers && id < |s.jobs| && After(s.workers[id], s.jobs[id].maxAttempts, w).Some?
    case Vanish(id) => id in s.workers || id in s.awaiting
    case Restart => true
  }

  /** One atomic step; a restart loses every thread before the abort statement runs. */
  function Apply(s: System, step: Step): System
    requires Enabled(s, step)
  {
    match step
    case Enqueue(m, a, manual, until) => Enqueued(s, m, a, manual, until)
    case Submit(id) => s.(awaiting := s.awaiting - {id}, workers := s.workers[id := Waiting])
    case Work(id, w) =>
      s.(jobs := s.jobs[id := Written(s.jobs[id], w)],
         workers := s.workers[id := After(s.workers[id], s.jobs[id].maxAttempts, w).value])
    case Vanish(id) => s.(awaiting := s.awaiting - {id}, workers := s.workers - {id})
    case Restart => System(AbortActive(s.jobs), s.overrides, {}, map[])
  }

  ghost predicate Runs(s: System, steps: seq<Step>, t: System)
    decreases |steps|
  {
    if steps == [] then t == s
    else Enabled(s, steps[0]) && Runs(Apply(s, steps[0]), steps[1..], t)
  }

  // ---- safety ----

  ghost predicate OneActivePerMiner(jobs: seq<Job>) {
    forall i, j :: 0 <= i < j < |jobs| && Active(jobs[i]) && Active(jobs[j]) ==> jobs[i].minerId != jobs[j].minerId
  }

  ghost predicate Inv(s: System) {
    && OneActivePerMiner(s.jobs)
    && (forall id :: id in s.awaiting ==> id < |s.jobs| && id !in s.workers && InPhase(s.jobs[id], Waiting))
    && (forall id :: id in s.workers ==> id < |s.jobs| && InPhase(s.jobs[id], s.workers[id]))
    && (forall i :: 0 <= i < |s.jobs| ==> s.jobs[i].attempts <= s.jobs[i].maxAttempts <= CONTROL_MAX_ATTEMPTS)
  }

  ghost predicate InPhase(j: Job, p: Phase) {
    match p
    case Waiting => j.status == Queued && j.attempts == 0
    case Executing(a) => j.status == Running && j.attempts == a
    case Done => j.status == Verified || j.status == Failed
  }

  /** The only status changes there are, and the steps that may make them. */
  ghost predicate Moves(before: Job, after: Job, restart: bool) {
    || after.status == before.status
    || (!restart && before.status == Queued && (after.status == Running || after.status == Failed))
    || (!restart && before.status == Running && (after.status == Verified || after.status == Failed))
    || (restart && Active(before) && after.status == Aborted)
  }

  lemma EnqueueKeepsInv(s: System, minerId: int, action: JobAction, manual: bool, until: int)
    requires Inv(s)
    ensures Inv(Enqueued(s, minerId, action, manual, until))
  {
  }

  lemma WorkKeepsInv(s: System, id: nat, w: Write)
    requires Inv(s) && Enabled(s, Work(id, w))
    ensures Inv(Apply(s, Work(id, w)))
  {
    var t := Apply(s, Work(id, w));
    assert InPhase(t.jobs[id], t.workers[id]);
    assert forall i :: 0 <= i < |s.jobs| && Active(t.jobs[i]) ==>
        Active(s.jobs[i]) && t.jobs[i].minerId == s.jobs[i].minerId;
    assert OneActivePerMiner(t.jobs);
  }

  lemma StepKeepsInv(s: System, step: Step)
    requires Inv(s) && Enabled(s, step)
    ensures Inv(Apply(s, step))
  {
    match step
    case Enqueue(m, a, manual, until) => EnqueueKeepsInv(s, m, a, manual, until);
    case Work(id, w) => WorkKeepsInv(s, id, w);
    case _ =>
  }

  lemma StepMoves(s: System, step: Step)
    requires Inv(s) && Enabled(s, step)
    ensures var t := Apply(s, step);
            |s.jobs| <= |t.jobs|
            && (forall i :: 0 <= i < |s.jobs| ==>
                 && Moves(s.jobs[i], t.jobs[i], step == Restart)
                 && (Terminal(s.jobs[i]) ==> t.jobs[i] == s.jobs[i])
                 && t.jobs[i].minerId == s.jobs[i].minerId && t.jobs[i].action == s.jobs[i].action)
  {
  }

  /** How far along its life a status is; terminal statuses share the last place. */
  function Rank(s: Status): nat {
    match s
    case Queued => 0
    case Running => 1
    case _ => 2
  }

  /** Everything that holds of every run: the invariant, forward-only statuses, frozen terminal rows. */
  lemma {:induction false} RunIsSafe(s: System, steps: seq<Step>, t: System)
    requires Inv(s) && Runs(s, steps, t)
    ensures Inv(t) && |s.jobs| <= |t.jobs|
    ensures forall i :: 0 <= i < |s.jobs| ==>
              Rank(s.jobs[i].status) <= Rank(t.jobs[i].status)
              && (Terminal(s.jobs[i]) ==> t.jobs[i] == s.jobs[i])
    ensures (forall k :: 0 <= k < |steps| ==> steps[k] != Restart) ==>
              forall i :: 0 <= i < |s.jobs| && Active(s.jobs[i]) ==> t.jobs[i].status != Aborted
    decreases |steps|
  {
    if steps != [] {
      StepKeepsInv(s, steps[0]);
      StepMoves(s, steps[0]);
      RunIsSafe(Apply(s, steps[0]), steps[1..], t);
    }
  }

  /** Each miner has at most one active job in every state reachable from an empty table. */
  lemma ReachableIsSafe(steps: seq<Step>, t: System)
    requires Runs(EMPTY, steps, t)
    ensures OneActivePerMiner(t.jobs)
    ensures forall i, j :: 0 <= i < j < |t.jobs| && t.jobs[i].minerId == t.jobs[j].minerId ==>
              t.jobs[i].status !in {Queued, Running} || t.jobs[j].status !in {Queued, Running}
    ensures forall id :: id in t.workers ==> id !in t.awaiting
  {
    RunIsSafe(EMPTY, steps, t);
  }

  /** A request for a miner with an active job changes nothing at all. */
  lemma AlreadyActiveChangesNothing(s: System, minerId: int, action: JobAction, manual: bool, until: int, id: nat)
    requires Inv(s) && id < |s.jobs| && Active(s.jobs[id]) && s.jobs[id].minerId == minerId
    ensures Apply(s, Enqueue(minerId, action, manual, until)) == s
    ensures ActiveJob(s.jobs, minerId) == Some(id)
  {
  }

  /**
   An accepted request is its miner's active job from then on and nobody else's; only a manual
   pause or resume moves an override, and only that miner's.
   */
  lemma AcceptedBecomesActive(s: System, minerId: int, action: JobAction, manual: bool, until: int)
    requires ActiveJob(s.jobs, minerId).None?
    ensures var t := Apply(s, Enqueue(minerId, action, manual, until));
            && ActiveJob(t.jobs, minerId) == Some(|s.jobs|)
            && t.jobs[|s.jobs|] == Job(minerId, action, manual, if action == Reboot then 1 else 3, Queued, 0, None)
            && (forall m :: m != minerId ==> ActiveJob(t.jobs, m) == ActiveJob(s.jobs, m))
            && (if manual && action != Reboot then t.overrides == s.overrides[minerId := until]
                else t.overrides == s.overrides)
  {
    var t := Apply(s, Enqueue(minerId, action, manual, until));
    assert t.jobs[..|s.jobs|] == s.jobs;
  }

  /** A restart leaves no active job, and no worker that could touch one later. */
  lemma RestartAbortsAll(s: System)
    requires Inv(s)
    ensures var t := Apply(s, Restart);
            && t.awaiting == {} && t.workers == map[]
            && (forall i :: 0 <= i < |t.jobs| ==>
                 && t.jobs[i].status in {Verified, Failed, Aborted}
                 && (if s.jobs[i].status in {Queued, Running} then t.jobs[i] == s.jobs[i].(status := Aborted)
                     else t.jobs[i] == s.jobs[i]))
  {
  }

  /**
   A job no thread owns any more (its worker raised, stopped, or was never submitted) keeps its
   miner busy: it can end only through a restart.
   */
  lemma {:induction false} OrphanWaitsForRestart(s: System, steps: seq<Step>, t: System, id: nat)
    requires Inv(s) && Runs(s, steps, t)
    requires id < |s.jobs| && Active(s.jobs[id]) && id !in s.awaiting && id !in s.workers
    requires forall k :: 0 <= k < |steps| ==> steps[k] != Restart
    ensures id < |t.jobs| && t.jobs[id] == s.jobs[id]
    decreases |steps|
  {
    if steps != [] {
      StepKeepsInv(s, steps[0]);
      OrphanWaitsForRestart(Apply(s, steps[0]), steps[1..], t, id);
    }
  }

  /** A run without a restart that ends with the job in a terminal status. */
  ghost predicate Finishes(s: System, steps: seq<Step>, t: System, id: nat) {
    && Runs(s, steps, t) && (forall k :: 0 <= k < |steps| ==> steps[k] != Restart)
    && id < |t.jobs| && Terminal(t.jobs[id])
  }

  lemma RunOfOne(s: System, a: Step)
    requires Enabled(s, a)
    ensures Runs(s, [a], Apply(s, a))
  {
    assert [a][1..] == [];
  }

  lemma RunOfTwo(s: System, a: Step, b: Step)
    requires Enabled(s, a) && Enabled(Apply(s, a), b)
    ensures Runs(s, [a, b], Apply(Apply(s, a), b))
  {
    RunOfOne(Apply(s, a), b);
    assert [a, b][1..] == [b];
  }

  /** An active job a thread still owns can end without a restart. */
  lemma OwnedCanFinish(s: System, id: nat) returns (steps: seq<Step>, t: System)
    requires Inv(s) && id < |s.jobs| && Active(s.jobs[id]) && (id in s.awaiting || id in s.workers)
    ensures Finishes(s, steps, t, id)
  {
    if id in s.awaiting {
      steps := [Submit(id), Work(id, MinerNotFound)];
      t := Apply(Apply(s, Submit(id)), Work(id, MinerNotFound));
      RunOfTwo(s, Submit(id), Work(id, MinerNotFound));
    } else {
      var w := if s.workers[id] == Waiting then MinerNotFound else Finish(false, Unknown);
      steps, t := [Work(id, w)], Apply(s, Work(id, w));
      RunOfOne(s, Work(id, w));
    }
  }

  /** Without a restart an active job can end exactly when some thread still owns it. */
  lemma CanFinishIffOwned(s: System, id: nat)
    requires Inv(s) && id < |s.jobs| && Active(s.jobs[id])
    ensures (exists steps, t :: Finishes(s, steps, t, id)) <==> id in s.awaiting || id in s.workers
  {
    if steps, t :| Finishes(s, steps, t, id) {
      if id !in s.awaiting && id !in s.workers {
        OrphanWaitsForRestart(s, steps, t, id);
      }
    }
    if id in s.awaiting || id in s.workers {
      var steps, t := OwnedCanFinish(s, id);
    }
  }

  /** The orphan of an unset driver: its worker writes RUNNING and raises. */
  lemma OrphanIsReachable(minerId: int) returns (steps: seq<Step>, t: System)
    ensures Runs(EMPTY, steps, t) && forall k :: 0 <= k < |steps| ==> steps[k] != Restart
    ensures |t.jobs| == 1 && t.jobs[0].minerId == minerId && t.jobs[0].status == Running
    ensures 0 !in t.awaiting && 0 !in t.workers
  {
    var a, b := Enqueue(minerId, JobAction.Pause, false, 0), Submit(0);
    var c, d := Work(0, Begin(0)), Vanish(0);
    var s1 := Apply(EMPTY, a);
    var s2 := Apply(s1, b);
    var s3 := Apply(s2, c);
    t := Apply(s3, d);
    steps := [a, b, c, d];
    RunOfTwo(s2, c, d);
    assert [b, c, d][1..] == [c, d];
    assert Runs(s1, [b, c, d], t);
    assert steps[1..] == [b, c, d];
  }

  // ---- the table itself ----

  datatype QueueResult = Refused | AlreadyActive(activeId: nat) | Accepted(newId: nat)

  /** The checks both enqueue functions make before taking the lock. */
  predicate Controllable(miner: Option<Miner>) {
    miner.Some? && miner.value.enabled && miner.value.driver != Unset
  }

  class JobTable {
    var jobs: seq<Job>
    var overrides: map<int, int>

    constructor ()
      ensures jobs == [] && overrides == map[]
    {
      jobs, overrides := [], map[];
    }

    /** SELECT ... ORDER BY id DESC LIMIT 1 */
    method GetActiveControlJob(minerId: int) returns (id: Option<nat>)
      ensures id == ActiveJob(jobs, minerId)
    {
      var i := |jobs|;
      assert jobs[..i] == jobs;
      while i > 0
        invariant 0 <= i <= |jobs|
        invariant ActiveJob(jobs, minerId) == ActiveJob(jobs[..i], minerId)
      {
        i := i - 1;
        assert jobs[..i + 1][..i] == jobs[..i];
        if jobs[i].minerId == minerId && Active(jobs[i]) {
          return Some(i);
        }
      }
      return None;
    }

    /** The lock section shared by queue_control and queue_reboot: one Enqueue step. */
    method Queue(miner: Option<Miner>, action: JobAction, manual: bool, transition: Option<int>)
      returns (result: QueueResult)
      requires OneActivePerMiner(jobs)
      modifies this
      ensures OneActivePerMiner(jobs)
      ensures result == if !Controllable(miner) then Refused
                        else match ActiveJob(old(jobs), miner.value.id)
                          case Some(id) => AlreadyActive(id)
                          case None => Accepted(|old(jobs)|)
      ensures result.Refused? <==> miner.None? || !miner.value.enabled || miner.value.driver == Unset
      ensures !Controllable(miner) ==> jobs == old(jobs) && overrides == old(overrides)
      ensures Controllable(miner) ==>
                var t := Enqueued(System(old(jobs), old(overrides), {}, map[]), miner.value.id, action, manual,
                    transition.GetOr(0));
                jobs == t.jobs && overrides == t.overrides
    {
      if miner.None? || !miner.value.enabled || miner.value.driver == Unset {
        return Refused;
      }
      var active := GetActiveControlJob(miner.value.id);
      if active.Some? {
        return AlreadyActive(active.value);
      }
      if manual && action != Reboot {
        var overrideUntil := if transition.Some? then transition.value else 0;
        overrides := overrides[miner.value.id := overrideUntil];
      }
      var id := |jobs|;
      jobs := jobs + [NewJob(miner.value.id, action, manual)];
      return Accepted(id);
    }

    /** set_manual_override, a transaction of its own inside the lock section. */
    method SetManualOverride(minerId: int, overrideUntil: int)
      modifies this`overrides
      ensures overrides == old(overrides)[minerId := overrideUntil]
    {
      overrides := overrides[minerId := overrideUntil];
    }

    /** UPDATE control_jobs ... WHERE id=? has no status guard. */
    method UpdateControlJob(id: nat, w: Write)
      modifies this`jobs
      ensures jobs == if id < |old(jobs)| then old(jobs)[id := Written(old(jobs)[id], w)] else old(jobs)
    {
      if id < |jobs| {
        jobs := jobs[id := Written(jobs[id], w)];
      }
    }

    /** The UPDATE statement of init_db. */
    method AbortOnRestart()
      modifies this`jobs
      ensures jobs == AbortActive(old(jobs))
    {
      var after: seq<Job> := [];
      for i := 0 to |jobs|
        invariant |after| == i && forall k :: 0 <= k < i ==> after[k] == AbortedJob(jobs[k])
      {
        after := after + [if jobs[i].status == Queued || jobs[i].status == Running
                          then jobs[i].(status := Aborted) else jobs[i]];
      }
      jobs := after;
    }
  }
}
