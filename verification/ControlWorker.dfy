/**
 The pause/resume worker of app/control/worker.py against an arbitrary environment: clock
 readings, send failures, stop signals and polled states are given round by round.
 */
module ControlWorker {
  import opened Prelude
  import opened ControlJobs

  const CONTROL_VERIFY_INTERVAL := 5

  /** control_timeout; None where the source raises. */
  function ControlTimeout(action: JobAction, driver: Driver): Option<int> {
    match (driver, action)
    case (BitmainStock, Pause) => Some(180)
    case (BitmainStock, Resume) => Some(360)
    case (Awesome, Pause) => Some(90)
    case (Awesome, Resume) => Some(180)
    case _ => None
  }

  function RetryAfter(driver: Driver): int {
    if driver == BitmainStock then 60 else 30
  }

  predicate ShouldRetry(action: JobAction, state: MinerState) {
    match action
    case Pause => state == Mining || state == Starting || state == Idle || state == Unknown
    case Resume => state == MinerState.Paused || state == Idle || state == Unknown
    case Reboot => false
  }

  function Target(action: JobAction): MinerState
    requires action != Reboot
  {
    if action == Pause then MinerState.Paused else Mining
  }

  /**
   What the environment answers in one pass of the loop: the stop flag and clock at the loop
   test, the clock at the retry test, the outcome of a send (if one is made) and the clock after
   it, whether the verify wait was cut short by the stop event, and the miner row then read
   (None: no row, or the poll raised).
   */
  datatype Round = Round(
    stopped: bool, clock: int, retryClock: int, sendOk: bool, sentClock: int,
    waitStopped: bool, read: Option<MinerState>)

  /**
   The clock never goes back within a round, and between two rounds lies a completed wait: 5 s
   after a read, 10 s after a failed send.
   */
  ghost predicate Paced(env: nat -> Round) {
    forall k: nat :: PacedAt(env, k)
  }

  predicate PacedAt(env: nat -> Round, k: nat) {
    && env(k).clock <= env(k).retryClock <= env(k).sentClock
    && (env(k + 1).stopped || env(k).sentClock + CONTROL_VERIFY_INTERVAL <= env(k + 1).clock)
  }

  /** A send attempt: the round it was made in, when it was decided, when it ended, and how. */
  datatype Send = Send(round: nat, decided: int, ended: int, ok: bool)

  ghost predicate SpacedBy(sends: seq<Send>, gap: int) {
    forall i :: 0 < i < |sends| ==> sends[i].decided - sends[i - 1].ended >= gap
  }

  ghost predicate Faithful(sends: seq<Send>, env: nat -> Round) {
    forall i :: 0 <= i < |sends| ==>
      && sends[i].ended == env(sends[i].round).sentClock && sends[i].ok == env(sends[i].round).sendOk
      && (i > 0 ==> sends[i - 1].round < sends[i].round && sends[i].decided == env(sends[i].round).retryClock)
  }

  lemma {:induction false} ClockAdvances(env: nat -> Round, k: nat)
    requires Paced(env)
    requires forall i: nat :: i <= k ==> !env(i).stopped
    ensures env(0).clock + CONTROL_VERIFY_INTERVAL * k <= env(k).clock
  {
    if k > 0 {
      ClockAdvances(env, k - 1);
      assert PacedAt(env, k - 1);
    }
  }

  /** Bounded, spaced, truthfully recorded sends, the first of them in the first round. */
  ghost predicate GoodSends(sends: seq<Send>, env: nat -> Round, gap: int) {
    && |sends| <= CONTROL_MAX_ATTEMPTS
    && (sends != [] ==> sends[0].round == 0)
    && Faithful(sends, env)
    && SpacedBy(sends, gap)
  }

  lemma SendRecorded(sends: seq<Send>, env: nat -> Round, gap: int, k: nat)
    requires GoodSends(sends, env, gap) && |sends| < CONTROL_MAX_ATTEMPTS
    requires if sends == [] then k == 0
             else sends[|sends| - 1].round < k && env(k).retryClock - sends[|sends| - 1].ended >= gap
    ensures GoodSends(sends + [Send(k, env(k).retryClock, env(k).sentClock, env(k).sendOk)], env, gap)
  {
  }

  // ---- what the environment makes the loop do ----

  /** What is fixed before the loop starts: the job's action, its timing, and the state on record. */
  datatype Task = Task(action: JobAction, gap: int, deadline: int, initial: MinerState)

  /** The worker's local variables, with the record of what it has done. */
  datatype Progress = Progress(
    attempts: nat, lastSend: int, lastState: MinerState, sends: seq<Send>, observed: seq<MinerState>, writes: Script)

  function TaskOf(action: JobAction, miner: Miner, start: int): Task
    requires action != Reboot && miner.driver != Unset
  {
    Task(action, RetryAfter(miner.driver), start + ControlTimeout(action, miner.driver).value, miner.lastState)
  }

  function Begun(task: Task): Progress {
    Progress(0, 0, task.initial, [], [], Then(NoWrites, Begin(0)))
  }

  /** need_send: the first round always sends, a later one only after the gap and from a wrong state. */
  predicate SendsNow(task: Task, p: Progress, round: Round) {
    || p.attempts == 0
    || (&& p.attempts < CONTROL_MAX_ATTEMPTS
        && round.retryClock - p.lastSend >= task.gap && ShouldRetry(task.action, p.lastState))
  }

  predicate SendFails(task: Task, p: Progress, round: Round) {
    SendsNow(task, p, round) && !round.sendOk
  }

  /** The round gets as far as reading the miner's row. */
  predicate Reads(task: Task, p: Progress, round: Round) {
    !SendFails(task, p, round) && !round.waitStopped && round.read.Some?
  }

  function AfterSend(task: Task, p: Progress, k: nat, round: Round): Progress {
    if !SendsNow(task, p, round) then p
    else
      p.(attempts := p.attempts + 1, lastSend := round.sentClock,
         sends := p.sends + [Send(k, round.retryClock, round.sentClock, round.sendOk)],
         writes := Then(p.writes, Attempt(p.attempts + 1)))
  }

  function AfterRound(task: Task, p: Progress, k: nat, round: Round): Progress {
    var q := AfterSend(task, p, k, round);
    if !Reads(task, p, round) then q
    else
      q.(lastState := round.read.value, observed := q.observed + [round.read.value],
         writes := Then(q.writes, Observe(round.read.value)))
  }

  datatype Outcome = NoMiner | Crashed | Vanished | Verified | SendsFailed | TimedOut

  /** How a round ends the loop, if it does. */
  function Ending(task: Task, p: Progress, round: Round): Option<Outcome>
    requires task.action != Reboot
  {
    if SendFails(task, p, round) then
      if p.attempts + 1 >= CONTROL_MAX_ATTEMPTS then Some(SendsFailed) else None
    else if round.waitStopped || round.read.None? then Some(Vanished)
    else if round.read.value == Target(task.action) then Some(Outcome.Verified)
    else None
  }

  /** The locals after `k` rounds. */
  function Run(task: Task, env: nat -> Round, k: nat): Progress {
    if k == 0 then Begun(task) else AfterRound(task, Run(task, env, k - 1), k - 1, env(k - 1))
  }

  predicate Entered(task: Task, env: nat -> Round, k: nat) {
    !env(k).stopped && env(k).clock < task.deadline
  }

  predicate GoesOn(task: Task, env: nat -> Round, k: nat)
    requires task.action != Reboot
  {
    Entered(task, env, k) && Ending(task, Run(task, env, k), env(k)).None?
  }

  /** Rounds 0 .. k-1 are all entered and none of them ends the loop. */
  ghost predicate Arrives(task: Task, env: nat -> Round, k: nat)
    requires task.action != Reboot
  {
    forall i: nat :: i < k ==> GoesOn(task, env, i)
  }

  /** Round `k` is entered and ends the loop with `outcome`. */
  ghost predicate EndsAt(task: Task, env: nat -> Round, k: nat, outcome: Outcome)
    requires task.action != Reboot
  {
    Arrives(task, env, k) && Entered(task, env, k) && Ending(task, Run(task, env, k), env(k)) == Some(outcome)
  }

  /** Round `k` is not entered any more. */
  ghost predicate ExpiresAt(task: Task, env: nat -> Round, k: nat)
    requires task.action != Reboot
  {
    Arrives(task, env, k) && !Entered(task, env, k)
  }

  /**
   The target is read in some entered round, reached without an earlier end, whose send (if it
   makes one) succeeds and whose wait is not cut short.
   */
  ghost predicate TargetSeen(task: Task, env: nat -> Round)
    requires task.action != Reboot
  {
    exists k: nat ::
      && Arrives(task, env, k) && Entered(task, env, k)
      && (SendsNow(task, Run(task, env, k), env(k)) ==> env(k).sendOk)
      && !env(k).waitStopped && env(k).read == Some(Target(task.action))
  }

  /** Some entered round, reached without an earlier end and without a failed send, is stopped or finds no row. */
  ghost predicate RowLost(task: Task, env: nat -> Round)
    requires task.action != Reboot
  {
    exists k: nat ::
      && Arrives(task, env, k) && Entered(task, env, k)
      && (SendsNow(task, Run(task, env, k), env(k)) ==> env(k).sendOk)
      && (env(k).waitStopped || env(k).read.None?)
  }

  /** Everything a worker did. */
  datatype Trace = Trace(outcome: Outcome, rounds: nat, sends: seq<Send>, observed: seq<MinerState>, writes: Script)

  /** The writes that close the job, by how the loop ended; `final` is the state it reports after a timeout. */
  function Closed(p: Progress, outcome: Outcome, final: Option<MinerState>): Script {
    match outcome
    case Verified => Then(p.writes, Finish(true, p.lastState))
    case SendsFailed => Then(p.writes, Finish(false, p.lastState))
    case TimedOut => Then(p.writes, Finish(false, final.GetOr(p.lastState)))
    case _ => p.writes
  }

  /** The trace of a loop that ended with `outcome` after `rounds` rounds. */
  function TraceOf(task: Task, env: nat -> Round, outcome: Outcome, rounds: nat, final: Option<MinerState>): Trace {
    var p := Run(task, env, rounds);
    Trace(outcome, rounds, p.sends, p.observed, Closed(p, outcome, final))
  }

  /** What a finished loop is: the environment's own run, ended where the environment ends it. */
  ghost predicate Concluded(t: Trace, task: Task, env: nat -> Round, final: Option<MinerState>)
    requires task.action != Reboot
  {
    && t == TraceOf(task, env, t.outcome, t.rounds, final)
    && (if t.outcome == TimedOut then ExpiresAt(task, env, t.rounds)
        else t.rounds > 0 && EndsAt(task, env, t.rounds - 1, t.outcome))
  }

  // ---- what holds of every run ----

  /** The reads of the rounds below `k` that got as far as reading. */
  function ReadsBelow(task: Task, env: nat -> Round, k: nat): seq<MinerState> {
    if k == 0 then []
    else if Reads(task, Run(task, env, k - 1), env(k - 1)) then ReadsBelow(task, env, k - 1) + [env(k - 1).read.value]
    else ReadsBelow(task, env, k - 1)
  }

  ghost predicate Sound(p: Progress, task: Task, env: nat -> Round, k: nat) {
    && p.attempts == |p.sends|
    && (p.attempts == 0 <==> k == 0)
    && GoodSends(p.sends, env, task.gap)
    && (p.sends != [] ==> p.lastSend == p.sends[|p.sends| - 1].ended && p.sends[|p.sends| - 1].round < k)
  }

  lemma SendKeepsSound(task: Task, env: nat -> Round, p: Progress, k: nat)
    requires Sound(p, task, env, k)
    ensures Sound(AfterSend(task, p, k, env(k)), task, env, k + 1)
  {
    if SendsNow(task, p, env(k)) {
      SendRecorded(p.sends, env, task.gap, k);
    }
  }

  lemma RoundKeepsSound(task: Task, env: nat -> Round, p: Progress, k: nat)
    requires Sound(p, task, env, k)
    ensures Sound(AfterRound(task, p, k, env(k)), task, env, k + 1)
  {
    SendKeepsSound(task, env, p, k);
    var q := AfterSend(task, p, k, env(k));
    assert AfterRound(task, p, k, env(k)).sends == q.sends && AfterRound(task, p, k, env(k)).lastSend == q.lastSend;
  }

  /** At every point of every run: at most 3 sends, spaced by the gap, and faithfully recorded. */
  lemma {:induction false} RunSendsWell(task: Task, env: nat -> Round, k: nat)
    ensures Sound(Run(task, env, k), task, env, k)
  {
    if k > 0 {
      RunSendsWell(task, env, k - 1);
      RoundKeepsSound(task, env, Run(task, env, k - 1), k - 1);
    }
  }

  /** What is observed is exactly what was read. */
  lemma {:induction false} RunObservesReads(task: Task, env: nat -> Round, k: nat)
    ensures Run(task, env, k).observed == ReadsBelow(task, env, k)
  {
    if k > 0 {
      RunObservesReads(task, env, k - 1);
    }
  }

  /** Nothing that was read before the loop ended is the target. */
  lemma {:induction false} NoTargetOnTheWay(task: Task, env: nat -> Round, k: nat)
    requires task.action != Reboot && Arrives(task, env, k)
    ensures Target(task.action) !in Run(task, env, k).observed
  {
    if k > 0 {
      NoTargetOnTheWay(task, env, k - 1);
      assert GoesOn(task, env, k - 1);
    }
  }

  lemma RoundWritesWell(task: Task, p: Progress, k: nat, round: Round)
    requires p.writes.Then? && !p.writes.write.Finish?
    requires Follows(CONTROL_MAX_ATTEMPTS, p.writes) == Some(Executing(p.attempts))
    ensures var q := AfterRound(task, p, k, round);
            && q.writes.Then? && !q.writes.write.Finish?
            && Follows(CONTROL_MAX_ATTEMPTS, q.writes) == Some(Executing(q.attempts))
  {
    var q := AfterSend(task, p, k, round);
    assert Follows(CONTROL_MAX_ATTEMPTS, q.writes) == Some(Executing(q.attempts));
  }

  /** The writes of a run keep to the job protocol. */
  lemma {:induction false} RunWritesWell(task: Task, env: nat -> Round, k: nat)
    ensures Follows(CONTROL_MAX_ATTEMPTS, Run(task, env, k).writes) == Some(Executing(Run(task, env, k).attempts))
    ensures Run(task, env, k).writes.Then? && !Run(task, env, k).writes.write.Finish?
  {
    if k > 0 {
      RunWritesWell(task, env, k - 1);
      RoundWritesWell(task, Run(task, env, k - 1), k - 1, env(k - 1));
    }
  }

  /** A run ends in one place and one way. */
  lemma EndIsUnique(t: Trace, u: Trace, task: Task, env: nat -> Round, final: Option<MinerState>)
    requires task.action != Reboot && Concluded(t, task, env, final) && Concluded(u, task, env, final)
    ensures t == u
  {
    var m := if t.outcome == TimedOut then t.rounds else t.rounds - 1;
    var n := if u.outcome == TimedOut then u.rounds else u.rounds - 1;
    assert m < n ==> GoesOn(task, env, m);
    assert n < m ==> GoesOn(task, env, n);
  }

  lemma EndDecides(t: Trace, task: Task, env: nat -> Round, final: Option<MinerState>, k: nat, outcome: Outcome)
    requires task.action != Reboot && Concluded(t, task, env, final)
    requires EndsAt(task, env, k, outcome) && outcome != TimedOut
    ensures t.outcome == outcome
  {
    EndIsUnique(t, TraceOf(task, env, outcome, k + 1, final), task, env, final);
  }

  lemma VerifiedIffTargetSeen(t: Trace, task: Task, env: nat -> Round, final: Option<MinerState>)
    requires task.action != Reboot && Concluded(t, task, env, final)
    ensures t.outcome == Outcome.Verified <==> TargetSeen(task, env)
  {
    if TargetSeen(task, env) {
      var k: nat :| && Arrives(task, env, k) && Entered(task, env, k)
                    && (SendsNow(task, Run(task, env, k), env(k)) ==> env(k).sendOk)
                    && !env(k).waitStopped && env(k).read == Some(Target(task.action));
      EndDecides(t, task, env, final, k, Outcome.Verified);
    }
  }

  lemma VanishedIffRowLost(t: Trace, task: Task, env: nat -> Round, final: Option<MinerState>)
    requires task.action != Reboot && Concluded(t, task, env, final)
    ensures t.outcome == Vanished <==> RowLost(task, env)
  {
    if RowLost(task, env) {
      var k: nat :| && Arrives(task, env, k) && Entered(task, env, k)
                    && (SendsNow(task, Run(task, env, k), env(k)) ==> env(k).sendOk)
                    && (env(k).waitStopped || env(k).read.None?);
      EndDecides(t, task, env, final, k, Vanished);
    }
  }

  /** A verdict, or the lack of one, is the environment's doing. */
  lemma VerdictIsExact(t: Trace, task: Task, env: nat -> Round, final: Option<MinerState>)
    requires task.action != Reboot && Concluded(t, task, env, final)
    ensures t.outcome == Outcome.Verified <==> TargetSeen(task, env)
    ensures t.outcome == Vanished <==> RowLost(task, env)
    ensures t.outcome == TimedOut ==> env(t.rounds).stopped || env(t.rounds).clock >= task.deadline
    ensures t.outcome !in {NoMiner, Crashed}
  {
    VerifiedIffTargetSeen(t, task, env, final);
    VanishedIffRowLost(t, task, env, final);
  }

  /** The sends of a finished loop; it gives up sending only after a third failure. */
  lemma SendsAreGood(t: Trace, task: Task, env: nat -> Round, final: Option<MinerState>)
    requires task.action != Reboot && Concluded(t, task, env, final)
    ensures GoodSends(t.sends, env, task.gap)
    ensures t.outcome == SendsFailed ==> |t.sends| == CONTROL_MAX_ATTEMPTS && !t.sends[|t.sends| - 1].ok
    ensures t.rounds > 0 ==> t.sends != []
  {
    RunSendsWell(task, env, t.rounds);
    if t.outcome == SendsFailed {
      RunSendsWell(task, env, t.rounds - 1);
    }
  }

  /** The reads of a finished loop: the target is among them exactly when it is verified. */
  lemma ReadsAreGood(t: Trace, task: Task, env: nat -> Round, final: Option<MinerState>)
    requires task.action != Reboot && Concluded(t, task, env, final)
    ensures t.observed == ReadsBelow(task, env, t.rounds)
    ensures t.outcome == Outcome.Verified <==> Target(task.action) in t.observed
  {
    RunObservesReads(task, env, t.rounds);
    NoTargetOnTheWay(task, env, if t.outcome == TimedOut then t.rounds else t.rounds - 1);
  }

  /** The job row tells the outcome: closed exactly with a verdict, and VERIFIED exactly when verified. */
  lemma WritesTellOutcome(t: Trace, task: Task, env: nat -> Round, final: Option<MinerState>)
    requires task.action != Reboot && Concluded(t, task, env, final)
    ensures Follows(CONTROL_MAX_ATTEMPTS, t.writes).Some?
    ensures Follows(CONTROL_MAX_ATTEMPTS, t.writes) == Some(Done) <==> t.outcome != Vanished
    ensures t.outcome == Outcome.Verified <==> t.writes.Then? && t.writes.write == Finish(true, Target(task.action))
  {
    RunWritesWell(task, env, t.rounds);
  }

  // ---- the states written out ----

  /**
   A pause is verified by a read of PAUSED and by nothing else, a resume by MINING: that read is the
   last one, and every read before it was something else.
   */
  lemma VerifiedByItsState(t: Trace, task: Task, env: nat -> Round, final: Option<MinerState>)
    requires task.action != Reboot && Concluded(t, task, env, final) && t.outcome == Outcome.Verified
    ensures t.rounds > 0 && t.observed != []
    ensures var last := t.observed[|t.observed| - 1];
            && env(t.rounds - 1).read == Some(last)
            && last == (if task.action == Pause then MinerState.Paused else Mining)
            && last !in t.observed[..|t.observed| - 1]
  {
    var k := t.rounds - 1;
    NoTargetOnTheWay(task, env, k);
    assert t.observed == Run(task, env, k).observed + [env(k).read.value];
  }

  /** A first round that sends and then reads that state verifies the job at once. */
  lemma FirstReadVerifies(t: Trace, task: Task, env: nat -> Round, final: Option<MinerState>)
    requires task.action != Reboot && Concluded(t, task, env, final)
    requires !env(0).stopped && env(0).clock < task.deadline && env(0).sendOk && !env(0).waitStopped
    requires env(0).read == Some(if task.action == Pause then MinerState.Paused else Mining)
    ensures t.outcome == Outcome.Verified && t.rounds == 1 && |t.sends| == 1 && t.sends[0].ok
  {
    assert Arrives(task, env, 0);
    EndDecides(t, task, env, final, 0, Outcome.Verified);
    EndIsUnique(t, TraceOf(task, env, Outcome.Verified, 1, final), task, env, final);
    assert Run(task, env, 1) == AfterRound(task, Run(task, env, 0), 0, env(0));
  }

  /**
   Whether a round sends: the first always; a later one exactly with an attempt left, the gap past,
   and the last state one the action can move: for a pause MINING, STARTING, IDLE or UNKNOWN, for a
   resume PAUSED, IDLE or UNKNOWN.
   */
  lemma SendsExactly(task: Task, env: nat -> Round, k: nat)
    requires task.action != Reboot
    ensures var before, after := Run(task, env, k), Run(task, env, k + 1);
            |after.sends| == |before.sends| + 1 <==>
            (|| k == 0
             || (&& 0 < |before.sends| < 3
                 && env(k).retryClock - before.sends[|before.sends| - 1].ended >= task.gap
                 && (if task.action == Pause then before.lastState in {Mining, Starting, Idle, Unknown}
                     else before.lastState in {MinerState.Paused, Idle, Unknown})))
  {
    RunSendsWell(task, env, k);
  }

  /** The state that decides a retry is the last one read, or the one on record before any read. */
  lemma {:induction false} LastStateIsLastRead(task: Task, env: nat -> Round, k: nat)
    ensures var p := Run(task, env, k);
            p.lastState == if p.observed == [] then task.initial else p.observed[|p.observed| - 1]
  {
    if k > 0 {
      LastStateIsLastRead(task, env, k - 1);
    }
  }

  /**
   What the job's row says when its worker is done: VERIFIED exactly when the target was read in
   time, still RUNNING exactly when the worker was stopped or lost the row, FAILED otherwise, with
   as many attempts as sends.
   */
  lemma RowTellsOutcome(t: Trace, task: Task, env: nat -> Round, final: Option<MinerState>, minerId: int, manual: bool)
    requires task.action != Reboot && Concluded(t, task, env, final)
    ensures var row := AfterScript(NewJob(minerId, task.action, manual), t.writes);
            && (row.status == Status.Verified <==> TargetSeen(task, env))
            && (row.status == Running <==> RowLost(task, env))
            && (row.status == Failed <==> t.outcome == TimedOut || t.outcome == SendsFailed)
            && (row.status == Status.Verified ==>
                  row.finalState == Some(if task.action == Pause then MinerState.Paused else Mining))
  {
    VerdictIsExact(t, task, env, final);
    WritesTellOutcome(t, task, env, final);
    RunWritesWell(task, env, t.rounds);
    ScriptDecidesRow(NewJob(minerId, task.action, manual), t.writes);
    ClosingWrite(t, task, env, final);
  }

  /** The closing write of each ending. */
  lemma ClosingWrite(t: Trace, task: Task, env: nat -> Round, final: Option<MinerState>)
    requires task.action != Reboot && Concluded(t, task, env, final)
    ensures t.outcome == Vanished ==> Follows(CONTROL_MAX_ATTEMPTS, t.writes) == Some(Executing(|t.sends|))
    ensures t.outcome == Outcome.Verified ==> t.writes.Then? && t.writes.write == Finish(true, Target(task.action))
    ensures t.outcome in {TimedOut, SendsFailed} ==> t.writes.Then? && t.writes.write.Finish? && !t.writes.write.ok
  {
    RunWritesWell(task, env, t.rounds);
    RunSendsWell(task, env, t.rounds);
    WritesTellOutcome(t, task, env, final);
  }

  /** The numbers: how long each job may take, in rounds, and how far apart its sends are. */
  lemma TimeoutsInNumbers(action: JobAction, miner: Miner, start: int)
    requires action != Reboot && miner.driver != Unset
    ensures var task := TaskOf(action, miner, start);
            && task.gap == (if miner.driver == Awesome then 30 else 60)
            && task.deadline - start ==
               (if miner.driver == Awesome then if action == Pause then 90 else 180
                else if action == Pause then 180 else 360)
            && task.action == action && task.initial == miner.lastState
  {
  }

  // ---- the loop of the source ----

  /** SEND / RETRY */
  method SendOrSkip(task: Task, p: Progress, k: nat, round: Round) returns (q: Progress, sent: bool)
    ensures q == AfterSend(task, p, k, round) && sent == SendsNow(task, p, round)
  {
    sent := false;
    if p.attempts == 0 {
      sent := true;
    } else if p.attempts < CONTROL_MAX_ATTEMPTS && round.retryClock - p.lastSend >= task.gap
              && ShouldRetry(task.action, p.lastState) {
      sent := true;
    }
    q := p;
    if sent {
      q := p.(attempts := p.attempts + 1, lastSend := round.sentClock,
              sends := p.sends + [Send(k, round.retryClock, round.sentClock, round.sendOk)],
              writes := Then(p.writes, Attempt(p.attempts + 1)));
    }
  }

  /** One pass of the loop: the locals after it, and how it ends the loop, if it does. */
  method Pass(task: Task, p: Progress, k: nat, round: Round) returns (q: Progress, ended: Option<Outcome>)
    requires task.action != Reboot
    ensures q == AfterRound(task, p, k, round) && ended == Ending(task, p, round)
  {
    var sent;
    q, sent := SendOrSkip(task, p, k, round);
    if sent && !round.sendOk {
      return q, if q.attempts >= CONTROL_MAX_ATTEMPTS then Some(SendsFailed) else None;
    }
    if round.waitStopped || round.read.None? {
      return q, Some(Vanished);
    }
    var state := round.read.value;
    q := q.(lastState := state, observed := q.observed + [state], writes := Then(q.writes, Observe(state)));
    return q, if state == Target(task.action) then Some(Outcome.Verified) else None;
  }

  /** Each round entered starts 5 s after the one before, and before the deadline. */
  lemma RoundsAreFew(task: Task, env: nat -> Round, start: int, k: nat)
    requires task.action != Reboot && Paced(env) && start <= env(0).clock
    requires Arrives(task, env, k) && Entered(task, env, k)
    ensures CONTROL_VERIFY_INTERVAL * k < task.deadline - start
  {
    forall i: nat | i <= k ensures !env(i).stopped {
      assert i < k ==> GoesOn(task, env, i);
    }
    ClockAdvances(env, k);
  }

  /** The send-and-verify loop of a job whose driver is supported. */
  method SendAndVerify(task: Task, start: int, env: nat -> Round, finalRead: Option<MinerState>) returns (trace: Trace)
    requires task.action != Reboot && Paced(env) && start <= env(0).clock && start < task.deadline
    ensures Concluded(trace, task, env, finalRead)
    ensures CONTROL_VERIFY_INTERVAL * trace.rounds < task.deadline - start + CONTROL_VERIFY_INTERVAL
  {
    var p := Begun(task);
    var k: nat := 0;
    while !env(k).stopped && env(k).clock < task.deadline
      invariant p == Run(task, env, k) && Arrives(task, env, k)
      invariant CONTROL_VERIFY_INTERVAL * k < task.deadline - start + CONTROL_VERIFY_INTERVAL
      decreases !env(k).stopped, task.deadline - env(k).clock
    {
      RoundsAreFew(task, env, start, k);
      assert PacedAt(env, k);
      var ended;
      p, ended := Pass(task, p, k, env(k));
      k := k + 1;
      if ended.Some? {
        return Trace(ended.value, k, p.sends, p.observed, Closed(p, ended.value, finalRead));
      }
    }
    return Trace(TimedOut, k, p.sends, p.observed, Closed(p, TimedOut, finalRead));
  }

  /**
   The worker of one job. `start` is the clock when the deadline is set; `finalRead` is the row
   read after the loop. A missing miner fails the job, an unsupported driver raises after RUNNING
   is written; otherwise the worker does what the environment makes it do, and VERIFIED means that
   the target was read in time.
   */
  method VerifiedControlWorker(
    action: JobAction, miner: Option<Miner>, start: int, env: nat -> Round, finalRead: Option<MinerState>)
    returns (trace: Trace)
    requires action != Reboot
    requires Paced(env) && start <= env(0).clock
    ensures miner.None? ==> trace == Trace(NoMiner, 0, [], [], Then(NoWrites, MinerNotFound))
    ensures miner.Some? && miner.value.driver == Unset ==> trace == Trace(Crashed, 0, [], [], Then(NoWrites, Begin(0)))
    ensures Follows(CONTROL_MAX_ATTEMPTS, trace.writes).Some?
    ensures miner.Some? && miner.value.driver != Unset ==>
              var task := TaskOf(action, miner.value, start);
              && Concluded(trace, task, env, finalRead)
              && GoodSends(trace.sends, env, RetryAfter(miner.value.driver))
              && trace.observed == ReadsBelow(task, env, trace.rounds)
              && (trace.outcome == Outcome.Verified <==> TargetSeen(task, env))
              && (trace.outcome == Vanished <==> RowLost(task, env))
              && (trace.outcome == TimedOut ==> env(trace.rounds).stopped || env(trace.rounds).clock >= task.deadline)
              && CONTROL_VERIFY_INTERVAL * trace.rounds
                 < ControlTimeout(action, miner.value.driver).value + CONTROL_VERIFY_INTERVAL
  {
    if miner.None? {
      return Trace(NoMiner, 0, [], [], Then(NoWrites, MinerNotFound));
    }
    var timeout := ControlTimeout(action, miner.value.driver);
    if timeout.None? {
      return Trace(Crashed, 0, [], [], Then(NoWrites, Begin(0)));
    }
    var task := TaskOf(action, miner.value, start);
    trace := SendAndVerify(task, start, env, finalRead);
    VerdictIsExact(trace, task, env, finalRead);
    SendsAreGood(trace, task, env, finalRead);
    ReadsAreGood(trace, task, env, finalRead);
    WritesTellOutcome(trace, task, env, finalRead);
  }
}
