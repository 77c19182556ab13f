/**
 The two-phase reboot worker of app/control/worker.py against an arbitrary sequence of polls.
 */
module RebootWorker {
  import opened Prelude
  import opened ControlJobs

  const REBOOT_POLL_INTERVAL := 5
  const REBOOT_TRANSITION_TIMEOUT := 120
  const REBOOT_RETURN_TIMEOUT := 600
  const REBOOT_STABLE_POLLS := 2

  /**
   One pass of either loop: the stop flag and clock at the loop test, whether the wait was cut
   short, and the miner row read after the poll (None: no such row).
   */
  datatype Poll = Poll(stopped: bool, clock: int, waitStopped: bool, row: Option<MinerState>)

  predicate PacedAt(env: nat -> Poll, k: nat) {
    env(k + 1).stopped || env(k).clock + REBOOT_POLL_INTERVAL <= env(k + 1).clock
  }

  ghost predicate Paced(env: nat -> Poll) {
    forall k: nat :: PacedAt(env, k)
  }

  /** Evidence that the device went down. */
  predicate Transition(initial: MinerState, row: Option<MinerState>) {
    row.Some? && (row.value == Offline || row.value == Unknown
                  || ((row.value == Starting || row.value == Restarting) && row.value != initial))
  }

  /** Evidence that the device is up again. */
  predicate Operational(row: Option<MinerState>) {
    row == Some(Mining) || row == Some(MinerState.Paused)
  }

  /** Pass `k` is entered: not stopped, and before the deadline. */
  predicate Entered(env: nat -> Poll, deadline: int, k: nat) {
    !env(k).stopped && env(k).clock < deadline
  }

  /** Passes 0 .. k are all entered and none is cut short. */
  ghost predicate Completed(env: nat -> Poll, deadline: int, k: nat) {
    forall i: nat :: i <= k ==> Entered(env, deadline, i) && !env(i).waitStopped
  }

  /** Two consecutive operational reads, the second in pass `m`. */
  predicate StableAt(env: nat -> Poll, m: nat) {
    m > 0 && Operational(env(m - 1).row) && Operational(env(m).row)
  }

  ghost predicate TransitionSeen(env: nat -> Poll, deadline: int, initial: MinerState) {
    exists k: nat :: Completed(env, deadline, k) && Transition(initial, env(k).row)
  }

  ghost predicate ReturnSeen(env: nat -> Poll, deadline: int) {
    exists m: nat :: Completed(env, deadline, m) && StableAt(env, m)
  }

  /** A wait of phase 1 is cut short in an entered pass, before any transition. */
  ghost predicate CutBeforeTransition(env: nat -> Poll, deadline: int, initial: MinerState) {
    exists k: nat ::
      && (forall i: nat :: i < k ==>
            Entered(env, deadline, i) && !env(i).waitStopped && !Transition(initial, env(i).row))
      && Entered(env, deadline, k) && env(k).waitStopped
  }

  /** A wait of phase 2 is cut short in an entered pass, before two operational reads. */
  ghost predicate CutBeforeReturn(env: nat -> Poll, deadline: int) {
    exists k: nat ::
      && (forall i: nat :: i < k ==> Entered(env, deadline, i) && !env(i).waitStopped && !StableAt(env, i))
      && Entered(env, deadline, k) && env(k).waitStopped
  }

  datatype Ending = Seen | Stopped | Expired

  /** PHASE 1: wait for the transition. */
  method AwaitTransition(env: nat -> Poll, deadline: int, initial: MinerState, begun: Script)
    returns (ending: Ending, transition: MinerState, writes: Script)
    requires Paced(env)
    requires Follows(1, begun) == Some(Executing(1))
    ensures ending == Seen ==> Transition(initial, Some(transition))
    ensures ending == Seen <==> TransitionSeen(env, deadline, initial)
    ensures ending == Stopped <==> CutBeforeTransition(env, deadline, initial)
    ensures Follows(1, writes) == Some(Executing(1))
  {
    writes, transition := begun, Unknown;
    var k: nat := 0;
    while Entered(env, deadline, k)
      invariant Follows(1, writes) == Some(Executing(1))
      invariant forall i: nat :: i < k ==>
                  Entered(env, deadline, i) && !env(i).waitStopped && !Transition(initial, env(i).row)
      decreases !env(k).stopped, deadline - env(k).clock
    {
      assert PacedAt(env, k);
      if env(k).waitStopped {
        return Stopped, transition, writes;
      }
      if env(k).row.None? {
        k := k + 1;
        continue;
      }
      var state := env(k).row.value;
      writes := Then(writes, Observe(state));
      if state == Offline || state == Unknown {
        assert Completed(env, deadline, k);
        return Seen, state, writes;
      }
      if (state == Starting || state == Restarting) && state != initial {
        assert Completed(env, deadline, k);
        return Seen, state, writes;
      }
      k := k + 1;
    }
    return Expired, transition, writes;
  }

  /** PHASE 2: wait for two consecutive operational reads. */
  method AwaitReturn(env: nat -> Poll, deadline: int, transition: MinerState, begun: Script)
    returns (ending: Ending, returned: MinerState, writes: Script)
    requires Paced(env)
    requires Follows(1, begun) == Some(Executing(1))
    ensures ending == Seen <==> ReturnSeen(env, deadline)
    ensures ending == Seen ==> Operational(Some(returned))
    ensures returned == transition || exists k: nat :: env(k).row == Some(returned)
    ensures ending == Stopped <==> CutBeforeReturn(env, deadline)
    ensures Follows(1, writes) == Some(Executing(1))
  {
    writes := begun;
    returned := transition;
    var stablePolls: nat := 0;
    var k: nat := 0;
    while Entered(env, deadline, k)
      invariant Follows(1, writes) == Some(Executing(1))
      invariant forall i: nat :: i < k ==> Entered(env, deadline, i) && !env(i).waitStopped
      invariant forall i: nat :: i < k ==> !StableAt(env, i)
      invariant returned == transition || exists i: nat :: env(i).row == Some(returned)
      invariant stablePolls == if k > 0 && Operational(env(k - 1).row) then 1 else 0
      decreases !env(k).stopped, deadline - env(k).clock
    {
      assert PacedAt(env, k);
      if env(k).waitStopped {
        return Stopped, returned, writes;
      }
      if env(k).row.None? {
        stablePolls := 0;
        k := k + 1;
        continue;
      }
      var state := env(k).row.value;
      returned := state;
      writes := Then(writes, Observe(state));
      if state == Mining || state == MinerState.Paused {
        stablePolls := stablePolls + 1;
      } else {
        stablePolls := 0;
      }
      if stablePolls >= REBOOT_STABLE_POLLS {
        assert Completed(env, deadline, k) && StableAt(env, k);
        return Seen, returned, writes;
      }
      k := k + 1;
    }
    return Expired, returned, writes;
  }

  datatype Outcome = NoMiner | SendFailed | RebootVerified | RebootFailed | Vanished

  /**
   The whole worker. `sendOk` is the outcome of the one send; `base1` and `base2` are the clock
   readings the two deadlines are computed from; `final1` and `final2` are the rows read after an
   expired phase. A reboot is verified exactly when a transition is seen in time and then two
   consecutive operational reads are seen in time.
   */
  method RebootWorker(
    miner: Option<Miner>, sendOk: bool,
    env1: nat -> Poll, base1: int, final1: Option<MinerState>,
    env2: nat -> Poll, base2: int, final2: Option<MinerState>)
    returns (outcome: Outcome, sends: nat, writes: Script)
    requires Paced(env1) && Paced(env2)
    ensures sends == if miner.Some? then 1 else 0
    ensures outcome == NoMiner <==> miner.None?
    ensures outcome == SendFailed <==> miner.Some? && !sendOk
    ensures outcome == RebootVerified <==>
              && miner.Some? && sendOk
              && TransitionSeen(env1, base1 + REBOOT_TRANSITION_TIMEOUT, miner.value.lastState)
              && ReturnSeen(env2, base2 + REBOOT_RETURN_TIMEOUT)
    ensures Follows(1, writes) == Some(if outcome == Vanished then Executing(1) else Done)
    ensures outcome == RebootVerified <==> writes.Then? && writes.write.Finish? && writes.write.ok
    ensures outcome == RebootVerified ==> Operational(Some(writes.write.state))
    ensures outcome == Vanished <==>
              && miner.Some? && sendOk
              && (|| CutBeforeTransition(env1, base1 + REBOOT_TRANSITION_TIMEOUT, miner.value.lastState)
                  || (&& TransitionSeen(env1, base1 + REBOOT_TRANSITION_TIMEOUT, miner.value.lastState)
                      && CutBeforeReturn(env2, base2 + REBOOT_RETURN_TIMEOUT)))
    ensures outcome == RebootFailed ==> writes.Then? && writes.write.Finish? && !writes.write.ok
  {
    sends := 0;
    if miner.None? {
      return NoMiner, sends, Then(NoWrites, MinerNotFound);
    }
    var initial := miner.value.lastState;
    writes := Then(NoWrites, Begin(1));
    sends := sends + 1;
    if !sendOk {
      return SendFailed, sends, Then(writes, Finish(false, initial));
    }
    var ending, transition;
    ending, transition, writes := AwaitTransition(env1, base1 + REBOOT_TRANSITION_TIMEOUT, initial, writes);
    if ending == Stopped {
      return Vanished, sends, writes;
    }
    if ending == Expired {
      var state := if final1.Some? then final1.value else initial;
      return RebootFailed, sends, Then(writes, Finish(false, state));
    }
    var returned;
    ending, returned, writes := AwaitReturn(env2, base2 + REBOOT_RETURN_TIMEOUT, transition, writes);
    if ending == Stopped {
      return Vanished, sends, writes;
    }
    if ending == Seen {
      return RebootVerified, sends, Then(writes, Finish(true, returned));
    }
    var state := if final2.Some? then final2.value else returned;
    return RebootFailed, sends, Then(writes, Finish(false, state));
  }

  /**
   What counts, with the states written out: a transition is a read of OFFLINE or UNKNOWN, or of
   STARTING or RESTARTING where that is new; a return is two consecutive reads of MINING or PAUSED.
   */
  lemma EvidenceIs(env: nat -> Poll, deadline: int, initial: MinerState)
    ensures TransitionSeen(env, deadline, initial) <==>
            exists k: nat :: Completed(env, deadline, k) && env(k).row.Some?
              && (|| env(k).row.value in {Offline, Unknown}
                  || (env(k).row.value in {Starting, Restarting} && env(k).row.value != initial))
    ensures ReturnSeen(env, deadline) <==>
            exists m: nat :: Completed(env, deadline, m) && m > 0
              && env(m - 1).row in {Some(Mining), Some(MinerState.Paused)}
              && env(m).row in {Some(Mining), Some(MinerState.Paused)}
  {
    if TransitionSeen(env, deadline, initial) {
      var k: nat :| Completed(env, deadline, k) && Transition(initial, env(k).row);
      assert Completed(env, deadline, k) && env(k).row.Some?;
    }
    forall k: nat
      ensures Transition(initial, env(k).row) <==>
              (&& env(k).row.Some?
               && (|| env(k).row.value in {Offline, Unknown}
                   || (env(k).row.value in {Starting, Restarting} && env(k).row.value != initial)))
    {
    }
    if ReturnSeen(env, deadline) {
      var m: nat :| Completed(env, deadline, m) && StableAt(env, m);
      assert Completed(env, deadline, m) && m > 0;
    }
    forall m: nat | m > 0
      ensures StableAt(env, m) <==>
              (&& env(m - 1).row in {Some(Mining), Some(MinerState.Paused)}
               && env(m).row in {Some(Mining), Some(MinerState.Paused)})
    {
    }
  }

  /** What the reboot job's row says when its worker is done. */
  lemma RebootRow(outcome: Outcome, writes: Script, minerId: int)
    requires Follows(1, writes) == Some(if outcome == Vanished then Executing(1) else Done)
    requires outcome == RebootVerified <==> writes.Then? && writes.write.Finish? && writes.write.ok
    ensures var row := AfterScript(NewJob(minerId, Reboot, true), writes);
            && (row.status == Verified <==> outcome == RebootVerified)
            && (row.status == Running <==> outcome == Vanished)
            && (row.status == Failed <==> outcome in {NoMiner, SendFailed, RebootFailed})
  {
    ScriptDecidesRow(NewJob(minerId, Reboot, true), writes);
  }

  /** A single operational read between two other reads, or a gap, never verifies a reboot. */
  lemma FlickerIsNotReturn(env: nat -> Poll, deadline: int)
    requires forall i: nat :: Operational(env(i).row) ==> !Operational(env(i + 1).row)
    ensures !ReturnSeen(env, deadline)
  {
    forall m: nat | m > 0 ensures !StableAt(env, m) {
      assert Operational(env(m - 1).row) ==> !Operational(env((m - 1) + 1).row);
    }
  }
}
