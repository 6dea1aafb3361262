/**
 * `core::background`: the synchronisation that runs once in a detached
 * thread when the plugin starts, and the means to stop it. The thread and
 * the main code share the atomic `state`; the model makes the thread's end
 * an explicit step (`Finish`) and gives `stop` the moment the thread ends
 * as an input.
 */
module Background {
  import opened Wrappers
  import Sync

  /** `state_t`: `none` is `NotRun`. */
  datatype State = NotRun | Started | Finished | Canceled

  /** `stop` sleeps at most this many times, 100 ms each. */
  const MaxTries: nat := 100

  /**
   * The state the thread leaves: `canceled` when the initial sleep or the
   * run was canceled, `finished` after a run that succeeded or threw any
   * other error (which is reported).
   */
  function EndState(sleepCanceled: bool, outcome: Sync.RunOutcome): (s: State)
    ensures s == Canceled <==> sleepCanceled || outcome == Sync.RunCanceled
    ensures s != Canceled ==> s == Finished
  {
    if sleepCanceled then Canceled
    else match outcome
      case RunCanceled => Canceled
      case _ => Finished
  }

  /**
   * The number of 100 ms sleeps `stop` takes when the thread's end becomes
   * visible after `ends` sleeps (`None`: not within the wait): it checks
   * after every sleep, and gives up after `MaxTries`. So it stops at the
   * first check that sees the end, or after `MaxTries` sleeps, and no
   * earlier check saw the end.
   */
  function StopSleeps(ends: Option<nat>): (n: nat)
    ensures 1 <= n <= MaxTries
    ensures n == MaxTries || (ends.Some? && ends.value <= n)
    ensures ends.Some? && ends.value > 0 ==> n <= ends.value
  {
    if ends.Some? && ends.value <= MaxTries then (if ends.value == 0 then 1 else ends.value)
    else MaxTries
  }

  class Runner {
    var state: State
    /** Whether `stopper` holds a stop state (it starts as `nostopstate`). */
    var hasStopper: bool
    /** Whether a stop was requested through the current `stopper`. */
    var stopRequested: bool

    constructor ()
      ensures state == NotRun && !hasStopper && !stopRequested
    {
      state := NotRun;
      hasStopper := false;
      stopRequested := false;
    }

    /** `run`: marks the task started and keeps the new thread's stop source. */
    method Run()
      modifies this
      ensures state == Started && hasStopper && !stopRequested
    {
      state := Started;
      hasStopper := true;
      stopRequested := false;
    }

    /** The detached thread's last step: it records how it ended. */
    method Finish(sleepCanceled: bool, outcome: Sync.RunOutcome)
      modifies this
      ensures state == EndState(sleepCanceled, outcome)
      ensures hasStopper == old(hasStopper) && stopRequested == old(stopRequested)
    {
      if sleepCanceled {
        state := Canceled;
        return;
      }
      match outcome {
        case RunCanceled => state := Canceled;
        case _ => state := Finished;
      }
    }

    /** `run_once`: starts the task unless it has already finished. */
    method RunOnce()
      modifies this
      ensures old(state) == Finished ==>
                state == old(state) && hasStopper == old(hasStopper) && stopRequested == old(stopRequested)
      ensures old(state) != Finished ==> state == Started && hasStopper && !stopRequested
    {
      if state != Finished {
        Run();
      }
    }

    /**
     * `stop`: only a started task is stopped. It requests the stop, then
     * sleeps and checks, until the thread has left `started` or `MaxTries`
     * sleeps have passed, and then drops the stop source whether or not the
     * thread stopped. `ends` says after how many sleeps the thread's end
     * becomes visible, and `last` the state it leaves. Returns the number of
     * sleeps.
     */
    method Stop(ends: Option<nat>, last: State) returns (sleeps: nat)
      requires last == Finished || last == Canceled
      modifies this
      ensures old(state) != Started ==>
                sleeps == 0 && state == old(state) &&
                hasStopper == old(hasStopper) && stopRequested == old(stopRequested)
      ensures old(state) == Started ==>
                sleeps == StopSleeps(ends) && stopRequested && !hasStopper &&
                state == (if ends.Some? && ends.value <= MaxTries then last else Started)
    {
      sleeps := 0;
      if state != Started {
        return;
      }
      stopRequested := true;
      var tries := MaxTries;
      while true
        invariant 0 < tries <= MaxTries && sleeps == MaxTries - tries
        invariant state == Started
        invariant stopRequested
        invariant ends.Some? ==> sleeps < ends.value || sleeps == 0
        decreases tries
      {
        sleeps := sleeps + 1;
        if ends.Some? && ends.value <= sleeps {
          state := last;
        }
        tries := tries - 1;
        if !(state == Started && tries != 0) {
          break;
        }
      }
      hasStopper := false;
    }
  }
}
