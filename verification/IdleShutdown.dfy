/**
  The daemon's idle shutdown (src/daemon.ts): one timer, re-armed by every activity and measured from
  the last one, which shuts the daemon down if it fires with nothing going on. The clock is an integer
  that never goes back; a timer may fire late but not early.
 */
module IdleShutdown {
  import opened Wrappers

  datatype State = State(
    now: int, lastActivity: int, timer: Option<int>,
    requests: nat, streams: nat, runs: nat, poolBusy: bool, down: bool)

  /** `Http` is any request reaching the server; a pool edge is reported when the pool tells its subscribers. */
  datatype Step =
    | Tick(ms: nat)
    | Fire
    | Http
    | RequestBegins
    | RequestEnds
    | StreamBegins
    | StreamEnds
    | RunBegins
    | RunEnds
    | PoolTaken
    | PoolFreed(reported: bool)

  function Max(a: int, b: int): int
  {
    if a > b then a else b
  }

  function Armed(s: State, timeout: nat): State
  {
    s.(timer := if timeout == 0 then None else Some(s.now + Max(0, timeout - (s.now - s.lastActivity))))
  }

  function Touched(s: State, timeout: nat): State
  {
    Armed(s.(lastActivity := s.now), timeout)
  }

  predicate Idle(s: State)
  {
    !s.poolBusy && s.requests == 0 && s.streams == 0 && s.runs == 0
  }

  function Fired(s: State): State
  {
    s.(timer := None, down := s.down || Idle(s))
  }

  function Begin(now: int, timeout: nat): State
  {
    Armed(State(now, now, None, 0, 0, 0, false, false), timeout)
  }

  function Next(s: State, timeout: nat, step: Step): State
  {
    if s.down then s
    else
      match step
      case Tick(ms) => s.(now := s.now + ms)
      case Fire => if s.timer.Some? && s.now >= s.timer.value then Fired(s) else s
      case Http => Touched(s, timeout)
      case RequestBegins => s.(requests := s.requests + 1)
      case RequestEnds => if s.requests > 0 then Touched(s.(requests := s.requests - 1), timeout) else s
      case StreamBegins => s.(streams := s.streams + 1)
      case StreamEnds => if s.streams > 0 then Touched(s.(streams := s.streams - 1), timeout) else s
      case RunBegins => Touched(s.(runs := s.runs + 1), timeout)
      case RunEnds => if s.runs > 0 then Touched(s.(runs := s.runs - 1), timeout) else s
      case PoolTaken => s.(poolBusy := true)
      case PoolFreed(reported) =>
        if !s.poolBusy then s
        else if reported then Armed(s.(poolBusy := false), timeout)
        else s.(poolBusy := false)
  }

  function After(now: int, timeout: nat, steps: seq<Step>): State
  {
    if |steps| == 0 then Begin(now, timeout)
    else Next(After(now, timeout, steps[..|steps| - 1]), timeout, steps[|steps| - 1])
  }

  // ---------- The closure's variables as an object ----------

  class Daemon {
    const timeout: nat
    var now: int
    var lastActivity: int
    var timer: Option<int>
    var requests: nat
    var streams: nat
    var runs: nat
    var poolBusy: bool
    var down: bool

    function View(): State
      reads this
    {
      State(now, lastActivity, timer, requests, streams, runs, poolBusy, down)
    }

    constructor (now: int, timeoutSeconds: nat)
      ensures timeout == timeoutSeconds * 1_000 && View() == Begin(now, timeout)
    {
      timeout := timeoutSeconds * 1_000;
      this.now, lastActivity := now, now;
      requests, streams, runs, poolBusy, down := 0, 0, 0, false, false;
      timer := None;
      new;
      ArmIdleShutdown();
    }

    method ArmIdleShutdown()
      modifies this
      ensures View() == Armed(old(View()), timeout)
    {
      timer := None;
      if timeout == 0 {
        return;
      }
      var delay := timeout - (now - lastActivity);
      if delay < 0 {
        delay := 0;
      }
      timer := Some(now + delay);
    }

    method Touch()
      modifies this
      ensures View() == Touched(old(View()), timeout)
    {
      lastActivity := now;
      ArmIdleShutdown();
    }

    method OnTimer()
      requires !down && timer.Some? && now >= timer.value
      modifies this
      ensures View() == Next(old(View()), timeout, Fire)
    {
      timer := None;
      if poolBusy || requests > 0 || streams > 0 || runs > 0 {
        return;
      }
      Shutdown();
    }

    method Shutdown()
      modifies this
      ensures View() == old(View()).(timer := None, down := true)
    {
      timer, down := None, true;
    }

    /** The end of one consumer request: the `finally` of the invoker. */
    method EndRequest()
      requires !down && requests > 0
      modifies this
      ensures View() == Next(old(View()), timeout, RequestEnds)
    {
      requests := requests - 1;
      Touch();
    }

    method EndStream()
      requires !down && streams > 0
      modifies this
      ensures View() == Next(old(View()), timeout, StreamEnds)
    {
      streams := streams - 1;
      Touch();
    }

    /** What the run registry calls after a run was added or removed. */
    method OnActiveRunChange(count: nat)
      requires !down && (count == runs + 1 || count == runs - 1)
      modifies this
      ensures View() == Next(old(View()), timeout, if count > old(runs) then RunBegins else RunEnds)
    {
      runs := count;
      Touch();
    }

    method OnPoolBecameIdle()
      requires !down && poolBusy
      modifies this
      ensures View() == Next(old(View()), timeout, PoolFreed(true))
    {
      poolBusy := false;
      ArmIdleShutdown();
    }
  }

  // ---------- Shutting down only when idle ----------

  predicate Measured(s: State, timeout: nat)
  {
    && s.lastActivity <= s.now
    && (s.timer.Some? ==> timeout > 0 && s.timer.value >= s.lastActivity + timeout)
  }

  lemma StepMeasured(s: State, timeout: nat, step: Step)
    requires Measured(s, timeout)
    ensures Measured(Next(s, timeout, step), timeout)
  {
  }

  lemma {:induction false} AlwaysMeasured(now: int, timeout: nat, steps: seq<Step>)
    ensures Measured(After(now, timeout, steps), timeout)
  {
    if |steps| > 0 {
      AlwaysMeasured(now, timeout, steps[..|steps| - 1]);
      StepMeasured(After(now, timeout, steps[..|steps| - 1]), timeout, steps[|steps| - 1]);
    }
  }

  lemma AfterOneMore(now: int, timeout: nat, steps: seq<Step>, step: Step)
    ensures After(now, timeout, steps + [step]) == Next(After(now, timeout, steps), timeout, step)
  {
    assert (steps + [step])[..|steps|] == steps;
  }

  /**
    The timer shuts the daemon down only when nothing is going on and the whole timeout has passed since the
    last activity.
   */
  lemma ShutsDownOnlyWhenIdle(now: int, timeout: nat, steps: seq<Step>, step: Step)
    ensures var s, t := After(now, timeout, steps), After(now, timeout, steps + [step]);
            !s.down && t.down ==> timeout > 0 && Idle(s) && s.now - s.lastActivity >= timeout
  {
    AlwaysMeasured(now, timeout, steps);
    assert (steps + [step])[..|steps|] == steps;
  }

  // ---------- Never stuck ----------

  /** Idle, running, and with nothing left to shut it down. */
  predicate Stuck(s: State, timeout: nat)
  {
    timeout > 0 && !s.down && Idle(s) && s.timer.None?
  }

  /** The pool falls idle without telling anyone, while no timer is armed and nothing else is going on. */
  predicate SilentEdge(s: State, step: Step)
  {
    && step == PoolFreed(false) && s.poolBusy && s.timer.None? && !s.down
    && s.requests == 0 && s.streams == 0 && s.runs == 0
  }

  predicate HasSilentEdge(now: int, timeout: nat, steps: seq<Step>)
  {
    |steps| > 0 &&
    (HasSilentEdge(now, timeout, steps[..|steps| - 1]) ||
     SilentEdge(After(now, timeout, steps[..|steps| - 1]), steps[|steps| - 1]))
  }

  /** From a state that is not stuck, exactly a silent edge gets the daemon stuck. */
  lemma StuckExact(s: State, timeout: nat, step: Step)
    requires timeout > 0 && Measured(s, timeout) && !Stuck(s, timeout)
    ensures Stuck(Next(s, timeout, step), timeout) <==> SilentEdge(s, step)
  {
  }

  /**
    In every reachable idle state with the timeout enabled a timer is armed, unless the pool once fell
    idle unreported at a moment with no timer and nothing else going on.
   */
  lemma {:induction false} IdleIsArmed(now: int, timeout: nat, steps: seq<Step>)
    requires !HasSilentEdge(now, timeout, steps)
    ensures !Stuck(After(now, timeout, steps), timeout)
    decreases |steps|
  {
    if |steps| > 0 {
      var before := steps[..|steps| - 1];
      IdleIsArmed(now, timeout, before);
      if timeout > 0 {
        AlwaysMeasured(now, timeout, before);
        StuckExact(After(now, timeout, before), timeout, steps[|steps| - 1]);
      }
    }
  }

  /** The pool that reports every edge leaves no silent one. */
  lemma {:induction false} ReportedEdgesSuffice(now: int, timeout: nat, steps: seq<Step>)
    requires forall i :: 0 <= i < |steps| ==> steps[i] != PoolFreed(false)
    ensures !HasSilentEdge(now, timeout, steps) && !Stuck(After(now, timeout, steps), timeout)
    decreases |steps|
  {
    if |steps| > 0 {
      ReportedEdgesSuffice(now, timeout, steps[..|steps| - 1]);
    }
    IdleIsArmed(now, timeout, steps);
  }

  /** An idle daemon left alone goes down as soon as its timer is due. */
  lemma IdleGoesDown(now: int, timeout: nat, steps: seq<Step>)
    requires timeout > 0 && !HasSilentEdge(now, timeout, steps)
    ensures var s := After(now, timeout, steps);
            Idle(s) && !s.down ==>
              s.timer.Some? && forall ms: nat :: s.now + ms >= s.timer.value ==>
                Next(Next(s, timeout, Tick(ms)), timeout, Fire).down
  {
    IdleIsArmed(now, timeout, steps);
  }

  predicate IsWork(step: Step)
  {
    !step.Tick? && !step.Fire?
  }

  lemma {:induction false} StuckUntilWork(s: State, timeout: nat, steps: seq<Step>)
    requires Stuck(s, timeout) && forall i :: 0 <= i < |steps| ==> !IsWork(steps[i])
    ensures Stuck(Run(s, timeout, steps), timeout)
    decreases |steps|
  {
    if |steps| > 0 {
      StuckUntilWork(s, timeout, steps[..|steps| - 1]);
    }
  }

  function Run(s: State, timeout: nat, steps: seq<Step>): State
  {
    if |steps| == 0 then s else Next(Run(s, timeout, steps[..|steps| - 1]), timeout, steps[|steps| - 1])
  }

  /**
    Without the report: a session outlasts the timer and ends silently. The daemon is then idle for
    good, since neither time nor timers change that.
   */
  lemma SilentEdgeGetsStuck(now: int, timeout: nat, later: seq<Step>)
    requires timeout > 0 && forall i :: 0 <= i < |later| ==> !IsWork(later[i])
    ensures var steps := [PoolTaken, Tick(timeout), Fire, PoolFreed(false)];
            Stuck(Run(After(now, timeout, steps), timeout, later), timeout)
  {
    var steps: seq<Step> := [];
    AfterOneMore(now, timeout, steps, PoolTaken);
    steps := steps + [PoolTaken];
    AfterOneMore(now, timeout, steps, Tick(timeout));
    steps := steps + [Tick(timeout)];
    assert After(now, timeout, steps) == State(now + timeout, now, Some(now + timeout), 0, 0, 0, true, false);
    AfterOneMore(now, timeout, steps, Fire);
    steps := steps + [Fire];
    AfterOneMore(now, timeout, steps, PoolFreed(false));
    steps := steps + [PoolFreed(false)];
    assert steps == [PoolTaken, Tick(timeout), Fire, PoolFreed(false)];
    StuckUntilWork(After(now, timeout, steps), timeout, later);
  }
}
