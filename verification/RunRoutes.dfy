/**
  The daemon's run commands as one object (ConsumerDaemonRoutesV1 in src/consumer/daemon-routes.ts):
  start, and the registry of active and recently completed runs that wait reads.
 */
module RunRoutes {
  import opened Wrappers
  import opened StartOperation
  import BM = BoundedMemory

  const COMPLETED_BOUND: nat := 128

  type RunResult = string

  // ---------- Start, uninterrupted ----------

  function Rank(phase: Phase): nat
  {
    match phase
    case Reserving => 7
    case Checking(_) => 6
    case Starting(_) => 5
    case Making(_, _) => 4
    case Writing(_, _) => 3
    case Opening(_, _) => 2
    case Abandoning(_) => 1
    case Completing(_) => 1
    case _ => 0
  }

  /** An attempt run to its end with nothing in between. */
  function Finish(d: Durable, a: Attempt, verdict: Verdict): (Durable, Attempt)
    decreases Rank(a.phase)
  {
    if !Live(a) then (d, a)
    else
      var (e, b) := Advance(d, a, verdict);
      Finish(e, b, verdict)
  }

  function RunFor(s: State, i: nat, verdict: Verdict, n: nat): State
    decreases n
  {
    if n == 0 then s else RunFor(Next(s, Run(i, verdict)), i, verdict, n - 1)
  }

  /** Running to the end is a stretch of single steps, so what holds over all traces holds of it. */
  lemma {:induction false} FinishIsSteps(s: State, i: nat, verdict: Verdict, n: nat)
    requires i < |s.attempts| && n >= Rank(s.attempts[i].phase)
    ensures RunFor(s, i, verdict, n) ==
            State(Finish(s.disk, s.attempts[i], verdict).0, s.attempts[i := Finish(s.disk, s.attempts[i], verdict).1])
    decreases n
  {
    if n > 0 {
      FinishIsSteps(Next(s, Run(i, verdict)), i, verdict, n - 1);
    }
  }

  lemma FinishStep(d: Durable, a: Attempt, verdict: Verdict)
    requires Live(a)
    ensures var (e, b) := Advance(d, a, verdict);
            Finish(d, a, verdict) == Finish(e, b, verdict) && (!Live(b) ==> Finish(d, a, verdict) == (e, b))
  {
  }

  /** Making the directory, writing its metadata and opening its journal, in one go. */
  function Create(d: Durable, a: Attempt, run: RunId, artifact: Artifact): (Durable, Attempt)
  {
    if run in d.runs then (d, a.(phase := Stopped))
    else
      (d.(runs := d.runs[run := RunDir(Some(Meta(a.op, artifact)), true)]),
       a.(phase := Completing(Acceptance(a.op, artifact, run))))
  }

  lemma CreateIsFinish(d: Durable, a: Attempt, run: RunId, artifact: Artifact, verdict: Verdict)
    requires a.phase == Making(run, artifact)
    ensures var (e, b) := Create(d, a, run, artifact);
            Finish(d, a, verdict) == Finish(e, b, verdict) && (!Live(b) ==> Finish(d, a, verdict) == (e, b))
  {
    FinishStep(d, a, verdict);
    if run !in d.runs {
      var (e, b) := Advance(d, a, verdict);
      FinishStep(e, b, verdict);
      var (f, c) := Advance(e, b, verdict);
      FinishStep(f, c, verdict);
      var whole := RunDir(Some(Meta(a.op, artifact)), true);
      assert f.runs[run := whole] == d.runs[run := whole];
    }
  }

  datatype Waited = StillActive | Known(result: RunResult) | Inspect

  class Routes {
    var disk: Durable
    var active: set<RunId>
    var completed: seq<BM.Item<RunId, RunResult>>

    ghost predicate Valid()
      reads this
    {
      |completed| <= COMPLETED_BOUND && BM.DistinctKeys(completed)
    }

    constructor (disk: Durable)
      ensures Valid() && this.disk == disk && active == {} && completed == []
    {
      this.disk, active, completed := disk, {}, [];
    }

    /** The route for starting a run; `verdict` is what package resolution and preflight decide. */
    method Start(op: Op, args: Arguments, verdict: Verdict) returns (outcome: Attempt)
      requires Valid()
      modifies this
      ensures Valid() && completed == old(completed)
      ensures (disk, outcome) == Finish(old(disk), Attempt(op, args, Reserving), verdict)
      ensures active == old(active) + (set run | run in disk.runs && run !in old(disk).runs)
    {
      FinishStep(disk, Attempt(op, args, Reserving), verdict);
      outcome := ReserveRun(op, args);
      if outcome.phase.Checking? {
        outcome := StartReserved(op, args, outcome.phase.run, verdict);
      }
    }

    /** The rest of it, once a run id is reserved: an existing run is accepted again, any other is created. */
    method StartReserved(op: Op, args: Arguments, run: RunId, verdict: Verdict) returns (outcome: Attempt)
      requires Valid()
      modifies this
      ensures Valid() && completed == old(completed)
      ensures (disk, outcome) == Finish(old(disk), Attempt(op, args, Checking(run)), verdict)
      ensures active == old(active) + (set r | r in disk.runs && r !in old(disk).runs)
    {
      FinishStep(disk, Attempt(op, args, Checking(run)), verdict);
      outcome := Existing(disk, Attempt(op, args, Checking(run)), run);
      if outcome.phase.Starting? {
        FinishStep(disk, outcome, verdict);
        match verdict {
          case Refused =>
            return Attempt(op, args, Stopped);
          case SinkRequired =>
            FinishStep(disk, Attempt(op, args, Abandoning(run)), verdict);
            AbandonRun(op);
            return Attempt(op, args, Stopped);
          case Accepted(artifact) =>
            CreateIsFinish(disk, Attempt(op, args, Making(run, artifact)), run, artifact, verdict);
            outcome := CreateRun(op, args, run, artifact);
        }
      }
      if outcome.phase.Completing? {
        FinishStep(disk, outcome, verdict);
        outcome := CompleteWith(op, args, outcome.phase.acceptance);
      }
    }

    method ReserveRun(op: Op, args: Arguments) returns (a: Attempt)
      modifies this
      ensures (disk, a) == Reserve(old(disk), Attempt(op, args, Reserving))
      ensures active == old(active) && completed == old(completed)
    {
      if op in disk.records {
        var record := disk.records[op];
        if record.args != args {
          return Attempt(op, args, Stopped);
        }
        if record.result.Some? {
          return Attempt(op, args, Returned(record.result.value));
        }
        return Attempt(op, args, Checking(record.run));
      }
      var run := |disk.issued|;
      disk := disk.(records := disk.records[op := Record(args, run, None)], issued := disk.issued + [op]);
      return Attempt(op, args, Checking(run));
    }

    method AbandonRun(op: Op)
      modifies this
      ensures forall args, run ::
                (disk, Attempt(op, args, Stopped)) == Abandon(old(disk), Attempt(op, args, Abandoning(run)))
      ensures active == old(active) && completed == old(completed)
    {
      if op in disk.records && disk.records[op].result.None? {
        disk := disk.(records := disk.records - {op});
      }
    }

    method CreateRun(op: Op, args: Arguments, run: RunId, artifact: Artifact) returns (a: Attempt)
      modifies this
      ensures (disk, a) == Create(old(disk), Attempt(op, args, Making(run, artifact)), run, artifact)
      ensures active == old(active) + (if run in old(disk).runs then {} else {run}) && completed == old(completed)
    {
      if run in disk.runs {
        return Attempt(op, args, Stopped);
      }
      disk := disk.(runs := disk.runs[run := RunDir(None, false)]);
      disk := disk.(runs := disk.runs[run := RunDir(Some(Meta(op, artifact)), false)]);
      disk := disk.(runs := disk.runs[run := RunDir(Some(Meta(op, artifact)), true)]);
      assert disk.runs == old(disk).runs[run := RunDir(Some(Meta(op, artifact)), true)];
      RegisterActiveRun(run);
      return Attempt(op, args, Completing(Acceptance(op, artifact, run)));
    }

    method CompleteWith(op: Op, args: Arguments, acceptance: Acceptance) returns (outcome: Attempt)
      modifies this
      ensures (disk, outcome) == Complete(old(disk), Attempt(op, args, Completing(acceptance)), acceptance)
      ensures active == old(active) && completed == old(completed)
    {
      if op !in disk.records {
        return Attempt(op, args, Stopped);
      }
      var record := disk.records[op];
      if record.result.Some? {
        return Attempt(op, args, if record.result.value == acceptance then Returned(acceptance) else Stopped);
      }
      disk := disk.(records := disk.records[op := record.(result := Some(acceptance))]);
      return Attempt(op, args, Returned(acceptance));
    }

    method RegisterActiveRun(run: RunId)
      modifies this
      ensures active == old(active) + {run} && disk == old(disk) && completed == old(completed)
    {
      active := active + {run};
    }

    /** A run has ended; its result, if it has one, is kept until 128 others have come after it. */
    method CompleteActiveRun(run: RunId, result: Option<RunResult>)
      requires Valid()
      modifies this
      ensures Valid() && disk == old(disk) && active == old(active) - {run}
      ensures completed ==
              if result.Some? then BM.Trim(BM.Put(old(completed), run, result.value), COMPLETED_BOUND)
              else old(completed)
    {
      active := active - {run};
      if result.Some? {
        BM.PutExact(completed, run, result.value);
        completed := BM.Put(completed, run, result.value);
        if |completed| > COMPLETED_BOUND {
          completed := completed[1..];
        }
      }
    }

    method Wait(run: RunId) returns (waited: Waited)
      ensures waited.StillActive? <==> run in active
      ensures waited.Known? ==> BM.Item(run, waited.result) in completed
      ensures waited.Inspect? <==> run !in active && !BM.Has(completed, run)
    {
      if run in active {
        return StillActive;
      }
      if BM.Has(completed, run) {
        return Known(BM.Get(completed, run));
      }
      return Inspect;
    }
  }

  /** Of runs that each completed once, exactly the last 128 are answered from memory. */
  lemma LastCompletionsAreKept(history: seq<BM.Item<RunId, RunResult>>, i: nat)
    requires BM.DistinctKeys(history) && i < |history|
    ensures BM.Has(BM.Kept(history, COMPLETED_BOUND), history[i].key) <==> |history| - i <= COMPLETED_BOUND
    ensures |history| - i <= COMPLETED_BOUND ==> history[i] in BM.Kept(history, COMPLETED_BOUND)
  {
    BM.KeepsTheLast(history, COMPLETED_BOUND);
    BM.LastHolds(history, COMPLETED_BOUND, i);
  }
}
