/**
  Starting a run through a client-chosen operation id (start and existingStartAcceptance in
  src/consumer/daemon-routes.ts, the operation store in src/consumer/scrape/run-operations.ts, and run
  creation in src/consumer/scrape/run-store.ts): every durable effect is a step of its own, and an
  attempt can stop before any of them, by a crash or an error. Attempts interleave.
 */
module StartOperation {
  import opened Wrappers

  type Op = string
  type Arguments = string
  type Artifact = string
  type RunId = nat

  datatype Acceptance = Acceptance(op: Op, artifact: Artifact, run: RunId)

  datatype Record = Record(args: Arguments, run: RunId, result: Option<Acceptance>)

  datatype Meta = Meta(op: Op, artifact: Artifact)

  /** A run directory; until `meta` is written there is no run. `sound` says that its journal has its first frame. */
  datatype RunDir = RunDir(meta: Option<Meta>, sound: bool)

  /** What is on disk. Run ids are fresh: `issued` lists for whom each was made. */
  datatype Durable = Durable(records: map<Op, Record>, runs: map<RunId, RunDir>, issued: seq<Op>)

  datatype Phase =
    | Reserving
    | Checking(run: RunId)
    | Starting(run: RunId)
    | Making(run: RunId, artifact: Artifact)
    | Writing(run: RunId, artifact: Artifact)
    | Opening(run: RunId, artifact: Artifact)
    | Abandoning(run: RunId)
    | Completing(acceptance: Acceptance)
    | Returned(acceptance: Acceptance)
    | Stopped

  datatype Attempt = Attempt(op: Op, args: Arguments, phase: Phase)

  /** What resolving the package and the preflight of the output decide; nothing durable has happened then. */
  datatype Verdict = Accepted(artifact: Artifact) | SinkRequired | Refused

  // ---------- One step of one attempt ----------

  function Reserve(d: Durable, a: Attempt): (Durable, Attempt)
  {
    if a.op in d.records then
      var record := d.records[a.op];
      (d, a.(phase :=
        if record.args != a.args then Stopped
        else if record.result.Some? then Returned(record.result.value)
        else Checking(record.run)))
    else
      var run := |d.issued|;
      (d.(records := d.records[a.op := Record(a.args, run, None)], issued := d.issued + [a.op]),
       a.(phase := Checking(run)))
  }

  /** The acceptance rebuilt from the run's metadata, if the run exists. */
  function Existing(d: Durable, a: Attempt, run: RunId): Attempt
  {
    if run !in d.runs || d.runs[run].meta.None? then a.(phase := Starting(run))
    else if !d.runs[run].sound || d.runs[run].meta.value.op != a.op then a.(phase := Stopped)
    else a.(phase := Completing(Acceptance(a.op, d.runs[run].meta.value.artifact, run)))
  }

  function Preflight(a: Attempt, run: RunId, verdict: Verdict): Attempt
  {
    match verdict
    case Accepted(artifact) => a.(phase := Making(run, artifact))
    case SinkRequired => a.(phase := Abandoning(run))
    case Refused => a.(phase := Stopped)
  }

  function MakeDirectory(d: Durable, a: Attempt, run: RunId, artifact: Artifact): (Durable, Attempt)
  {
    if run in d.runs then (d, a.(phase := Stopped))
    else (d.(runs := d.runs[run := RunDir(None, false)]), a.(phase := Writing(run, artifact)))
  }

  function Abandon(d: Durable, a: Attempt): (Durable, Attempt)
  {
    if a.op in d.records && d.records[a.op].result.None? then (d.(records := d.records - {a.op}), a.(phase := Stopped))
    else (d, a.(phase := Stopped))
  }

  function Complete(d: Durable, a: Attempt, acceptance: Acceptance): (Durable, Attempt)
  {
    if a.op !in d.records then (d, a.(phase := Stopped))
    else
      var record := d.records[a.op];
      if record.result.None? then
        (d.(records := d.records[a.op := record.(result := Some(acceptance))]), a.(phase := Returned(acceptance)))
      else (d, a.(phase := if record.result.value == acceptance then Returned(acceptance) else Stopped))
  }

  function Advance(d: Durable, a: Attempt, verdict: Verdict): (Durable, Attempt)
  {
    match a.phase
    case Reserving => Reserve(d, a)
    case Checking(run) => (d, Existing(d, a, run))
    case Starting(run) => (d, Preflight(a, run, verdict))
    case Making(run, artifact) => MakeDirectory(d, a, run, artifact)
    case Writing(run, artifact) =>
      (d.(runs := d.runs[run := RunDir(Some(Meta(a.op, artifact)), false)]), a.(phase := Opening(run, artifact)))
    case Opening(run, artifact) =>
      (d.(runs := d.runs[run := RunDir(Some(Meta(a.op, artifact)), true)]),
       a.(phase := Completing(Acceptance(a.op, artifact, run))))
    case Abandoning(_) => Abandon(d, a)
    case Completing(acceptance) => Complete(d, a, acceptance)
    case _ => (d, a)
  }

  // ---------- Interleaved attempts ----------

  datatype State = State(disk: Durable, attempts: seq<Attempt>)

  datatype Step =
    | Begin(op: Op, args: Arguments)
    | Run(i: nat, verdict: Verdict)
    | Stop(i: nat)

  predicate Live(a: Attempt)
  {
    !a.phase.Returned? && !a.phase.Stopped?
  }

  function Next(s: State, step: Step): State
  {
    match step
    case Begin(op, args) => s.(attempts := s.attempts + [Attempt(op, args, Reserving)])
    case Run(i, verdict) =>
      if i < |s.attempts| then
        var (disk, attempt) := Advance(s.disk, s.attempts[i], verdict);
        State(disk, s.attempts[i := attempt])
      else s
    case Stop(i) =>
      if i < |s.attempts| && Live(s.attempts[i]) then s.(attempts := s.attempts[i := s.attempts[i].(phase := Stopped)])
      else s
  }

  const EMPTY: State := State(Durable(map[], map[], []), [])

  function From(s: State, steps: seq<Step>): State
  {
    if |steps| == 0 then s else Next(From(s, steps[..|steps| - 1]), steps[|steps| - 1])
  }

  function After(steps: seq<Step>): State
  {
    From(EMPTY, steps)
  }

  lemma FromOneMore(s: State, steps: seq<Step>, step: Step)
    ensures From(s, steps + [step]) == Next(From(s, steps), step)
  {
    assert (steps + [step])[..|steps|] == steps;
  }

  // ---------- What holds of every state ----------

  predicate HasRun(d: Durable, op: Op, run: RunId, artifact: Artifact)
  {
    run in d.runs && d.runs[run].meta == Some(Meta(op, artifact))
  }

  predicate Holds(d: Durable, op: Op, run: RunId)
  {
    op in d.records && d.records[op].run == run
  }

  /** A directory's metadata is written by the attempt that made it. */
  predicate OneWriter(s: State)
  {
    forall i, j :: 0 <= i < j < |s.attempts| && s.attempts[i].phase.Writing? && s.attempts[j].phase.Writing? ==>
      s.attempts[i].phase.run != s.attempts[j].phase.run
  }

  /** Attempts of other operations hold only run ids issued for those. */
  predicate OwnIds(s: State)
  {
    forall i :: 0 <= i < |s.attempts| ==> OwnId(s.disk, s.attempts[i])
  }

  predicate HoldsRun(phase: Phase)
  {
    phase.Checking? || phase.Starting? || phase.Making? || phase.Writing? || phase.Opening? || phase.Abandoning?
  }

  predicate OwnId(d: Durable, a: Attempt)
  {
    HoldsRun(a.phase) ==> a.phase.run < |d.issued| && d.issued[a.phase.run] == a.op
  }

  predicate AllIssued(d: Durable)
  {
    && (forall op :: op in d.records ==> d.records[op].run < |d.issued| && d.issued[d.records[op].run] == op)
    && (forall run :: run in d.runs ==> run < |d.issued|)
    && (forall run :: run in d.runs && d.runs[run].meta.Some? ==> d.runs[run].meta.value.op == d.issued[run])
  }

  /** What holds of every state, whatever callers do. */
  predicate Base(s: State)
  {
    AllIssued(s.disk) && OwnIds(s) && OneWriter(s) && WritersOwn(s)
  }

  /** A directory being written has no metadata yet; one being opened has its maker's. */
  predicate DirFits(d: Durable, a: Attempt)
  {
    && (a.phase.Writing? ==> a.phase.run in d.runs && d.runs[a.phase.run].meta.None?)
    && (a.phase.Opening? ==> HasRun(d, a.op, a.phase.run, a.phase.artifact))
  }

  predicate WritersOwn(s: State)
  {
    forall i :: 0 <= i < |s.attempts| ==> DirFits(s.disk, s.attempts[i])
  }

  // ---------- Preservation ----------

  lemma BaseKept(s: State, step: Step)
    requires Base(s)
    ensures Base(Next(s, step))
  {
    if step.Run? && step.i < |s.attempts| {
      AdvanceKeepsBase(s, step.i, step.verdict);
    }
  }

  /**
    What one step can change: at most this operation's record and this attempt's directory, whose metadata is
    written once.
   */
  predicate Local(d: Durable, a: Attempt, e: Durable, b: Attempt)
  {
    && b.op == a.op && d.issued <= e.issued
    && (forall op :: op in d.records + e.records && op != a.op ==>
          op in d.records && op in e.records && e.records[op] == d.records[op])
    && (forall run :: run in d.runs ==>
          run in e.runs && (d.runs[run].meta.Some? ==> e.runs[run].meta == d.runs[run].meta))
    && (forall run :: run in d.runs && e.runs[run] != d.runs[run] ==>
          (a.phase.Writing? || a.phase.Opening?) && a.phase.run == run)
    && (forall run :: run in e.runs && run !in d.runs ==> a.phase.Making? && a.phase.run == run)
    && (b.phase.Writing? ==> a.phase.Making? && b.phase.run !in d.runs)
  }

  predicate Proper(d: Durable, a: Attempt)
  {
    AllIssued(d) && OwnId(d, a) && DirFits(d, a)
  }

  lemma ReserveIsLocal(d: Durable, a: Attempt)
    requires Proper(d, a) && a.phase.Reserving?
    ensures var (e, b) := Reserve(d, a); Proper(e, b) && Local(d, a, e, b)
  {
    if a.op !in d.records {
      var (e, b) := Reserve(d, a);
      forall run | run in d.runs && d.runs[run].meta.Some? ensures d.runs[run].meta.value.op == e.issued[run] {
        assert e.issued[run] == d.issued[run];
      }
    }
  }

  lemma DirectoryIsLocal(d: Durable, a: Attempt, verdict: Verdict)
    requires Proper(d, a) && (a.phase.Making? || a.phase.Writing? || a.phase.Opening?)
    ensures var (e, b) := Advance(d, a, verdict); Proper(e, b) && Local(d, a, e, b)
  {
  }

  lemma RecordIsLocal(d: Durable, a: Attempt, verdict: Verdict)
    requires Proper(d, a) && (a.phase.Abandoning? || a.phase.Completing?)
    ensures var (e, b) := Advance(d, a, verdict); Proper(e, b) && Local(d, a, e, b)
  {
  }

  lemma AdvanceIsLocal(d: Durable, a: Attempt, verdict: Verdict)
    requires Proper(d, a)
    ensures var (e, b) := Advance(d, a, verdict); Proper(e, b) && Local(d, a, e, b)
  {
    match a.phase
    case Reserving => ReserveIsLocal(d, a);
    case Making(_, _) => DirectoryIsLocal(d, a, verdict);
    case Writing(_, _) => DirectoryIsLocal(d, a, verdict);
    case Opening(_, _) => DirectoryIsLocal(d, a, verdict);
    case Abandoning(_) => RecordIsLocal(d, a, verdict);
    case Completing(_) => RecordIsLocal(d, a, verdict);
    case _ =>
  }

  lemma AdvanceKeepsBase(s: State, i: nat, verdict: Verdict)
    requires Base(s) && i < |s.attempts|
    ensures Base(Next(s, Run(i, verdict)))
  {
    var a := s.attempts[i];
    var t := Next(s, Run(i, verdict));
    assert OwnId(s.disk, a) && DirFits(s.disk, a);
    AdvanceIsLocal(s.disk, a, verdict);
    forall j | 0 <= j < |t.attempts| ensures OwnId(t.disk, t.attempts[j]) && DirFits(t.disk, t.attempts[j]) {
      assert OwnId(s.disk, s.attempts[j]) && DirFits(s.disk, s.attempts[j]);
    }
  }

  lemma {:induction false} BaseHolds(s: State, steps: seq<Step>)
    requires Base(s)
    ensures Base(From(s, steps))
    decreases |steps|
  {
    if |steps| > 0 {
      BaseHolds(s, steps[..|steps| - 1]);
      BaseKept(From(s, steps[..|steps| - 1]), steps[|steps| - 1]);
    }
  }
}
