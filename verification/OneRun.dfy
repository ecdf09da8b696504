/**
  At most one run and one answer for every operation id, over every interleaving of attempts that can stop
  anywhere (src/consumer/daemon-routes.ts, src/consumer/scrape/run-operations.ts): exactly when it holds, and
  what callers can do to stay within that.
 */
module OneRun {
  import opened Wrappers
  import opened StartOperation

  // ---------- Clean removals ----------

  /** The step is an abandonment that removes the operation's record. */
  predicate Removes(s: State, op: Op, step: Step)
  {
    && step.Run? && step.i < |s.attempts|
    && s.attempts[step.i].op == op && s.attempts[step.i].phase.Abandoning?
    && op in s.disk.records && s.disk.records[op].result.None?
  }

  predicate NoRun(d: Durable, run: RunId)
  {
    run in d.runs ==> d.runs[run].meta.None?
  }

  /** The attempt still holds this run id and nothing on disk keeps it from making the run. */
  predicate CanStillMake(d: Durable, a: Attempt, op: Op, run: RunId)
  {
    a.op == op &&
    match a.phase
    case Checking(r) => r == run && run !in d.runs
    case Starting(r) => r == run && run !in d.runs
    case Making(r, _) => r == run && run !in d.runs
    case Writing(r, _) => r == run
    case _ => false
  }

  predicate NobodyMakes(s: State, op: Op, run: RunId)
  {
    forall j :: 0 <= j < |s.attempts| ==> !CanStillMake(s.disk, s.attempts[j], op, run)
  }

  /** A record is removed only while there is no run under its id and no other attempt that can still make it. */
  predicate Clean(s: State, op: Op, step: Step)
  {
    Removes(s, op, step) ==> NoRun(s.disk, s.disk.records[op].run) && NobodyMakes(s, op, s.disk.records[op].run)
  }

  predicate AllClean(s: State, op: Op, steps: seq<Step>)
  {
    |steps| > 0 ==>
      AllClean(s, op, steps[..|steps| - 1]) && Clean(From(s, steps[..|steps| - 1]), op, steps[|steps| - 1])
  }

  lemma CleanOneMore(s: State, op: Op, steps: seq<Step>, step: Step)
    requires AllClean(s, op, steps) && Clean(From(s, steps), op, step)
    ensures AllClean(s, op, steps + [step])
  {
    assert (steps + [step])[..|steps|] == steps;
  }

  // ---------- The invariant ----------

  predicate IsRunOf(d: Durable, run: RunId, op: Op)
  {
    run in d.runs && d.runs[run].meta.Some? && d.runs[run].meta.value.op == op
  }

  predicate RunsAreRecorded(d: Durable, op: Op)
  {
    forall run :: run in d.runs && d.runs[run].meta.Some? && d.runs[run].meta.value.op == op ==> Holds(d, op, run)
  }

  predicate ResultIsRun(d: Durable, op: Op)
  {
    op in d.records && d.records[op].result.Some? ==>
      var acceptance := d.records[op].result.value;
      acceptance.op == op && acceptance.run == d.records[op].run && HasRun(d, op, acceptance.run, acceptance.artifact)
  }

  predicate DiskSafe(d: Durable, op: Op)
  {
    RunsAreRecorded(d, op) && ResultIsRun(d, op)
  }

  /** An attempt that holds another run id than the record's cannot make it: its directory is there already. */
  predicate AttemptFits(d: Durable, a: Attempt)
  {
    match a.phase
    case Reserving => true
    case Checking(run) => Holds(d, a.op, run) || run in d.runs
    case Starting(run) => Holds(d, a.op, run) || run in d.runs
    case Making(run, _) => Holds(d, a.op, run) || run in d.runs
    case Writing(run, _) => Holds(d, a.op, run)
    case Opening(run, artifact) => Holds(d, a.op, run) && HasRun(d, a.op, run, artifact)
    case Abandoning(_) => true
    case Completing(acceptance) =>
      Holds(d, a.op, acceptance.run) && acceptance.op == a.op && HasRun(d, a.op, acceptance.run, acceptance.artifact)
    case Returned(acceptance) => acceptance.op == a.op && HasRun(d, a.op, acceptance.run, acceptance.artifact)
    case Stopped => true
  }

  predicate Fits(s: State, op: Op)
  {
    forall i :: 0 <= i < |s.attempts| && s.attempts[i].op == op ==> AttemptFits(s.disk, s.attempts[i])
  }

  predicate Safe(s: State, op: Op)
  {
    DiskSafe(s.disk, op) && Fits(s, op)
  }

  /** Nothing written is ever lost. */
  predicate RunsKept(d: Durable, e: Durable)
  {
    forall run :: run in d.runs ==> run in e.runs && (d.runs[run].meta.Some? ==> e.runs[run].meta == d.runs[run].meta)
  }

  /** A step of another operation changes nothing that this one's invariant speaks of. */
  lemma OthersKeepSafe(s: State, i: nat, verdict: Verdict, op: Op)
    requires Base(s) && Safe(s, op) && i < |s.attempts| && s.attempts[i].op != op
    ensures Safe(Next(s, Run(i, verdict)), op)
  {
    var a := s.attempts[i];
    var t := Next(s, Run(i, verdict));
    assert OwnId(s.disk, a) && DirFits(s.disk, a);
    AdvanceIsLocal(s.disk, a, verdict);
    forall j | 0 <= j < |t.attempts| && t.attempts[j].op == op ensures AttemptFits(t.disk, t.attempts[j]) {
      assert AttemptFits(s.disk, s.attempts[j]);
    }
  }

  /** The step leaves the operation's record in place, or removes it cleanly. */
  predicate Careful(d: Durable, e: Durable, b: Attempt)
  {
    (b.op in d.records ==> Holds(e, b.op, d.records[b.op].run)) ||
    (b.op in d.records && NoRun(d, d.records[b.op].run) && !CanStillMake(d, b, b.op, d.records[b.op].run))
  }

  lemma StillFits(d: Durable, e: Durable, b: Attempt)
    requires AttemptFits(d, b) && RunsKept(d, e) && Careful(d, e, b) && DirFits(d, b)
    ensures AttemptFits(e, b)
  {
  }

  lemma StepFits(d: Durable, a: Attempt, verdict: Verdict)
    requires Proper(d, a) && DiskSafe(d, a.op) && AttemptFits(d, a) && !a.phase.Abandoning?
    ensures var (e, b) := Advance(d, a, verdict); DiskSafe(e, a.op) && AttemptFits(e, b)
    ensures var e := Advance(d, a, verdict).0; a.op in d.records ==> Holds(e, a.op, d.records[a.op].run)
  {
  }

  lemma AbandonFits(d: Durable, a: Attempt)
    requires AllIssued(d) && DiskSafe(d, a.op) && a.phase.Abandoning?
    requires a.op in d.records && d.records[a.op].result.None? ==> NoRun(d, d.records[a.op].run)
    ensures DiskSafe(Abandon(d, a).0, a.op)
  {
  }

  lemma OwnKeepsSafe(s: State, i: nat, verdict: Verdict, op: Op)
    requires Base(s) && Safe(s, op) && i < |s.attempts| && s.attempts[i].op == op
    requires Clean(s, op, Run(i, verdict))
    ensures Safe(Next(s, Run(i, verdict)), op)
  {
    var a := s.attempts[i];
    var t := Next(s, Run(i, verdict));
    assert Proper(s.disk, a) && AttemptFits(s.disk, a) by { assert OwnId(s.disk, a) && DirFits(s.disk, a); }
    AdvanceIsLocal(s.disk, a, verdict);
    if a.phase.Abandoning? {
      AbandonFits(s.disk, a);
    } else {
      StepFits(s.disk, a, verdict);
    }
    forall j | 0 <= j < |t.attempts| && t.attempts[j].op == op ensures AttemptFits(t.disk, t.attempts[j]) {
      if j != i {
        var b := s.attempts[j];
        assert AttemptFits(s.disk, b) && DirFits(s.disk, b);
        assert Removes(s, op, Run(i, verdict)) ==> !CanStillMake(s.disk, b, op, s.disk.records[op].run);
        StillFits(s.disk, t.disk, b);
      }
    }
  }

  lemma SafeKept(s: State, step: Step, op: Op)
    requires Base(s) && Safe(s, op) && Clean(s, op, step)
    ensures Safe(Next(s, step), op)
  {
    match step
    case Begin(_, _) =>
    case Run(i, verdict) =>
      if i < |s.attempts| {
        if s.attempts[i].op == op {
          OwnKeepsSafe(s, i, verdict, op);
        } else {
          OthersKeepSafe(s, i, verdict, op);
        }
      }
    case Stop(i) =>
      if i < |s.attempts| && Live(s.attempts[i]) {
        forall j | 0 <= j < |s.attempts| && s.attempts[j].op == op ensures AttemptFits(s.disk, s.attempts[j]) {
        }
      }
  }

  lemma {:induction false} StaysSafe(s: State, steps: seq<Step>, op: Op)
    requires Base(s) && Safe(s, op) && AllClean(s, op, steps)
    ensures Base(From(s, steps)) && Safe(From(s, steps), op)
    decreases |steps|
  {
    if |steps| > 0 {
      StaysSafe(s, steps[..|steps| - 1], op);
      BaseKept(From(s, steps[..|steps| - 1]), steps[|steps| - 1]);
      SafeKept(From(s, steps[..|steps| - 1]), steps[|steps| - 1], op);
    }
  }

  // ---------- What callers get ----------

  predicate Answered(s: State, i: int, op: Op)
  {
    0 <= i < |s.attempts| && s.attempts[i].op == op && s.attempts[i].phase.Returned?
  }

  ghost predicate AtMostOneRun(d: Durable, op: Op)
  {
    forall p, q :: IsRunOf(d, p, op) && IsRunOf(d, q, op) ==> p == q
  }

  /**
    At most one run per operation, and one answer: over every interleaving with other operations and every
    crash or error, while records are removed cleanly the operation has at most one run, and every acceptance
    ever returned for it names that run and its artifact, whether it came from the attempt that created the
    run, from the completed record or from the run's metadata.
   */
  lemma OneRunOneAnswer(steps: seq<Step>, op: Op)
    requires AllClean(EMPTY, op, steps)
    ensures AtMostOneRun(After(steps).disk, op)
    ensures var s := After(steps);
            forall i :: Answered(s, i, op) ==>
              var acceptance := s.attempts[i].phase.acceptance;
              acceptance.op == op && HasRun(s.disk, op, acceptance.run, acceptance.artifact)
    ensures var s := After(steps);
            forall i, j :: Answered(s, i, op) && Answered(s, j, op) ==>
              s.attempts[i].phase.acceptance == s.attempts[j].phase.acceptance
  {
    StaysSafe(EMPTY, steps, op);
    var s := After(steps);
    forall i | Answered(s, i, op)
      ensures var acceptance := s.attempts[i].phase.acceptance;
              acceptance.op == op && HasRun(s.disk, op, acceptance.run, acceptance.artifact) &&
              Holds(s.disk, op, acceptance.run)
    {
      assert AttemptFits(s.disk, s.attempts[i]);
      assert IsRunOf(s.disk, s.attempts[i].phase.acceptance.run, op);
    }
  }

  /**
    Recording a result never clashes with the one already recorded, and metadata found is always the
    operation's own.
   */
  lemma NoConflicts(steps: seq<Step>, op: Op, i: nat, verdict: Verdict)
    requires AllClean(EMPTY, op, steps) && i < |After(steps).attempts| && After(steps).attempts[i].op == op
    ensures var s := After(steps);
            s.attempts[i].phase.Completing? ==>
              Advance(s.disk, s.attempts[i], verdict).1.phase == Returned(s.attempts[i].phase.acceptance)
    ensures var s := After(steps);
            s.attempts[i].phase.Checking? && s.attempts[i].phase.run in s.disk.runs &&
            s.disk.runs[s.attempts[i].phase.run].meta.Some? && s.disk.runs[s.attempts[i].phase.run].sound ==>
              Advance(s.disk, s.attempts[i], verdict).1.phase.Completing?
  {
    StaysSafe(EMPTY, steps, op);
    var s := After(steps);
    assert AttemptFits(s.disk, s.attempts[i]) && OwnId(s.disk, s.attempts[i]);
  }

  // ---------- Any other removal can make two runs ----------

  /** An attempt that can still make a run makes it, in steps that remove nothing. */
  lemma {:induction false} Makes(s: State, done: seq<Step>, op: Op, j: nat, run: RunId) returns (all: seq<Step>)
    requires AllClean(s, op, done) && Base(From(s, done)) && j < |From(s, done).attempts|
    requires CanStillMake(From(s, done).disk, From(s, done).attempts[j], op, run)
    ensures AllClean(s, op, all) && Base(From(s, all)) && IsRunOf(From(s, all).disk, run, op)
    ensures RunsKept(From(s, done).disk, From(s, all).disk)
    ensures From(s, all).disk.records == From(s, done).disk.records
    decreases Left(From(s, done).attempts[j].phase)
  {
    var t := From(s, done);
    var step := Run(j, Accepted(""));
    all := done + [step];
    FromOneMore(s, done, step);
    CleanOneMore(s, op, done, step);
    BaseKept(t, step);
    assert OwnId(t.disk, t.attempts[j]) && DirFits(t.disk, t.attempts[j]);
    AdvanceIsLocal(t.disk, t.attempts[j], Accepted(""));
    if !t.attempts[j].phase.Writing? {
      all := Makes(s, all, op, j, run);
    }
  }

  function Left(phase: Phase): nat
  {
    match phase
    case Checking(_) => 4
    case Starting(_) => 3
    case Making(_, _) => 2
    case Writing(_, _) => 1
    case _ => 0
  }

  lemma Reserves(t: State, op: Op)
    requires Base(t) && op !in t.disk.records
    ensures var u := Next(Next(t, Begin(op, "")), Run(|t.attempts|, Refused));
            Base(u) && RunsKept(t.disk, u.disk) && |u.attempts| > |t.attempts| &&
            CanStillMake(u.disk, u.attempts[|t.attempts|], op, |t.disk.issued|)
  {
    var i := |t.attempts|;
    var u := Next(t, Begin(op, ""));
    BaseKept(t, Begin(op, ""));
    BaseKept(u, Run(i, Refused));
    assert u.attempts[i] == Attempt(op, "", Reserving);
    assert Next(u, Run(i, Refused)).attempts[i] == Reserve(t.disk, Attempt(op, "", Reserving)).1;
  }

  /** With no record, a new attempt of the operation makes a run under a new id. */
  lemma MakesAfresh(s: State, done: seq<Step>, op: Op) returns (all: seq<Step>)
    requires AllClean(s, op, done) && Base(From(s, done)) && op !in From(s, done).disk.records
    ensures AllClean(s, op, all) && RunsKept(From(s, done).disk, From(s, all).disk)
    ensures IsRunOf(From(s, all).disk, |From(s, done).disk.issued|, op)
  {
    var t := From(s, done);
    var begin, reserve := Begin(op, ""), Run(|t.attempts|, Refused);
    Reserves(t, op);
    FromOneMore(s, done, begin);
    CleanOneMore(s, op, done, begin);
    FromOneMore(s, done + [begin], reserve);
    CleanOneMore(s, op, done + [begin], reserve);
    var two := done + [begin] + [reserve];
    var u := From(s, two);
    all := Makes(s, two, op, |t.attempts|, |t.disk.issued|);
    KeptTwice(t.disk, u.disk, From(s, all).disk);
  }

  lemma KeptTwice(d: Durable, e: Durable, f: Durable)
    requires RunsKept(d, e) && RunsKept(e, f)
    ensures RunsKept(d, f)
  {
  }

  /** After any removal that is not clean, two runs can be made without removing anything more. */
  lemma UncleanMakesTwo(s: State, op: Op, step: Step) returns (more: seq<Step>)
    requires Base(s) && !Clean(s, op, step)
    ensures AllClean(Next(s, step), op, more) && !AtMostOneRun(From(Next(s, step), more).disk, op)
  {
    var t, run := Next(s, step), s.disk.records[op].run;
    BaseKept(s, step);
    more := [];
    if NoRun(s.disk, run) {
      var j :| 0 <= j < |s.attempts| && CanStillMake(s.disk, s.attempts[j], op, run);
      assert t.attempts[j] == s.attempts[j];
      more := Makes(t, more, op, j, run);
    }
    var u := From(t, more);
    assert IsRunOf(u.disk, run, op) && run < |u.disk.issued|;
    var another := |u.disk.issued|;
    more := MakesAfresh(t, more, op);
    assert IsRunOf(From(t, more).disk, run, op) && IsRunOf(From(t, more).disk, another, op);
  }

  ghost predicate NeverTwoRuns(s: State, op: Op)
  {
    forall more :: AllClean(s, op, more) ==> AtMostOneRun(From(s, more).disk, op)
  }

  /**
    The condition is exact: after a trace of clean removals, one more removal leaves the operation with at
    most one run in every clean continuation if and only if it is clean itself.
   */
  lemma CleanExact(steps: seq<Step>, op: Op, step: Step)
    requires AllClean(EMPTY, op, steps)
    ensures Clean(After(steps), op, step) <==> NeverTwoRuns(Next(After(steps), step), op)
  {
    var s := After(steps);
    StaysSafe(EMPTY, steps, op);
    BaseKept(s, step);
    if Clean(s, op, step) {
      SafeKept(s, step, op);
      forall more | AllClean(Next(s, step), op, more) ensures AtMostOneRun(From(Next(s, step), more).disk, op) {
        StaysSafe(Next(s, step), more, op);
      }
    } else {
      var more := UncleanMakesTwo(s, op, step);
    }
  }

  // ---------- What callers can do ----------

  predicate Quiet(s: State, op: Op)
  {
    forall i :: 0 <= i < |s.attempts| && s.attempts[i].op == op ==> !Live(s.attempts[i])
  }

  /** The operation's attempts come one after another, each begun when the one before has ended or died. */
  predicate AllSerial(op: Op, steps: seq<Step>)
  {
    |steps| > 0 ==>
      var n := |steps| - 1;
      AllSerial(op, steps[..n]) && (steps[n].Begin? && steps[n].op == op ==> Quiet(After(steps[..n]), op))
  }

  /** No attempt of the operation is turned down for want of a sink. */
  predicate NeverSinkless(op: Op, steps: seq<Step>)
  {
    |steps| > 0 ==>
      var n := |steps| - 1;
      NeverSinkless(op, steps[..n]) && !TurnedDown(After(steps[..n]), op, steps[n])
  }

  predicate TurnedDown(s: State, op: Op, step: Step)
  {
    && step.Run? && step.i < |s.attempts| && step.verdict.SinkRequired?
    && s.attempts[step.i].op == op && s.attempts[step.i].phase.Starting?
  }

  predicate OneLive(s: State, op: Op)
  {
    forall i, j :: 0 <= i < j < |s.attempts| && s.attempts[i].op == op == s.attempts[j].op ==>
      !(Live(s.attempts[i]) && Live(s.attempts[j]))
  }

  predicate HoldsNoRun(d: Durable, a: Attempt)
  {
    && (a.phase.Checking? ==> Holds(d, a.op, a.phase.run))
    && (a.phase.Starting? || a.phase.Abandoning? ==> Holds(d, a.op, a.phase.run) && NoRun(d, a.phase.run))
  }

  predicate AloneAndEmpty(s: State, op: Op)
  {
    OneLive(s, op) && forall i :: 0 <= i < |s.attempts| && s.attempts[i].op == op ==> HoldsNoRun(s.disk, s.attempts[i])
  }

  lemma OwnStaysEmpty(d: Durable, a: Attempt, verdict: Verdict)
    requires HoldsNoRun(d, a)
    ensures var (e, b) := Advance(d, a, verdict); b.op == a.op && HoldsNoRun(e, b) && (Live(b) ==> Live(a))
  {
  }

  lemma OthersStayEmpty(d: Durable, a: Attempt, verdict: Verdict, b: Attempt)
    requires Proper(d, a) && OwnId(d, b) && a.op != b.op && HoldsNoRun(d, b)
    ensures HoldsNoRun(Advance(d, a, verdict).0, b)
  {
    AdvanceIsLocal(d, a, verdict);
  }

  lemma SerialRun(s: State, op: Op, i: nat, verdict: Verdict)
    requires Base(s) && AloneAndEmpty(s, op) && i < |s.attempts|
    ensures AloneAndEmpty(Next(s, Run(i, verdict)), op)
  {
    var a, t := s.attempts[i], Next(s, Run(i, verdict));
    var (e, b) := Advance(s.disk, a, verdict);
    assert t == State(e, s.attempts[i := b]);
    assert Proper(s.disk, a) by { assert OwnId(s.disk, a) && DirFits(s.disk, a); }
    AdvanceIsLocal(s.disk, a, verdict);
    if a.op == op {
      assert HoldsNoRun(s.disk, a);
      OwnStaysEmpty(s.disk, a, verdict);
    }
    forall j | 0 <= j < |s.attempts| && s.attempts[j].op == op && j != i ensures HoldsNoRun(e, s.attempts[j]) {
      assert OwnId(s.disk, s.attempts[j]) && HoldsNoRun(s.disk, s.attempts[j]);
      if a.op != op {
        OthersStayEmpty(s.disk, a, verdict, s.attempts[j]);
      } else if Live(a) {
        assert !Live(s.attempts[j]);
      } else {
        assert e == s.disk;
      }
    }
  }

  lemma SerialStep(s: State, op: Op, step: Step)
    requires Base(s) && AloneAndEmpty(s, op)
    requires step.Begin? && step.op == op ==> Quiet(s, op)
    ensures AloneAndEmpty(Next(s, step), op)
  {
    if step.Run? && step.i < |s.attempts| {
      SerialRun(s, op, step.i, step.verdict);
    }
  }

  lemma {:induction false} StaysAlone(op: Op, steps: seq<Step>)
    requires AllSerial(op, steps)
    ensures Base(After(steps)) && AloneAndEmpty(After(steps), op)
    decreases |steps|
  {
    BaseHolds(EMPTY, steps);
    if |steps| > 0 {
      var n := |steps| - 1;
      StaysAlone(op, steps[..n]);
      SerialStep(After(steps[..n]), op, steps[n]);
    }
  }

  /** Attempts that come one after another remove records only cleanly. */
  lemma {:induction false} SerialIsClean(op: Op, steps: seq<Step>)
    requires AllSerial(op, steps)
    ensures AllClean(EMPTY, op, steps)
    decreases |steps|
  {
    if |steps| > 0 {
      var n := |steps| - 1;
      SerialIsClean(op, steps[..n]);
      StaysAlone(op, steps[..n]);
      var s := After(steps[..n]);
      if Removes(s, op, steps[n]) {
        assert HoldsNoRun(s.disk, s.attempts[steps[n].i]);
        forall j | 0 <= j < |s.attempts| ensures !CanStillMake(s.disk, s.attempts[j], op, s.disk.records[op].run) {
          assert j != steps[n].i && s.attempts[j].op == op ==> !Live(s.attempts[j]);
        }
      }
    }
  }

  predicate NobodyAbandons(s: State, op: Op)
  {
    forall i :: 0 <= i < |s.attempts| && s.attempts[i].op == op ==> !s.attempts[i].phase.Abandoning?
  }

  lemma {:induction false} NeverAbandons(op: Op, steps: seq<Step>)
    requires NeverSinkless(op, steps)
    ensures NobodyAbandons(After(steps), op)
    decreases |steps|
  {
    if |steps| > 0 {
      var n := |steps| - 1;
      NeverAbandons(op, steps[..n]);
      var s, step := After(steps[..n]), steps[n];
      if step.Run? && step.i < |s.attempts| {
        var a := s.attempts[step.i];
        assert a.op == op ==> !Advance(s.disk, a, step.verdict).1.phase.Abandoning?;
      }
    }
  }

  /** However the attempts overlap, if none is turned down for want of a sink nothing is ever removed. */
  lemma {:induction false} NeverSinklessIsClean(op: Op, steps: seq<Step>)
    requires NeverSinkless(op, steps)
    ensures AllClean(EMPTY, op, steps)
    decreases |steps|
  {
    if |steps| > 0 {
      NeverSinklessIsClean(op, steps[..|steps| - 1]);
      NeverAbandons(op, steps[..|steps| - 1]);
    }
  }

  // ---------- An overlap that makes two runs ----------

  lemma AfterOneMore(steps: seq<Step>, step: Step)
    ensures After(steps + [step]) == Next(After(steps), step)
  {
    FromOneMore(EMPTY, steps, step);
  }

  /** An attempt that reaches its preflight while the operation's record stands, and one that overlaps it. */
  function Overlapping(op: Op, args: Arguments): seq<Step>
  {
    [Begin(op, args), Run(0, Refused), Run(0, Refused), Begin(op, args), Run(1, Refused), Run(1, Refused)]
  }

  lemma OverlappingState(op: Op, args: Arguments)
    ensures After(Overlapping(op, args)) ==
            State(Durable(map[op := Record(args, 0, None)], map[], [op]),
                  [Attempt(op, args, Starting(0)), Attempt(op, args, Starting(0))])
  {
    var steps: seq<Step> := [];
    var record := Record(args, 0, None);
    var disk := Durable(map[op := record], map[], [op]);
    AfterOneMore(steps, Begin(op, args));
    steps := steps + [Begin(op, args)];
    AfterOneMore(steps, Run(0, Refused));
    steps := steps + [Run(0, Refused)];
    assert After(steps) == State(disk, [Attempt(op, args, Checking(0))]);
    AfterOneMore(steps, Run(0, Refused));
    steps := steps + [Run(0, Refused)];
    AfterOneMore(steps, Begin(op, args));
    steps := steps + [Begin(op, args)];
    assert After(steps) == State(disk, [Attempt(op, args, Starting(0)), Attempt(op, args, Reserving)]);
    AfterOneMore(steps, Run(1, Refused));
    steps := steps + [Run(1, Refused)];
    AfterOneMore(steps, Run(1, Refused));
    steps := steps + [Run(1, Refused)];
    assert steps == Overlapping(op, args);
  }

  /** The first attempt abandons the operation, the second creates its run all the same, and a third creates another. */
  function Race(op: Op, args: Arguments, artifact: Artifact): seq<Step>
  {
    FirstHalf(op, args, artifact) +
    [Begin(op, args)] + [Run(2, Refused)] + [Run(2, Refused)] +
    [Run(2, Accepted(artifact))] + [Run(2, Refused)] + [Run(2, Refused)]
  }

  /** Up to here the operation's record is gone, and yet the overlapping attempt has made a run. */
  function FirstHalf(op: Op, args: Arguments, artifact: Artifact): seq<Step>
  {
    Overlapping(op, args) + [Run(0, SinkRequired)] + [Run(0, Refused)] +
    [Run(1, Accepted(artifact))] + [Run(1, Refused)] + [Run(1, Refused)]
  }

  lemma FirstHalfState(op: Op, args: Arguments, artifact: Artifact)
    ensures After(FirstHalf(op, args, artifact)) ==
            State(Durable(map[], map[0 := RunDir(Some(Meta(op, artifact)), false)], [op]),
                  [Attempt(op, args, Stopped), Attempt(op, args, Opening(0, artifact))])
  {
    var steps := Overlapping(op, args);
    OverlappingState(op, args);
    AfterOneMore(steps, Run(0, SinkRequired));
    steps := steps + [Run(0, SinkRequired)];
    AfterOneMore(steps, Run(0, Refused));
    steps := steps + [Run(0, Refused)];
    var none: map<Op, Record> := map[];
    assert map[op := Record(args, 0, None)] - {op} == none;
    assert After(steps) ==
           State(Durable(none, map[], [op]), [Attempt(op, args, Stopped), Attempt(op, args, Starting(0))]);
    AfterOneMore(steps, Run(1, Accepted(artifact)));
    steps := steps + [Run(1, Accepted(artifact))];
    AfterOneMore(steps, Run(1, Refused));
    steps := steps + [Run(1, Refused)];
    assert After(steps).disk.runs == map[0 := RunDir(None, false)];
    AfterOneMore(steps, Run(1, Refused));
  }

  lemma SecondRun(s: State, op: Op, args: Arguments, artifact: Artifact)
    requires |s.attempts| == 2 && op !in s.disk.records && |s.disk.issued| == 1 && 1 !in s.disk.runs
    ensures var t := Next(Next(Next(s, Begin(op, args)), Run(2, Refused)), Run(2, Refused));
            t.disk.runs == s.disk.runs && t.attempts[..2] == s.attempts && |t.attempts| == 3 &&
            t.attempts[2] == Attempt(op, args, Starting(1))
  {
    var t := Next(s, Begin(op, args));
    assert t.attempts[2] == Attempt(op, args, Reserving);
    var u := Next(t, Run(2, Refused));
    assert u.attempts[2] == Attempt(op, args, Checking(1));
  }

  /** Two overlapping attempts, one of them turned down for want of a sink, can make two runs. */
  lemma OverlapCanMakeTwoRuns(op: Op, args: Arguments, artifact: Artifact)
    ensures var d := After(Race(op, args, artifact)).disk; IsRunOf(d, 0, op) && IsRunOf(d, 1, op)
  {
    var steps := FirstHalf(op, args, artifact);
    FirstHalfState(op, args, artifact);
    SecondRun(After(steps), op, args, artifact);
    AfterOneMore(steps, Begin(op, args));
    steps := steps + [Begin(op, args)];
    AfterOneMore(steps, Run(2, Refused));
    steps := steps + [Run(2, Refused)];
    AfterOneMore(steps, Run(2, Refused));
    steps := steps + [Run(2, Refused)];
    AfterOneMore(steps, Run(2, Accepted(artifact)));
    steps := steps + [Run(2, Accepted(artifact))];
    AfterOneMore(steps, Run(2, Refused));
    steps := steps + [Run(2, Refused)];
    AfterOneMore(steps, Run(2, Refused));
  }
}
