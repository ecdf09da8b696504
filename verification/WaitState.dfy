/**
  Waiting once for a run to advance (ConsumerRunServiceV1.waitState in src/consumer/runs.ts):
  a look, then a watcher with a timeout and looks again, against writers in any order.
 */
module WaitState {
  import opened Wrappers
  import opened Journal

  datatype Phase =
    | First
    | Watching
    | Looking
    | Asking
    | Blocked
    | Answered(changed: bool, at: nat)
    | Cancelled
    | Failed

  /**
    The version of a state is the number of its last frame; `seen` is the journal's length when a notice was
    last used up.
   */
  datatype State = State(
    journal: seq<Frame>, queued: bool, watch: Watch, cancelled: bool, timedOut: bool, phase: Phase, seen: nat)

  datatype Step = Append(frame: Frame) | Notify(more: bool) | WatchFails | Cancel | Timeout | Run

  const IDLE: Watch := Watch(false, false, false, None)

  function Begin(journal: seq<Frame>): State
  {
    State(journal, false, IDLE, false, false, First, 0)
  }

  /** The journal shows what the caller waits for. */
  predicate Advanced(journal: seq<Frame>, version: Option<nat>)
  {
    version != Some(|journal|) || Over(LifecycleOf(journal))
  }

  function Look(s: State, version: Option<nat>, otherwise: Phase): State
  {
    s.(phase := if Advanced(s.journal, version) then Answered(true, |s.journal|) else otherwise)
  }

  /** A watcher exists and is not yet closed. */
  predicate Watched(s: State)
  {
    s.phase.Looking? || s.phase.Asking? || s.phase.Blocked?
  }

  function Resumed(s: State, version: Option<nat>): State
  {
    match s.watch.answer
    case None => s
    case Some(Changed) => s.(phase := Looking, watch := s.watch.(answer := None))
    case Some(Broken) => s.(phase := Failed)
    case Some(Aborted) =>
      if s.cancelled then s.(phase := Cancelled)
      else s.(phase := Answered(Advanced(s.journal, version), |s.journal|))
  }

  function AskedNext(s: State): State
  {
    var aborted := s.cancelled || s.timedOut;
    var used := !aborted && !s.watch.failure && s.watch.changed;
    s.(phase := Blocked, watch := Asked(s.watch, aborted), seen := if used then |s.journal| else s.seen)
  }

  function Ran(s: State, version: Option<nat>): State
  {
    match s.phase
    case First => Look(s, version, Watching)
    case Watching => s.(phase := Looking, watch := IDLE, queued := false, seen := |s.journal|)
    case Looking => Look(s, version, Asking)
    case Asking => AskedNext(s)
    case Blocked => Resumed(s, version)
    case _ => s
  }

  function Next(s: State, version: Option<nat>, step: Step): State
  {
    match step
    case Append(frame) =>
      if MayFollow(s.journal, frame) then s.(journal := s.journal + [frame], queued := Watched(s)) else s
    case Notify(more) =>
      if !Watched(s) then s
      else
        var used := s.watch.waiting && !s.watch.failure;
        s.(queued := s.queued && more, watch := Noticed(s.watch), seen := if used then |s.journal| else s.seen)
    case WatchFails => if Watched(s) then s.(watch := Broke(s.watch)) else s
    case Cancel => s.(cancelled := true, watch := AbortedWatch(s.watch))
    case Timeout => if Watched(s) then s.(timedOut := true, watch := AbortedWatch(s.watch)) else s
    case Run => Ran(s, version)
  }

  function After(s: State, version: Option<nat>, steps: seq<Step>): State
  {
    if |steps| == 0 then s else Next(After(s, version, steps[..|steps| - 1]), version, steps[|steps| - 1])
  }

  predicate Waiting(s: State)
  {
    s.phase.Blocked? && s.watch.waiting
  }

  /** The last look, taken at `seen` or later, found nothing, and nothing has been appended since without a notice. */
  predicate Alert(s: State, version: Option<nat>)
  {
    && s.seen <= |s.journal|
    && (s.watch.waiting ==> s.phase.Blocked? && !s.watch.changed && !s.watch.failure && s.watch.answer.None? &&
                            !s.cancelled && !s.timedOut)
    && (Watched(s) && s.seen < |s.journal| ==> s.queued || s.watch.changed || s.watch.failure)
    && ((s.phase.Asking? || Waiting(s)) && s.seen == |s.journal| ==> !Advanced(s.journal, version))
    && (s.phase.Blocked? && s.watch.answer == Some(Aborted) ==> s.cancelled || s.timedOut)
  }

  predicate Truthful(s: State, version: Option<nat>)
  {
    s.phase.Answered? ==>
      && s.phase.at <= |s.journal|
      && s.phase.changed == Advanced(s.journal[..s.phase.at], version)
      && (!s.phase.changed ==> s.timedOut)
  }

  predicate Inv(s: State, version: Option<nat>)
  {
    Alert(s, version) && Truthful(s, version)
  }

  lemma LookKeeps(s: State, version: Option<nat>, otherwise: Phase)
    requires Inv(s, version) && ((s.phase.First? && otherwise.Watching?) || (s.phase.Looking? && otherwise.Asking?))
    ensures Inv(Look(s, version, otherwise), version)
  {
    assert s.journal[..|s.journal|] == s.journal;
  }

  lemma AskKeeps(s: State, version: Option<nat>)
    requires Inv(s, version) && s.phase.Asking?
    ensures Inv(AskedNext(s), version)
  {
  }

  lemma ResumeKeeps(s: State, version: Option<nat>)
    requires Inv(s, version) && s.phase.Blocked?
    ensures Inv(Resumed(s, version), version)
  {
    assert s.journal[..|s.journal|] == s.journal;
  }

  lemma RunKeeps(s: State, version: Option<nat>)
    requires Inv(s, version)
    ensures Inv(Ran(s, version), version)
  {
    match s.phase {
      case First => LookKeeps(s, version, Watching);
      case Looking => LookKeeps(s, version, Asking);
      case Asking => AskKeeps(s, version);
      case Blocked => ResumeKeeps(s, version);
      case _ =>
    }
  }

  lemma NextKeeps(s: State, version: Option<nat>, step: Step)
    requires Inv(s, version)
    ensures Inv(Next(s, version, step), version)
  {
    match step {
      case Append(frame) =>
        if s.phase.Answered? {
          assert (s.journal + [frame])[..s.phase.at] == s.journal[..s.phase.at];
        }
      case Run => RunKeeps(s, version);
      case _ =>
    }
  }

  lemma {:induction false} AfterKeeps(journal: seq<Frame>, version: Option<nat>, steps: seq<Step>)
    ensures Inv(After(Begin(journal), version, steps), version)
  {
    if |steps| > 0 {
      AfterKeeps(journal, version, steps[..|steps| - 1]);
      NextKeeps(After(Begin(journal), version, steps[..|steps| - 1]), version, steps[|steps| - 1]);
    }
  }

  /**
    A wait still blocked, with no notice on its way, stands before a journal that has not advanced; any notice
    wakes it.
   */
  lemma NoLostWakeup(journal: seq<Frame>, version: Option<nat>, steps: seq<Step>)
    ensures var s := After(Begin(journal), version, steps);
            Waiting(s) && !s.queued ==> !Advanced(s.journal, version)
    ensures var s := After(Begin(journal), version, steps);
            forall more :: Waiting(s) ==> Next(Next(s, version, Notify(more)), version, Run).phase == Looking
  {
    AfterKeeps(journal, version, steps);
  }

  /**
    The answer says what its snapshot shows, and "unchanged" comes only after the timeout, which always draws
    an answer.
   */
  lemma AnswersAreTruthful(journal: seq<Frame>, version: Option<nat>, steps: seq<Step>)
    ensures var s := After(Begin(journal), version, steps);
            s.phase.Answered? ==>
              && s.phase.at <= |s.journal|
              && (s.phase.changed <==> version != Some(s.phase.at) || Over(LifecycleOf(s.journal[..s.phase.at])))
              && (!s.phase.changed ==> s.timedOut)
    ensures var s := After(Begin(journal), version, steps);
            Waiting(s) ==> Next(Next(s, version, Timeout), version, Run).phase.Answered?
  {
    AfterKeeps(journal, version, steps);
    var s := After(Begin(journal), version, steps);
    if s.phase.Answered? {
      assert |s.journal[..s.phase.at]| == s.phase.at;
    }
  }
}
