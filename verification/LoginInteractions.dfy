/**
  Local login interactions (ConsumerLoginServiceV1 in src/consumer/login-service.ts). Each asynchronous
  method is split where it awaits; the stretches run in any order. A close is recorded when
  `browser.close()` is called.
 */
module LoginInteractions {
  import opened Wrappers
  import BM = BoundedMemory

  const MAX_REMEMBERED: nat := 100

  type Id = string

  datatype Closure = Expired | Closed

  datatype CallResult = Outcome(outcome: string, success: bool) | CallFailed(code: string) | OtherResult

  /** How the login check and the commit of its session end. */
  datatype Ending =
    | Checked(result: CallResult, commit: Commit)
    | HttpFailure(code: string)
    | Broken

  datatype Commit = Committed | SessionInUse | StateInvalid | CommitBroken

  datatype Reply =
    | Completed
    | CheckFailed(code: string)
    | SessionTaken
    | LocalStateInvalid
    | LoginClosed
    | LoginExpired
    | NotFound

  /** A committed session, with the result of the check that earned it. */
  datatype Session = Session(id: Id, result: CallResult)

  /** A `finish` call that waits for its browser to close before it gives this reply. */
  datatype Pending = Pending(id: Id, reply: Reply, consent: bool)

  /** What the caller of `complete`, or of `open` on the consent path, is told in the end. */
  datatype Heard = Told(reply: Reply) | Unavailable | Rejected

  datatype Answer = Answer(id: Id, heard: Heard, threw: bool)

  /**
    `checks` are the running `finish` calls, `closing` those that wait for their browser to close, each
    element of `queues` what a running `closeAll` has yet to close. The last four fields are logs:
    closures remembered, browsers closed, sessions committed, answers given.
   */
  datatype State = State(
    everOpened: set<Id>, consents: set<Id>, active: seq<Id>, timers: set<Id>, checks: seq<Id>,
    closing: seq<Pending>, queues: seq<seq<Id>>, remembered: seq<BM.Item<Id, Closure>>,
    closures: seq<BM.Item<Id, Closure>>, closed: seq<Id>, sessions: seq<Session>, answers: seq<Answer>)

  datatype Step =
    | Open(id: Id, consent: bool)
    | Complete(id: Id)
    | CheckEnds(id: Id, ending: Ending)
    | TimerFires(id: Id)
    | CloseAll
    | CloseReturns(queue: nat, throws: bool)
    | CheckCloseReturns(call: nat, throws: bool)

  /** The outcomes that the contract accepts as proof of login. */
  type Contract = Id -> set<string>

  const START: State := State({}, {}, [], {}, [], [], [], [], [], [], [], [])

  // ---------- Stretches between awaits ----------

  function Remove(ids: seq<Id>, id: Id): seq<Id>
  {
    if |ids| == 0 then []
    else if ids[0] == id then ids[1..]
    else [ids[0]] + Remove(ids[1..], id)
  }

  function RememberClosure(items: seq<BM.Item<Id, Closure>>, id: Id, closure: Closure): seq<BM.Item<Id, Closure>>
  {
    BM.Trim(BM.Put(BM.Without(items, id), id, closure), MAX_REMEMBERED)
  }

  function Remembering(s: State, id: Id, closure: Closure): State
  {
    s.(remembered := RememberClosure(s.remembered, id, closure), closures := s.closures + [BM.Item(id, closure)])
  }

  predicate Authenticated(contract: Contract, id: Id, result: CallResult)
  {
    result.Outcome? && result.success && result.outcome in contract(id)
  }

  function ReplyTo(contract: Contract, id: Id, ending: Ending): Reply
  {
    match ending
    case HttpFailure(code) => CheckFailed(if code == "invalid_request" then "invalid_input" else code)
    case Broken => LoginClosed
    case Checked(result, commit) =>
      if !Authenticated(contract, id, result) then
        CheckFailed(if result.CallFailed? then result.code else "session_invalid")
      else
        match commit
        case Committed => Completed
        case SessionInUse => SessionTaken
        case StateInvalid => LocalStateInvalid
        case CommitBroken => LoginClosed
  }

  function Finished(s: State, contract: Contract, id: Id, ending: Ending): State
  {
    var reply := ReplyTo(contract, id, ending);
    var t := if reply.LoginClosed? then Remembering(s, id, Closed) else s;
    t.(checks := Remove(s.checks, id), closed := s.closed + [id],
       closing := s.closing + [Pending(id, reply, id in s.consents)],
       sessions := if reply.Completed? then s.sessions + [Session(id, ending.result)] else s.sessions)
  }

  /**
    A close that throws replaces the reply; the consent path turns that, like a closed browser, into its own
    answer.
   */
  function HeardAfter(p: Pending, throws: bool): Heard
  {
    if throws then (if p.consent then Unavailable else Rejected)
    else if p.consent && p.reply.LoginClosed? then Unavailable
    else Told(p.reply)
  }

  function Answered(s: State, k: nat, throws: bool): State
    requires k < |s.closing|
  {
    var p := s.closing[k];
    s.(closing := s.closing[..k] + s.closing[k + 1..],
       answers := s.answers + [Answer(p.id, HeardAfter(p, throws), throws)])
  }

  /** One turn of the loop in `closeAll`. */
  function CloseNext(s: State, id: Id): State
  {
    var t := Remembering(s, id, Closed);
    t.(timers := s.timers - {id}, closed := s.closed + [id])
  }

  function Next(s: State, contract: Contract, step: Step): State
  {
    match step
    case Open(id, consent) =>
      if id in s.everOpened then s
      else if consent then
        s.(everOpened := s.everOpened + {id}, consents := s.consents + {id}, checks := s.checks + [id])
      else s.(everOpened := s.everOpened + {id}, active := s.active + [id], timers := s.timers + {id})
    case Complete(id) =>
      if id !in s.active then s
      else s.(active := Remove(s.active, id), timers := s.timers - {id}, checks := s.checks + [id])
    case CheckEnds(id, ending) => if id in s.checks then Finished(s, contract, id, ending) else s
    case TimerFires(id) =>
      if id !in s.timers then s
      else if id !in s.active then s.(timers := s.timers - {id})
      else
        var t := Remembering(s, id, Expired);
        t.(active := Remove(s.active, id), timers := s.timers - {id}, closed := s.closed + [id])
    case CloseAll =>
      var t := s.(active := []);
      if |s.active| == 0 then t else CloseNext(t, s.active[0]).(queues := s.queues + [s.active[1..]])
    case CloseReturns(k, throws) =>
      if k >= |s.queues| || |s.queues[k]| == 0 then s
      else if throws then s.(queues := s.queues[k := []])
      else CloseNext(s, s.queues[k][0]).(queues := s.queues[k := s.queues[k][1..]])
    case CheckCloseReturns(k, throws) => if k < |s.closing| then Answered(s, k, throws) else s
  }

  function After(contract: Contract, steps: seq<Step>): State
  {
    if |steps| == 0 then START else Next(After(contract, steps[..|steps| - 1]), contract, steps[|steps| - 1])
  }

  function ClosedResult(remembered: seq<BM.Item<Id, Closure>>, id: Id): Reply
  {
    if BM.Has(remembered, id) then (if BM.Get(remembered, id).Expired? then LoginExpired else LoginClosed)
    else NotFound
  }

  // ---------- Conservation of interactions ----------

  function Queued(queues: seq<seq<Id>>): multiset<Id>
  {
    if |queues| == 0 then multiset{} else Queued(queues[..|queues| - 1]) + multiset(queues[|queues| - 1])
  }

  /** Everyone who has, or had, the right to close a browser. */
  function Owners(s: State): multiset<Id>
  {
    multiset(s.active) + multiset(s.checks) + Queued(s.queues) + multiset(s.closed)
  }

  lemma {:induction false} RemoveOne(ids: seq<Id>, id: Id)
    requires id in ids
    ensures multiset(ids) == multiset(Remove(ids, id)) + multiset{id}
  {
    assert ids == [ids[0]] + ids[1..];
    if ids[0] != id {
      RemoveOne(ids[1..], id);
    }
  }

  lemma AddBoth(a: multiset<Id>, b: multiset<Id>, c: multiset<Id>, d: multiset<Id>, e: multiset<Id>)
    requires a + b == c + d
    ensures (a + e) + b == (c + e) + d
  {
    assert (a + e) + b == (a + b) + e;
    assert (c + e) + d == (c + d) + e;
  }

  lemma {:induction false} QueueUpdate(queues: seq<seq<Id>>, k: nat, queue: seq<Id>)
    requires k < |queues|
    ensures Queued(queues[k := queue]) + multiset(queues[k]) == Queued(queues) + multiset(queue)
  {
    var n := |queues| - 1;
    if k == n {
      assert queues[k := queue][..n] == queues[..n];
    } else {
      QueueUpdate(queues[..n], k, queue);
      var updated := queues[k := queue];
      assert updated[..n] == queues[..n][k := queue] && updated[n] == queues[n];
      AddBoth(Queued(queues[..n][k := queue]), multiset(queues[k]),
              Queued(queues[..n]), multiset(queue), multiset(queues[n]));
    }
  }

  lemma HeadAndTail(ids: seq<Id>)
    requires |ids| > 0
    ensures multiset(ids) == multiset{ids[0]} + multiset(ids[1..])
  {
    assert ids == [ids[0]] + ids[1..];
  }

  lemma CloseAllConserves(s: State, contract: Contract)
    ensures Owners(Next(s, contract, CloseAll)) == Owners(s)
  {
    if |s.active| > 0 {
      HeadAndTail(s.active);
      var queues := s.queues + [s.active[1..]];
      assert queues[..|s.queues|] == s.queues;
      assert Queued(queues) == Queued(s.queues) + multiset(s.active[1..]);
      assert multiset(s.closed + [s.active[0]]) == multiset(s.closed) + multiset{s.active[0]};
    }
  }

  lemma HeadCloses(active: multiset<Id>, checks: multiset<Id>, queues: multiset<Id>, shorter: multiset<Id>,
                   closed: seq<Id>, head: Id)
    requires queues == shorter + multiset{head}
    ensures active + checks + shorter + multiset(closed + [head]) == active + checks + queues + multiset(closed)
  {
    assert multiset(closed + [head]) == multiset(closed) + multiset{head};
  }

  lemma QueueShortens(queues: seq<seq<Id>>, k: nat)
    requires k < |queues| && |queues[k]| > 0
    ensures Queued(queues) == Queued(queues[k := queues[k][1..]]) + multiset{queues[k][0]}
    ensures Queued(queues[k := []]) <= Queued(queues)
  {
    var head, tail := multiset{queues[k][0]}, multiset(queues[k][1..]);
    HeadAndTail(queues[k]);
    QueueUpdate(queues, k, queues[k][1..]);
    Cancel(Queued(queues[k := queues[k][1..]]), head, tail, Queued(queues));
    QueueUpdate(queues, k, []);
  }

  lemma Cancel(shorter: multiset<Id>, head: multiset<Id>, tail: multiset<Id>, whole: multiset<Id>)
    requires shorter + (head + tail) == whole + tail
    ensures whole == shorter + head
  {
    forall id ensures whole[id] == (shorter + head)[id] {
      assert (shorter + (head + tail))[id] == (whole + tail)[id];
    }
  }

  lemma CloseReturnsConserves(s: State, contract: Contract, k: nat, throws: bool)
    ensures Owners(Next(s, contract, CloseReturns(k, throws))) <= Owners(s)
    ensures !throws ==> Owners(Next(s, contract, CloseReturns(k, throws))) == Owners(s)
  {
    if k < |s.queues| && |s.queues[k]| > 0 {
      QueueShortens(s.queues, k);
      if !throws {
        HeadCloses(multiset(s.active), multiset(s.checks), Queued(s.queues),
                   Queued(s.queues[k := s.queues[k][1..]]), s.closed, s.queues[k][0]);
      }
    }
  }

  lemma AnswerConserves(s: State, contract: Contract, k: nat, throws: bool)
    ensures Owners(Next(s, contract, CheckCloseReturns(k, throws))) == Owners(s)
  {
  }

  /** One interaction moves from those active, or being checked, to the end of another list. */
  lemma MoveConserves(a: seq<Id>, b: seq<Id>, id: Id, rest: multiset<Id>)
    requires id in a
    ensures multiset(Remove(a, id)) + multiset(b + [id]) + rest == multiset(a) + multiset(b) + rest
  {
    RemoveOne(a, id);
    assert multiset(b + [id]) == multiset(b) + multiset{id};
  }

  lemma MovesConserve(s: State, contract: Contract, step: Step)
    requires step.Complete? || step.CheckEnds? || step.TimerFires?
    ensures Owners(Next(s, contract, step)) == Owners(s)
  {
    var queued := Queued(s.queues);
    Owned(s);
    Owned(Next(s, contract, step));
    match step
    case Complete(id) =>
      if id in s.active {
        MoveConserves(s.active, s.checks, id, queued + multiset(s.closed));
      }
    case CheckEnds(id, _) =>
      if id in s.checks {
        MoveConserves(s.checks, s.closed, id, multiset(s.active) + queued);
      }
    case TimerFires(id) =>
      if id in s.active {
        MoveConserves(s.active, s.closed, id, multiset(s.checks) + queued);
      }
  }

  lemma Owned(s: State)
    ensures Owners(s) == multiset(s.active) + multiset(s.checks) + (Queued(s.queues) + multiset(s.closed))
    ensures Owners(s) == multiset(s.checks) + multiset(s.closed) + (multiset(s.active) + Queued(s.queues))
    ensures Owners(s) == multiset(s.active) + multiset(s.closed) + (multiset(s.checks) + Queued(s.queues))
  {
  }

  lemma OpenConserves(s: State, contract: Contract, id: Id, consent: bool)
    requires id !in s.everOpened
    ensures Owners(Next(s, contract, Open(id, consent))) == Owners(s) + multiset{id}
  {
    if consent {
      assert multiset(s.checks + [id]) == multiset(s.checks) + multiset{id};
    } else {
      assert multiset(s.active + [id]) == multiset(s.active) + multiset{id};
    }
  }

  /** Opening is the one step that adds an interaction. */
  predicate Opens(s: State, step: Step)
  {
    step.Open? && step.id !in s.everOpened
  }

  lemma OnlyOpeningOpens(s: State, contract: Contract, step: Step)
    ensures Next(s, contract, step).everOpened == if Opens(s, step) then s.everOpened + {step.id} else s.everOpened
  {
  }

  /** A close throws while its `closeAll` still has interactions queued. */
  predicate Loses(s: State, step: Step)
  {
    step.CloseReturns? && step.throws && step.queue < |s.queues| && |s.queues[step.queue]| > 0
  }

  lemma ThrowLoses(s: State, contract: Contract, k: nat)
    requires k < |s.queues| && |s.queues[k]| > 0
    ensures Owners(Next(s, contract, CloseReturns(k, true))) + multiset(s.queues[k]) == Owners(s)
  {
    var left := s.queues[k := []];
    QueueUpdate(s.queues, k, []);
    assert Queued(left) + multiset(s.queues[k]) == Queued(s.queues);
    LostPart(multiset(s.active) + multiset(s.checks), Queued(left), multiset(s.queues[k]),
             Queued(s.queues), multiset(s.closed));
  }

  lemma LostPart(a: multiset<Id>, left: multiset<Id>, lost: multiset<Id>, whole: multiset<Id>, c: multiset<Id>)
    requires left + lost == whole
    ensures a + left + c + lost == a + whole + c
  {
    assert a + left + c + lost == a + (left + lost) + c;
  }

  /** Every step but opening passes ownership on; exactly a close that throws before a queue loses some. */
  lemma StepConserves(s: State, contract: Contract, step: Step)
    requires !Opens(s, step)
    ensures Owners(Next(s, contract, step)) <= Owners(s)
    ensures Owners(Next(s, contract, step)) == Owners(s) <==> !Loses(s, step)
  {
    if Loses(s, step) {
      ThrowLoses(s, contract, step.queue);
      assert |multiset(s.queues[step.queue])| > 0;
    } else if step.CloseAll? {
      CloseAllConserves(s, contract);
    } else if step.CloseReturns? {
      CloseReturnsConserves(s, contract, step.queue, step.throws);
    } else if step.CheckCloseReturns? {
      AnswerConserves(s, contract, step.call, step.throws);
    } else if !step.Open? {
      MovesConserve(s, contract, step);
    }
  }

  predicate EverLost(contract: Contract, steps: seq<Step>)
  {
    |steps| > 0 &&
    (EverLost(contract, steps[..|steps| - 1]) || Loses(After(contract, steps[..|steps| - 1]), steps[|steps| - 1]))
  }

  /** One step keeps owners within what was opened, and keeps the two equal exactly when it loses none. */
  lemma OwnersStep(s: State, contract: Contract, step: Step)
    requires Owners(s) <= multiset(s.everOpened)
    ensures var t := Next(s, contract, step);
            && Owners(t) <= multiset(t.everOpened)
            && (Owners(t) == multiset(t.everOpened) <==> Owners(s) == multiset(s.everOpened) && !Loses(s, step))
  {
    OnlyOpeningOpens(s, contract, step);
    if Opens(s, step) {
      OpenConserves(s, contract, step.id, step.consent);
      assert multiset(s.everOpened + {step.id}) == multiset(s.everOpened) + multiset{step.id};
      SameSum(Owners(s), multiset(s.everOpened), step.id);
    } else {
      StepConserves(s, contract, step);
      Between(Owners(Next(s, contract, step)), Owners(s), multiset(s.everOpened));
    }
  }

  lemma SameSum(a: multiset<Id>, b: multiset<Id>, id: Id)
    ensures a + multiset{id} == b + multiset{id} <==> a == b
  {
    if a + multiset{id} == b + multiset{id} {
      assert a == (a + multiset{id}) - multiset{id};
      assert b == (b + multiset{id}) - multiset{id};
    }
  }

  lemma Between(a: multiset<Id>, b: multiset<Id>, c: multiset<Id>)
    requires a <= b <= c
    ensures a == c ==> a == b
  {
    if a == c {
      forall id ensures a[id] == b[id] {
        assert a[id] <= b[id] <= c[id];
      }
    }
  }

  /**
    Ownership is exclusive: over complete, expiry, closeAll and the consent path together an opened
    interaction counts at most once, and each counts exactly once if and only if no close has thrown while
    its closeAll still had interactions queued.
   */
  lemma {:induction false} OwnersExact(contract: Contract, steps: seq<Step>)
    ensures var s := After(contract, steps);
            Owners(s) <= multiset(s.everOpened) && (Owners(s) == multiset(s.everOpened) <==> !EverLost(contract, steps))
    decreases |steps|
  {
    if |steps| > 0 {
      OwnersExact(contract, steps[..|steps| - 1]);
      OwnersStep(After(contract, steps[..|steps| - 1]), contract, steps[|steps| - 1]);
    } else {
      assert Owners(START) == multiset(START.everOpened);
    }
  }

  /** No browser is closed twice, and nothing still active, being checked or queued has been closed. */
  lemma ClosedAtMostOnce(contract: Contract, steps: seq<Step>, id: Id)
    ensures var s := After(contract, steps);
            multiset(s.closed)[id] <= 1 &&
            (id in s.closed ==> id in s.everOpened && id !in s.active && id !in s.checks && id !in Queued(s.queues))
  {
    OwnersExact(contract, steps);
    OneOwner(After(contract, steps), id);
  }

  lemma OneOwner(s: State, id: Id)
    requires Owners(s) <= multiset(s.everOpened)
    ensures multiset(s.active)[id] + multiset(s.checks)[id] + Queued(s.queues)[id] + multiset(s.closed)[id] <= 1
    ensures id in s.active || id in s.checks || id in Queued(s.queues) || id in s.closed ==> id in s.everOpened
  {
    assert Owners(s)[id] <= multiset(s.everOpened)[id] <= 1;
    assert Owners(s)[id] ==
           multiset(s.active)[id] + multiset(s.checks)[id] + Queued(s.queues)[id] + multiset(s.closed)[id];
  }

  /**
    Once nothing is active, being checked or queued, every opened browser has been closed exactly once if and
    only if no close has thrown while its closeAll still had interactions queued.
   */
  lemma ClosedExactlyOnce(contract: Contract, steps: seq<Step>)
    requires var s := After(contract, steps); |s.active| == 0 && |s.checks| == 0 && Queued(s.queues) == multiset{}
    ensures var s := After(contract, steps);
            multiset(s.closed) == multiset(s.everOpened) <==> !EverLost(contract, steps)
  {
    OwnersExact(contract, steps);
    var s := After(contract, steps);
    assert multiset(s.active) == multiset{} && multiset(s.checks) == multiset{};
    assert Owners(s) == multiset(s.closed);
  }

  // ---------- Timers, closures and sessions ----------

  predicate TimersFit(s: State)
  {
    forall id :: id in s.active ==> id in s.timers
  }

  lemma {:induction false} RemoveKeepsOthers(ids: seq<Id>, id: Id, other: Id)
    ensures other in Remove(ids, id) ==> other in ids
  {
    if |ids| > 0 && ids[0] != id {
      RemoveKeepsOthers(ids[1..], id, other);
    }
  }

  lemma RemoveDropsIt(s: State, id: Id)
    requires Owners(s) <= multiset(s.everOpened) && id in s.active
    ensures id !in Remove(s.active, id)
  {
    RemoveOne(s.active, id);
    assert Owners(s)[id] <= 1;
    assert multiset(s.active)[id] <= 1;
  }

  lemma TimersKept(s: State, contract: Contract, step: Step)
    requires TimersFit(s) && Owners(s) <= multiset(s.everOpened)
    ensures TimersFit(Next(s, contract, step))
  {
    if (step.Complete? || step.TimerFires?) && step.id in s.active {
      RemoveDropsIt(s, step.id);
    }
    forall id | id in Next(s, contract, step).active ensures id in Next(s, contract, step).timers {
      if step.Complete? || step.TimerFires? {
        RemoveKeepsOthers(s.active, step.id, id);
      }
      if step.CloseReturns? && step.queue < |s.queues| && |s.queues[step.queue]| > 0 {
        QueuedIsOwned(s, step.queue, id);
      }
    }
  }

  lemma {:induction false} QueueIsPart(queues: seq<seq<Id>>, k: nat)
    requires k < |queues|
    ensures multiset(queues[k]) <= Queued(queues)
  {
    if k < |queues| - 1 {
      QueueIsPart(queues[..|queues| - 1], k);
    }
  }

  lemma QueuedIsOwned(s: State, k: nat, id: Id)
    requires Owners(s) <= multiset(s.everOpened) && k < |s.queues| && |s.queues[k]| > 0 && id in s.active
    ensures s.queues[k][0] != id
  {
    QueueIsPart(s.queues, k);
    var head := s.queues[k][0];
    assert multiset(s.queues[k])[head] >= 1;
    assert Queued(s.queues)[head] >= 1 && Owners(s)[head] <= 1;
    assert multiset(s.active)[head] == 0;
  }

  function Keys(items: seq<BM.Item<Id, Closure>>): seq<Id>
  {
    seq(|items|, i requires 0 <= i < |items| => items[i].key)
  }

  function SessionIds(sessions: seq<Session>): seq<Id>
  {
    seq(|sessions|, i requires 0 <= i < |sessions| => sessions[i].id)
  }

  /** Only closed interactions are remembered or have a session, each once. */
  predicate LogsFit(s: State, contract: Contract)
  {
    && multiset(Keys(s.closures)) + multiset(SessionIds(s.sessions)) <= multiset(s.closed)
    && (forall i :: 0 <= i < |s.sessions| ==> Authenticated(contract, s.sessions[i].id, s.sessions[i].result))
  }

  /** A step closes at most one browser; only that interaction is then remembered, or gets its session, not both. */
  predicate OneClosed(s: State, t: State, contract: Contract)
  {
    || (t.closed == s.closed && t.closures == s.closures && t.sessions == s.sessions)
    || (OneMore(s.closed, t.closed) &&
        var id := t.closed[|s.closed|];
        || (t.closures == s.closures && t.sessions == s.sessions)
        || (t.sessions == s.sessions && OneMore(s.closures, t.closures) && t.closures[|s.closures|].key == id)
        || (t.closures == s.closures && OneMore(s.sessions, t.sessions) &&
            t.sessions[|s.sessions|].id == id && Authenticated(contract, id, t.sessions[|s.sessions|].result)))
  }

  predicate OneMore<T(==)>(before: seq<T>, after: seq<T>)
  {
    |after| == |before| + 1 && after[..|before|] == before
  }

  lemma StepClosesOne(s: State, contract: Contract, step: Step)
    ensures OneClosed(s, Next(s, contract, step), contract)
  {
  }

  lemma LogsKept(s: State, t: State, contract: Contract)
    requires LogsFit(s, contract) && OneClosed(s, t, contract)
    ensures LogsFit(t, contract)
  {
    if t.closed != s.closed {
      var id := t.closed[|s.closed|];
      assert t.closed == s.closed + [id];
      if t.closures != s.closures {
        assert Keys(t.closures) == Keys(s.closures) + [id];
      } else if t.sessions != s.sessions {
        assert SessionIds(t.sessions) == SessionIds(s.sessions) + [id];
        assert t.sessions == s.sessions + [t.sessions[|s.sessions|]];
      }
    }
  }

  lemma LoggedOnce(s: State, contract: Contract, id: Id)
    requires Owners(s) <= multiset(s.everOpened) && LogsFit(s, contract)
    ensures multiset(Keys(s.closures))[id] + multiset(SessionIds(s.sessions))[id] <= 1
    ensures id in Keys(s.closures) ==> id !in s.active
  {
    OneOwner(s, id);
    var keys, ids := multiset(Keys(s.closures)), multiset(SessionIds(s.sessions));
    assert (keys + ids)[id] == keys[id] + ids[id];
    if id in Keys(s.closures) {
      assert keys[id] >= 1 && multiset(s.closed)[id] >= 1;
    }
  }

  lemma TwiceCounts(ids: seq<Id>, i: nat, j: nat)
    requires i < j < |ids| && ids[i] == ids[j]
    ensures multiset(ids)[ids[i]] >= 2
  {
    assert ids == ids[..i] + [ids[i]] + ids[i + 1..j] + [ids[j]] + ids[j + 1..];
  }

  lemma ClosuresAreDistinct(s: State, contract: Contract)
    requires Owners(s) <= multiset(s.everOpened) && LogsFit(s, contract)
    ensures BM.DistinctKeys(s.closures)
  {
    var keys := Keys(s.closures);
    forall i, j | 0 <= i < j < |s.closures| ensures s.closures[i].key != s.closures[j].key {
      assert keys[i] == s.closures[i].key && keys[j] == s.closures[j].key;
      LoggedOnce(s, contract, keys[i]);
      if keys[i] == keys[j] {
        TwiceCounts(keys, i, j);
      }
    }
  }

  lemma {:induction false} NothingToDelete(items: seq<BM.Item<Id, Closure>>, id: Id)
    requires forall i :: 0 <= i < |items| ==> items[i].key != id
    ensures BM.Without(items, id) == items
  {
    if |items| > 0 {
      NothingToDelete(items[1..], id);
    }
  }

  lemma RememberFresh(closures: seq<BM.Item<Id, Closure>>, id: Id, closure: Closure)
    requires BM.DistinctKeys(closures + [BM.Item(id, closure)])
    ensures RememberClosure(BM.Last(closures, MAX_REMEMBERED), id, closure) ==
            BM.Last(closures + [BM.Item(id, closure)], MAX_REMEMBERED)
  {
    var kept, longer := BM.Last(closures, MAX_REMEMBERED), closures + [BM.Item(id, closure)];
    forall k | 0 <= k < |kept| ensures kept[k].key != id {
      BM.LastIsFrom(closures, MAX_REMEMBERED, k);
      var i := |closures| - |kept| + k;
      assert longer[i] == closures[i] && longer[|closures|].key == id;
    }
    NothingToDelete(kept, id);
    BM.PutFresh(kept, id, closure);
    BM.LastOfOneMore(longer, MAX_REMEMBERED);
    assert longer[..|closures|] == closures;
  }

  lemma StepRemembers(s: State, contract: Contract, step: Step)
    requires s.remembered == BM.Last(s.closures, MAX_REMEMBERED) && BM.DistinctKeys(Next(s, contract, step).closures)
    ensures var t := Next(s, contract, step); t.remembered == BM.Last(t.closures, MAX_REMEMBERED)
  {
    var t := Next(s, contract, step);
    if t.closures != s.closures {
      var last := t.closures[|s.closures|];
      assert t.closures == s.closures + [BM.Item(last.key, last.value)];
      RememberFresh(s.closures, last.key, last.value);
    }
  }

  // ---------- What always holds ----------

  /**
    Owners are exclusive, active interactions are timed, the logs are backed by closes, and the last hundred
    closures are remembered.
   */
  predicate Sound(s: State, contract: Contract)
  {
    Owners(s) <= multiset(s.everOpened) && TimersFit(s) && LogsFit(s, contract) &&
    s.remembered == BM.Last(s.closures, MAX_REMEMBERED)
  }

  lemma SoundKept(s: State, contract: Contract, step: Step)
    requires Sound(s, contract)
    ensures Sound(Next(s, contract, step), contract)
  {
    var t := Next(s, contract, step);
    OwnersStep(s, contract, step);
    TimersKept(s, contract, step);
    StepClosesOne(s, contract, step);
    LogsKept(s, t, contract);
    ClosuresAreDistinct(t, contract);
    StepRemembers(s, contract, step);
  }

  lemma {:induction false} AlwaysSound(contract: Contract, steps: seq<Step>)
    ensures Sound(After(contract, steps), contract)
    decreases |steps|
  {
    if |steps| > 0 {
      AlwaysSound(contract, steps[..|steps| - 1]);
      SoundKept(After(contract, steps[..|steps| - 1]), contract, steps[|steps| - 1]);
    } else {
      assert Owners(START) == multiset(START.everOpened);
    }
  }

  /** Every active interaction has its expiry timer armed. */
  lemma ActiveIsTimed(contract: Contract, steps: seq<Step>)
    ensures TimersFit(After(contract, steps))
  {
    AlwaysSound(contract, steps);
  }

  /** What is remembered is exactly the last hundred closures. */
  lemma RemembersTheLast(contract: Contract, steps: seq<Step>)
    ensures var s := After(contract, steps); s.remembered == BM.Last(s.closures, MAX_REMEMBERED)
  {
    AlwaysSound(contract, steps);
  }

  /**
    A session is committed at most once for an interaction, only after a successful outcome that its contract
    accepts, and never for one remembered as closed.
   */
  lemma SessionsAreEarned(contract: Contract, steps: seq<Step>, i: nat, j: nat)
    requires i < |After(contract, steps).sessions|
    ensures var s := After(contract, steps);
            && Authenticated(contract, s.sessions[i].id, s.sessions[i].result)
            && (j < |s.sessions| && i != j ==> s.sessions[i].id != s.sessions[j].id)
            && (j < |s.closures| ==> s.sessions[i].id != s.closures[j].key)
  {
    AlwaysSound(contract, steps);
    var s := After(contract, steps);
    var ids, keys := SessionIds(s.sessions), Keys(s.closures);
    LoggedOnce(s, contract, ids[i]);
    if j < |s.sessions| && i != j && ids[i] == ids[j] {
      TwiceCounts(ids, if i < j then i else j, if i < j then j else i);
    }
    assert multiset(ids)[ids[i]] >= 1;
    if j < |s.closures| {
      assert multiset(keys)[keys[j]] >= 1;
    }
  }

  /**
    What the record of closures says of an interaction: how it closed, as long as fewer than a hundred
    closures came after it.
   */
  predicate Recalls(closures: seq<BM.Item<Id, Closure>>, id: Id, reply: Reply)
  {
    && (forall i :: 0 <= i < |closures| && closures[i].key == id ==>
          reply == if |closures| - i > MAX_REMEMBERED then NotFound
                   else if closures[i].value.Expired? then LoginExpired
                   else LoginClosed)
    && ((forall i :: 0 <= i < |closures| ==> closures[i].key != id) ==> reply == NotFound)
  }

  lemma ReplyRecalls(s: State, contract: Contract, id: Id)
    requires Sound(s, contract)
    ensures Recalls(s.closures, id, ClosedResult(s.remembered, id))
  {
    ClosuresAreDistinct(s, contract);
    forall i | 0 <= i < |s.closures| && s.closures[i].key == id
      ensures ClosedResult(s.remembered, id) == if |s.closures| - i > MAX_REMEMBERED then NotFound
                                                else if s.closures[i].value.Expired? then LoginExpired
                                                else LoginClosed
    {
      BM.LastHolds(s.closures, MAX_REMEMBERED, i);
      if |s.closures| - i <= MAX_REMEMBERED {
        LastIsDistinct(s.closures, s.closures[i]);
      }
    }
    if BM.Has(s.remembered, id) {
      var k :| 0 <= k < |s.remembered| && s.remembered[k].key == id;
      BM.LastIsFrom(s.closures, MAX_REMEMBERED, k);
    }
  }

  /**
    Completing a closed interaction says how it ended exactly while fewer than a hundred closures came after
    it, and what is closed is not active.
   */
  lemma LateCompletionIsAnswered(contract: Contract, steps: seq<Step>, id: Id)
    ensures var s := After(contract, steps);
            && |s.remembered| <= MAX_REMEMBERED
            && (id in Keys(s.closures) ==> id !in s.active)
            && Recalls(s.closures, id, ClosedResult(s.remembered, id))
  {
    AlwaysSound(contract, steps);
    LoggedOnce(After(contract, steps), contract, id);
    ReplyRecalls(After(contract, steps), contract, id);
  }

  lemma LastIsDistinct(closures: seq<BM.Item<Id, Closure>>, item: BM.Item<Id, Closure>)
    requires BM.DistinctKeys(closures) && item in BM.Last(closures, MAX_REMEMBERED)
    ensures BM.Has(BM.Last(closures, MAX_REMEMBERED), item.key)
    ensures BM.Get(BM.Last(closures, MAX_REMEMBERED), item.key) == item.value
  {
    var last := BM.Last(closures, MAX_REMEMBERED);
    var k :| 0 <= k < |last| && last[k] == item;
    var found := BM.Item(item.key, BM.Get(last, item.key));
    var j :| 0 <= j < |last| && last[j] == found;
    BM.LastIsFrom(closures, MAX_REMEMBERED, k);
    BM.LastIsFrom(closures, MAX_REMEMBERED, j);
  }

  // ---------- What callers hear ----------

  function PendingIds(closing: seq<Pending>): seq<Id>
  {
    seq(|closing|, i requires 0 <= i < |closing| => closing[i].id)
  }

  predicate PendingFits(s: State, p: Pending)
  {
    p.id in s.closed && (p.reply.Completed? <==> p.id in SessionIds(s.sessions))
  }

  predicate AnswerFits(s: State, a: Answer)
  {
    a.id in s.closed && (a.heard == Told(Completed) <==> a.id in SessionIds(s.sessions) && !a.threw)
  }

  /**
    A reply that waits, or an answer given, says that a session is committed exactly when one is, unless a
    close threw.
   */
  predicate RepliesFit(s: State)
  {
    && (forall i :: 0 <= i < |s.closing| ==> PendingFits(s, s.closing[i]))
    && (forall i :: 0 <= i < |s.answers| ==> AnswerFits(s, s.answers[i]))
  }

  lemma SessionIdsGrow(sessions: seq<Session>, session: Session, id: Id)
    ensures id in SessionIds(sessions + [session]) <==> id in SessionIds(sessions) || id == session.id
  {
    assert SessionIds(sessions + [session]) == SessionIds(sessions) + [session.id];
  }

  lemma LaterStillFits(s: State, t: State, contract: Contract)
    requires OneClosed(s, t, contract) && RepliesFit(s) && Owners(t) <= multiset(t.everOpened)
    ensures forall i :: 0 <= i < |s.closing| ==> PendingFits(t, s.closing[i])
    ensures forall i :: 0 <= i < |s.answers| ==> AnswerFits(t, s.answers[i])
  {
    if t.closed != s.closed {
      var id := t.closed[|s.closed|];
      assert t.closed == s.closed + [id];
      OneOwner(t, id);
      assert multiset(t.closed)[id] == multiset(s.closed)[id] + 1;
      assert id !in s.closed;
      if t.sessions != s.sessions {
        assert t.sessions == s.sessions + [t.sessions[|s.sessions|]];
        forall other { SessionIdsGrow(s.sessions, t.sessions[|s.sessions|], other); }
      }
    }
  }

  lemma CheckFits(s: State, contract: Contract, id: Id, ending: Ending)
    requires Sound(s, contract) && RepliesFit(s) && id in s.checks
    ensures RepliesFit(Finished(s, contract, id, ending))
  {
    var t := Finished(s, contract, id, ending);
    assert t == Next(s, contract, CheckEnds(id, ending));
    SoundKept(s, contract, CheckEnds(id, ending));
    StepClosesOne(s, contract, CheckEnds(id, ending));
    LaterStillFits(s, t, contract);
    assert id in t.closed by { assert t.closed[|s.closed|] == id; }
    OneOwner(s, id);
    assert multiset(s.checks)[id] >= 1;
    assert multiset(SessionIds(s.sessions))[id] <= multiset(s.closed)[id];
    if t.sessions != s.sessions {
      SessionIdsGrow(s.sessions, t.sessions[|s.sessions|], id);
    }
  }

  lemma AnswerFollows(s: State, k: nat, throws: bool)
    requires RepliesFit(s) && k < |s.closing|
    ensures RepliesFit(Answered(s, k, throws))
  {
    var t, p := Answered(s, k, throws), s.closing[k];
    assert PendingFits(s, p);
    forall i | 0 <= i < |t.closing| ensures PendingFits(t, t.closing[i]) {
      assert PendingFits(s, s.closing[if i < k then i else i + 1]);
    }
    forall i | 0 <= i < |t.answers| ensures AnswerFits(t, t.answers[i]) {
      if i < |s.answers| {
        assert AnswerFits(s, s.answers[i]);
      }
    }
  }

  predicate ChecksEnd(s: State, step: Step)
  {
    (step.CheckEnds? && step.id in s.checks) || (step.CheckCloseReturns? && step.call < |s.closing|)
  }

  lemma OthersAnswerNothing(s: State, contract: Contract, step: Step)
    requires !ChecksEnd(s, step)
    ensures var t := Next(s, contract, step); t.closing == s.closing && t.answers == s.answers
  {
  }

  lemma RepliesKept(s: State, contract: Contract, step: Step)
    requires Sound(s, contract) && RepliesFit(s)
    ensures RepliesFit(Next(s, contract, step))
  {
    if !ChecksEnd(s, step) {
      OthersAnswerNothing(s, contract, step);
      SoundKept(s, contract, step);
      StepClosesOne(s, contract, step);
      LaterStillFits(s, Next(s, contract, step), contract);
    } else if step.CheckEnds? {
      CheckFits(s, contract, step.id, step.ending);
    } else {
      AnswerFollows(s, step.call, step.throws);
    }
  }

  lemma {:induction false} RepliesAlwaysFit(contract: Contract, steps: seq<Step>)
    ensures RepliesFit(After(contract, steps))
    decreases |steps|
  {
    if |steps| > 0 {
      AlwaysSound(contract, steps[..|steps| - 1]);
      RepliesAlwaysFit(contract, steps[..|steps| - 1]);
      RepliesKept(After(contract, steps[..|steps| - 1]), contract, steps[|steps| - 1]);
    }
  }

  /**
    A caller is told that the login has completed exactly when its session is committed and the browser's
    close did not throw: a committed session is kept from its caller by such a close, and by nothing else.
   */
  lemma ToldExact(contract: Contract, steps: seq<Step>, i: nat)
    requires i < |After(contract, steps).answers|
    ensures var s := After(contract, steps);
            s.answers[i].heard == Told(Completed) <==> s.answers[i].id in SessionIds(s.sessions) && !s.answers[i].threw
  {
    RepliesAlwaysFit(contract, steps);
    assert AnswerFits(After(contract, steps), After(contract, steps).answers[i]);
  }

  // ---------- Where closes throw ----------

  /** A close that throws ends the loop of `closeAll`: the interactions still queued are never closed. */
  lemma ThrowingCloseLeaks(contract: Contract)
    ensures var s := After(contract, [Open("a", false), Open("b", false), CloseAll, CloseReturns(0, true)]);
            s.active == [] && s.closed == ["a"] && "b" in s.everOpened && "b" !in Owners(s)
  {
    var s1 := Next(START, contract, Open("a", false));
    var s2 := Next(s1, contract, Open("b", false));
    assert s2.active == ["a", "b"] && ["a", "b"][1..] == ["b"];
    var s3 := Next(s2, contract, CloseAll);
    assert s3.queues == [["b"]] && s3.closed == ["a"];
    var s4 := Next(s3, contract, CloseReturns(0, true));
    assert s4.queues == [[]];
    var steps := [Open("a", false), Open("b", false), CloseAll, CloseReturns(0, true)];
    assert steps[..3] == [Open("a", false), Open("b", false), CloseAll];
    assert steps[..3][..2] == [Open("a", false), Open("b", false)];
    assert steps[..3][..2][..1] == [Open("a", false)];
    assert steps[..3][..2][..1][..0] == [];
    assert After(contract, steps[..3][..2][..1]) == s1;
    assert After(contract, steps[..3][..2]) == s2;
    assert After(contract, steps[..3]) == s3;
    QueuedOfEmpty();
  }

  lemma QueuedOfEmpty()
    ensures var none: seq<Id> := []; Queued([none]) == multiset{}
  {
    var none: seq<Id> := [];
    assert [none][..0] == [];
  }
}
