/**
  The login service as an object (ConsumerLoginServiceV1 in src/consumer/login-service.ts): its two maps,
  the timers of the active interactions, and the calls of finish and closeAll that are under way. Each
  method is one stretch between awaits. The ghost fields log what has happened.
 */
module LoginService {
  import opened Wrappers
  import opened LoginInteractions
  import BM = BoundedMemory

  class Service {
    const contract: Contract
    var consents: set<Id>
    var active: seq<Id>
    var timers: set<Id>
    var checks: seq<Id>
    var closing: seq<Pending>
    var queues: seq<seq<Id>>
    var remembered: seq<BM.Item<Id, Closure>>
    var sessions: seq<Session>
    ghost var everOpened: set<Id>
    ghost var closures: seq<BM.Item<Id, Closure>>
    ghost var closed: seq<Id>
    ghost var answers: seq<Answer>

    ghost function View(): State
      reads this
    {
      State(everOpened, consents, active, timers, checks, closing, queues, remembered,
            closures, closed, sessions, answers)
    }

    ghost predicate Valid()
      reads this
    {
      Sound(View(), contract) && RepliesFit(View())
    }

    /** Nothing about this interaction's browser, session or remembered closure has been recorded. */
    ghost predicate Untouched(id: Id)
      reads this
    {
      id !in closed && id !in Keys(closures) && id !in SessionIds(sessions)
    }

    constructor (contract: Contract)
      ensures Valid() && this.contract == contract && View() == START
    {
      this.contract := contract;
      consents, active, timers, checks, closing, queues, remembered, sessions := {}, [], {}, [], [], [], [], [];
      everOpened, closures, closed, answers := {}, [], [], [];
      new;
      AlwaysSound(contract, []);
    }

    /**
      A browser has opened under a fresh id: the consent path goes straight to its check, any other waits to
      be completed.
     */
    method Open(id: Id, consent: bool)
      requires Valid() && id !in everOpened
      modifies this
      ensures Valid() && View() == Next(old(View()), contract, Step.Open(id, consent))
      ensures Untouched(id) && (consent <==> id in checks) && (!consent <==> id in active) &&
              (id in active ==> id in timers)
    {
      ghost var t := Next(View(), contract, Step.Open(id, consent));
      SoundKept(View(), contract, Step.Open(id, consent));
      RepliesKept(View(), contract, Step.Open(id, consent));
      NotYetOpened(View(), contract, id);
      everOpened := everOpened + {id};
      if consent {
        consents := consents + {id};
        checks := checks + [id];
        assert View() == t;
        return;
      }
      timers := timers + {id};
      active := active + [id];
      assert View() == t;
    }

    /**
      An active interaction passes to its check alone: not active, not timed, its browser still open.
      Any other is answered from what is remembered, which is what the record of closures says.
     */
    method Complete(id: Id) returns (reply: Option<Reply>)
      requires Valid()
      modifies this`active, this`timers, this`checks
      ensures Valid() && View() == Next(old(View()), contract, Step.Complete(id))
      ensures id in old(active) ==>
                reply == None && id !in active && id !in timers && id in checks &&
                id !in Queued(queues) && Untouched(id)
      ensures id !in old(active) ==> View() == old(View()) && reply.Some? && Recalls(closures, id, reply.value)
    {
      ghost var t := Next(View(), contract, Step.Complete(id));
      CompletionPasses(View(), contract, id);
      if id !in active {
        return Some(ClosedResult(remembered, id));
      }
      active := Remove(active, id);
      timers := timers - {id};
      checks := checks + [id];
      assert View() == t;
      return None;
    }

    method Remember(id: Id, closure: Closure)
      modifies this`remembered, this`closures
      ensures View() == Remembering(old(View()), id, closure)
    {
      remembered := BM.Without(remembered, id);
      remembered := BM.Put(remembered, id, closure);
      closures := closures + [BM.Item(id, closure)];
      if |remembered| > MAX_REMEMBERED {
        remembered := remembered[1..];
      }
    }

    /**
      The rest of `finish`, once the check has ended, up to the call that closes the browser: it is closed
      for the first and only time; a session is stored exactly on a completed reply, a closure remembered
      exactly on a closed one. The reply waits for the close to return.
     */
    method Finish(id: Id, ending: Ending) returns (reply: Reply)
      requires Valid() && id in checks
      modifies this
      ensures Valid() && View() == Next(old(View()), contract, CheckEnds(id, ending))
      ensures Finishes(old(View()), View(), id, reply)
      ensures reply.Completed? <==>
                ending.Checked? && Authenticated(contract, id, ending.result) && ending.commit.Committed?
      ensures reply.Completed? ==> sessions[|sessions| - 1].result == ending.result
      ensures ending.Broken? ==> reply.LoginClosed?
    {
      ghost var t := Next(View(), contract, CheckEnds(id, ending));
      CheckCloses(View(), contract, id, ending);
      reply := Judge(id, ending);
      checks := Remove(checks, id);
      closed := closed + [id];
      closing := closing + [Pending(id, reply, id in consents)];
      assert View() == t;
    }

    /**
      The close has returned: the caller is told of a completed login exactly when its session is committed
      and the close did not throw.
     */
    method CloseEnded(k: nat, throws: bool) returns (heard: Heard)
      requires Valid() && k < |closing|
      modifies this`closing, this`answers
      ensures Valid() && View() == Next(old(View()), contract, CheckCloseReturns(k, throws))
      ensures heard == Told(Completed) <==> old(closing)[k].id in SessionIds(sessions) && !throws
      ensures throws ==> heard in {Rejected, Unavailable}
      ensures heard.Unavailable? ==> old(closing)[k].consent && (throws || old(closing)[k].reply.LoginClosed?)
    {
      ghost var t := Next(View(), contract, CheckCloseReturns(k, throws));
      AnswerTells(View(), contract, k, throws);
      var p := closing[k];
      heard := HeardAfter(p, throws);
      closing := closing[..k] + closing[k + 1..];
      answers := answers + [Answer(p.id, heard, throws)];
      assert View() == t;
    }

    /** The check's ending becomes a reply, with the session committed or the closure remembered. */
    method Judge(id: Id, ending: Ending) returns (reply: Reply)
      modifies this`sessions, this`remembered, this`closures
      ensures reply == ReplyTo(contract, id, ending)
      ensures var s := old(View());
              View() == (if reply.LoginClosed? then Remembering(s, id, Closed) else s).(
                sessions := if reply.Completed? then s.sessions + [Session(id, ending.result)] else s.sessions)
    {
      match ending {
        case HttpFailure(code) =>
          reply := CheckFailed(if code == "invalid_request" then "invalid_input" else code);
        case Broken =>
          Remember(id, Closed);
          reply := LoginClosed;
        case Checked(result, commit) =>
          if !Authenticated(contract, id, result) {
            reply := CheckFailed(if result.CallFailed? then result.code else "session_invalid");
          } else {
            match commit {
              case Committed =>
                sessions := sessions + [Session(id, result)];
                reply := Completed;
              case SessionInUse => reply := SessionTaken;
              case StateInvalid => reply := LocalStateInvalid;
              case CommitBroken =>
                Remember(id, Closed);
                reply := LoginClosed;
            }
          }
      }
    }

    /**
      The expiry timer fires. An interaction that nobody has taken over is closed, for the first time, and
      remembered as expired; one that has been taken over is left to its owner.
     */
    method CloseExpired(id: Id)
      requires Valid() && id in timers
      modifies this`active, this`timers, this`remembered, this`closures, this`closed
      ensures Valid() && View() == Next(old(View()), contract, TimerFires(id))
      ensures Expires(old(View()), View(), id)
    {
      ghost var t := Next(View(), contract, TimerFires(id));
      ExpiryCloses(View(), contract, id);
      timers := timers - {id};
      if id !in active {
        assert View() == t;
        return;
      }
      active := Remove(active, id);
      Remember(id, Expired);
      closed := closed + [id];
      assert View() == t;
    }

    /** One turn of the loop: the interaction's timer is cleared, its closure remembered, its browser closed. */
    method CloseOne(id: Id)
      modifies this`timers, this`remembered, this`closures, this`closed
      ensures View() == CloseNext(old(View()), id)
    {
      timers := timers - {id};
      Remember(id, Closed);
      closed := closed + [id];
    }

    /** Everything active is taken over at once: the first is closed, the others are queued in their order. */
    method CloseAll()
      requires Valid()
      modifies this`active, this`timers, this`queues, this`remembered, this`closures, this`closed
      ensures Valid() && View() == Next(old(View()), contract, Step.CloseAll)
      ensures active == []
      ensures |old(active)| > 0 ==>
                closed == old(closed) + [old(active)[0]] && queues == old(queues) + [old(active)[1..]]
      ensures AllPassed(old(active), closed, queues)
    {
      ghost var t := Next(View(), contract, Step.CloseAll);
      AllTakenOver(View(), contract);
      var snapshot := active;
      active := [];
      if |snapshot| > 0 {
        CloseOne(snapshot[0]);
        queues := queues + [snapshot[1..]];
      }
      assert View() == t;
    }

    /**
      A close of `closeAll` has returned: the next queued interaction is closed, for the first time, unless
      the close threw.
     */
    method CloseReturned(k: nat, throws: bool)
      requires Valid() && k < |queues| && |queues[k]| > 0
      modifies this
      ensures Valid() && View() == Next(old(View()), contract, CloseReturns(k, throws))
      ensures throws ==> closed == old(closed) && queues == old(queues)[k := []]
      ensures !throws ==> old(queues)[k][0] !in old(closed) && closed == old(closed) + [old(queues)[k][0]]
    {
      QueuedCloses(View(), contract, k, throws);
      if throws {
        queues := queues[k := []];
        return;
      }
      var id := queues[k][0];
      CloseOne(id);
      queues := queues[k := queues[k][1..]];
    }
  }

  /** What a completion does, said of the states before and after. */
  lemma CompletionPasses(s: State, contract: Contract, id: Id)
    requires Sound(s, contract) && RepliesFit(s)
    ensures var t := Next(s, contract, Step.Complete(id));
            && Sound(t, contract) && RepliesFit(t) && Recalls(s.closures, id, ClosedResult(s.remembered, id))
            && (id in s.active ==>
                  && id !in t.active && id !in t.timers && id in t.checks && id !in Queued(t.queues)
                  && id !in t.closed && id !in Keys(t.closures) && id !in SessionIds(t.sessions))
  {
    SoundKept(s, contract, Step.Complete(id));
    RepliesKept(s, contract, Step.Complete(id));
    ReplyRecalls(s, contract, id);
    if id in s.active {
      InCheckIsOwned(Next(s, contract, Step.Complete(id)), contract, id);
    }
  }

  /** Each of these is closed, or queued to be closed. */
  predicate AllPassed(ids: seq<Id>, closed: seq<Id>, queues: seq<seq<Id>>)
  {
    forall id :: id in ids ==> id in closed || id in Queued(queues)
  }

  /** What taking everything over does, said of the states before and after. */
  lemma AllTakenOver(s: State, contract: Contract)
    requires Sound(s, contract) && RepliesFit(s)
    ensures var t := Next(s, contract, Step.CloseAll);
            && Sound(t, contract) && RepliesFit(t) && AllPassed(s.active, t.closed, t.queues)
            && (|s.active| > 0 ==>
                  t.closed == s.closed + [s.active[0]] && t.queues == s.queues + [s.active[1..]])
  {
    SoundKept(s, contract, Step.CloseAll);
    RepliesKept(s, contract, Step.CloseAll);
    CloseAllConserves(s, contract);
    forall id | id in s.active
      ensures id in Next(s, contract, Step.CloseAll).closed || id in Queued(Next(s, contract, Step.CloseAll).queues)
    {
      TakenOver(s, Next(s, contract, Step.CloseAll), id);
    }
  }

  /**
    The interaction leaves its check and loses its browser, for the first time; a session is stored exactly
    on a completed reply and a closure remembered exactly on a closed one; the reply waits for the close.
   */
  predicate Finishes(s: State, t: State, id: Id, reply: Reply)
  {
    && id !in s.closed && t.closed == s.closed + [id] && id !in t.checks && id !in t.active
    && |t.sessions| == |s.sessions| + (if reply.Completed? then 1 else 0) && s.sessions <= t.sessions
    && (reply.Completed? ==> t.sessions[|s.sessions|].id == id)
    && t.closures == s.closures + (if reply.LoginClosed? then [BM.Item(id, Closed)] else [])
    && t.closing == s.closing + [Pending(id, reply, id in s.consents)]
  }

  /** What the end of a check does, said of the states before and after. */
  lemma CheckCloses(s: State, contract: Contract, id: Id, ending: Ending)
    requires Sound(s, contract) && RepliesFit(s) && id in s.checks
    ensures var t, reply := Next(s, contract, CheckEnds(id, ending)), ReplyTo(contract, id, ending);
            && Sound(t, contract) && RepliesFit(t) && Finishes(s, t, id, reply)
            && (reply.Completed? ==> t.sessions[|t.sessions| - 1].result == ending.result)
  {
    var t := Next(s, contract, CheckEnds(id, ending));
    SoundKept(s, contract, CheckEnds(id, ending));
    RepliesKept(s, contract, CheckEnds(id, ending));
    InCheckIsOwned(s, contract, id);
    OneOwner(t, id);
    assert multiset(t.closed)[id] >= 1;
  }

  /**
    An interaction that is active loses its browser, for the first time, and is remembered last, as expired;
    any other is left alone. Its timer is gone in both cases.
   */
  predicate Expires(s: State, t: State, id: Id)
  {
    && id !in t.timers && id !in t.active
    && (if id in s.active then
          && id !in s.closed && t.closed == s.closed + [id] && t.closures == s.closures + [BM.Item(id, Expired)]
          && |t.remembered| > 0 && t.remembered[|t.remembered| - 1] == BM.Item(id, Expired)
        else t.active == s.active && t.closed == s.closed && t.remembered == s.remembered)
  }

  /** What an expiry does, said of the states before and after. */
  lemma ExpiryCloses(s: State, contract: Contract, id: Id)
    requires Sound(s, contract) && RepliesFit(s) && id in s.timers
    ensures var t := Next(s, contract, TimerFires(id)); Sound(t, contract) && RepliesFit(t) && Expires(s, t, id)
  {
    var t := Next(s, contract, TimerFires(id));
    SoundKept(s, contract, TimerFires(id));
    RepliesKept(s, contract, TimerFires(id));
    OneOwner(s, id);
    if id in s.active {
      RemoveDropsIt(s, id);
      assert multiset(s.active)[id] >= 1;
      BM.LastIsFrom(t.closures, MAX_REMEMBERED, |t.remembered| - 1);
    }
  }

  /** What a caller is told, said of the states before and after. */
  lemma AnswerTells(s: State, contract: Contract, k: nat, throws: bool)
    requires Sound(s, contract) && RepliesFit(s) && k < |s.closing|
    ensures var t, heard := Next(s, contract, CheckCloseReturns(k, throws)), HeardAfter(s.closing[k], throws);
            && Sound(t, contract) && RepliesFit(t) && t.sessions == s.sessions
            && (heard == Told(Completed) <==> s.closing[k].id in SessionIds(s.sessions) && !throws)
            && (throws ==> heard in {Rejected, Unavailable})
            && (heard.Unavailable? ==> s.closing[k].consent && (throws || s.closing[k].reply.LoginClosed?))
  {
    SoundKept(s, contract, CheckCloseReturns(k, throws));
    RepliesKept(s, contract, CheckCloseReturns(k, throws));
    assert PendingFits(s, s.closing[k]);
  }

  /** What the return of a close does, said of the states before and after. */
  lemma QueuedCloses(s: State, contract: Contract, k: nat, throws: bool)
    requires Sound(s, contract) && RepliesFit(s) && k < |s.queues| && |s.queues[k]| > 0
    ensures var t := Next(s, contract, CloseReturns(k, throws));
            Sound(t, contract) && RepliesFit(t) &&
            (!throws ==> s.queues[k][0] !in s.closed && t.closed == s.closed + [s.queues[k][0]])
  {
    SoundKept(s, contract, CloseReturns(k, throws));
    RepliesKept(s, contract, CloseReturns(k, throws));
    var id := s.queues[k][0];
    QueueIsPart(s.queues, k);
    OneOwner(s, id);
    assert multiset(s.queues[k])[id] >= 1;
    assert Queued(s.queues)[id] >= 1 && multiset(s.closed)[id] == 0;
  }

  /** An interaction in its check has no other owner, and nothing of it has been recorded. */
  lemma InCheckIsOwned(s: State, contract: Contract, id: Id)
    requires Sound(s, contract) && id in s.checks
    ensures id !in s.active && id !in Queued(s.queues) && id !in s.closed
    ensures id !in Keys(s.closures) && id !in SessionIds(s.sessions)
  {
    OneOwner(s, id);
    assert multiset(s.checks)[id] >= 1;
    NotClosedNotLogged(s, contract, id);
  }

  lemma NotClosedNotLogged(s: State, contract: Contract, id: Id)
    requires LogsFit(s, contract) && id !in s.closed
    ensures id !in Keys(s.closures) && id !in SessionIds(s.sessions)
  {
    assert multiset(s.closed)[id] == 0;
    assert (multiset(Keys(s.closures)) + multiset(SessionIds(s.sessions)))[id] == 0;
    assert id in Keys(s.closures) <==> id in multiset(Keys(s.closures));
    assert id in SessionIds(s.sessions) <==> id in multiset(SessionIds(s.sessions));
  }

  lemma NotYetOpened(s: State, contract: Contract, id: Id)
    requires Sound(s, contract) && id !in s.everOpened
    ensures id !in s.active && id !in s.checks && id !in s.closed
    ensures id !in Keys(s.closures) && id !in SessionIds(s.sessions)
  {
    OneOwner(s, id);
    NotClosedNotLogged(s, contract, id);
  }

  lemma TakenOver(s: State, t: State, id: Id)
    requires Owners(s) == Owners(t) && Owners(s) <= multiset(s.everOpened)
    requires id in s.active && t.active == [] && t.checks == s.checks
    ensures id in t.closed || id in Queued(t.queues)
  {
    OneOwner(s, id);
    assert multiset(s.active)[id] >= 1;
    assert Owners(t)[id] ==
           multiset(t.active)[id] + multiset(t.checks)[id] + Queued(t.queues)[id] + multiset(t.closed)[id];
    assert Owners(s)[id] >= 1;
  }
}
