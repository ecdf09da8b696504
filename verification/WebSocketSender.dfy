/**
  Sending one WebSocket frame and settling one promise (src/drivers/node-ws-client.ts), against
  timers and socket events in any order. Timers are kept as armed or not; an armed one may fire at any time.
 */
module WebSocketSender {
  import opened Wrappers

  datatype Code =
    | AckTimeout
    | ClosedBeforeAck
    | ConnectionError
    | ConstructFailed
    | OpenTimeout
    | RequestTimeout
    | SendFailed
    | SendThrew

  datatype Result = Sent(ack: Option<string>) | Failure(code: Code, sent: bool)

  /**
    The options that shape the run: the text an acknowledgement must contain (none if empty) and whether there
    is a total timeout.
   */
  datatype Options = Options(ackMatch: string, timed: bool)

  /**
    `handed` records that the socket took the payload, `callback` that its completion is outstanding,
    `closing` that the socket was told to close, and `frames` every frame received while unsettled.
   */
  datatype State = State(
    built: bool, result: Option<Result>, sent: bool,
    openTimer: bool, ackTimer: bool, requestTimer: bool,
    isOpen: bool, handed: bool, callback: bool, closing: bool, frames: seq<string>)

  datatype Event =
    | Constructed(throws: bool)
    | RequestTimerFires
    | OpenTimerFires
    | AckTimerFires
    | Opens(throws: bool)
    | SendCompletes(fails: bool)
    | Message(text: string)
    | SocketError
    | Closes

  predicate Contains(s: string, t: string)
  {
    exists i :: 0 <= i <= |s| && t <= s[i..]
  }

  function Begin(o: Options): State
  {
    State(false, None, false, false, false, o.timed, false, false, false, false, [])
  }

  function Settled(s: State, result: Result): State
  {
    if s.result.Some? then s
    else s.(result := Some(result), openTimer := false, ackTimer := false, requestTimer := false, closing := s.built)
  }

  function Next(s: State, o: Options, e: Event): State
  {
    match e
    case Constructed(throws) =>
      if s.built || s.result.Some? then s
      else if throws then Settled(s, Failure(ConstructFailed, false))
      else s.(built := true, openTimer := true)
    case RequestTimerFires =>
      if s.requestTimer then Settled(s.(requestTimer := false), Failure(RequestTimeout, s.sent)) else s
    case OpenTimerFires =>
      if s.openTimer then Settled(s.(openTimer := false), Failure(OpenTimeout, false)) else s
    case AckTimerFires =>
      if s.ackTimer then Settled(s.(ackTimer := false), Failure(AckTimeout, true)) else s
    case Opens(throws) =>
      if !s.built || s.isOpen then s
      else if throws then Settled(s.(isOpen := true, openTimer := false, sent := false), Failure(SendThrew, false))
      else s.(isOpen := true, openTimer := false, sent := true, handed := true, callback := true)
    case SendCompletes(fails) =>
      if !s.callback then s
      else
        var t := s.(callback := false);
        if fails then Settled(t, Failure(SendFailed, true))
        else if s.result.Some? then t
        else if o.ackMatch == "" then Settled(t, Sent(None))
        else t.(ackTimer := true)
    case Message(text) =>
      if !s.isOpen || s.result.Some? then s
      else
        var t := s.(frames := s.frames + [text]);
        if o.ackMatch != "" && Contains(text, o.ackMatch) then Settled(t, Sent(Some(text))) else t
    case SocketError =>
      if s.built then Settled(s, Failure(ConnectionError, s.sent)) else s
    case Closes =>
      if s.built then Settled(s, Failure(ClosedBeforeAck, s.sent)) else s
  }

  function After(o: Options, events: seq<Event>): State
  {
    if |events| == 0 then Begin(o) else Next(After(o, events[..|events| - 1]), o, events[|events| - 1])
  }

  // ---------- The closure's variables as an object ----------

  class Sender {
    const o: Options
    var built: bool
    var result: Option<Result>
    var sent: bool
    var openTimer: bool
    var ackTimer: bool
    var requestTimer: bool
    var isOpen: bool
    var handed: bool
    var callback: bool
    var closing: bool
    var frames: seq<string>

    function View(): State
      reads this
    {
      State(built, result, sent, openTimer, ackTimer, requestTimer, isOpen, handed, callback, closing, frames)
    }

    constructor (o: Options)
      ensures this.o == o && View() == Begin(o)
    {
      this.o := o;
      built, result, sent := false, None, false;
      openTimer, ackTimer, requestTimer := false, false, o.timed;
      isOpen, handed, callback, closing, frames := false, false, false, false, [];
    }

    method Settle(r: Result)
      modifies this
      ensures View() == Settled(old(View()), r)
    {
      if result.Some? {
        return;
      }
      result := Some(r);
      if openTimer {
        openTimer := false;
      }
      if ackTimer {
        ackTimer := false;
      }
      if requestTimer {
        requestTimer := false;
      }
      closing := built;
    }

    method Construct(throws: bool)
      requires !built && result.None?
      modifies this
      ensures View() == Next(old(View()), o, Constructed(throws))
    {
      if throws {
        Settle(Failure(ConstructFailed, false));
        return;
      }
      built := true;
      openTimer := true;
    }

    method OnRequestTimeout()
      requires requestTimer
      modifies this
      ensures View() == Next(old(View()), o, RequestTimerFires)
    {
      requestTimer := false;
      Settle(Failure(RequestTimeout, sent));
    }

    method OnOpenTimeout()
      requires openTimer
      modifies this
      ensures View() == Next(old(View()), o, OpenTimerFires)
    {
      openTimer := false;
      Settle(Failure(OpenTimeout, false));
    }

    method OnAckTimeout()
      requires ackTimer
      modifies this
      ensures View() == Next(old(View()), o, AckTimerFires)
    {
      ackTimer := false;
      Settle(Failure(AckTimeout, true));
    }

    method OnOpen(throws: bool)
      requires built && !isOpen
      modifies this
      ensures View() == Next(old(View()), o, Opens(throws))
    {
      isOpen := true;
      if openTimer {
        openTimer := false;
      }
      sent := true;
      if throws {
        sent := false;
        Settle(Failure(SendThrew, false));
        return;
      }
      handed, callback := true, true;
    }

    method OnSendComplete(fails: bool)
      requires callback
      modifies this
      ensures View() == Next(old(View()), o, SendCompletes(fails))
    {
      callback := false;
      if fails {
        Settle(Failure(SendFailed, true));
        return;
      }
      if result.Some? {
        return;
      }
      if o.ackMatch == "" {
        Settle(Sent(None));
        return;
      }
      ackTimer := true;
    }

    method OnMessage(text: string)
      requires isOpen
      modifies this
      ensures View() == Next(old(View()), o, Message(text))
    {
      if result.Some? {
        return;
      }
      frames := frames + [text];
      if o.ackMatch == "" {
        return;
      }
      if Contains(text, o.ackMatch) {
        Settle(Sent(Some(text)));
      }
    }

    method OnError()
      requires built
      modifies this
      ensures View() == Next(old(View()), o, SocketError)
    {
      Settle(Failure(ConnectionError, sent));
    }

    method OnClose()
      requires built
      modifies this
      ensures View() == Next(old(View()), o, Closes)
    {
      if result.Some? {
        return;
      }
      Settle(Failure(ClosedBeforeAck, sent));
    }
  }

  // ---------- What has happened so far, read off the events ----------

  /** The socket exists: its construction did not throw, and came before a total timeout. */
  predicate Built(o: Options, events: seq<Event>)
  {
    |events| > 0 &&
    var before := events[..|events| - 1];
    Built(o, before) ||
    (events[|events| - 1] == Constructed(false) && Constructed(true) !in before &&
     !(o.timed && RequestTimerFires in before))
  }

  /** The one opening of the socket, and whether handing over the payload threw. */
  function Opening(o: Options, events: seq<Event>): Option<bool>
  {
    if |events| == 0 then None
    else
      var before, e := events[..|events| - 1], events[|events| - 1];
      if Opening(o, before).Some? then Opening(o, before)
      else if e.Opens? && Built(o, before) then Some(e.throws) else None
  }

  /** The socket took the payload. */
  predicate Handed(o: Options, events: seq<Event>)
  {
    Opening(o, events) == Some(false)
  }

  /** The one completion of the send, and whether it failed. */
  function Completion(o: Options, events: seq<Event>): Option<bool>
  {
    if |events| == 0 then None
    else
      var before, e := events[..|events| - 1], events[|events| - 1];
      if Completion(o, before).Some? then Completion(o, before)
      else if e.SendCompletes? && Handed(o, before) then Some(e.fails) else None
  }

  /** What an event is a reason to settle with, after what has happened before it. */
  function Cause(o: Options, before: seq<Event>, e: Event): Option<Result>
  {
    match e
    case Constructed(throws) => if throws && !Built(o, before) then Some(Failure(ConstructFailed, false)) else None
    case RequestTimerFires => if o.timed then Some(Failure(RequestTimeout, Handed(o, before))) else None
    case OpenTimerFires =>
      if Built(o, before) && Opening(o, before).None? then Some(Failure(OpenTimeout, false)) else None
    case AckTimerFires =>
      if Completion(o, before) == Some(false) && o.ackMatch != "" then Some(Failure(AckTimeout, true)) else None
    case Opens(throws) =>
      if throws && Built(o, before) && Opening(o, before).None? then Some(Failure(SendThrew, false)) else None
    case SendCompletes(fails) =>
      if !Handed(o, before) || Completion(o, before).Some? then None
      else if fails then Some(Failure(SendFailed, true))
      else if o.ackMatch == "" then Some(Sent(None)) else None
    case Message(text) =>
      if Opening(o, before).Some? && o.ackMatch != "" && Contains(text, o.ackMatch) then Some(Sent(Some(text)))
      else None
    case SocketError => if Built(o, before) then Some(Failure(ConnectionError, Handed(o, before))) else None
    case Closes => if Built(o, before) then Some(Failure(ClosedBeforeAck, Handed(o, before))) else None
  }

  function CauseAt(o: Options, events: seq<Event>, n: nat): Option<Result>
    requires n < |events|
  {
    Cause(o, events[..n], events[n])
  }

  predicate NoCauseBefore(o: Options, events: seq<Event>, n: nat)
    requires n <= |events|
  {
    forall m: nat :: m < n ==> CauseAt(o, events, m).None?
  }

  // ---------- One settlement, by its first cause ----------

  /** The variables say what has happened, the timers and the outstanding completion as long as nothing has settled. */
  predicate Records(s: State, o: Options, events: seq<Event>)
  {
    && (Completion(o, events).Some? ==> Handed(o, events))
    && (Opening(o, events).Some? ==> Built(o, events))
    && s.built == Built(o, events)
    && s.isOpen == Opening(o, events).Some?
    && s.sent == s.handed == Handed(o, events)
    && s.callback == (Handed(o, events) && Completion(o, events).None?)
    && (s.result.None? ==>
          && s.openTimer == (s.built && !s.isOpen)
          && s.ackTimer == (Completion(o, events) == Some(false) && o.ackMatch != "")
          && s.requestTimer == o.timed
          && (s.built || (Constructed(true) !in events && !(o.timed && RequestTimerFires in events))))
    && (s.result.Some? ==> !s.openTimer && !s.ackTimer && !s.requestTimer)
    && (s.result.Some? && !s.built ==> Constructed(true) in events || (o.timed && RequestTimerFires in events))
  }

  lemma OneMore(o: Options, before: seq<Event>, e: Event)
    ensures var events := before + [e];
            && (Built(o, events) <==>
                  Built(o, before) ||
                  (e == Constructed(false) && Constructed(true) !in before &&
                   !(o.timed && RequestTimerFires in before)))
            && Opening(o, events) == (if Opening(o, before).Some? then Opening(o, before)
                                      else if e.Opens? && Built(o, before) then Some(e.throws) else None)
            && Completion(o, events) == (if Completion(o, before).Some? then Completion(o, before)
                                         else if e.SendCompletes? && Handed(o, before) then Some(e.fails) else None)
            && (forall x :: x in events <==> x in before || x == e)
  {
    var events := before + [e];
    assert events[..|events| - 1] == before;
  }

  lemma SocketRecords(s: State, o: Options, before: seq<Event>, e: Event)
    requires Records(s, o, before) && (e.Constructed? || e.Opens? || e.SendCompletes?)
    ensures Records(Next(s, o, e), o, before + [e])
    ensures Next(s, o, e).result == if s.result.Some? then s.result else Cause(o, before, e)
  {
    OneMore(o, before, e);
  }

  lemma OtherRecords(s: State, o: Options, before: seq<Event>, e: Event)
    requires Records(s, o, before) && !(e.Constructed? || e.Opens? || e.SendCompletes?)
    ensures Records(Next(s, o, e), o, before + [e])
    ensures Next(s, o, e).result == if s.result.Some? then s.result else Cause(o, before, e)
  {
    OneMore(o, before, e);
    match e
    case RequestTimerFires =>
    case Message(_) =>
    case _ =>
  }

  lemma RecordsKept(s: State, o: Options, before: seq<Event>, e: Event)
    requires Records(s, o, before)
    ensures Records(Next(s, o, e), o, before + [e])
    ensures Next(s, o, e).result == if s.result.Some? then s.result else Cause(o, before, e)
  {
    if e.Constructed? || e.Opens? || e.SendCompletes? {
      SocketRecords(s, o, before, e);
    } else {
      OtherRecords(s, o, before, e);
    }
  }

  lemma {:induction false} RecordsAlways(o: Options, events: seq<Event>)
    ensures Records(After(o, events), o, events)
    decreases |events|
  {
    if |events| > 0 {
      var before, e := events[..|events| - 1], events[|events| - 1];
      RecordsAlways(o, before);
      RecordsKept(After(o, before), o, before, e);
      assert before + [e] == events;
    }
  }

  lemma {:induction false} UnsettledExact(o: Options, events: seq<Event>, n: nat)
    requires n <= |events|
    ensures After(o, events[..n]).result.None? <==> NoCauseBefore(o, events, n)
    decreases n
  {
    if n > 0 {
      var m := n - 1;
      UnsettledExact(o, events, m);
      RecordsAlways(o, events[..m]);
      RecordsKept(After(o, events[..m]), o, events[..m], events[m]);
      assert events[..n][..m] == events[..m];
      assert NoCauseBefore(o, events, n) <==> NoCauseBefore(o, events, m) && CauseAt(o, events, m).None?;
    }
  }

  predicate FirstCause(o: Options, events: seq<Event>, n: nat, result: Result)
  {
    n < |events| && CauseAt(o, events, n) == Some(result) && NoCauseBefore(o, events, n)
  }

  lemma {:induction false} SettledByCause(o: Options, events: seq<Event>, k: nat)
    requires k <= |events| && After(o, events[..k]).result.Some?
    ensures exists n: nat :: n < k && FirstCause(o, events, n, After(o, events[..k]).result.value)
    decreases k
  {
    var m := k - 1;
    assert events[..k][..m] == events[..m];
    RecordsAlways(o, events[..m]);
    RecordsKept(After(o, events[..m]), o, events[..m], events[m]);
    if After(o, events[..m]).result.Some? {
      SettledByCause(o, events, m);
    } else {
      UnsettledExact(o, events, m);
      assert FirstCause(o, events, m, After(o, events[..k]).result.value);
    }
  }

  /** Under every interleaving the promise settles, if at all, with the first reason to settle that arises. */
  lemma SettlesWithFirstCause(o: Options, events: seq<Event>, result: Result)
    ensures After(o, events).result == Some(result) <==> exists n :: FirstCause(o, events, n, result)
  {
    assert events[..|events|] == events;
    if After(o, events).result.Some? {
      SettledByCause(o, events, |events|);
    }
    if n :| FirstCause(o, events, n, result) {
      UnsettledExact(o, events, |events|);
      assert !NoCauseBefore(o, events, |events|);
      var k: nat :| k < |events| && FirstCause(o, events, k, After(o, events).result.value);
      assert k == n;
    }
  }

  lemma StaysSettled(s: State, o: Options, e: Event)
    requires s.result.Some?
    ensures Next(s, o, e).result == s.result
  {
    match e
    case Message(_) =>
    case SendCompletes(_) =>
    case _ =>
  }

  lemma AfterOneMore(o: Options, events: seq<Event>, e: Event)
    ensures After(o, events + [e]) == Next(After(o, events), o, e)
  {
    assert (events + [e])[..|events|] == events;
  }

  ghost predicate SettledWith(o: Options, events: seq<Event>, result: Result)
  {
    After(o, events).result == Some(result)
  }

  lemma OneMoreSettled(o: Options, events: seq<Event>, e: Event, result: Result)
    requires SettledWith(o, events, result)
    ensures SettledWith(o, events + [e], result)
  {
    AfterOneMore(o, events, e);
    StaysSettled(After(o, events), o, e);
  }

  /** Nothing later changes a settled promise. */
  lemma {:induction false} SettledForGood(o: Options, events: seq<Event>, more: seq<Event>, result: Result)
    requires SettledWith(o, events, result)
    ensures SettledWith(o, events + more, result)
    decreases |more|
  {
    if |more| == 0 {
      assert events + more == events;
    } else {
      var n := |more| - 1;
      SettledForGood(o, events, more[..n], result);
      OneMoreSettled(o, events + more[..n], more[n], result);
      assert events + more == (events + more[..n]) + [more[n]];
    }
  }

  // ---------- What a result says ----------

  /**
    A settled promise leaves no timer armed; once constructed, an unsettled one has an armed timer or a send
    still to complete.
   */
  lemma NeverLeftHanging(o: Options, events: seq<Event>)
    ensures var s := After(o, events);
            && (s.result.Some? ==> !s.openTimer && !s.ackTimer && !s.requestTimer)
            && (s.result.None? && s.built ==> s.openTimer || s.ackTimer || s.callback)
  {
    RecordsAlways(o, events);
    if After(o, events).result.None? {
      UnsettledExact(o, events, |events|);
      assert events[..|events|] == events;
      OpeningHappened(o, events, |events|);
    }
  }

  /** An opening that threw, and a completion that failed or needed no acknowledgement, were reasons to settle. */
  lemma {:induction false} OpeningHappened(o: Options, events: seq<Event>, n: nat)
    requires n <= |events| && NoCauseBefore(o, events, n)
    ensures Opening(o, events[..n]).Some? ==> Handed(o, events[..n])
    ensures Completion(o, events[..n]).Some? ==> Completion(o, events[..n]) == Some(false) && o.ackMatch != ""
    decreases n
  {
    if n > 0 {
      OpeningHappened(o, events, n - 1);
      assert events[..n][..n - 1] == events[..n - 1];
      assert CauseAt(o, events, n - 1).None?;
    }
  }

  /** The n-th event opens a socket that has been told to close, and the payload goes out after all. */
  predicate OpensLate(o: Options, events: seq<Event>, n: nat)
  {
    && n < |events| && events[n] == Opens(false)
    && Built(o, events[..n]) && Opening(o, events[..n]).None? && After(o, events[..n]).result.Some?
  }

  predicate SaysUnsent(s: State)
  {
    s.result.Some? && s.result.value.Failure? && !s.result.value.sent
  }

  /** A late opening happens after the settlement, and is the one way in which an unsent payload is handed over. */
  predicate HandedIsLate(o: Options, events: seq<Event>, n: nat)
    requires n <= |events|
  {
    && (After(o, events[..n]).result.None? ==> !LateBefore(o, events, n))
    && (SaysUnsent(After(o, events[..n])) ==> (Handed(o, events[..n]) <==> LateBefore(o, events, n)))
  }

  predicate LateBefore(o: Options, events: seq<Event>, n: nat)
  {
    exists m: nat :: m < n && OpensLate(o, events, m)
  }

  lemma {:induction false} HandedIsLateAlways(o: Options, events: seq<Event>, n: nat)
    requires n <= |events|
    ensures HandedIsLate(o, events, n)
    decreases n
  {
    if n > 0 {
      var m := n - 1;
      HandedIsLateAlways(o, events, m);
      assert events[..n][..m] == events[..m];
      RecordsAlways(o, events[..m]);
      RecordsKept(After(o, events[..m]), o, events[..m], events[m]);
      assert LateBefore(o, events, n) <==> LateBefore(o, events, m) || OpensLate(o, events, m);
    }
  }

  /**
    `sent: false` tells the caller that the payload may be sent again: the socket took it nevertheless if
    and only if it was opened, for the first time, after the promise had settled.
   */
  lemma NotSentExact(o: Options, events: seq<Event>)
    requires SaysUnsent(After(o, events))
    ensures After(o, events).handed <==> exists n :: OpensLate(o, events, n)
  {
    assert events[..|events|] == events;
    HandedIsLateAlways(o, events, |events|);
    RecordsAlways(o, events);
    assert LateBefore(o, events, |events|) <==> exists n :: OpensLate(o, events, n);
  }

  /** Of a socket that opens no more once it is told to close, `sent: false` means that it never took the payload. */
  lemma NotSentMeansNotSent(o: Options, events: seq<Event>)
    requires SaysUnsent(After(o, events)) && forall n: nat :: !OpensLate(o, events, n)
    ensures !After(o, events).handed && !Handed(o, events)
  {
    NotSentExact(o, events);
    RecordsAlways(o, events);
  }

  predicate Acknowledged(s: State, o: Options)
  {
    s.result.Some? && s.result.value.Sent? ==>
      if o.ackMatch == "" then s.result.value.ack.None? && s.handed && !s.callback
      else s.result.value.ack.Some? && s.result.value.ack.value in s.frames &&
           Contains(s.result.value.ack.value, o.ackMatch)
  }

  /** Success means an acknowledging frame was received, or, when none is asked for, that the send completed. */
  lemma {:induction false} SuccessIsAcknowledged(o: Options, events: seq<Event>)
    ensures Acknowledged(After(o, events), o)
    decreases |events|
  {
    if |events| > 0 {
      var before, e := events[..|events| - 1], events[|events| - 1];
      SuccessIsAcknowledged(o, before);
      RecordsAlways(o, before);
      assert e.Message? ==> e.text in After(o, before).frames + [e.text];
    }
  }

  /**
    The open handler itself does not look whether the promise has settled: a socket that opened late would
    take the payload after all. The `ws` library emits no `open` after `close()`, so this is the handler's corner alone.
   */
  lemma LateOpenSends(o: Options)
    requires o.timed
    ensures var s := After(o, [Constructed(false), RequestTimerFires, Opens(false)]);
            s.result == Some(Failure(RequestTimeout, false)) && s.handed
  {
    var events: seq<Event> := [Constructed(false), RequestTimerFires, Opens(false)];
    assert events[..2] == [Constructed(false), RequestTimerFires];
    assert [Constructed(false), RequestTimerFires][..1] == [Constructed(false)];
    assert [Constructed(false)][..0] == [];
    assert After(o, [Constructed(false)]) == Begin(o).(built := true, openTimer := true);
    assert After(o, [Constructed(false), RequestTimerFires]).result == Some(Failure(RequestTimeout, false));
  }
}
