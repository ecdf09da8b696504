/**
  Line-at-a-time input (agent/lib/repl-io.js): lines nobody waits for are queued, callers with no
  line wait. Calls of nextLine are numbered in the order in which they are made.
 */
module ReplIo {
  import opened Wrappers

  /** `lines` and `calls` log what has arrived and been asked for; `answers` holds each promise that has resolved. */
  datatype State = State(
    lines: seq<string>, calls: nat, waiters: seq<nat>, queue: seq<string>, closed: bool,
    answers: map<nat, Option<string>>)

  datatype Event = Line(text: string) | Close | NextLine

  const START: State := State([], 0, [], [], false, map[])

  function Nulled(answers: map<nat, Option<string>>, waiters: seq<nat>): map<nat, Option<string>>
    decreases |waiters|
  {
    if |waiters| == 0 then answers else Nulled(answers[waiters[0] := None], waiters[1..])
  }

  /** The input does not deliver lines after it has closed. */
  function Next(s: State, e: Event): State
  {
    match e
    case Line(text) =>
      if s.closed then s
      else if |s.waiters| > 0 then
        s.(lines := s.lines + [text], waiters := s.waiters[1..], answers := s.answers[s.waiters[0] := Some(text)])
      else s.(lines := s.lines + [text], queue := s.queue + [text])
    case Close => s.(closed := true, waiters := [], answers := Nulled(s.answers, s.waiters))
    case NextLine =>
      if |s.queue| > 0 then
        s.(calls := s.calls + 1, queue := s.queue[1..], answers := s.answers[s.calls := Some(s.queue[0])])
      else if s.closed then s.(calls := s.calls + 1, answers := s.answers[s.calls := None])
      else s.(calls := s.calls + 1, waiters := s.waiters + [s.calls])
  }

  function After(events: seq<Event>): State
  {
    if |events| == 0 then START else Next(After(events[..|events| - 1]), events[|events| - 1])
  }

  class Reader {
    var lines: seq<string>
    var calls: nat
    var waiters: seq<nat>
    var queue: seq<string>
    var closed: bool
    var answers: map<nat, Option<string>>

    function View(): State
      reads this
    {
      State(lines, calls, waiters, queue, closed, answers)
    }

    constructor ()
      ensures View() == START
    {
      lines, calls, waiters, queue, closed, answers := [], 0, [], [], false, map[];
    }

    method OnLine(text: string)
      requires !closed
      modifies this
      ensures View() == Next(old(View()), Line(text))
    {
      lines := lines + [text];
      if |waiters| > 0 {
        var waiter := waiters[0];
        waiters := waiters[1..];
        answers := answers[waiter := Some(text)];
      } else {
        queue := queue + [text];
      }
    }

    method OnClose()
      modifies this
      ensures View() == Next(old(View()), Close)
    {
      closed := true;
      while |waiters| > 0
        invariant Nulled(answers, waiters) == Nulled(old(answers), old(waiters))
        invariant View().(waiters := [], answers := map[]) ==
                  old(View()).(closed := true, waiters := [], answers := map[])
        decreases |waiters|
      {
        answers := answers[waiters[0] := None];
        waiters := waiters[1..];
      }
    }

    method NextLine() returns (call: nat)
      modifies this
      ensures call == old(calls) && View() == Next(old(View()), Event.NextLine)
    {
      call := calls;
      calls := calls + 1;
      if |queue| > 0 {
        answers := answers[call := Some(queue[0])];
        queue := queue[1..];
      } else if closed {
        answers := answers[call := None];
      } else {
        waiters := waiters + [call];
      }
    }
  }

  /** Call k and line k belong together; who has neither waits, or has been told that the input is over. */
  predicate Inv(s: State)
  {
    && s.queue == (if s.calls <= |s.lines| then s.lines[s.calls..] else [])
    && (forall k :: k in s.answers ==>
          k < s.calls && s.answers[k] == (if k < |s.lines| then Some(s.lines[k]) else None))
    && (forall k: nat :: k < s.calls && k !in s.answers ==> |s.lines| <= k && !s.closed)
    && (!s.closed ==> forall k :: k in s.answers ==> k < |s.lines|)
    && |s.waiters| == (if s.closed || s.calls <= |s.lines| then 0 else s.calls - |s.lines|)
    && (forall i :: 0 <= i < |s.waiters| ==> s.waiters[i] == |s.lines| + i && s.waiters[i] !in s.answers)
  }

  lemma {:induction false} NulledExact(answers: map<nat, Option<string>>, waiters: seq<nat>, k: nat)
    ensures k in Nulled(answers, waiters) <==> k in answers || k in waiters
    ensures k in Nulled(answers, waiters) ==> Nulled(answers, waiters)[k] == if k in waiters then None else answers[k]
    decreases |waiters|
  {
    if |waiters| > 0 {
      NulledExact(answers[waiters[0] := None], waiters[1..], k);
      assert waiters == [waiters[0]] + waiters[1..];
    }
  }

  lemma CloseKeeps(s: State)
    requires Inv(s)
    ensures Inv(Next(s, Close))
  {
    var t := Next(s, Close);
    forall k: nat
      ensures k in t.answers ==> k < t.calls && t.answers[k] == if k < |t.lines| then Some(t.lines[k]) else None
      ensures k < t.calls ==> k in t.answers
    {
      NulledExact(s.answers, s.waiters, k);
      if k < s.calls && k !in s.answers {
        assert s.waiters[k - |s.lines|] == k;
      }
    }
  }

  lemma LineKeeps(s: State, text: string)
    requires Inv(s)
    ensures Inv(Next(s, Line(text)))
  {
    var t := Next(s, Line(text));
    if !s.closed && |s.waiters| > 0 {
      assert s.waiters[0] == |s.lines|;
      forall i | 0 <= i < |t.waiters| ensures t.waiters[i] == |t.lines| + i && t.waiters[i] !in t.answers {
        assert t.waiters[i] == s.waiters[i + 1];
      }
    }
  }

  lemma {:induction false} InvAlways(events: seq<Event>)
    ensures Inv(After(events))
    decreases |events|
  {
    if |events| > 0 {
      var before, last := events[..|events| - 1], events[|events| - 1];
      InvAlways(before);
      match last
      case Line(text) => LineKeeps(After(before), text);
      case Close => CloseKeeps(After(before));
      case NextLine =>
    }
  }

  /**
    The k-th call gets the k-th line, whichever came first; it is answered exactly once that line has
    arrived or the input has closed without it, and only then with null.
   */
  lemma KthCallGetsKthLine(events: seq<Event>, k: nat)
    requires k < After(events).calls
    ensures var s := After(events);
            && (k in s.answers <==> k < |s.lines| || s.closed)
            && (k in s.answers ==> s.answers[k] == if k < |s.lines| then Some(s.lines[k]) else None)
  {
    InvAlways(events);
    var s := After(events);
    assert k in s.answers || (|s.lines| <= k && !s.closed);
  }

  lemma StepKeepsAnswer(s: State, e: Event, k: nat)
    requires Inv(s) && k in s.answers
    ensures k in Next(s, e).answers && Next(s, e).answers[k] == s.answers[k]
  {
    if e.Close? {
      NulledExact(s.answers, s.waiters, k);
      assert forall i :: 0 <= i < |s.waiters| ==> s.waiters[i] != k;
    }
  }

  /** A promise once resolved keeps its value. */
  lemma {:induction false} AnswersStand(events: seq<Event>, more: seq<Event>, k: nat)
    requires k in After(events).answers
    ensures k in After(events + more).answers && After(events + more).answers[k] == After(events).answers[k]
    decreases |more|
  {
    if |more| == 0 {
      assert events + more == events;
    } else {
      var n := |more| - 1;
      AnswersStand(events, more[..n], k);
      assert (events + more)[..|events + more| - 1] == events + more[..n];
      InvAlways(events + more[..n]);
      StepKeepsAnswer(After(events + more[..n]), more[n], k);
    }
  }
}
