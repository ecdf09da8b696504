/**
  Following a run's items (ConsumerRunServiceV1.followItems in src/consumer/runs.ts): a generator
  that pages through the journal, yields, inspects and waits, while writers append to the journal
  and the operating system delivers change notices, all in any order. Every yield is a suspension.
 */
module FollowItems {
  import opened Wrappers
  import opened Journal

  const PAGE: nat := 100

  datatype Phase =
    | Top
    | Paging
    | Emitting(rest: seq<Entry>, more: bool)
    | Suspended(rest: seq<Entry>, more: bool)
    | Inspecting
    | Asking
    | Blocked
    | Done(lifecycle: Lifecycle, last: int)
    | Returned
    | Failed

  /**
    `queued` says that a change notice is on its way. Three marks into the journal are kept for
    reasoning: its length when a notice was last used up, at the last page read and at the last inspection.
   */
  datatype State = State(
    journal: seq<Frame>, queued: bool, watch: Watch, aborted: bool,
    phase: Phase, after: nat, emitted: seq<Entry>,
    seen: nat, readAt: nat, shownAt: nat)

  datatype Step =
    | Append(frame: Frame)
    | Notify(more: bool)
    | WatchFails
    | Abort
    | Run
    | Pull
    | Leave

  // ---------- Steps ----------

  function Begin(journal: seq<Frame>, start: nat): State
  {
    State(journal, false, Watch(false, false, false, None), false, Top, start, [], |journal|, 0, 0)
  }

  function Appended(s: State, frame: Frame): State
  {
    if MayFollow(s.journal, frame) then s.(journal := s.journal + [frame], queued := true) else s
  }

  /** A notice is delivered; a caller waiting for one has then been answered. */
  function Notified(s: State, more: bool): State
  {
    var used := s.watch.waiting && !s.watch.failure;
    s.(queued := s.queued && more, watch := Noticed(s.watch), seen := if used then |s.journal| else s.seen)
  }

  function ReadNext(s: State): State
  {
    var page := PageOf(Items(s.journal), s.after, PAGE);
    s.(phase := Emitting(page.items, page.next.Some?), readAt := |s.journal|)
  }

  function EmitNext(s: State): State
    requires s.phase.Emitting?
  {
    if |s.phase.rest| == 0 then s.(phase := if s.phase.more then Paging else Inspecting)
    else
      var entry := s.phase.rest[0];
      s.(phase := Suspended(s.phase.rest[1..], s.phase.more),
         after := if entry.sequence >= 0 then entry.sequence else 0,
         emitted := s.emitted + [entry])
  }

  function Shown(s: State): State
  {
    var lifecycle := LifecycleOf(s.journal);
    s.(phase := if Over(lifecycle) then Done(lifecycle, s.after) else Asking, shownAt := |s.journal|)
  }

  function AskedNext(s: State): State
  {
    var used := !s.aborted && !s.watch.failure && s.watch.changed;
    s.(phase := Blocked, watch := Asked(s.watch, s.aborted), seen := if used then |s.journal| else s.seen)
  }

  /** The answer to `next` has arrived, or has not yet. */
  function Resumed(s: State): State
  {
    match s.watch.answer
    case None => s
    case Some(Changed) => s.(phase := Top, watch := s.watch.(answer := None))
    case Some(Aborted) => s.(phase := Returned)
    case Some(Broken) => s.(phase := Failed)
  }

  function Ran(s: State): State
  {
    match s.phase
    case Top => s.(phase := if s.aborted then Returned else Paging)
    case Paging => ReadNext(s)
    case Emitting(_, _) => EmitNext(s)
    case Inspecting => Shown(s)
    case Asking => AskedNext(s)
    case Blocked => Resumed(s)
    case _ => s
  }

  function Next(s: State, step: Step): State
  {
    match step
    case Append(frame) => Appended(s, frame)
    case Notify(more) => Notified(s, more)
    case WatchFails => s.(watch := Broke(s.watch))
    case Abort => s.(aborted := true, watch := AbortedWatch(s.watch))
    case Run => Ran(s)
    case Pull => if s.phase.Suspended? then s.(phase := Emitting(s.phase.rest, s.phase.more)) else s
    case Leave => if s.phase.Suspended? then s.(phase := Returned) else s
  }

  function After(s: State, steps: seq<Step>): State
  {
    if |steps| == 0 then s else Next(After(s, steps[..|steps| - 1]), steps[|steps| - 1])
  }

  // ---------- The invariant ----------

  /** What the last page read saw. */
  function ReadItems(s: State): seq<Entry>
    requires s.readAt <= |s.journal|
  {
    Items(s.journal[..s.readAt])
  }

  /** The items yielded are those numbered start + 1 to after. */
  predicate Delivered(items: seq<Entry>, start: nat, after: nat, emitted: seq<Entry>)
  {
    && after >= start
    && (after > start ==> after <= |items|)
    && emitted == if after > start then items[start..after] else []
  }

  /** The watcher knows of every change since `seen`, or will. */
  predicate Alert(s: State)
  {
    && s.seen <= |s.journal|
    && (s.seen < |s.journal| ==> s.queued || s.watch.changed || s.watch.failure)
    && (s.watch.waiting ==> !s.watch.changed && !s.watch.failure && s.phase.Blocked? && s.watch.answer.None?)
  }

  predicate Marks(s: State)
  {
    s.readAt <= |s.journal| && s.shownAt <= |s.journal|
  }

  /** Of what was read, `rest` is what follows `after`, up to the end of the page. */
  predicate RestIsNext(read: seq<Entry>, after: nat, rest: seq<Entry>, more: bool)
  {
    && (|rest| > 0 ==> after + |rest| <= |read| && rest == read[after..after + |rest|])
    && (if more then after + |rest| < |read| else after + |rest| >= |read|)
  }

  predicate Waiting(s: State)
  {
    s.phase.Blocked? && s.watch.waiting
  }

  predicate InPhase(s: State)
    requires Marks(s)
  {
    && (s.phase.Emitting? ==> s.seen <= s.readAt && RestIsNext(ReadItems(s), s.after, s.phase.rest, s.phase.more))
    && (s.phase.Suspended? ==> s.seen <= s.readAt && RestIsNext(ReadItems(s), s.after, s.phase.rest, s.phase.more))
    && (s.phase.Inspecting? ==> s.seen <= s.readAt && s.after >= |ReadItems(s)|)
    && (s.phase.Asking? || Waiting(s) ==>
          s.seen <= s.readAt <= s.shownAt && s.after >= |ReadItems(s)| &&
          !Over(LifecycleOf(s.journal[..s.shownAt])))
    && (s.phase.Done? ==>
          0 < s.readAt <= s.shownAt && s.phase.last == s.after && s.after >= |ReadItems(s)| &&
          s.phase.lifecycle == LifecycleOf(s.journal[..s.shownAt]) && Over(s.phase.lifecycle))
    && (s.phase.Inspecting? || s.phase.Asking? ==> 0 < s.readAt)
    && (s.phase.Emitting? || s.phase.Suspended? ==> 0 < s.readAt)
  }

  predicate Inv(s: State, start: nat)
  {
    && Sound(s.journal) && Marks(s) && Alert(s) && InPhase(s)
    && Delivered(ReadItems(s), start, s.after, s.emitted)
  }

  lemma AppendKeeps(s: State, start: nat, frame: Frame)
    requires Inv(s, start)
    ensures Inv(Appended(s, frame), start)
  {
    if MayFollow(s.journal, frame) {
      var longer := s.journal + [frame];
      assert longer[..|s.journal|] == s.journal;
      assert longer[..s.readAt] == s.journal[..s.readAt];
      assert longer[..s.shownAt] == s.journal[..s.shownAt];
    }
  }

  lemma LongerDelivers(read: seq<Entry>, more: seq<Entry>, start: nat, after: nat, emitted: seq<Entry>)
    requires Delivered(read, start, after, emitted) && read <= more
    ensures Delivered(more, start, after, emitted)
  {
    if after > start {
      assert more[start..after] == read[start..after];
    }
  }

  lemma ReadKeeps(s: State, start: nat)
    requires Inv(s, start) && s.phase.Paging?
    ensures Inv(ReadNext(s), start)
  {
    assert s.journal[..|s.journal|] == s.journal;
    ItemsGrow(s.journal, s.readAt);
    LongerDelivers(ReadItems(s), Items(s.journal), start, s.after, s.emitted);
  }

  lemma EmitDelivers(read: seq<Entry>, start: nat, after: nat, emitted: seq<Entry>, rest: seq<Entry>, more: bool)
    requires Delivered(read, start, after, emitted) && RestIsNext(read, after, rest, more) && |rest| > 0
    ensures Delivered(read, start, after + 1, emitted + [rest[0]]) && RestIsNext(read, after + 1, rest[1..], more)
  {
    assert rest[0] == read[after];
    assert read[start..after + 1] == (if after > start then read[start..after] else []) + [rest[0]];
    assert rest[1..] == read[after + 1..after + |rest|];
  }

  /** Yielding takes exactly the next number. */
  lemma EmitIsNext(s: State, start: nat)
    requires Inv(s, start) && s.phase.Emitting? && |s.phase.rest| > 0
    ensures s.phase.rest[0].sequence == s.after + 1 <= |ReadItems(s)|
  {
    PrefixIsSound(s.journal, s.readAt);
    ItemsAreNumbered(s.journal[..s.readAt], s.after);
  }

  lemma EmitIs(s: State, start: nat)
    requires Inv(s, start) && s.phase.Emitting? && |s.phase.rest| > 0
    ensures EmitNext(s) == s.(phase := Suspended(s.phase.rest[1..], s.phase.more), after := s.after + 1,
                              emitted := s.emitted + [s.phase.rest[0]])
  {
    EmitIsNext(s, start);
  }

  lemma PageDoneKeeps(s: State, start: nat)
    requires Inv(s, start) && s.phase.Emitting? && |s.phase.rest| == 0
    ensures Inv(s.(phase := if s.phase.more then Paging else Inspecting), start)
  {
  }

  lemma EmitKeeps(s: State, start: nat)
    requires Inv(s, start) && s.phase.Emitting?
    ensures Inv(EmitNext(s), start)
  {
    if |s.phase.rest| > 0 {
      EmitIs(s, start);
      YieldKeeps(s, start);
    } else {
      PageDoneKeeps(s, start);
    }
  }

  lemma YieldKeeps(s: State, start: nat)
    requires Inv(s, start) && s.phase.Emitting? && |s.phase.rest| > 0
    ensures Inv(s.(phase := Suspended(s.phase.rest[1..], s.phase.more), after := s.after + 1,
                   emitted := s.emitted + [s.phase.rest[0]]), start)
  {
    EmitIsNext(s, start);
    EmitDelivers(ReadItems(s), start, s.after, s.emitted, s.phase.rest, s.phase.more);
  }

  lemma ShowKeeps(s: State, start: nat)
    requires Inv(s, start) && s.phase.Inspecting?
    ensures Inv(Shown(s), start)
  {
    assert s.journal[..|s.journal|] == s.journal;
  }

  lemma NotifyKeeps(s: State, start: nat, more: bool)
    requires Inv(s, start)
    ensures Inv(Notified(s, more), start)
  {
  }

  lemma AskKeeps(s: State, start: nat)
    requires Inv(s, start) && s.phase.Asking?
    ensures Inv(AskedNext(s), start)
  {
  }

  lemma ResumeKeeps(s: State, start: nat)
    requires Inv(s, start) && s.phase.Blocked?
    ensures Inv(Resumed(s), start)
  {
  }

  lemma RunKeeps(s: State, start: nat)
    requires Inv(s, start)
    ensures Inv(Ran(s), start)
  {
    match s.phase {
      case Paging => ReadKeeps(s, start);
      case Emitting(_, _) => EmitKeeps(s, start);
      case Inspecting => ShowKeeps(s, start);
      case Asking => AskKeeps(s, start);
      case Blocked => ResumeKeeps(s, start);
      case _ =>
    }
  }

  lemma NextKeeps(s: State, start: nat, step: Step)
    requires Inv(s, start)
    ensures Inv(Next(s, step), start)
  {
    match step {
      case Append(frame) => AppendKeeps(s, start, frame);
      case Notify(more) => NotifyKeeps(s, start, more);
      case Run => RunKeeps(s, start);
      case _ =>
    }
  }

  lemma {:induction false} AfterKeeps(journal: seq<Frame>, start: nat, steps: seq<Step>)
    requires Sound(journal)
    ensures Inv(After(Begin(journal, start), steps), start)
  {
    if |steps| > 0 {
      AfterKeeps(journal, start, steps[..|steps| - 1]);
      NextKeeps(After(Begin(journal, start), steps[..|steps| - 1]), start, steps[|steps| - 1]);
    }
  }

  // ---------- What observers get ----------

  /**
    Prefix delivery: whatever the interleaving, the items yielded are those numbered start + 1,
    start + 2, ... in order, without a gap or a repeat, as the journal holds them.
   */
  lemma EmittedIsAPrefix(journal: seq<Frame>, start: nat, steps: seq<Step>)
    requires Sound(journal)
    ensures var s := After(Begin(journal, start), steps);
            var wanted := if start <= |Items(s.journal)| then Items(s.journal)[start..] else [];
            s.emitted <= wanted && forall k :: 0 <= k < |s.emitted| ==> s.emitted[k].sequence == start + k + 1
  {
    AfterKeeps(journal, start, steps);
    var s := After(Begin(journal, start), steps);
    ItemsGrow(s.journal, s.readAt);
    LongerDelivers(ReadItems(s), Items(s.journal), start, s.after, s.emitted);
    forall k | 0 <= k < |s.emitted| ensures s.emitted[k].sequence == start + k + 1 {
      ItemsAreNumbered(s.journal, start + k);
    }
  }

  /** A caller blocked in `next` has missed nothing, unless a notice that will wake it is on its way. */
  lemma NoLostWakeup(journal: seq<Frame>, start: nat, steps: seq<Step>)
    requires Sound(journal)
    ensures var s := After(Begin(journal, start), steps);
            Waiting(s) && !s.queued ==>
              && s.readAt == s.shownAt == |s.journal|
              && !Over(LifecycleOf(s.journal))
              && (forall k :: start <= k < |Items(s.journal)| ==> Items(s.journal)[k] in s.emitted)
    ensures var s := After(Begin(journal, start), steps);
            forall more :: Waiting(s) ==> Next(Next(s, Notify(more)), Run).phase.Top?
  {
    AfterKeeps(journal, start, steps);
    var s := After(Begin(journal, start), steps);
    if Waiting(s) && !s.queued {
      assert s.journal[..|s.journal|] == s.journal;
      forall k | start <= k < |Items(s.journal)| ensures Items(s.journal)[k] in s.emitted {
        assert s.emitted[k - start] == Items(s.journal)[k];
      }
    }
  }

  /** Between waking and waiting again, the page being yielded is no older than the notice last used up. */
  lemma WokenReadsAfresh(journal: seq<Frame>, start: nat, steps: seq<Step>)
    requires Sound(journal)
    ensures var s := After(Begin(journal, start), steps);
            s.phase.Emitting? || s.phase.Suspended? || s.phase.Inspecting? || s.phase.Asking? ==>
              s.seen <= s.readAt && (s.readAt < |s.journal| ==> s.queued || s.watch.changed || s.watch.failure)
  {
    AfterKeeps(journal, start, steps);
  }

  predicate CompletedAt(s: State)
    requires s.shownAt <= |s.journal|
  {
    |Items(s.journal[..s.shownAt])| <= s.after
  }

  /** The frame commits an item this observer asked for. */
  predicate Wanted(frame: Frame, start: nat)
  {
    frame.ItemCommitted? && frame.sequence > start
  }

  /**
    The end is complete, every item committed by the inspection having been yielded, exactly when
    nothing asked for was committed between the last page read and that inspection.
   */
  lemma EndExact(journal: seq<Frame>, start: nat, steps: seq<Step>)
    requires Sound(journal)
    ensures var s := After(Begin(journal, start), steps);
            s.phase.Done? ==>
              && s.readAt <= s.shownAt <= |s.journal|
              && s.phase.last == s.after
              && (CompletedAt(s) <==> forall i :: s.readAt <= i < s.shownAt ==> !Wanted(s.journal[i], start))
  {
    AfterKeeps(journal, start, steps);
    var s := After(Begin(journal, start), steps);
    if s.phase.Done? {
      ShownItems(s, start);
    }
  }

  lemma ShownItems(s: State, start: nat)
    requires Inv(s, start) && s.phase.Done?
    ensures CompletedAt(s) <==> forall i :: s.readAt <= i < s.shownAt ==> !Wanted(s.journal[i], start)
  {
    var shown := s.journal[..s.shownAt];
    PrefixIsSound(s.journal, s.shownAt);
    assert shown[..s.readAt] == s.journal[..s.readAt];
    var read := |Items(shown[..s.readAt])|;
    if s.readAt < s.shownAt && s.after < |Items(shown)| {
      var i := NumbersAreCommitted(shown, s.readAt, s.after + 1);
      assert Wanted(s.journal[i], start);
    } else {
      forall i | s.readAt <= i < s.shownAt ensures !Wanted(s.journal[i], start) {
        if s.journal[i].ItemCommitted? {
          StretchNumbers(shown, s.readAt, i);
          AfterIsRead(s, start);
        }
      }
    }
  }

  /** At the end the generator stands where the last page read left it. */
  lemma AfterIsRead(s: State, start: nat)
    requires Inv(s, start) && s.phase.Done?
    ensures s.after == start || s.after == |ReadItems(s)|
  {
  }

  /** A terminal end that is complete stays complete: no item is ever committed after it. */
  lemma TerminalEndIsFinal(journal: seq<Frame>, start: nat, steps: seq<Step>)
    requires Sound(journal)
    ensures var s := After(Begin(journal, start), steps);
            s.phase.Done? && s.phase.lifecycle.Terminal? ==>
              s.shownAt == |s.journal| && (CompletedAt(s) <==> |Items(s.journal)| <= s.after)
  {
    AfterKeeps(journal, start, steps);
    var s := After(Begin(journal, start), steps);
    if s.phase.Done? && s.phase.lifecycle.Terminal? {
      TerminalIsEnded(s.journal[..s.shownAt]);
      var k: nat :| k < s.shownAt && s.journal[..s.shownAt][k].TerminalFrame?;
      if s.shownAt < |s.journal| {
        NothingFollowsTerminal(s.journal, k, s.shownAt);
      }
      assert s.journal[..|s.journal|] == s.journal;
    }
  }

  lemma AfterOneMore(s: State, steps: seq<Step>, step: Step)
    ensures After(s, steps + [step]) == Next(After(s, steps), step)
  {
    assert (steps + [step])[..|steps|] == steps;
  }

  const FIRST := ItemCommitted(1, "a")
  const SECOND := ItemCommitted(2, "b")
  const ONE_ITEM: seq<Frame> := [RunCreated, FIRST]
  const ENDED: seq<Frame> := [RunCreated, FIRST, SECOND, TerminalFrame]

  lemma WhatTheyHold()
    ensures Sound(ONE_ITEM) && Items(ONE_ITEM) == [Entry(1, "a")]
    ensures Items(ENDED) == [Entry(1, "a"), Entry(2, "b")] && LifecycleOf(ENDED) == Terminal
    ensures MayFollow(ONE_ITEM, SECOND) && MayFollow(ONE_ITEM + [SECOND], TerminalFrame)
  {
    var start, longer: seq<Frame> := [RunCreated], [RunCreated, FIRST, SECOND];
    assert |start[..0]| == 0 && ONE_ITEM[..1] == start && longer[..2] == ONE_ITEM && ENDED[..3] == longer;
    assert Items(start) == [];
    assert Items(longer) == Items(ONE_ITEM) + [Entry(2, "b")];
    assert ONE_ITEM + [SECOND] == longer;
  }

  /** The follower has read its first page and holds its only item. */
  function Holding(): State
  {
    Begin(ONE_ITEM, 0).(phase := Suspended([], false), after := 1, emitted := [Entry(1, "a")], readAt := 2)
  }

  lemma ReadsOnePage()
    ensures After(Begin(ONE_ITEM, 0), [Run, Run, Run]) == Holding()
  {
    var s := Begin(ONE_ITEM, 0);
    WhatTheyHold();
    AfterOneMore(s, [], Run);
    AfterOneMore(s, [Run], Run);
    AfterOneMore(s, [Run, Run], Run);
    assert [] + [Run] == [Run] && [Run] + [Run] == [Run, Run] && [Run, Run] + [Run] == [Run, Run, Run];
    var only := [Entry(1, "a")];
    assert only[0..1] == only && only[1..] == [];
    assert PageOf(only, 0, PAGE) == ItemPage(only, None);
    assert ReadNext(s.(phase := Paging)) == s.(phase := Emitting(only, false), readAt := 2);
  }

  /** Meanwhile a second item and the terminal frame are appended. */
  lemma RunEndsMeanwhile()
    ensures Next(Next(Holding(), Append(SECOND)), Append(TerminalFrame)) == Holding().(journal := ENDED, queued := true)
  {
    WhatTheyHold();
    assert ONE_ITEM + [SECOND] + [TerminalFrame] == ENDED;
  }

  /** Asked for more, the follower inspects the journal and ends. */
  lemma EndsWithoutIt()
    ensures var s := Next(Next(Next(Holding().(journal := ENDED, queued := true), Pull), Run), Run);
            s.phase == Done(Terminal, 1) && s.emitted == [Entry(1, "a")] && s.journal == ENDED
  {
    WhatTheyHold();
  }

  /**
    An item and the end of the run, both appended while the consumer holds the last item of a page: the end
    comes without it.
   */
  lemma EndCanMissAnItem() returns (journal: seq<Frame>, steps: seq<Step>)
    ensures Sound(journal)
    ensures var s := After(Begin(journal, 0), steps);
            s.phase == Done(Terminal, 1) && |s.emitted| == 1 && |Items(s.journal)| == 2
  {
    journal := ONE_ITEM;
    WhatTheyHold();
    ReadsOnePage();
    RunEndsMeanwhile();
    EndsWithoutIt();
    var s0, read := Begin(journal, 0), [Run, Run, Run];
    var grown := read + [Append(SECOND)] + [Append(TerminalFrame)];
    AfterOneMore(s0, read, Append(SECOND));
    AfterOneMore(s0, read + [Append(SECOND)], Append(TerminalFrame));
    AfterOneMore(s0, grown, Pull);
    AfterOneMore(s0, grown + [Pull], Run);
    AfterOneMore(s0, grown + [Pull] + [Run], Run);
    steps := grown + [Pull] + [Run] + [Run];
  }
}
