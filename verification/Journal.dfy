/**
  A run's journal as its readers see it: the committed items (src/consumer/scrape/result-reader.ts),
  the lifecycle (src/consumer/scrape/inspection.ts) and the change watcher (src/consumer/runs.ts).
 */
module Journal {
  import opened Wrappers

  type Item = string

  datatype Frame =
    | RunCreated
    | ItemCommitted(sequence: int, item: Item)
    | StateChanged
    | CancelRequested
    | Interruption
    | TerminalFrame
    | Other

  datatype Entry = Entry(sequence: int, item: Item)

  datatype Lifecycle = Nonterminal | Interrupted | Cancelling | Terminal

  // ---------- What a journal holds ----------

  function Items(journal: seq<Frame>): seq<Entry>
  {
    if |journal| == 0 then []
    else
      var n := |journal| - 1;
      Items(journal[..n]) +
      (if journal[n].ItemCommitted? then [Entry(journal[n].sequence, journal[n].item)] else [])
  }

  predicate Ended(journal: seq<Frame>)
  {
    exists i :: 0 <= i < |journal| && journal[i].TerminalFrame?
  }

  /** What a writer may append: nothing after the terminal frame, items numbered one after another. */
  predicate MayFollow(journal: seq<Frame>, frame: Frame)
  {
    !Ended(journal) && (frame.ItemCommitted? ==> frame.sequence == |Items(journal)| + 1)
  }

  predicate Sound(journal: seq<Frame>)
  {
    if |journal| == 0 then false
    else if |journal| == 1 then journal[0].RunCreated?
    else Sound(journal[..|journal| - 1]) && MayFollow(journal[..|journal| - 1], journal[|journal| - 1])
  }

  lemma {:induction false} PrefixIsSound(journal: seq<Frame>, n: nat)
    requires Sound(journal) && 0 < n <= |journal|
    ensures Sound(journal[..n])
  {
    if n < |journal| {
      PrefixIsSound(journal[..|journal| - 1], n);
      assert journal[..|journal| - 1][..n] == journal[..n];
    } else {
      assert journal[..n] == journal;
    }
  }

  lemma {:induction false} ItemsGrow(journal: seq<Frame>, n: nat)
    requires n <= |journal|
    ensures Items(journal[..n]) <= Items(journal)
  {
    if n < |journal| {
      ItemsGrow(journal[..|journal| - 1], n);
      assert journal[..|journal| - 1][..n] == journal[..n];
    } else {
      assert journal[..n] == journal;
    }
  }

  lemma ItemsStep(journal: seq<Frame>, i: nat)
    requires i < |journal|
    ensures Items(journal[..i + 1]) ==
            if journal[i].ItemCommitted? then Items(journal[..i]) + [Entry(journal[i].sequence, journal[i].item)]
            else Items(journal[..i])
  {
    assert journal[..i + 1][..i] == journal[..i];
    assert Items(journal[..i]) + [] == Items(journal[..i]);
  }

  /** The k-th committed item carries the number k. */
  lemma {:induction false} ItemsAreNumbered(journal: seq<Frame>, k: nat)
    requires Sound(journal) && k < |Items(journal)|
    ensures Items(journal)[k].sequence == k + 1
  {
    var n := |journal| - 1;
    if |journal| > 1 {
      if k < |Items(journal[..n])| {
        ItemsAreNumbered(journal[..n], k);
      }
    }
  }

  lemma {:induction false} StretchNumbers(journal: seq<Frame>, from: nat, i: nat)
    requires Sound(journal) && 0 < from <= i < |journal| && journal[i].ItemCommitted?
    ensures |Items(journal[..from])| < journal[i].sequence <= |Items(journal)|
  {
    var n := |journal| - 1;
    assert journal[..n][..from] == journal[..from];
    if i < n {
      StretchNumbers(journal[..n], from, i);
    } else {
      ItemsGrow(journal[..n], from);
    }
  }

  /** Every item number beyond what a prefix holds is committed by a frame after that prefix. */
  lemma {:induction false} NumbersAreCommitted(journal: seq<Frame>, from: nat, k: int) returns (i: nat)
    requires Sound(journal) && 0 < from < |journal| && |Items(journal[..from])| < k <= |Items(journal)|
    ensures from <= i < |journal| && journal[i].ItemCommitted? && journal[i].sequence == k
  {
    var n := |journal| - 1;
    assert journal[..n][..from] == journal[..from];
    if from < n && k <= |Items(journal[..n])| {
      i := NumbersAreCommitted(journal[..n], from, k);
    } else {
      i := n;
    }
  }

  // ---------- Reading a page ----------

  datatype ItemPage = ItemPage(items: seq<Entry>, next: Option<int>)

  function Min(a: int, b: int): int
  {
    if a < b then a else b
  }

  /** The items after a number, at most `limit` of them, and where to continue if there are more. */
  function PageOf(items: seq<Entry>, after: nat, limit: nat): ItemPage
  {
    var low := Min(after, |items|);
    var high := Min(low + limit, |items|);
    ItemPage(items[low..high], if high < |items| then Some(high) else None)
  }

  lemma PageGrows(items: seq<Entry>, entry: Entry, after: nat, limit: nat)
    requires limit >= 1 && entry.sequence == |items| + 1
    ensures var page := PageOf(items, after, limit);
            PageOf(items + [entry], after, limit) ==
            if entry.sequence <= after || page.next.Some? then page
            else if |page.items| < limit then ItemPage(page.items + [entry], None)
            else ItemPage(page.items, Some(|items|))
  {
  }

  lemma PageIsFinal(items: seq<Entry>, more: seq<Entry>, after: nat, limit: nat)
    requires limit >= 1 && items <= more && PageOf(items, after, limit).next.Some?
    ensures PageOf(more, after, limit) == PageOf(items, after, limit)
  {
  }

  /** How many items carry their own number before the numbering first breaks. */
  function Numbered(items: seq<Entry>): (n: nat)
    ensures n <= |items|
  {
    if |items| == 0 then 0
    else
      var n := |items| - 1;
      if Numbered(items[..n]) == n && items[n].sequence == n + 1 then n + 1 else Numbered(items[..n])
  }

  lemma NumberedOneMore(items: seq<Entry>, entry: Entry)
    ensures Numbered(items + [entry]) ==
            if Numbered(items) == |items| && entry.sequence == |items| + 1 then |items| + 1 else Numbered(items)
  {
    assert (items + [entry])[..|items|] == items;
  }

  lemma {:induction false} NumberedOfLonger(items: seq<Entry>, more: seq<Entry>)
    requires items <= more
    ensures Numbered(items) <= Numbered(more)
    ensures Numbered(items) < |items| ==> Numbered(more) == Numbered(items)
    decreases |more|
  {
    if items < more {
      NumberedOfLonger(items, more[..|more| - 1]);
    } else {
      assert items == more;
    }
  }

  /** In a sound journal the numbering never breaks. */
  lemma {:induction false} SoundIsNumbered(journal: seq<Frame>)
    requires Sound(journal)
    ensures Numbered(Items(journal)) == |Items(journal)|
    decreases |journal|
  {
    var n := |journal| - 1;
    assert |journal| == 1 ==> |Items(journal)| == 0;
    if |journal| > 1 {
      SoundIsNumbered(journal[..n]);
      ItemsStep(journal, n);
      assert journal[..n + 1] == journal;
      var before := Items(journal[..n]);
      if journal[n].ItemCommitted? {
        NumberedOneMore(before, Entry(journal[n].sequence, journal[n].item));
      }
    }
  }

  /** The page of the items up to where their numbering breaks, or None when it breaks before the page is complete. */
  function CheckedPage(items: seq<Entry>, after: nat, limit: nat): Option<ItemPage>
  {
    var n := Numbered(items);
    if n < |items| && n <= after + limit then None else Some(PageOf(items[..n], after, limit))
  }

  lemma {:induction false} NumbersAreOwn(items: seq<Entry>, k: nat)
    requires Numbered(items) == |items| && k < |items|
    ensures items[k].sequence == k + 1
  {
    if k < |items| - 1 {
      NumbersAreOwn(items[..|items| - 1], k);
    }
  }

  /** The well-numbered items seen so far, and the page they make, which is not complete yet. */
  predicate ReadSoFar(seen: seq<Entry>, items: seq<Entry>, after: nat, limit: nat)
  {
    Numbered(seen) == |seen| && PageOf(seen, after, limit) == ItemPage(items, None)
  }

  lemma PageBreaks(seen: seq<Entry>, items: seq<Entry>, bad: Entry, all: seq<Entry>, after: nat, limit: nat)
    requires ReadSoFar(seen, items, after, limit) && bad.sequence != |seen| + 1 && seen + [bad] <= all
    ensures CheckedPage(all, after, limit) == None
  {
    NumberedOneMore(seen, bad);
    NumberedOfLonger(seen + [bad], all);
  }

  lemma PageCompletes(seen: seq<Entry>, items: seq<Entry>, entry: Entry, all: seq<Entry>, after: nat, limit: nat)
    requires limit >= 1 && ReadSoFar(seen, items, after, limit) && entry.sequence == |seen| + 1 && seen + [entry] <= all
    requires entry.sequence > after && |items| >= limit
    ensures |items| > 0 && CheckedPage(all, after, limit) == Some(ItemPage(items, Some(items[|items| - 1].sequence)))
  {
    NumberedOneMore(seen, entry);
    NumberedOfLonger(seen + [entry], all);
    PageGrows(seen, entry, after, limit);
    PageIsFinal(seen + [entry], all[..Numbered(all)], after, limit);
    NumbersAreOwn(seen, |seen| - 1);
  }

  lemma TakeItem(seen: seq<Entry>, items: seq<Entry>, entry: Entry, after: nat, limit: nat)
    requires limit >= 1 && ReadSoFar(seen, items, after, limit) && entry.sequence == |seen| + 1
    requires entry.sequence > after ==> |items| < limit
    ensures ReadSoFar(seen + [entry], if entry.sequence > after then items + [entry] else items, after, limit)
  {
    NumberedOneMore(seen, entry);
    PageGrows(seen, entry, after, limit);
  }

  lemma WholePage(items: seq<Entry>, page: seq<Entry>, after: nat, limit: nat)
    requires ReadSoFar(items, page, after, limit)
    ensures CheckedPage(items, after, limit) == Some(ItemPage(page, None))
  {
    assert items[..|items|] == items;
  }

  lemma SoundPage(journal: seq<Frame>, after: nat, limit: nat)
    requires Sound(journal)
    ensures CheckedPage(Items(journal), after, limit) == Some(PageOf(Items(journal), after, limit))
  {
    SoundIsNumbered(journal);
    assert Items(journal)[..|Items(journal)|] == Items(journal);
  }

  /** The visitor's loop, which checks the numbering only as far as it needs to read. */
  method ReadPage(journal: seq<Frame>, after: nat, limit: nat) returns (page: Option<ItemPage>)
    requires limit >= 1
    ensures page == CheckedPage(Items(journal), after, limit)
    ensures Sound(journal) ==> page == Some(PageOf(Items(journal), after, limit))
  {
    if Sound(journal) {
      SoundPage(journal, after, limit);
    }
    var items: seq<Entry> := [];
    var last := 0;
    ghost var seen: seq<Entry> := [];
    for i := 0 to |journal|
      invariant seen == Items(journal[..i]) && last == |seen|
      invariant ReadSoFar(seen, items, after, limit)
    {
      var frame := journal[i];
      ItemsStep(journal, i);
      ItemsGrow(journal, i + 1);
      if frame.ItemCommitted? {
        var entry := Entry(frame.sequence, frame.item);
        if frame.sequence != last + 1 {
          PageBreaks(seen, items, entry, Items(journal), after, limit);
          return None;
        }
        last := frame.sequence;
        ghost var before := items;
        if frame.sequence > after {
          if |items| >= limit {
            PageCompletes(seen, items, entry, Items(journal), after, limit);
            return Some(ItemPage(items, Some(items[|items| - 1].sequence)));
          }
          items := items + [entry];
        }
        TakeItem(seen, before, entry, after, limit);
        seen := seen + [entry];
      }
    }
    assert journal[..|journal|] == journal;
    WholePage(seen, items, after, limit);
    page := Some(ItemPage(items, None));
  }

  // ---------- Inspecting ----------

  datatype Scan = Scan(terminal: bool, cancelling: bool, interrupted: bool)

  function ScanOf(journal: seq<Frame>): Scan
  {
    if |journal| == 0 then Scan(false, false, false)
    else
      var s := ScanOf(journal[..|journal| - 1]);
      match journal[|journal| - 1]
      case TerminalFrame => s.(terminal := true)
      case CancelRequested => s.(cancelling := true)
      case Interruption => s.(interrupted := true)
      case StateChanged => s.(interrupted := false)
      case _ => s
  }

  function LifecycleOf(journal: seq<Frame>): Lifecycle
  {
    var s := ScanOf(journal);
    if s.terminal then Terminal
    else if s.cancelling then Cancelling
    else if s.interrupted then Interrupted
    else Nonterminal
  }

  predicate Over(lifecycle: Lifecycle)
  {
    lifecycle.Terminal? || lifecycle.Interrupted?
  }

  lemma {:induction false} TerminalIsEnded(journal: seq<Frame>)
    ensures LifecycleOf(journal).Terminal? <==> Ended(journal)
  {
    if |journal| > 0 {
      var n := |journal| - 1;
      TerminalIsEnded(journal[..n]);
      if journal[n].TerminalFrame? {
        assert Ended(journal);
      } else if Ended(journal) {
        var i :| 0 <= i < |journal| && journal[i].TerminalFrame?;
        assert journal[..n][i].TerminalFrame?;
      }
    }
  }

  lemma NothingFollowsTerminal(journal: seq<Frame>, k: nat, i: nat)
    requires k < i < |journal| && journal[k].TerminalFrame?
    ensures !Sound(journal)
  {
    assert journal[..i + 1][..i][k].TerminalFrame?;
    if Sound(journal) {
      PrefixIsSound(journal, i + 1);
    }
  }

  /** The lifecycle of a journal, or None exactly where its first frame is missing or work follows a terminal frame. */
  method Inspect(journal: seq<Frame>) returns (lifecycle: Option<Lifecycle>)
    ensures Sound(journal) ==> lifecycle == Some(LifecycleOf(journal))
    ensures lifecycle.Some? ==> lifecycle.value == LifecycleOf(journal)
    ensures lifecycle.Some? <==>
              && |journal| > 0 && journal[0].RunCreated?
              && forall i :: 0 <= i < |journal| - 1 ==> !journal[i].TerminalFrame?
  {
    if |journal| == 0 || !journal[0].RunCreated? {
      if Sound(journal) {
        PrefixIsSound(journal, 1);
      }
      return None;
    }
    var s := Scan(false, false, false);
    for i := 0 to |journal|
      invariant s == ScanOf(journal[..i])
      invariant s.terminal <==> exists k :: 0 <= k < i && journal[k].TerminalFrame?
      invariant forall k :: 0 <= k < i - 1 ==> !journal[k].TerminalFrame?
    {
      assert journal[..i + 1][..i] == journal[..i];
      if s.terminal {
        ghost var k :| 0 <= k < i && journal[k].TerminalFrame?;
        NothingFollowsTerminal(journal, k, i);
        return None;
      }
      match journal[i] {
        case TerminalFrame => s := s.(terminal := true);
        case CancelRequested => s := s.(cancelling := true);
        case Interruption => s := s.(interrupted := true);
        case StateChanged => s := s.(interrupted := false);
        case _ =>
      }
    }
    assert journal[..|journal|] == journal;
    lifecycle := Some(if s.terminal then Terminal else if s.cancelling then Cancelling
                      else if s.interrupted then Interrupted else Nonterminal);
  }

  // ---------- Watching ----------

  datatype Wake = Changed | Broken | Aborted

  /** The watcher: the two flags, whether a caller waits in `next`, and the answer that caller is about to get. */
  datatype Watch = Watch(changed: bool, failure: bool, waiting: bool, answer: Option<Wake>)

  function Waken(w: Watch): Watch
  {
    if !w.waiting then w
    else if w.failure then w.(waiting := false, answer := Some(Broken))
    else w.(changed := false, waiting := false, answer := Some(Changed))
  }

  function Noticed(w: Watch): Watch
  {
    Waken(w.(changed := true))
  }

  function Broke(w: Watch): Watch
  {
    Waken(w.(failure := true))
  }

  function AbortedWatch(w: Watch): Watch
  {
    if w.waiting then w.(waiting := false, answer := Some(Aborted)) else w
  }

  function Asked(w: Watch, aborted: bool): Watch
  {
    if aborted then w.(answer := Some(Aborted))
    else if w.failure then w.(answer := Some(Broken))
    else if w.changed then w.(changed := false, answer := Some(Changed))
    else w.(waiting := true, answer := None)
  }

  class Watcher {
    var changed: bool
    var failure: bool
    var waiting: bool
    var answer: Option<Wake>

    function View(): Watch
      reads this
    {
      Watch(changed, failure, waiting, answer)
    }

    constructor ()
      ensures View() == Watch(false, false, false, None)
    {
      changed, failure, waiting, answer := false, false, false, None;
    }

    method Finish(wake: Wake)
      modifies this
      ensures View() == old(View()).(waiting := false, answer := Some(wake))
    {
      waiting, answer := false, Some(wake);
    }

    method RunWaiter()
      requires waiting
      modifies this
      ensures View() == Waken(old(View()))
    {
      if failure {
        Finish(Broken);
        return;
      }
      changed := false;
      Finish(Changed);
    }

    method OnChange()
      modifies this
      ensures View() == Noticed(old(View()))
    {
      changed := true;
      if waiting {
        RunWaiter();
      }
    }

    method OnError()
      modifies this
      ensures View() == Broke(old(View()))
    {
      failure := true;
      if waiting {
        RunWaiter();
      }
    }

    method OnAbort()
      modifies this
      ensures View() == AbortedWatch(old(View()))
    {
      if waiting {
        Finish(Aborted);
      }
    }

    /** Asks for the next change: answered at once, or left waiting with nothing unseen. */
    method Next(aborted: bool)
      requires !waiting
      modifies this
      ensures View() == Asked(old(View()), aborted)
      ensures waiting ==> !changed && !failure && !aborted
    {
      answer := None;
      if aborted {
        answer := Some(Aborted);
        return;
      }
      if failure {
        answer := Some(Broken);
        return;
      }
      if changed {
        changed := false;
        answer := Some(Changed);
        return;
      }
      // Both flags are checked once more in the source; nothing can have run in between.
      waiting := true;
    }
  }
}
