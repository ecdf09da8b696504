/**
  Following `next_cursor` to its end while runs appear and are discarded between pages
  (src/consumer/runs.ts): page i is read from the store as it is at that moment.
 */
module RunWalk {
  import opened Wrappers
  import opened RunListing
  import KW = KeysetWalk

  function CursorKey(cursor: Option<string>): Option<Key>
  {
    if cursor.Some? then ParseCursor(cursor.value) else None
  }

  /** Page i was read from stores[i] under its own limit, with the cursor of the page before it. */
  ghost predicate IsWalk(cmp: Collation, stores: seq<seq<Run>>, limits: seq<nat>, pages: seq<PageResult>)
    requires TotalCollation(cmp)
  {
    && |stores| == |limits| == |pages|
    && (forall i :: 0 <= i < |pages| ==> PageInWalk(cmp, stores[i], limits[i], CursorBefore(pages, i), pages[i]))
    && (forall i :: 0 <= i < |pages| - 1 ==> pages[i].Page? && pages[i].next.Some?)
  }

  function CursorBefore(pages: seq<PageResult>, i: nat): Option<string>
    requires i < |pages|
  {
    if i > 0 && pages[i - 1].Page? then pages[i - 1].next else None
  }

  ghost predicate PageInWalk(cmp: Collation, runs: seq<Run>, limit: nat, cursor: Option<string>, r: PageResult)
    requires TotalCollation(cmp)
  {
    limit >= 1 && ValidStore(runs) && r.Page? && IsPageOf(cmp, runs, CursorKey(cursor), limit, r)
  }

  ghost predicate Finished(pages: seq<PageResult>)
  {
    pages != [] && pages[|pages| - 1].Page? && pages[|pages| - 1].next.None?
  }

  function KeysOf(runs: seq<Run>): seq<Key>
  {
    seq(|runs|, i requires 0 <= i < |runs| => runs[i].key)
  }

  /** The keys a store holds. */
  function Present(runs: seq<Run>): set<Key>
  {
    set i | 0 <= i < |runs| :: runs[i].key
  }

  function Order(cmp: Collation): (Key, Key) -> bool
  {
    (a, b) => Less(cmp, a, b)
  }

  /** Every key that was present when some page was read. */
  function Ever(stores: seq<seq<Run>>): set<Key>
  {
    set t, key | 0 <= t < |stores| && key in Present(stores[t]) :: key
  }

  lemma OrderIsTotal(cmp: Collation, keys: set<Key>)
    requires TotalCollation(cmp) && forall key :: key in keys ==> ValidKey(key)
    ensures KW.StrictTotal(Order(cmp), keys)
  {
    forall a, b, c | a in keys && b in keys && c in keys { KeysAreOrdered(cmp, a, b, c); }
  }

  function StretchOf(runs: seq<Run>, cursor: Option<string>, items: seq<Run>, next: Option<string>): KW.Stretch<Key>
  {
    KW.Stretch(Present(runs), CursorKey(cursor), KeysOf(items), CursorKey(next))
  }

  /** In terms of runs: the page lists in order what lies beyond its cursor, up to the cursor it hands out. */
  ghost predicate CoversRuns(cmp: Collation, runs: seq<Run>, from: Option<Key>, items: seq<Run>, to: Option<Key>)
  {
    && Ascending(cmp, items)
    && (forall run :: run in items ==> run in runs && (from.Some? ==> Less(cmp, from.value, run.key)))
    && (to.Some? ==> items != [] && to.value == items[|items| - 1].key)
    && (forall run :: run in runs && (from.Some? ==> Less(cmp, from.value, run.key)) ==>
          run in items || (to.Some? && Less(cmp, to.value, run.key)))
  }

  lemma PrefixCovers(cmp: Collation, runs: seq<Run>, from: Option<Key>, available: seq<Run>, n: nat, to: Option<Key>)
    requires Ascending(cmp, available) && n <= |available|
    requires forall run :: run in available <==> run in runs && (from.None? || Less(cmp, from.value, run.key))
    requires to.Some? <==> n < |available|
    requires to.Some? ==> n > 0 && to.value == available[n - 1].key
    ensures CoversRuns(cmp, runs, from, available[..n], to)
  {
    forall run | run in runs && (from.Some? ==> Less(cmp, from.value, run.key))
      ensures run in available[..n] || (to.Some? && Less(cmp, to.value, run.key))
    {
      assert run in available;
      var k :| 0 <= k < |available| && available[k] == run;
      if k < n {
        assert available[..n][k] == run;
      }
    }
  }

  lemma MintedCursorKey(available: seq<Run>, n: nat)
    requires 0 < n < |available| && AllValid(available)
    ensures CursorKey(CursorAfter(available, n)) == Some(available[n - 1].key)
  {
    CursorRoundTrip(available[n - 1].key);
  }

  lemma PageCoversRuns(cmp: Collation, runs: seq<Run>, limit: nat, cursor: Option<string>, r: PageResult)
    requires TotalCollation(cmp) && PageInWalk(cmp, runs, limit, cursor, r)
    ensures CoversRuns(cmp, runs, CursorKey(cursor), r.items, CursorKey(r.next))
    ensures r.next.Some? ==> CursorKey(r.next).Some?
  {
    SortSorts(cmp, runs);
    var from := CursorKey(cursor);
    AfterExact(cmp, Sort(cmp, runs), from);
    var available := After(cmp, Sort(cmp, runs), from);
    var n := |r.items|;
    assert n <= |available| && r.items == available[..n] && r.next == CursorAfter(available, n);
    if 0 < n < |available| {
      MintedCursorKey(available, n);
    }
    PrefixCovers(cmp, runs, from, available, n, CursorKey(r.next));
  }

  /** The same in terms of keys. */
  lemma RunsCoverKeys(cmp: Collation, runs: seq<Run>, from: Option<Key>, items: seq<Run>, to: Option<Key>)
    requires CoversRuns(cmp, runs, from, items, to)
    ensures KW.Covers(Order(cmp), KW.Stretch(Present(runs), from, KeysOf(items), to))
  {
    var s := KW.Stretch(Present(runs), from, KeysOf(items), to);
    forall key | key in s.keys ensures key in s.present && KW.Beyond(Order(cmp), s.from, key) {
      var k :| 0 <= k < |s.keys| && s.keys[k] == key;
      assert items[k] in items;
      var i :| 0 <= i < |runs| && runs[i] == items[k];
    }
    forall key | key in s.present && KW.Beyond(Order(cmp), s.from, key)
      ensures key in s.keys || (s.to.Some? && Order(cmp)(s.to.value, key))
    {
      var i :| 0 <= i < |runs| && runs[i].key == key;
      if runs[i] in items {
        var k :| 0 <= k < |items| && items[k] == runs[i];
        assert s.keys[k] == key;
      }
    }
  }

  /** A page is a stretch of the walk. */
  lemma PageCovers(cmp: Collation, runs: seq<Run>, limit: nat, cursor: Option<string>, r: PageResult)
    requires TotalCollation(cmp) && PageInWalk(cmp, runs, limit, cursor, r)
    ensures KW.Covers(Order(cmp), StretchOf(runs, cursor, r.items, r.next))
    ensures r.next.Some? ==> CursorKey(r.next).Some?
    ensures forall run :: run in r.items ==> run in runs
  {
    PageCoversRuns(cmp, runs, limit, cursor, r);
    RunsCoverKeys(cmp, runs, CursorKey(cursor), r.items, CursorKey(r.next));
  }

  function Stretches(stores: seq<seq<Run>>, pages: seq<PageResult>): seq<KW.Stretch<Key>>
    requires |stores| == |pages| && forall i :: 0 <= i < |pages| ==> pages[i].Page?
  {
    seq(|pages|, i requires 0 <= i < |pages| =>
      StretchOf(stores[i], CursorBefore(pages, i), pages[i].items, pages[i].next))
  }

  lemma PagesAreAWalk(cmp: Collation, stores: seq<seq<Run>>, limits: seq<nat>, pages: seq<PageResult>)
    requires TotalCollation(cmp) && IsWalk(cmp, stores, limits, pages)
    ensures forall i :: 0 <= i < |pages| ==> pages[i].Page?
    ensures KW.IsWalk(Order(cmp), Stretches(stores, pages))
  {
    forall i | 0 <= i < |pages| ensures pages[i].Page? {
      assert PageInWalk(cmp, stores[i], limits[i], CursorBefore(pages, i), pages[i]);
    }
    var walk := Stretches(stores, pages);
    forall i | 0 <= i < |walk| ensures KW.Covers(Order(cmp), walk[i]) {
      PageCovers(cmp, stores[i], limits[i], CursorBefore(pages, i), pages[i]);
    }
    forall i | 0 < i < |walk| ensures KW.Linked(walk, i) {
      PageCovers(cmp, stores[i - 1], limits[i - 1], CursorBefore(pages, i - 1), pages[i - 1]);
      assert pages[i - 1].next.Some?;
    }
  }

  /** The keys of all pages, in the order they were listed. */
  ghost function ListedKeys(stores: seq<seq<Run>>, pages: seq<PageResult>): seq<Key>
    requires |stores| == |pages| && forall i :: 0 <= i < |pages| ==> pages[i].Page?
  {
    KW.Listed(Stretches(stores, pages))
  }

  /** All that is ever listed has a valid key, and the pages' order is total on those. */
  lemma WalkIsOrdered(cmp: Collation, stores: seq<seq<Run>>, limits: seq<nat>, pages: seq<PageResult>)
    requires TotalCollation(cmp) && IsWalk(cmp, stores, limits, pages)
    ensures KW.StrictTotal(Order(cmp), Ever(stores))
  {
    forall key | key in Ever(stores) ensures ValidKey(key) {
      var t :| 0 <= t < |stores| && key in Present(stores[t]);
      assert PageInWalk(cmp, stores[t], limits[t], CursorBefore(pages, t), pages[t]);
      var i :| 0 <= i < |stores[t]| && stores[t][i].key == key;
      assert stores[t][i] in stores[t];
    }
    OrderIsTotal(cmp, Ever(stores));
  }

  lemma StretchesWithin(stores: seq<seq<Run>>, pages: seq<PageResult>)
    requires |stores| == |pages| && forall i :: 0 <= i < |pages| ==> pages[i].Page?
    ensures KW.Within(Stretches(stores, pages), Ever(stores))
    ensures forall i :: 0 <= i < |pages| ==> Stretches(stores, pages)[i].present == Present(stores[i])
  {
  }

  /**
    Exactly once under change: a finished walk lists keys strictly in order, hence none twice,
    and among them every run that was present throughout, whatever else appeared or was discarded.
   */
  lemma WalkIsExactlyOnce(cmp: Collation, stores: seq<seq<Run>>, limits: seq<nat>, pages: seq<PageResult>)
    requires TotalCollation(cmp) && IsWalk(cmp, stores, limits, pages) && Finished(pages)
    ensures forall i :: 0 <= i < |pages| ==> pages[i].Page?
    ensures KW.Ascending(Order(cmp), ListedKeys(stores, pages))
    ensures forall key ::
              (forall t :: 0 <= t < |stores| ==> key in Present(stores[t])) ==> key in ListedKeys(stores, pages)
    ensures forall i, run :: 0 <= i < |pages| && run in pages[i].items ==> run in stores[i]
  {
    PagesAreAWalk(cmp, stores, limits, pages);
    WalkIsOrdered(cmp, stores, limits, pages);
    StretchesWithin(stores, pages);
    KW.WalkIsExactlyOnce(Order(cmp), Stretches(stores, pages), Ever(stores));
    forall i, run | 0 <= i < |pages| && run in pages[i].items ensures run in stores[i] {
      PageCovers(cmp, stores[i], limits[i], CursorBefore(pages, i), pages[i]);
    }
  }

  /** The walk terminates: it has at most one page more than there are runs that ever existed. */
  lemma WalkTerminates(cmp: Collation, stores: seq<seq<Run>>, limits: seq<nat>, pages: seq<PageResult>, ever: set<Key>)
    requires TotalCollation(cmp) && IsWalk(cmp, stores, limits, pages)
    requires forall t :: 0 <= t < |stores| ==> Present(stores[t]) <= ever
    ensures |pages| <= |ever| + 1
  {
    PagesAreAWalk(cmp, stores, limits, pages);
    WalkIsOrdered(cmp, stores, limits, pages);
    StretchesWithin(stores, pages);
    KW.WalkTerminates(Order(cmp), Stretches(stores, pages), Ever(stores));
    KW.SubsetSize(Ever(stores), ever);
  }
}
