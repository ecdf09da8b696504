/**
  Listing installed packages (src/consumer/local-listing.ts): pages are sorted by one string
  order (`localeCompare`) but continued with another (`>`). The two orders are parameters.
 */
module InstalledListing {
  import opened Wrappers
  import KW = KeysetWalk
  import Text

  /** The orders rank these ids alike. */
  ghost predicate Agree<K(!new)>(sortedBy: (K, K) -> bool, continuedBy: (K, K) -> bool, ids: set<K>)
  {
    forall a, b :: a in ids && b in ids ==> (sortedBy(a, b) <==> continuedBy(a, b))
  }

  function Remaining<K(==)>(continuedBy: (K, K) -> bool, installed: set<K>, cursor: Option<K>): set<K>
  {
    set id | id in installed && KW.Beyond(continuedBy, cursor, id)
  }

  /**
    One page: the ids beyond the cursor, sorted, cut after some of them; the cursor handed out is
    the last id listed when others remain. Item and byte limits decide where the cut falls.
   */
  ghost predicate IsPage<K(!new)>(
    sortedBy: (K, K) -> bool, continuedBy: (K, K) -> bool, installed: set<K>, cursor: Option<K>,
    ids: seq<K>, next: Option<K>)
  {
    exists available: seq<K> :: IsCut(sortedBy, Remaining(continuedBy, installed, cursor), available, ids, next)
  }

  ghost predicate IsCut<K(!new)>(sortedBy: (K, K) -> bool, rest: set<K>, available: seq<K>, ids: seq<K>,
                          next: Option<K>)
  {
    && KW.Ascending(sortedBy, available) && KW.Elements(available) == rest
    && |ids| <= |available| && ids == available[..|ids|] && (|available| > 0 ==> |ids| > 0)
    && next == if |ids| < |available| then Some(ids[|ids| - 1]) else None
  }

  /** Where the orders agree, a page covers its stretch in the continuation order. */
  lemma AgreeingPageCovers<K(!new)>(
    sortedBy: (K, K) -> bool, continuedBy: (K, K) -> bool, installed: set<K>, cursor: Option<K>,
    ids: seq<K>, next: Option<K>)
    requires Agree(sortedBy, continuedBy, installed)
    requires IsPage(sortedBy, continuedBy, installed, cursor, ids, next)
    ensures KW.Covers(continuedBy, KW.Stretch(installed, cursor, ids, next))
  {
    var available: seq<K> :| IsCut(sortedBy, Remaining(continuedBy, installed, cursor), available, ids, next);
    forall i | 0 <= i < |available| ensures available[i] in installed && KW.Beyond(continuedBy, cursor, available[i]) {
      assert available[i] in KW.Elements(available);
    }
    assert KW.Ascending(continuedBy, available);
    forall id | id in installed && KW.Beyond(continuedBy, cursor, id)
      ensures id in ids || (next.Some? && continuedBy(next.value, id))
    {
      assert id in KW.Elements(available);
      var k :| 0 <= k < |available| && available[k] == id;
      if k < |ids| {
        assert ids[k] == id;
      }
    }
  }

  // ---------- Building a page ----------

  const ADAPTER_MAXIMUM_BYTES: nat := 20_480

  /** The encoded size of a page of these ids that hands out this cursor. */
  type PageSize<!K> = (seq<K>, Option<K>) -> nat

  datatype BuiltPage<K> = Page(ids: seq<K>, next: Option<K>) | TooLarge

  function CursorAfter<K>(available: seq<K>, n: nat): Option<K>
    requires n <= |available|
  {
    if 0 < n < |available| then Some(available[n - 1]) else None
  }

  predicate FirstFit<K>(size: PageSize<K>, available: seq<K>, n: nat)
    requires n <= |available|
  {
    size(available[..n], CursorAfter(available, n)) <= ADAPTER_MAXIMUM_BYTES
  }

  ghost predicate AllFit<K>(size: PageSize<K>, available: seq<K>, n: nat)
    requires n <= |available|
  {
    forall k :: 1 <= k <= n ==> FirstFit(size, available, k)
  }

  /** Takes ids while the page stays within the item limit and the adapter's bytes. */
  method BuildInstalledPage<K>(size: PageSize<K>, available: seq<K>, requestedLimit: nat) returns (page: BuiltPage<K>)
    requires requestedLimit >= 1
    ensures page.TooLarge? <==> |available| > 0 && !FirstFit(size, available, 1)
    ensures page.Page? ==>
              && |page.ids| <= requestedLimit && page.ids <= available && AllFit(size, available, |page.ids|)
              && (|page.ids| == requestedLimit || page.ids == available || !FirstFit(size, available, |page.ids| + 1))
              && page.next == CursorAfter(available, |page.ids|) && (|available| > 0 ==> |page.ids| > 0)
  {
    var ids: seq<K> := [];
    for i := 0 to |available|
      invariant ids == available[..i] && i <= requestedLimit
      invariant AllFit(size, available, i)
    {
      if |ids| == requestedLimit {
        break;
      }
      var candidateIds := ids + [available[i]];
      assert candidateIds == available[..i + 1];
      var candidateCursor := if |candidateIds| < |available| then Some(available[i]) else None;
      if size(candidateIds, candidateCursor) > ADAPTER_MAXIMUM_BYTES {
        break;
      }
      ids := candidateIds;
    }
    if |ids| == 0 && |available| > 0 {
      return TooLarge;
    }
    var next := if |ids| < |available| then Some(ids[|ids| - 1]) else None;
    page := Page(ids, next);
  }

  /** A page built from the sorted remainder is a page of the listing. */
  lemma BuiltPageIsPage<K(!new)>(
    sortedBy: (K, K) -> bool, continuedBy: (K, K) -> bool, installed: set<K>, cursor: Option<K>,
    available: seq<K>, page: BuiltPage<K>)
    requires KW.Ascending(sortedBy, available) && KW.Elements(available) == Remaining(continuedBy, installed, cursor)
    requires page.Page? && page.ids <= available && (|available| > 0 ==> |page.ids| > 0)
    requires page.next == CursorAfter(available, |page.ids|)
    ensures IsPage(sortedBy, continuedBy, installed, cursor, page.ids, page.next)
  {
    assert IsCut(sortedBy, Remaining(continuedBy, installed, cursor), available, page.ids, page.next);
  }

  // ---------- Listings ----------

  datatype PageRead<K> = PageRead(installed: set<K>, cursor: Option<K>, ids: seq<K>, next: Option<K>)

  ghost predicate IsPageRead<K(!new)>(sortedBy: (K, K) -> bool, continuedBy: (K, K) -> bool, page: PageRead<K>)
  {
    IsPage(sortedBy, continuedBy, page.installed, page.cursor, page.ids, page.next)
  }

  function StretchOf<K>(page: PageRead<K>): KW.Stretch<K>
  {
    KW.Stretch(page.installed, page.cursor, page.ids, page.next)
  }

  ghost predicate IsListing<K(!new)>(sortedBy: (K, K) -> bool, continuedBy: (K, K) -> bool, pages: seq<PageRead<K>>)
  {
    && (forall i :: 0 <= i < |pages| ==> IsPageRead(sortedBy, continuedBy, pages[i]))
    && (|pages| > 0 ==> pages[0].cursor.None?)
    && (forall i :: 0 < i < |pages| ==> Follows(pages, i))
  }

  predicate Follows<K(==)>(pages: seq<PageRead<K>>, i: nat)
    requires 0 < i < |pages|
  {
    pages[i - 1].next.Some? && pages[i].cursor == pages[i - 1].next
  }

  function Stretches<K>(pages: seq<PageRead<K>>): seq<KW.Stretch<K>>
  {
    seq(|pages|, i requires 0 <= i < |pages| => StretchOf(pages[i]))
  }

  lemma PagesWalk<K(!new)>(sortedBy: (K, K) -> bool, continuedBy: (K, K) -> bool, pages: seq<PageRead<K>>, ever: set<K>)
    requires KW.StrictTotal(continuedBy, ever) && Agree(sortedBy, continuedBy, ever)
    requires IsListing(sortedBy, continuedBy, pages)
    requires forall i :: 0 <= i < |pages| ==> pages[i].installed <= ever
    ensures KW.IsWalk(continuedBy, Stretches(pages))
  {
    var walk := Stretches(pages);
    forall i | 0 <= i < |walk| ensures KW.Covers(continuedBy, walk[i]) {
      var page := pages[i];
      assert page.installed <= ever && walk[i] == StretchOf(page) && IsPageRead(sortedBy, continuedBy, page);
      AgreeingPageCovers(sortedBy, continuedBy, page.installed, page.cursor, page.ids, page.next);
    }
    forall i | 0 < i < |walk| ensures KW.Linked(walk, i) {
      assert Follows(pages, i);
    }
  }

  ghost predicate InstalledThroughout<K>(pages: seq<PageRead<K>>, id: K)
  {
    forall i :: 0 <= i < |pages| ==> id in pages[i].installed
  }

  /**
    When the orders agree on every id that was ever installed, a finished listing is in order,
    lists no id twice and lists every package installed throughout, whatever the page sizes.
   */
  lemma AgreementSuffices<K(!new)>(sortedBy: (K, K) -> bool, continuedBy: (K, K) -> bool, pages: seq<PageRead<K>>,
                            ever: set<K>)
    requires KW.StrictTotal(continuedBy, ever) && Agree(sortedBy, continuedBy, ever)
    requires IsListing(sortedBy, continuedBy, pages) && |pages| > 0 && pages[|pages| - 1].next.None?
    requires forall i :: 0 <= i < |pages| ==> pages[i].installed <= ever
    ensures KW.Ascending(continuedBy, KW.Listed(Stretches(pages)))
    ensures forall id :: InstalledThroughout(pages, id) ==> id in KW.Listed(Stretches(pages))
    ensures |pages| <= |ever| + 1
  {
    var walk := Stretches(pages);
    PagesWalk(sortedBy, continuedBy, pages, ever);
    assert |walk| > 0;
    KW.WalkIsExactlyOnce(continuedBy, walk, ever);
    KW.WalkTerminates(continuedBy, walk, ever);
    forall id | InstalledThroughout(pages, id) ensures id in KW.Listed(walk) {
      assert forall i :: 0 <= i < |walk| ==> id in walk[i].present;
    }
  }

  // ---------- Which ids a listing misses ----------

  /** The ids of the first n pages. */
  function ListedBy<K>(pages: seq<PageRead<K>>, n: nat): seq<K>
    requires n <= |pages|
  {
    if n == 0 then [] else ListedBy(pages, n - 1) + pages[n - 1].ids
  }

  lemma {:induction false} ListedByIsListed<K>(pages: seq<PageRead<K>>, n: nat)
    requires n <= |pages|
    ensures ListedBy(pages, n) == KW.Listed(Stretches(pages)[..n])
  {
    if n > 0 {
      ListedByIsListed(pages, n - 1);
      assert Stretches(pages)[..n][..n - 1] == Stretches(pages)[..n - 1];
    }
  }

  /** Between pages i and i + 1 the id is dropped: the sort places it after the cursor, the continuation before it. */
  ghost predicate DroppedAt<K(!new)>(
    sortedBy: (K, K) -> bool, continuedBy: (K, K) -> bool, pages: seq<PageRead<K>>, id: K, i: nat)
  {
    && i + 1 < |pages| && pages[i].next.Some? && id !in ListedBy(pages, i + 1)
    && sortedBy(pages[i].next.value, id) && continuedBy(id, pages[i].next.value)
  }

  /**
    What a page lists lies beyond its cursor; of the rest a page leaves out only what the sort places after
    its mark.
   */
  lemma PageLeaves<K(!new)>(sortedBy: (K, K) -> bool, continuedBy: (K, K) -> bool, page: PageRead<K>, id: K)
    requires IsPageRead(sortedBy, continuedBy, page)
    ensures id in page.ids ==> id in Remaining(continuedBy, page.installed, page.cursor)
    ensures page.next.Some? ==> page.next.value in page.ids
    ensures id in Remaining(continuedBy, page.installed, page.cursor) && id !in page.ids ==>
              page.next.Some? && sortedBy(page.next.value, id)
  {
    var rest := Remaining(continuedBy, page.installed, page.cursor);
    var available: seq<K> :| IsCut(sortedBy, rest, available, page.ids, page.next);
    if id in page.ids {
      var k :| 0 <= k < |page.ids| && page.ids[k] == id;
      assert available[k] in KW.Elements(available);
    } else if id in rest {
      assert id in KW.Elements(available);
      var k :| 0 <= k < |available| && available[k] == id;
      assert forall m :: 0 <= m < |page.ids| ==> page.ids[m] in page.ids && page.ids[m] == available[m];
      assert page.ids[|page.ids| - 1] == available[|page.ids| - 1];
    }
  }

  /** Cursors only move on in the continuation order. */
  lemma {:induction false} CursorsMoveOn<K(!new)>(
    sortedBy: (K, K) -> bool, continuedBy: (K, K) -> bool, pages: seq<PageRead<K>>, ever: set<K>, i: nat, j: nat)
    requires KW.StrictTotal(continuedBy, ever) && IsListing(sortedBy, continuedBy, pages)
    requires forall k :: 0 <= k < |pages| ==> pages[k].installed <= ever
    requires i <= j < |pages| && pages[i].next.Some? && pages[j].next.Some?
    ensures pages[i].next.value in ever && pages[j].next.value in ever
    ensures i == j || continuedBy(pages[i].next.value, pages[j].next.value)
    decreases j - i
  {
    assert IsPageRead(sortedBy, continuedBy, pages[i]) && IsPageRead(sortedBy, continuedBy, pages[j]);
    PageLeaves(sortedBy, continuedBy, pages[i], pages[i].next.value);
    PageLeaves(sortedBy, continuedBy, pages[j], pages[j].next.value);
    if i < j {
      assert Follows(pages, j);
      CursorsMoveOn(sortedBy, continuedBy, pages, ever, i, j - 1);
    }
  }

  /** What comes after a boundary lies beyond its cursor. */
  lemma BeyondBoundary<K(!new)>(
    sortedBy: (K, K) -> bool, continuedBy: (K, K) -> bool, pages: seq<PageRead<K>>, ever: set<K>, i: nat, j: nat, id: K)
    requires KW.StrictTotal(continuedBy, ever) && IsListing(sortedBy, continuedBy, pages)
    requires forall k :: 0 <= k < |pages| ==> pages[k].installed <= ever
    requires i < j < |pages| && pages[i].next.Some? && id in pages[j].ids
    ensures id in ever && pages[i].next.value in ever && continuedBy(pages[i].next.value, id)
  {
    assert IsPageRead(sortedBy, continuedBy, pages[j]) && Follows(pages, j);
    PageLeaves(sortedBy, continuedBy, pages[j], id);
    CursorsMoveOn(sortedBy, continuedBy, pages, ever, i, j - 1);
  }

  lemma {:induction false} DroppedStaysAway<K(!new)>(
    sortedBy: (K, K) -> bool, continuedBy: (K, K) -> bool, pages: seq<PageRead<K>>, ever: set<K>, id: K, i: nat, n: nat)
    requires KW.StrictTotal(continuedBy, ever) && IsListing(sortedBy, continuedBy, pages)
    requires forall k :: 0 <= k < |pages| ==> pages[k].installed <= ever
    requires DroppedAt(sortedBy, continuedBy, pages, id, i) && i < n <= |pages|
    ensures id !in ListedBy(pages, n)
    decreases n
  {
    if i + 1 < n {
      DroppedStaysAway(sortedBy, continuedBy, pages, ever, id, i, n - 1);
      if id in pages[n - 1].ids {
        BeyondBoundary(sortedBy, continuedBy, pages, ever, i, n - 1, id);
      }
    }
  }

  /** An id that is neither listed nor dropped so far remains for the next page. */
  lemma {:induction false} StillRemaining<K(!new)>(
    sortedBy: (K, K) -> bool, continuedBy: (K, K) -> bool, pages: seq<PageRead<K>>, ever: set<K>, id: K, n: nat)
    requires KW.StrictTotal(continuedBy, ever) && IsListing(sortedBy, continuedBy, pages)
    requires forall k :: 0 <= k < |pages| ==> pages[k].installed <= ever
    requires n < |pages| && InstalledThroughout(pages, id) && id !in ListedBy(pages, n)
    requires forall i: nat :: i < n ==> !DroppedAt(sortedBy, continuedBy, pages, id, i)
    ensures id in Remaining(continuedBy, pages[n].installed, pages[n].cursor)
    decreases n
  {
    assert id in pages[n].installed;
    if n > 0 {
      var page := pages[n - 1];
      assert Follows(pages, n) && IsPageRead(sortedBy, continuedBy, page) && id in page.installed;
      StillRemaining(sortedBy, continuedBy, pages, ever, id, n - 1);
      PageLeaves(sortedBy, continuedBy, page, id);
      PageLeaves(sortedBy, continuedBy, page, page.next.value);
      assert page.installed <= ever && !DroppedAt(sortedBy, continuedBy, pages, id, n - 1);
    }
  }

  /**
    A finished listing of a changing store, under any limits, misses a package that was installed
    throughout if and only if it is dropped at some boundary between two pages: the one place where the
    two orders must agree is between the cursor handed out there and what is still to come.
   */
  lemma MissedExact<K(!new)>(
    sortedBy: (K, K) -> bool, continuedBy: (K, K) -> bool, pages: seq<PageRead<K>>, ever: set<K>, id: K)
    requires KW.StrictTotal(continuedBy, ever) && IsListing(sortedBy, continuedBy, pages)
    requires |pages| > 0 && pages[|pages| - 1].next.None?
    requires forall i :: 0 <= i < |pages| ==> pages[i].installed <= ever
    requires InstalledThroughout(pages, id)
    ensures id !in KW.Listed(Stretches(pages)) <==> exists i :: DroppedAt(sortedBy, continuedBy, pages, id, i)
  {
    var n := |pages|;
    ListedByIsListed(pages, n);
    assert Stretches(pages)[..n] == Stretches(pages);
    if i: nat :| DroppedAt(sortedBy, continuedBy, pages, id, i) {
      DroppedStaysAway(sortedBy, continuedBy, pages, ever, id, i, n);
    } else if id !in ListedBy(pages, n) {
      StillRemaining(sortedBy, continuedBy, pages, ever, id, n - 1);
      assert IsPageRead(sortedBy, continuedBy, pages[n - 1]);
      PageLeaves(sortedBy, continuedBy, pages[n - 1], id);
    }
  }

  // ---------- One id a page ----------

  /** Both orders are total on what is installed, and the cursor comes from there. */
  ghost predicate TotalOn<K(!new)>(sortedBy: (K, K) -> bool, continuedBy: (K, K) -> bool, installed: set<K>,
                            cursor: Option<K>)
  {
    && KW.StrictTotal(sortedBy, installed) && KW.StrictTotal(continuedBy, installed)
    && (cursor.Some? ==> cursor.value in installed)
  }

  ghost predicate IsFirst<K(!new)>(sortedBy: (K, K) -> bool, ids: set<K>, id: K)
  {
    id in ids && forall other :: other in ids && other != id ==> sortedBy(id, other)
  }

  lemma {:induction false} FirstExists<K(!new)>(sortedBy: (K, K) -> bool, ids: set<K>) returns (first: K)
    requires KW.StrictTotal(sortedBy, ids) && ids != {}
    ensures IsFirst(sortedBy, ids, first)
    decreases ids
  {
    var x :| x in ids;
    if ids == {x} {
      return x;
    }
    first := FirstExists(sortedBy, ids - {x});
    if sortedBy(x, first) {
      first := x;
    }
  }

  ghost function First<K(!new)>(sortedBy: (K, K) -> bool, ids: set<K>): (first: K)
    requires KW.StrictTotal(sortedBy, ids) && ids != {}
    ensures IsFirst(sortedBy, ids, first)
  {
    assert exists id :: IsFirst(sortedBy, ids, id) by {
      var id := FirstExists(sortedBy, ids);
    }
    var id :| IsFirst(sortedBy, ids, id);
    id
  }

  lemma RemainingShrinks<K(!new)>(sortedBy: (K, K) -> bool, continuedBy: (K, K) -> bool, installed: set<K>,
                           cursor: Option<K>)
    requires TotalOn(sortedBy, continuedBy, installed, cursor) && Remaining(continuedBy, installed, cursor) != {}
    ensures var rest := Remaining(continuedBy, installed, cursor);
            Remaining(continuedBy, installed, Some(First(sortedBy, rest))) < rest
  {
  }

  /** The listing of an unchanging store with a page limit of one. */
  ghost function OneByOne<K(!new)>(sortedBy: (K, K) -> bool, continuedBy: (K, K) -> bool, installed: set<K>,
                            cursor: Option<K>): seq<K>
    requires TotalOn(sortedBy, continuedBy, installed, cursor)
    decreases Remaining(continuedBy, installed, cursor)
  {
    var rest := Remaining(continuedBy, installed, cursor);
    if rest == {} then []
    else
      RemainingShrinks(sortedBy, continuedBy, installed, cursor);
      var id := First(sortedBy, rest);
      [id] + OneByOne(sortedBy, continuedBy, installed, Some(id))
  }

  lemma {:induction false} OneByOneAgrees<K(!new)>(
    sortedBy: (K, K) -> bool, continuedBy: (K, K) -> bool, installed: set<K>, cursor: Option<K>)
    requires TotalOn(sortedBy, continuedBy, installed, cursor)
    requires Agree(sortedBy, continuedBy, installed)
    ensures forall id ::
              id in OneByOne(sortedBy, continuedBy, installed, cursor) <==>
              id in Remaining(continuedBy, installed, cursor)
    decreases Remaining(continuedBy, installed, cursor)
  {
    var rest := Remaining(continuedBy, installed, cursor);
    if rest != {} {
      RemainingShrinks(sortedBy, continuedBy, installed, cursor);
      var first := First(sortedBy, rest);
      OneByOneAgrees(sortedBy, continuedBy, installed, Some(first));
      assert rest == {first} + Remaining(continuedBy, installed, Some(first));
    }
  }

  /** A pair ranked oppositely cannot both be listed: picking the one skips the other. */
  lemma {:induction false} OppositePairIsSkipped<K(!new)>(
    sortedBy: (K, K) -> bool, continuedBy: (K, K) -> bool, installed: set<K>, cursor: Option<K>, a: K, b: K)
    requires TotalOn(sortedBy, continuedBy, installed, cursor)
    requires a in installed && b in installed && sortedBy(a, b) && continuedBy(b, a)
    ensures b !in OneByOne(sortedBy, continuedBy, installed, cursor) ||
            a !in OneByOne(sortedBy, continuedBy, installed, cursor)
    decreases Remaining(continuedBy, installed, cursor)
  {
    var rest := Remaining(continuedBy, installed, cursor);
    if rest != {} {
      RemainingShrinks(sortedBy, continuedBy, installed, cursor);
      var first := First(sortedBy, rest);
      OppositePairIsSkipped(sortedBy, continuedBy, installed, Some(first), a, b);
      if a in OneByOne(sortedBy, continuedBy, installed, Some(first)) {
        ListedAreRemaining(sortedBy, continuedBy, installed, Some(first), a);
      }
      if b in OneByOne(sortedBy, continuedBy, installed, Some(first)) {
        ListedAreRemaining(sortedBy, continuedBy, installed, Some(first), b);
      }
    }
  }

  lemma {:induction false} ListedAreRemaining<K(!new)>(
    sortedBy: (K, K) -> bool, continuedBy: (K, K) -> bool, installed: set<K>, cursor: Option<K>, id: K)
    requires TotalOn(sortedBy, continuedBy, installed, cursor)
    requires id in OneByOne(sortedBy, continuedBy, installed, cursor)
    ensures id in Remaining(continuedBy, installed, cursor)
    decreases Remaining(continuedBy, installed, cursor)
  {
    var rest := Remaining(continuedBy, installed, cursor);
    if rest != {} {
      RemainingShrinks(sortedBy, continuedBy, installed, cursor);
      var first := First(sortedBy, rest);
      if id != first {
        ListedAreRemaining(sortedBy, continuedBy, installed, Some(first), id);
      }
    }
  }

  /**
    Listing an unchanging store one id a page shows every package exactly when the two orders agree on what is
    installed.
   */
  lemma AgreementExact<K(!new)>(sortedBy: (K, K) -> bool, continuedBy: (K, K) -> bool, installed: set<K>)
    requires TotalOn(sortedBy, continuedBy, installed, None)
    ensures (forall id :: id in installed ==> id in OneByOne(sortedBy, continuedBy, installed, None)) <==>
            Agree(sortedBy, continuedBy, installed)
  {
    if Agree(sortedBy, continuedBy, installed) {
      OneByOneAgrees(sortedBy, continuedBy, installed, None);
    } else {
      var a, b :| a in installed && b in installed && (sortedBy(a, b) <==> !continuedBy(a, b));
      if sortedBy(a, b) {
        OppositePairIsSkipped(sortedBy, continuedBy, installed, None, a, b);
      } else {
        OppositePairIsSkipped(sortedBy, continuedBy, installed, None, b, a);
      }
    }
  }

  // ---------- Collations of package ids ----------

  /** The characters of a package id. */
  predicate IsIdChar(c: char)
  {
    c == '-' || '0' <= c <= '9' || 'a' <= c <= 'z'
  }

  predicate IsIdText(s: string)
  {
    forall i :: 0 <= i < |s| ==> IsIdChar(s[i])
  }

  /** A collation that weighs one character at a time. */
  predicate ByWeight(weight: char -> int, a: string, b: string)
  {
    if |b| == 0 then false
    else if |a| == 0 then true
    else weight(a[0]) < weight(b[0]) || (weight(a[0]) == weight(b[0]) && ByWeight(weight, a[1..], b[1..]))
  }

  ghost predicate KeepsCodeOrder(weight: char -> int)
  {
    forall c, d :: IsIdChar(c) && IsIdChar(d) ==> (weight(c) < weight(d) <==> c < d)
  }

  lemma {:induction false} WeightsAgree(weight: char -> int, a: string, b: string)
    requires KeepsCodeOrder(weight) && IsIdText(a) && IsIdText(b)
    ensures ByWeight(weight, a, b) <==> Text.Less(a, b)
  {
    if |a| > 0 && |b| > 0 {
      WeightsAgree(weight, a[1..], b[1..]);
      assert IsIdChar(a[0]) && IsIdChar(b[0]);
      assert Text.UnitsOf(a)[1..] == Text.UnitsOf(a[1..]) && Text.UnitsOf(b)[1..] == Text.UnitsOf(b[1..]);
    }
  }

  /**
    A collation that weighs characters one by one, hyphen before digits before letters, agrees with code units
    on package ids.
   */
  lemma WeightedCollationAgrees(weight: char -> int, ids: set<string>)
    requires KeepsCodeOrder(weight) && forall id :: id in ids ==> IsIdText(id)
    ensures Agree((a, b) => ByWeight(weight, a, b), (a, b) => Text.Less(a, b), ids)
  {
    forall a, b | a in ids && b in ids ensures ByWeight(weight, a, b) <==> Text.Less(a, b) {
      WeightsAgree(weight, a, b);
    }
  }

  /** A Czech collation sorts the letter "ch" after "h": with one package a page, `ch` is never listed. */
  lemma CzechPairIsMissed(sortedBy: (string, string) -> bool)
    requires sortedBy("h", "ch")
    ensures var pages := [PageRead({"ch", "h"}, None, ["h"], Some("h")), PageRead({"ch", "h"}, Some("h"), [], None)];
            IsListing(sortedBy, (a, b) => Text.Less(a, b), pages) && "ch" !in KW.Listed(Stretches(pages))
  {
    var continuedBy := (a: string, b: string) => Text.Less(a, b);
    var installed := {"ch", "h"};
    var first, second := PageRead(installed, None, ["h"], Some("h")), PageRead(installed, Some("h"), [], None);
    var pages := [first, second];
    assert Text.UnitsOf("h")[0] == 104 && Text.UnitsOf("ch")[0] == 99;
    Text.LessIsTotal("h", "h", "h");
    var available := ["h", "ch"];
    assert KW.Elements(available) == installed by {
      assert available[0] in KW.Elements(available) && available[1] in KW.Elements(available);
    }
    assert IsCut(sortedBy, Remaining(continuedBy, installed, None), available, first.ids, first.next);
    assert Remaining(continuedBy, installed, Some("h")) == {};
    assert IsCut(sortedBy, Remaining(continuedBy, installed, Some("h")), [], second.ids, second.next);
    assert IsPageRead(sortedBy, continuedBy, pages[0]) && IsPageRead(sortedBy, continuedBy, pages[1]);
    ListedByIsListed(pages, 2);
    assert Stretches(pages)[..2] == Stretches(pages) && ListedBy(pages, 1) == ["h"] && ListedBy(pages, 2) == ["h"];
  }
}
