/**
  Keyset pagination of stored runs (src/consumer/runs.ts): sorted by (created_at, run_id),
  bounded in items and in encoded bytes, and continued through an opaque cursor. The collation
  of two strings is a parameter.
 */
module RunListing {
  import opened Wrappers
  import Base64Url

  const CURSOR_MAXIMUM_BYTES: nat := 1_024
  const PAGE_DEFAULT_LIMIT: nat := 25
  const PAGE_MAXIMUM_LIMIT: nat := 100
  const ADAPTER_MAXIMUM_BYTES: nat := 20_480

  /** What runs are sorted by. */
  datatype Key = Key(createdAt: string, runId: string)

  predicate IsDigit(c: char) { '0' <= c <= '9' }

  /** The shape of a UTC instant with second precision. */
  predicate IsInstant(s: string)
  {
    |s| == 20 && s[4] == s[7] == '-' && s[10] == 'T' && s[13] == s[16] == ':' && s[19] == 'Z' &&
    forall i :: 0 <= i < 20 && i !in {4, 7, 10, 13, 16, 19} ==> IsDigit(s[i])
  }

  predicate IsRunId(s: string)
  {
    |s| == 39 && s[..7] == "run_v1_" && forall i :: 7 <= i < 39 ==> IsDigit(s[i]) || 'a' <= s[i] <= 'f'
  }

  predicate ValidKey(key: Key)
  {
    IsInstant(key.createdAt) && IsRunId(key.runId)
  }

  /** A listed run; `json` is its canonical JSON, one char a byte. */
  datatype Run = Run(key: Key, json: string)

  datatype ListError = InvalidOptions | CursorInvalid | OutputTooLarge

  datatype PageResult = Page(items: seq<Run>, next: Option<string>) | Failed(error: ListError)

  type Collation = (string, string) -> int

  /** Every run has well-formed metadata. */
  predicate AllValid(runs: seq<Run>)
  {
    forall r :: r in runs ==> ValidKey(r.key)
  }

  // ---------- Order ----------

  function Compare(cmp: Collation, a: Key, b: Key): int
  {
    if cmp(a.createdAt, b.createdAt) != 0 then cmp(a.createdAt, b.createdAt) else cmp(a.runId, b.runId)
  }

  predicate Less(cmp: Collation, a: Key, b: Key)
  {
    Compare(cmp, a, b) < 0
  }

  /** The collation orders the strings of one shape totally and tells them all apart. */
  ghost predicate TotalOn(cmp: Collation, shape: string -> bool)
  {
    && (forall a, b :: shape(a) && shape(b) ==> (cmp(a, b) == 0 <==> a == b))
    && (forall a, b :: shape(a) && shape(b) ==> (cmp(a, b) < 0 <==> cmp(b, a) > 0))
    && (forall a, b, c :: shape(a) && shape(b) && shape(c) && cmp(a, b) < 0 && cmp(b, c) < 0 ==> cmp(a, c) < 0)
  }

  /** It does so for instants and for run ids; nothing is asked of it for any other string. */
  ghost predicate TotalCollation(cmp: Collation)
  {
    TotalOn(cmp, IsInstant) && TotalOn(cmp, IsRunId)
  }

  lemma KeysAreOrdered(cmp: Collation, a: Key, b: Key, c: Key)
    requires TotalCollation(cmp) && ValidKey(a) && ValidKey(b) && ValidKey(c)
    ensures Less(cmp, a, b) || a == b || Less(cmp, b, a)
    ensures !(Less(cmp, a, b) && Less(cmp, b, a)) && !Less(cmp, a, a)
    ensures Less(cmp, a, b) && Less(cmp, b, c) ==> Less(cmp, a, c)
    ensures Compare(cmp, a, b) > 0 <==> Less(cmp, b, a)
  {
  }

  function Insert(cmp: Collation, run: Run, sorted: seq<Run>): seq<Run>
  {
    if sorted == [] then [run]
    else if Less(cmp, sorted[0].key, run.key) then [sorted[0]] + Insert(cmp, run, sorted[1..])
    else [run] + sorted
  }

  function Sort(cmp: Collation, runs: seq<Run>): seq<Run>
  {
    if runs == [] then [] else Insert(cmp, runs[0], Sort(cmp, runs[1..]))
  }

  ghost predicate Ascending(cmp: Collation, runs: seq<Run>)
  {
    forall i, j :: 0 <= i < j < |runs| ==> Less(cmp, runs[i].key, runs[j].key)
  }

  /** Whoever comes before the first comes before all. */
  lemma BeforeAll(cmp: Collation, key: Key, sorted: seq<Run>, j: nat)
    requires TotalCollation(cmp) && Ascending(cmp, sorted) && ValidKey(key) && AllValid(sorted)
    requires j < |sorted| && Less(cmp, key, sorted[0].key)
    ensures Less(cmp, key, sorted[j].key)
  {
    assert sorted[j] in sorted && sorted[0] in sorted;
    KeysAreOrdered(cmp, key, sorted[0].key, sorted[j].key);
  }

  lemma {:induction false} InsertMembers(cmp: Collation, run: Run, sorted: seq<Run>)
    ensures forall r :: r in Insert(cmp, run, sorted) <==> r == run || r in sorted
    decreases |sorted|
  {
    if sorted != [] {
      assert sorted == [sorted[0]] + sorted[1..];
      InsertMembers(cmp, run, sorted[1..]);
    }
  }

  lemma {:induction false} InsertSorts(cmp: Collation, run: Run, sorted: seq<Run>)
    requires TotalCollation(cmp) && Ascending(cmp, sorted) && forall r :: r in sorted ==> r.key != run.key
    requires ValidKey(run.key) && AllValid(sorted)
    ensures Ascending(cmp, Insert(cmp, run, sorted))
    decreases |sorted|
  {
    if sorted != [] {
      var head, rest := sorted[0], Insert(cmp, run, sorted[1..]);
      assert head in sorted;
      KeysAreOrdered(cmp, run.key, head.key, head.key);
      if Less(cmp, head.key, run.key) {
        InsertSorts(cmp, run, sorted[1..]);
        InsertMembers(cmp, run, sorted[1..]);
        forall j | 0 <= j < |rest| ensures Less(cmp, head.key, rest[j].key) {
          assert rest[j] in rest;
        }
      } else {
        forall j | 0 <= j < |sorted| ensures Less(cmp, run.key, sorted[j].key) {
          BeforeAll(cmp, run.key, sorted, j);
        }
      }
    }
  }

  predicate DistinctKeys(runs: seq<Run>)
  {
    forall i, j :: 0 <= i < j < |runs| ==> runs[i].key != runs[j].key
  }

  /** A store lists each run id once, under well-formed metadata. */
  predicate ValidStore(runs: seq<Run>)
  {
    DistinctKeys(runs) && AllValid(runs)
  }

  lemma {:induction false} SortSorts(cmp: Collation, runs: seq<Run>)
    requires TotalCollation(cmp) && ValidStore(runs)
    ensures Ascending(cmp, Sort(cmp, runs))
    ensures forall r :: r in Sort(cmp, runs) <==> r in runs
    decreases |runs|
  {
    if runs != [] {
      var rest := runs[1..];
      assert runs == [runs[0]] + rest;
      SortSorts(cmp, rest);
      forall r | r in rest ensures r.key != runs[0].key && ValidKey(r.key) {
        var i :| 0 <= i < |rest| && rest[i] == r;
        assert runs[i + 1] == r && r in runs;
      }
      InsertMembers(cmp, runs[0], Sort(cmp, rest));
      InsertSorts(cmp, runs[0], Sort(cmp, rest));
    }
  }

  // ---------- Cursors ----------

  const CURSOR_START := "{\"created_at\":\""
  const CURSOR_MIDDLE := "\",\"operation\":\"runs\",\"run_id\":\""
  const CURSOR_END := "\",\"schema_version\":1}"

  predicate ValidCursor(cursor: Option<Key>)
  {
    cursor.Some? ==> ValidKey(cursor.value)
  }

  function CursorJson(key: Key): string
  {
    CURSOR_START + key.createdAt + CURSOR_MIDDLE + key.runId + CURSOR_END
  }

  function Bytes(text: string): (r: seq<Base64Url.Byte>)
    requires forall i :: 0 <= i < |text| ==> text[i] as int < 256
  {
    seq(|text|, i requires 0 <= i < |text| => text[i] as int)
  }

  function Text(bytes: seq<Base64Url.Byte>): string
  {
    seq(|bytes|, i requires 0 <= i < |bytes| => bytes[i] as char)
  }

  lemma CursorJsonIsAscii(key: Key)
    requires ValidKey(key)
    ensures |CursorJson(key)| == 126
    ensures forall i :: 0 <= i < |CursorJson(key)| ==> CursorJson(key)[i] as int < 256
  {
    assert forall i :: 0 <= i < 39 ==> key.runId[i] as int < 256 by {
      assert forall i :: 0 <= i < 7 ==> key.runId[i] == key.runId[..7][i];
    }
  }

  function EncodeCursor(key: Key): string
    requires ValidKey(key)
  {
    CursorJsonIsAscii(key);
    Base64Url.Encode(Bytes(CursorJson(key)))
  }

  /** The one record a cursor may hold, in canonical JSON. */
  function ParseCursorJson(t: string): (key: Option<Key>)
    ensures ValidCursor(key)
  {
    if |t| == 126 && t[..15] == CURSOR_START && t[35..66] == CURSOR_MIDDLE && t[105..] == CURSOR_END
       && ValidKey(Key(t[15..35], t[66..105]))
    then Some(Key(t[15..35], t[66..105]))
    else None
  }

  function ParseCursor(value: string): (key: Option<Key>)
    ensures ValidCursor(key)
  {
    if |value| == 0 || !Base64Url.IsText(value) || Base64Url.Encode(Base64Url.Decode(value)) != value then None
    else ParseCursorJson(Text(Base64Url.Decode(value)))
  }

  lemma CursorJsonParses(key: Key)
    requires ValidKey(key)
    ensures ParseCursorJson(CursorJson(key)) == Some(key)
  {
    CursorJsonIsAscii(key);
    var t := CursorJson(key);
    assert t[..15] == CURSOR_START && t[15..35] == key.createdAt && t[35..66] == CURSOR_MIDDLE;
    assert t[66..105] == key.runId && t[105..] == CURSOR_END;
  }

  lemma TextOfBytes(t: string)
    requires forall i :: 0 <= i < |t| ==> t[i] as int < 256
    ensures Text(Bytes(t)) == t
  {
  }

  /** Parsing a minted cursor returns the key of the run it was minted from. */
  lemma CursorRoundTrip(key: Key)
    requires ValidKey(key)
    ensures ParseCursor(EncodeCursor(key)) == Some(key) && |EncodeCursor(key)| <= CURSOR_MAXIMUM_BYTES
  {
    CursorJsonIsAscii(key);
    CursorJsonParses(key);
    var t := CursorJson(key);
    TextOfBytes(t);
    Base64Url.RoundTrip(Bytes(t));
    Base64Url.EncodeLength(Bytes(t));
  }

  /** Only minted cursors are accepted: a string parses to a key exactly when it is that key's own cursor. */
  lemma CursorExact(value: string, key: Key)
    ensures ParseCursor(value) == Some(key) <==> ValidKey(key) && value == EncodeCursor(key)
  {
    if ParseCursor(value) == Some(key) {
      var bytes := Base64Url.Decode(value);
      var t := Text(bytes);
      assert t == t[..15] + t[15..35] + t[35..66] + t[66..105] + t[105..];
      CursorJsonIsAscii(key);
      assert Bytes(CursorJson(key)) == bytes;
    }
    if ValidKey(key) && value == EncodeCursor(key) {
      CursorRoundTrip(key);
    }
  }

  // ---------- One page ----------

  function Joined(items: seq<Run>): string
  {
    if items == [] then ""
    else if |items| == 1 then items[0].json
    else Joined(items[..|items| - 1]) + "," + items[|items| - 1].json
  }

  /** The canonical JSON of a page. */
  function PageJson(items: seq<Run>, next: Option<string>): string
  {
    "{\"items\":[" + Joined(items) + "],\"next_cursor\":" +
    (if next.Some? then "\"" + next.value + "\"" else "null") + "}"
  }

  function CursorAfter(available: seq<Run>, n: nat): Option<string>
    requires n <= |available| && AllValid(available)
  {
    if 0 < n < |available| then Some(EncodeCursor(available[n - 1].key)) else None
  }

  /** The first n runs, with the cursor they need, fit the adapter. */
  predicate Fits(available: seq<Run>, n: nat)
    requires n <= |available| && AllValid(available)
  {
    |PageJson(available[..n], CursorAfter(available, n))| <= ADAPTER_MAXIMUM_BYTES
  }

  ghost predicate AllFit(available: seq<Run>, n: nat)
    requires n <= |available| && AllValid(available)
  {
    forall k :: 1 <= k <= n ==> Fits(available, k)
  }

  lemma OneMoreFits(available: seq<Run>, n: nat)
    requires n < |available| && AllValid(available)
    requires AllFit(available, n) && Fits(available, n + 1)
    ensures AllFit(available, n + 1)
  {
  }

  /** n is the greedy page size: everything up to it fits, and it stops at the limit, the end or the first misfit. */
  ghost predicate IsPageSize(available: seq<Run>, limit: nat, n: nat)
    requires AllValid(available)
  {
    n <= limit && n <= |available| && AllFit(available, n) &&
    (n == limit || n == |available| || !Fits(available, n + 1))
  }

  lemma CandidateFits(available: seq<Run>, i: nat, candidate: seq<Run>)
    requires i < |available| && AllValid(available)
    requires candidate == available[..i] + [available[i]]
    ensures candidate == available[..i + 1]
    ensures Fits(available, i + 1) <==> |PageJson(candidate, CursorAfter(available, i + 1))| <= ADAPTER_MAXIMUM_BYTES
  {
    assert candidate == available[..i + 1];
  }

  method BuildRunPage(available: seq<Run>, requestedLimit: nat) returns (r: PageResult)
    requires requestedLimit >= 1 && AllValid(available)
    ensures match r
            case Failed(error) => error == OutputTooLarge && |available| > 0 && !Fits(available, 1)
            case Page(items, next) =>
              IsPageSize(available, requestedLimit, |items|) && items == available[..|items|] &&
              next == CursorAfter(available, |items|) && (|available| > 0 ==> |items| > 0)
  {
    var items: seq<Run> := [];
    for i := 0 to |available|
      invariant items == available[..i] && i <= requestedLimit
      invariant AllFit(available, i)
    {
      if |items| == requestedLimit {
        break;
      }
      var candidateItems := items + [available[i]];
      var next := CursorAfter(available, |candidateItems|);
      CandidateFits(available, i, candidateItems);
      if |PageJson(candidateItems, next)| > ADAPTER_MAXIMUM_BYTES {
        break;
      }
      OneMoreFits(available, i);
      items := candidateItems;
    }
    if |items| == 0 && |available| > 0 {
      return Failed(OutputTooLarge);
    }
    r := Page(items, CursorAfter(available, |items|));
  }

  function After(cmp: Collation, sorted: seq<Run>, cursor: Option<Key>): seq<Run>
  {
    if sorted == [] then []
    else
      (if cursor.None? || Compare(cmp, sorted[0].key, cursor.value) > 0 then [sorted[0]] else [])
      + After(cmp, sorted[1..], cursor)
  }

  lemma {:induction false} AfterMembers(cmp: Collation, sorted: seq<Run>, cursor: Option<Key>, r: Run)
    requires TotalCollation(cmp) && AllValid(sorted) && ValidCursor(cursor)
    ensures r in After(cmp, sorted, cursor) <==> r in sorted && (cursor.None? || Less(cmp, cursor.value, r.key))
    decreases |sorted|
  {
    if sorted != [] {
      AfterMembers(cmp, sorted[1..], cursor, r);
      assert sorted == [sorted[0]] + sorted[1..];
      if cursor.Some? {
        KeysAreOrdered(cmp, sorted[0].key, cursor.value, cursor.value);
      }
    }
  }

  lemma {:induction false} AfterAscends(cmp: Collation, sorted: seq<Run>, cursor: Option<Key>)
    requires TotalCollation(cmp) && Ascending(cmp, sorted) && AllValid(sorted) && ValidCursor(cursor)
    ensures Ascending(cmp, After(cmp, sorted, cursor))
    decreases |sorted|
  {
    if sorted != [] {
      AfterAscends(cmp, sorted[1..], cursor);
      var rest := After(cmp, sorted[1..], cursor);
      forall j | 0 <= j < |rest| ensures Less(cmp, sorted[0].key, rest[j].key) {
        AfterMembers(cmp, sorted[1..], cursor, rest[j]);
        var k :| 0 <= k < |sorted[1..]| && sorted[1..][k] == rest[j];
        assert Less(cmp, sorted[0].key, sorted[k + 1].key);
      }
    }
  }

  lemma AfterExact(cmp: Collation, sorted: seq<Run>, cursor: Option<Key>)
    requires TotalCollation(cmp) && Ascending(cmp, sorted) && AllValid(sorted) && ValidCursor(cursor)
    ensures Ascending(cmp, After(cmp, sorted, cursor))
    ensures forall r :: r in After(cmp, sorted, cursor) <==>
              r in sorted && (cursor.None? || Less(cmp, cursor.value, r.key))
  {
    AfterAscends(cmp, sorted, cursor);
    forall r
      ensures r in After(cmp, sorted, cursor) <==> r in sorted && (cursor.None? || Less(cmp, cursor.value, r.key))
    {
      AfterMembers(cmp, sorted, cursor, r);
    }
  }

  /** What one request for a page promises, over the store as it was when the page was read. */
  ghost predicate IsPageOf(cmp: Collation, runs: seq<Run>, cursor: Option<Key>, limit: nat, r: PageResult)
    requires ValidStore(runs) && TotalCollation(cmp) && ValidCursor(cursor)
  {
    SortSorts(cmp, runs);
    AfterExact(cmp, Sort(cmp, runs), cursor);
    var available := After(cmp, Sort(cmp, runs), cursor);
    match r
    case Failed(error) => error == OutputTooLarge && |available| > 0 && !Fits(available, 1)
    case Page(items, next) =>
      IsPageSize(available, limit, |items|) && items == available[..|items|] &&
      next == CursorAfter(available, |items|) && (|available| > 0 ==> |items| > 0)
  }

  method ListPage(cmp: Collation, runs: seq<Run>, cursor: Option<string>, limit: Option<int>) returns (r: PageResult)
    requires ValidStore(runs) && TotalCollation(cmp)
    ensures var wanted := if limit.Some? then limit.value else PAGE_DEFAULT_LIMIT;
            if (cursor.Some? && |cursor.value| > CURSOR_MAXIMUM_BYTES) || !(1 <= wanted <= PAGE_MAXIMUM_LIMIT)
            then r == Failed(InvalidOptions)
            else if cursor.Some? && ParseCursor(cursor.value).None? then r == Failed(CursorInvalid)
            else IsPageOf(cmp, runs, if cursor.Some? then ParseCursor(cursor.value) else None, wanted, r)
  {
    var wanted := if limit.Some? then limit.value else PAGE_DEFAULT_LIMIT;
    if (cursor.Some? && |cursor.value| > CURSOR_MAXIMUM_BYTES) || !(1 <= wanted <= PAGE_MAXIMUM_LIMIT) {
      return Failed(InvalidOptions);
    }
    var key: Option<Key> := None;
    if cursor.Some? {
      key := ParseCursor(cursor.value);
      if key.None? {
        return Failed(CursorInvalid);
      }
    }
    SortSorts(cmp, runs);
    AfterExact(cmp, Sort(cmp, runs), key);
    r := BuildRunPage(After(cmp, Sort(cmp, runs), key), wanted);
  }

  /** A page respects the item limit and the byte limit, and is non-empty while there is work. */
  lemma PageIsBounded(cmp: Collation, runs: seq<Run>, cursor: Option<Key>, limit: nat, r: PageResult)
    requires ValidStore(runs) && TotalCollation(cmp) && ValidCursor(cursor)
    requires limit >= 1 && IsPageOf(cmp, runs, cursor, limit, r) && r.Page?
    ensures |r.items| <= limit && |PageJson(r.items, r.next)| <= ADAPTER_MAXIMUM_BYTES
    ensures r.items == [] <==> forall run :: run in runs ==> cursor.Some? && !Less(cmp, cursor.value, run.key)
    ensures r.items == [] ==> r.next.None?
  {
    SortSorts(cmp, runs);
    AfterExact(cmp, Sort(cmp, runs), cursor);
    var available := After(cmp, Sort(cmp, runs), cursor);
    if r.items == [] {
      assert Joined([]) == "";
    } else {
      assert Fits(available, |r.items|);
      assert available[0] in available;
    }
  }
}
