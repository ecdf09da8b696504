/**
  Which redirect hop a Set-Cookie name lands on. CDP reports every hop of a redirect chain under
  one request id, and cookie headers arrive in separate events before or after the hop's status.
 */
module CaptureAttribution {
  import opened Wrappers
  import opened CaptureModel

  // ---------- One request's chain, seen on its own ----------

  datatype Hop = Hop(status: Option<int>, names: Option<seq<string>>)

  function HopOf(e: Entry): Hop
  {
    Hop(e.status, e.setCookieNames)
  }

  function View(s: State, id: string): seq<Hop>
  {
    var chain := ChainOf(s, id);
    seq(|chain|, k requires 0 <= k < |chain| => HopOf(s.entries[chain[k]]))
  }

  function Finished(hops: seq<Hop>, status: int): seq<Hop>
  {
    if hops != [] && hops[|hops| - 1].status.None?
    then hops[|hops| - 1 := hops[|hops| - 1].(status := Some(status))] else hops
  }

  function FirstOpen(hops: seq<Hop>, status: int): (k: nat)
    ensures k <= |hops|
    ensures k < |hops| ==> hops[k].status == Some(status) && hops[k].names.None?
    ensures forall j :: 0 <= j < k ==> !(hops[j].status == Some(status) && hops[j].names.None?)
  {
    if hops == [] || (hops[0].status == Some(status) && hops[0].names.None?) then 0
    else 1 + FirstOpen(hops[1..], status)
  }

  /** The hop that receives the names of an extra-info event; |hops| when there is none. */
  function Receiver(hops: seq<Hop>, statusCode: Option<int>): (k: nat)
    ensures k <= |hops|
    ensures k == |hops| ==> hops == []
  {
    var k := if statusCode.Some? then FirstOpen(hops, statusCode.value) else |hops|;
    if k < |hops| || hops == [] then k else |hops| - 1
  }

  function HopStep(hops: seq<Hop>, e: Event): seq<Hop>
  {
    match e
    case WillBeSent(_, request, resourceType, redirect) =>
      var done := if redirect.Some? then Finished(hops, redirect.value.status) else hops;
      if Kept(request, resourceType) then done + [Hop(None, None)] else done
    case ResponseReceived(_, status, _) =>
      if hops == [] then hops else hops[|hops| - 1 := hops[|hops| - 1].(status := Some(status))]
    case ExtraInfo(_, statusCode, _) =>
      var k := Receiver(hops, statusCode);
      if NamesOf(e) == [] || k == |hops| then hops
      else hops[k := hops[k].(names := Some(Merged(hops[k].names, NamesOf(e))))]
    case _ => hops
  }

  lemma UpdateOutside(s: State, t: State, id: string, i: nat)
    requires Agree(s) && t.chains == s.chains && |t.entries| == |s.entries|
    requires forall j :: 0 <= j < |s.entries| && j != i ==> t.entries[j] == s.entries[j]
    requires !InChain(s.chains, id, i)
    ensures View(t, id) == View(s, id)
  {
    var chain := ChainOf(s, id);
    forall k | 0 <= k < |chain| ensures chain[k] != i {
      assert InChain(s.chains, id, chain[k]);
    }
  }

  lemma UpdateAt(s: State, t: State, id: string, k: nat)
    requires Agree(s) && t.chains == s.chains && |t.entries| == |s.entries| && k < |ChainOf(s, id)|
    requires forall j :: 0 <= j < |s.entries| && j != ChainOf(s, id)[k] ==> t.entries[j] == s.entries[j]
    ensures View(t, id) == View(s, id)[k := HopOf(t.entries[ChainOf(s, id)[k]])]
  {
    var chain := ChainOf(s, id);
    assert Increasing(chain);
  }

  lemma LastIsLatest(s: State, id: string)
    requires Agree(s)
    ensures id in s.latest <==> View(s, id) != []
    ensures id in s.latest ==>
              InChain(s.chains, id, s.latest[id]) && ChainOf(s, id)[|ChainOf(s, id)| - 1] == s.latest[id]
  {
  }

  lemma FinishView(s: State, id: string, redirect: Redirect, watched: string)
    requires Agree(s)
    ensures View(FinishHop(s, id, redirect), watched) ==
            if id == watched then Finished(View(s, id), redirect.status) else View(s, watched)
  {
    LastIsLatest(s, id);
    var t := FinishHop(s, id, redirect);
    if id in s.latest {
      if id == watched {
        UpdateAt(s, t, id, |ChainOf(s, id)| - 1);
      } else {
        assert !InChain(s.chains, watched, s.latest[id]);
        UpdateOutside(s, t, watched, s.latest[id]);
      }
    }
  }

  lemma PushView(s: State, id: string, request: Request, resourceType: Option<string>, watched: string)
    requires Agree(s)
    ensures View(PushEntry(s, id, NewEntry(request, resourceType)), watched) ==
            if id == watched then View(s, id) + [Hop(None, None)] else View(s, watched)
  {
    var entry := NewEntry(request, resourceType);
    var t := PushEntry(s, id, entry);
    var chain := ChainOf(s, watched);
    assert t.entries == s.entries + [entry];
    forall k | 0 <= k < |chain| ensures t.entries[chain[k]] == s.entries[chain[k]] {
      assert InChain(s.chains, watched, chain[k]);
    }
    if id == watched {
      assert ChainOf(t, id) == chain + [|s.entries|] && HopOf(entry) == Hop(None, None);
    } else {
      assert ChainOf(t, watched) == chain;
    }
  }

  lemma SettleView(s: State, id: string, resourceType: Option<string>, request: Request, redirect: Option<Redirect>,
                   tracking: bool, watched: string)
    requires Agree(s)
    ensures var t := Settled(s, id, request, resourceType, redirect, tracking);
            Agree(t) && View(t, watched) ==
              if id == watched && redirect.Some? then Finished(View(s, id), redirect.value.status) else View(s, watched)
  {
    var s1 := if resourceType == Some("Script") && tracking then SeeScript(s, id, request.url) else s;
    SeeScriptAgrees(s, id, request.url);
    assert View(s1, watched) == View(s, watched) && View(s1, id) == View(s, id);
    if redirect.Some? {
      FinishView(s1, id, redirect.value, watched);
      FinishHopAgrees(s1, id, redirect.value);
    }
  }

  lemma SendView(s: State, e: Event, tracking: bool, watched: string)
    requires Agree(s) && e.WillBeSent?
    ensures View(Step(s, e, tracking), watched) ==
            if e.id == watched then HopStep(View(s, watched), e) else View(s, watched)
  {
    SettleView(s, e.id, e.resourceType, e.request, e.redirect, tracking, watched);
    var t := Settled(s, e.id, e.request, e.resourceType, e.redirect, tracking);
    PushView(t, e.id, e.request, e.resourceType, watched);
  }

  lemma ReceiveSets(s: State, e: Event, tracking: bool)
    requires Agree(s) && e.ResponseReceived? && e.id in s.latest
    ensures var t, i := Step(s, e, tracking), s.latest[e.id];
            && t.chains == s.chains && |t.entries| == |s.entries|
            && (forall j :: 0 <= j < |s.entries| && j != i ==> t.entries[j] == s.entries[j])
            && HopOf(t.entries[i]) == HopOf(s.entries[i]).(status := Some(e.status))
  {
  }

  lemma ReceiveView(s: State, e: Event, tracking: bool, watched: string)
    requires Agree(s) && e.ResponseReceived?
    ensures View(Step(s, e, tracking), watched) ==
            if e.id == watched then HopStep(View(s, watched), e) else View(s, watched)
  {
    LastIsLatest(s, e.id);
    var t := Step(s, e, tracking);
    if e.id in s.latest {
      ReceiveSets(s, e, tracking);
      if e.id == watched {
        UpdateAt(s, t, e.id, |ChainOf(s, e.id)| - 1);
      } else {
        assert !InChain(s.chains, watched, s.latest[e.id]);
        UpdateOutside(s, t, watched, s.latest[e.id]);
      }
    }
  }

  lemma TargetIsReceiver(s: State, id: string, statusCode: Option<int>)
    requires Agree(s)
    ensures var k := Receiver(View(s, id), statusCode);
            Target(s, id, statusCode) == if k < |View(s, id)| then Some(ChainOf(s, id)[k]) else None
  {
    LastIsLatest(s, id);
    var chain := ChainOf(s, id);
    if statusCode.Some? {
      var k := FirstMatch(s.entries, chain, statusCode.value);
      var l := FirstOpen(View(s, id), statusCode.value);
      assert k < |chain| ==> View(s, id)[k] == HopOf(s.entries[chain[k]]);
      assert l < |chain| ==> View(s, id)[l] == HopOf(s.entries[chain[l]]);
      assert k == l;
    }
  }

  lemma AttributeView(s: State, e: Event, tracking: bool, watched: string)
    requires Agree(s) && e.ExtraInfo?
    ensures View(Step(s, e, tracking), watched) ==
            if e.id == watched then HopStep(View(s, watched), e) else View(s, watched)
  {
    TargetIsReceiver(s, e.id, e.statusCode);
    var k := Receiver(View(s, e.id), e.statusCode);
    var t := Step(s, e, tracking);
    if NamesOf(e) != [] && k < |View(s, e.id)| {
      assert InChain(s.chains, e.id, ChainOf(s, e.id)[k]);
      if e.id == watched {
        UpdateAt(s, t, e.id, k);
      } else {
        assert !InChain(s.chains, watched, ChainOf(s, e.id)[k]);
        UpdateOutside(s, t, watched, ChainOf(s, e.id)[k]);
      }
    }
  }

  /** A request's chain evolves by its own events alone, whatever the other requests do. */
  lemma ChainsAreIndependent(s: State, e: Event, tracking: bool, watched: string)
    requires Agree(s)
    ensures View(Step(s, e, tracking), watched) ==
            if e.id == watched then HopStep(View(s, watched), e) else View(s, watched)
  {
    match e
    case WillBeSent(_, _, _, _) => SendView(s, e, tracking, watched);
    case ResponseReceived(_, _, _) => ReceiveView(s, e, tracking, watched);
    case ExtraInfo(_, _, _) => AttributeView(s, e, tracking, watched);
    case LoadingFinished(_, _) =>
    case LoadingFailed(_) =>
  }

  // ---------- A chain as the network really behaved ----------

  /** The chain of `id` after n events, computed from that request's events only. */
  function Hops(trace: seq<Event>, id: string, n: nat): seq<Hop>
    requires n <= |trace|
  {
    if n == 0 then []
    else if trace[n - 1].id == id then HopStep(Hops(trace, id, n - 1), trace[n - 1])
    else Hops(trace, id, n - 1)
  }

  lemma {:induction false} HopsAreTheView(trace: seq<Event>, tracking: bool, id: string, n: nat)
    requires n <= |trace|
    ensures View(After(trace, tracking, n), id) == Hops(trace, id, n)
  {
    if n > 0 {
      HopsAreTheView(trace, tracking, id, n - 1);
      ContainersAgree(trace, tracking, n - 1);
      ChainsAreIndependent(After(trace, tracking, n - 1), trace[n - 1], tracking, id);
    }
  }

  // ---------- When a status is overwritten ----------

  lemma EarlierStays(hops: seq<Hop>, e: Event, h: nat)
    requires h + 1 < |hops|
    ensures |hops| <= |HopStep(hops, e)| && HopStep(hops, e)[h].status == hops[h].status
  {
  }

  /** A status is never overwritten once a later hop is in the chain. */
  lemma {:induction false} StatusesAreKept(trace: seq<Event>, id: string, n: nat, m: nat, h: nat)
    requires n <= m <= |trace| && h + 1 < |Hops(trace, id, n)|
    ensures h + 1 < |Hops(trace, id, m)| && Hops(trace, id, m)[h].status == Hops(trace, id, n)[h].status
    decreases m
  {
    if n < m {
      StatusesAreKept(trace, id, n, m - 1, h);
      EarlierStays(Hops(trace, id, m - 1), trace[m - 1], h);
    }
  }

  /** The event adds a hop to the chain of `id`. */
  predicate AddsHop(e: Event, id: string)
  {
    e.WillBeSent? && e.id == id && Kept(e.request, e.resourceType)
  }

  predicate NoHopAdded(trace: seq<Event>, id: string, n: nat, m: nat)
    requires m <= |trace|
  {
    forall j :: n <= j < m ==> !AddsHop(trace[j], id)
  }

  lemma {:induction false} GrowsWhenHopAdded(trace: seq<Event>, id: string, n: nat, m: nat)
    requires n <= m <= |trace|
    ensures |Hops(trace, id, n)| <= |Hops(trace, id, m)|
    ensures NoHopAdded(trace, id, n, m) <==> |Hops(trace, id, n)| == |Hops(trace, id, m)|
    decreases m
  {
    if n < m {
      GrowsWhenHopAdded(trace, id, n, m - 1);
      assert NoHopAdded(trace, id, n, m) <==> NoHopAdded(trace, id, n, m - 1) && !AddsHop(trace[m - 1], id);
    }
  }

  /** A redirect was reported to request `id`, which has a hop to take its status. */
  predicate Redirects(trace: seq<Event>, id: string, n: nat)
  {
    n < |trace| && trace[n].WillBeSent? && trace[n].id == id && trace[n].redirect.Some? && |Hops(trace, id, n)| > 0
  }

  /** Another status arrives at k, before any hop follows; the redirecting request itself adds none either. */
  predicate OverwrittenBy(trace: seq<Event>, id: string, n: nat, status: Option<int>, k: nat)
  {
    && n < k < |trace|
    && trace[k].ResponseReceived? && trace[k].id == id && Some(trace[k].status) != status
    && NoHopAdded(trace, id, n, k)
  }

  /** The status the redirect leaves on the last hop: its own, unless the hop has one already. */
  function RedirectStatus(trace: seq<Event>, id: string, n: nat): Option<int>
    requires Redirects(trace, id, n)
  {
    var last := Hops(trace, id, n)[|Hops(trace, id, n)| - 1];
    if last.status.Some? then last.status else Some(trace[n].redirect.value.status)
  }

  /** After m events the hop that took the redirect's status has another. */
  predicate Overwritten(trace: seq<Event>, id: string, n: nat, m: nat)
    requires Redirects(trace, id, n) && m <= |trace|
  {
    var last := |Hops(trace, id, n)| - 1;
    last < |Hops(trace, id, m)| && Hops(trace, id, m)[last].status != RedirectStatus(trace, id, n)
  }

  lemma RedirectStep(hops: seq<Hop>, e: Event)
    requires e.WillBeSent? && e.redirect.Some? && |hops| > 0
    ensures |hops| <= |HopStep(hops, e)|
    ensures var last := hops[|hops| - 1];
            HopStep(hops, e)[|hops| - 1].status ==
              if last.status.Some? then last.status else Some(e.redirect.value.status)
  {
  }

  lemma LastStays(hops: seq<Hop>, e: Event, status: int)
    requires |hops| > 0 && hops[|hops| - 1].status == Some(status)
    requires e.ResponseReceived? ==> e.status == status
    ensures |hops| <= |HopStep(hops, e)| && HopStep(hops, e)[|hops| - 1].status == Some(status)
  {
  }

  lemma {:induction false} NotOverwritten(trace: seq<Event>, id: string, n: nat, m: nat)
    requires Redirects(trace, id, n) && n < m <= |trace|
    requires forall k: nat :: k < m ==> !OverwrittenBy(trace, id, n, RedirectStatus(trace, id, n), k)
    ensures !Overwritten(trace, id, n, m)
    decreases m
  {
    var last, k := |Hops(trace, id, n)| - 1, m - 1;
    var hops, e := Hops(trace, id, k), trace[k];
    if n == k {
      RedirectStep(hops, e);
    } else if e.id == id {
      NotOverwritten(trace, id, n, k);
      GrowsWhenHopAdded(trace, id, n, k);
      assert !OverwrittenBy(trace, id, n, RedirectStatus(trace, id, n), k);
      if last + 1 < |hops| {
        EarlierStays(hops, e, last);
      } else {
        LastStays(hops, e, RedirectStatus(trace, id, n).value);
      }
    } else {
      NotOverwritten(trace, id, n, k);
    }
  }

  /**
    The status a redirect leaves on a hop is later overwritten if and only if the redirecting request was
    filtered out and a response with another status arrives before the next hop that passes the filter.
   */
  lemma OverwrittenExact(trace: seq<Event>, id: string, n: nat)
    requires Redirects(trace, id, n)
    ensures (exists m :: n < m <= |trace| && Overwritten(trace, id, n, m)) <==>
            (exists k: nat :: OverwrittenBy(trace, id, n, RedirectStatus(trace, id, n), k))
  {
    if k: nat :| OverwrittenBy(trace, id, n, RedirectStatus(trace, id, n), k) {
      GrowsWhenHopAdded(trace, id, n, k);
      var m := k + 1;
      assert Overwritten(trace, id, n, m);
    } else {
      forall m | n < m <= |trace| ensures !Overwritten(trace, id, n, m) {
        NotOverwritten(trace, id, n, m);
      }
    }
  }

  predicate CarriesCookies(e: Event, id: string)
  {
    e.ExtraInfo? && e.id == id && NamesOf(e) != []
  }

  /** What hop h truly set, from the cookie-bearing events that belong to it so far. */
  function TrueNames(trace: seq<Event>, id: string, from: seq<nat>, n: nat, h: nat): Option<seq<string>>
    requires n <= |trace| == |from|
  {
    if n == 0 then None
    else if CarriesCookies(trace[n - 1], id) && from[n - 1] == h
    then Some(Merged(TrueNames(trace, id, from, n - 1, h), NamesOf(trace[n - 1])))
    else TrueNames(trace, id, from, n - 1, h)
  }

  /**
    The trace reports the chain of `id` truthfully: each hop passes the filter and arrives with
    the previous hop's status, and a cookie-bearing event follows its hop's own request event and
    carries that hop's status code or none. `status(h)` is the status of hop h and `from` says which
    hop each cookie-bearing event belongs to.
   */
  ghost predicate Truthful(trace: seq<Event>, id: string, status: nat -> int, from: seq<nat>)
  {
    |from| == |trace| &&
    forall n: nat {:trigger TruthfulAt(trace, id, status, from, n)} ::
      n < |trace| && trace[n].id == id ==> TruthfulAt(trace, id, status, from, n)
  }

  ghost predicate TruthfulAt(trace: seq<Event>, id: string, status: nat -> int, from: seq<nat>, n: nat)
    requires n < |trace| == |from|
  {
    var hops := Hops(trace, id, n);
    match trace[n]
    case WillBeSent(_, request, resourceType, redirect) =>
      Kept(request, resourceType) && (redirect.Some? <==> hops != []) &&
      (redirect.Some? ==> redirect.value.status == status(|hops| - 1))
    case ResponseReceived(_, s, _) => hops != [] ==> s == status(|hops| - 1)
    case ExtraInfo(_, statusCode, _) =>
      CarriesCookies(trace[n], id) ==> from[n] < |hops| && statusCode in {None, Some(status(from[n]))}
    case _ => true
  }

  /** Every hop's recorded names are the names it truly set. */
  ghost predicate AttributedAt(trace: seq<Event>, id: string, from: seq<nat>, n: nat)
    requires n <= |trace| == |from|
  {
    forall h: nat {:trigger NamesTrue(trace, id, from, n, h)} :: NamesTrue(trace, id, from, n, h)
  }

  predicate NamesTrue(trace: seq<Event>, id: string, from: seq<nat>, n: nat, h: nat)
    requires n <= |trace| == |from|
  {
    h < |Hops(trace, id, n)| ==> Hops(trace, id, n)[h].names == TrueNames(trace, id, from, n, h)
  }

  /** An earlier hop than g of this status still has no names. */
  ghost predicate WaitsBefore(
    trace: seq<Event>, id: string, status: nat -> int, from: seq<nat>, n: nat, code: int, g: nat)
    requires n <= |trace| == |from|
  {
    exists h: nat :: h < g && status(h) == code && TrueNames(trace, id, from, n, h).None?
  }

  /**
    The cookie-bearing event finds its own hop. With a status code no earlier hop of that status may
    still be without names, and a hop that has names already must be the latest; without a code the hop
    must be the latest.
   */
  ghost predicate UnshadowedAt(trace: seq<Event>, id: string, status: nat -> int, from: seq<nat>, n: nat)
    requires n < |trace| == |from| && trace[n].ExtraInfo?
  {
    var h := from[n];
    var latest := h + 1 == |Hops(trace, id, n)|;
    if trace[n].statusCode.None? then latest
    else
      && !WaitsBefore(trace, id, status, from, n, trace[n].statusCode.value, h)
      && (TrueNames(trace, id, from, n, h).Some? ==> latest)
  }

  /** The hop has these names already. */
  predicate AddsNothing(trace: seq<Event>, id: string, from: seq<nat>, n: nat, h: nat)
    requires n < |trace| == |from| && trace[n].ExtraInfo?
  {
    var names := TrueNames(trace, id, from, n, h);
    names == Some(Merged(names, NamesOf(trace[n])))
  }

  /** The event goes to the latest hop instead of its own, but both have its names already. */
  ghost predicate RepeatedAt(trace: seq<Event>, id: string, status: nat -> int, from: seq<nat>, n: nat)
    requires n < |trace| == |from| && trace[n].ExtraInfo?
  {
    |Hops(trace, id, n)| > 0 &&
    var last := |Hops(trace, id, n)| - 1;
    && AddsNothing(trace, id, from, n, from[n]) && AddsNothing(trace, id, from, n, last)
    && (trace[n].statusCode.Some? ==> !WaitsBefore(trace, id, status, from, n, trace[n].statusCode.value, last))
  }

  ghost predicate HarmlessAt(trace: seq<Event>, id: string, status: nat -> int, from: seq<nat>, n: nat)
    requires n < |trace| == |from| && trace[n].ExtraInfo?
  {
    UnshadowedAt(trace, id, status, from, n) || RepeatedAt(trace, id, status, from, n)
  }

  ghost predicate Harmless(trace: seq<Event>, id: string, status: nat -> int, from: seq<nat>)
    requires |from| == |trace|
  {
    forall n: nat {:trigger HarmlessAt(trace, id, status, from, n)} ::
      n < |trace| && CarriesCookies(trace[n], id) ==> HarmlessAt(trace, id, status, from, n)
  }

  /** Every hop but the last has its true status, and the last has it or none yet. */
  ghost predicate StatusesTrue(hops: seq<Hop>, status: nat -> int)
  {
    && (forall h: nat :: h + 1 < |hops| ==> hops[h].status == Some(status(h)))
    && (hops != [] ==> hops[|hops| - 1].status in {None, Some(status(|hops| - 1))})
  }

  lemma StatusStep(trace: seq<Event>, id: string, status: nat -> int, from: seq<nat>, n: nat)
    requires n < |trace| == |from| && trace[n].id == id && TruthfulAt(trace, id, status, from, n)
    requires StatusesTrue(Hops(trace, id, n), status)
    ensures StatusesTrue(HopStep(Hops(trace, id, n), trace[n]), status)
  {
  }

  /** On a truthful trace every recorded status is the hop's own. */
  lemma {:induction false} StatusesStayTrue(trace: seq<Event>, id: string, status: nat -> int, from: seq<nat>, n: nat)
    requires Truthful(trace, id, status, from) && n <= |trace|
    ensures StatusesTrue(Hops(trace, id, n), status)
  {
    if n > 0 {
      StatusesStayTrue(trace, id, status, from, n - 1);
      if trace[n - 1].id == id {
        assert TruthfulAt(trace, id, status, from, n - 1);
        StatusStep(trace, id, status, from, n - 1);
      }
    }
  }

  lemma UnseenHopHasNoNames(trace: seq<Event>, id: string, status: nat -> int, from: seq<nat>, n: nat, h: nat)
    requires Truthful(trace, id, status, from) && n <= |trace| && h >= |Hops(trace, id, n)|
    ensures TrueNames(trace, id, from, n, h).None?
  {
    if n > 0 {
      assert trace[n - 1].id == id ==> TruthfulAt(trace, id, status, from, n - 1);
      UnseenHopHasNoNames(trace, id, status, from, n - 1, h);
    }
  }

  /**
    Where a cookie-bearing event with a status code goes: to the first hop of that status without names, else
    to the latest.
   */
  lemma CodeFinds(trace: seq<Event>, id: string, status: nat -> int, from: seq<nat>, n: nat, code: int, k: nat)
    requires Truthful(trace, id, status, from) && n < |trace| && AttributedAt(trace, id, from, n)
    requires |Hops(trace, id, n)| > 0 && k == Receiver(Hops(trace, id, n), Some(code))
    ensures k < |Hops(trace, id, n)| && !WaitsBefore(trace, id, status, from, n, code, k)
    ensures k + 1 == |Hops(trace, id, n)| || (status(k) == code && TrueNames(trace, id, from, n, k).None?)
  {
    var hops := Hops(trace, id, n);
    StatusesStayTrue(trace, id, status, from, n);
    assert NamesTrue(trace, id, from, n, k);
    forall h: nat | h < k && status(h) == code ensures TrueNames(trace, id, from, n, h).Some? {
      assert NamesTrue(trace, id, from, n, h);
    }
  }

  /**
    A cookie-bearing event goes to its own hop exactly when nothing shadows that; the first one with a code
    never goes further.
   */
  lemma CookiesGoHomeUnlessShadowed(trace: seq<Event>, id: string, status: nat -> int, from: seq<nat>, n: nat)
    requires Truthful(trace, id, status, from) && n < |trace| && CarriesCookies(trace[n], id)
    requires AttributedAt(trace, id, from, n)
    ensures UnshadowedAt(trace, id, status, from, n) <==> Receiver(Hops(trace, id, n), trace[n].statusCode) == from[n]
    ensures Receiver(Hops(trace, id, n), trace[n].statusCode) < |Hops(trace, id, n)| && from[n] < |Hops(trace, id, n)|
    ensures trace[n].statusCode.Some? && TrueNames(trace, id, from, n, from[n]).None? ==>
              Receiver(Hops(trace, id, n), trace[n].statusCode) <= from[n]
  {
    var hops, h := Hops(trace, id, n), from[n];
    var k := Receiver(hops, trace[n].statusCode);
    assert TruthfulAt(trace, id, status, from, n);
    if trace[n].statusCode.Some? {
      CodeFinds(trace, id, status, from, n, status(h), k);
    }
  }

  /** Going to another hop than its own makes no difference exactly when both have the event's names already. */
  lemma RepeatsExact(trace: seq<Event>, id: string, status: nat -> int, from: seq<nat>, n: nat, k: nat)
    requires Truthful(trace, id, status, from) && n < |trace| && CarriesCookies(trace[n], id)
    requires AttributedAt(trace, id, from, n) && k == Receiver(Hops(trace, id, n), trace[n].statusCode)
    ensures AddsNothing(trace, id, from, n, from[n]) && AddsNothing(trace, id, from, n, k) <==>
            RepeatedAt(trace, id, status, from, n)
  {
    var hops, h := Hops(trace, id, n), from[n];
    assert TruthfulAt(trace, id, status, from, n);
    if trace[n].statusCode.Some? {
      CodeFinds(trace, id, status, from, n, status(h), k);
    }
  }

  /** The step keeps the names true exactly when the event goes to its own hop or changes nothing at either. */
  lemma CookieStep(trace: seq<Event>, id: string, from: seq<nat>, n: nat, k: nat)
    requires n < |trace| == |from| && CarriesCookies(trace[n], id) && AttributedAt(trace, id, from, n)
    requires k == Receiver(Hops(trace, id, n), trace[n].statusCode) < |Hops(trace, id, n)|
    requires from[n] < |Hops(trace, id, n)|
    ensures AttributedAt(trace, id, from, n + 1) <==>
            k == from[n] || (AddsNothing(trace, id, from, n, from[n]) && AddsNothing(trace, id, from, n, k))
  {
    var hops, m, h := Hops(trace, id, n), n + 1, from[n];
    assert Hops(trace, id, m) == hops[k := hops[k].(names := Some(Merged(hops[k].names, NamesOf(trace[n]))))];
    assert NamesTrue(trace, id, from, n, h) && NamesTrue(trace, id, from, n, k);
    if k == h || (AddsNothing(trace, id, from, n, h) && AddsNothing(trace, id, from, n, k)) {
      forall g: nat ensures NamesTrue(trace, id, from, m, g) {
        assert NamesTrue(trace, id, from, n, g);
      }
    } else {
      assert !(NamesTrue(trace, id, from, m, h) && NamesTrue(trace, id, from, m, k));
    }
  }

  lemma OtherStep(trace: seq<Event>, id: string, status: nat -> int, from: seq<nat>, n: nat)
    requires Truthful(trace, id, status, from) && n < |trace| && !CarriesCookies(trace[n], id)
    requires AttributedAt(trace, id, from, n)
    ensures AttributedAt(trace, id, from, n + 1)
  {
    var hops, m := Hops(trace, id, n), n + 1;
    assert trace[n].id == id ==> TruthfulAt(trace, id, status, from, n);
    UnseenHopHasNoNames(trace, id, status, from, n, |hops|);
    forall h: nat ensures NamesTrue(trace, id, from, m, h) {
      assert NamesTrue(trace, id, from, n, h);
    }
  }

  lemma AttributionStep(trace: seq<Event>, id: string, status: nat -> int, from: seq<nat>, n: nat)
    requires Truthful(trace, id, status, from) && n < |trace|
    requires AttributedAt(trace, id, from, n)
    ensures AttributedAt(trace, id, from, n + 1) <==>
            (CarriesCookies(trace[n], id) ==> HarmlessAt(trace, id, status, from, n))
  {
    if CarriesCookies(trace[n], id) {
      var k := Receiver(Hops(trace, id, n), trace[n].statusCode);
      CookiesGoHomeUnlessShadowed(trace, id, status, from, n);
      RepeatsExact(trace, id, status, from, n, k);
      CookieStep(trace, id, from, n, k);
    } else {
      OtherStep(trace, id, status, from, n);
    }
  }

  lemma AttributedNext(trace: seq<Event>, id: string, status: nat -> int, from: seq<nat>, n: nat)
    requires Truthful(trace, id, status, from) && Harmless(trace, id, status, from) && n < |trace|
    requires AttributedAt(trace, id, from, n)
    ensures AttributedAt(trace, id, from, n + 1)
  {
    AttributionStep(trace, id, status, from, n);
    assert CarriesCookies(trace[n], id) ==> HarmlessAt(trace, id, status, from, n);
  }

  lemma AttributedAtFirst(trace: seq<Event>, id: string, from: seq<nat>)
    requires |trace| == |from|
    ensures AttributedAt(trace, id, from, 0)
  {
  }

  lemma AttributedWhileHarmless(trace: seq<Event>, id: string, status: nat -> int, from: seq<nat>, n: nat)
    requires Truthful(trace, id, status, from) && Harmless(trace, id, status, from) && n <= |trace|
    ensures AttributedAt(trace, id, from, n)
  {
    AttributedAtFirst(trace, id, from);
    for m := 0 to n
      invariant AttributedAt(trace, id, from, m)
    {
      AttributedNext(trace, id, status, from, m);
    }
  }

  lemma {:induction false} ChainOnlyGrows(trace: seq<Event>, id: string, m: nat, n: nat)
    requires m <= n <= |trace|
    ensures |Hops(trace, id, m)| <= |Hops(trace, id, n)|
  {
    if m < n {
      ChainOnlyGrows(trace, id, m, n - 1);
    }
  }

  /**
    Cookie names stay on the hops that set them, at every point of the trace and whether they arrive before
    or after their hop's status, exactly when every cookie-bearing event finds its own hop, or goes to the
    latest while both have its names already.
   */
  lemma AttributionExact(trace: seq<Event>, id: string, status: nat -> int, from: seq<nat>)
    requires Truthful(trace, id, status, from)
    ensures (forall n: nat :: n <= |trace| ==> AttributedAt(trace, id, from, n)) <==> Harmless(trace, id, status, from)
  {
    if Harmless(trace, id, status, from) {
      forall n: nat | n <= |trace| ensures AttributedAt(trace, id, from, n) {
        AttributedWhileHarmless(trace, id, status, from, n);
      }
    }
    if forall n: nat :: n <= |trace| ==> AttributedAt(trace, id, from, n) {
      forall n: nat | n < |trace| && CarriesCookies(trace[n], id) ensures HarmlessAt(trace, id, status, from, n) {
        assert AttributedAt(trace, id, from, n) && AttributedAt(trace, id, from, n + 1);
        AttributionStep(trace, id, status, from, n);
      }
    }
  }

  /** A cookie-bearing event of the latest hop, or the first one of its hop, with a status code. */
  predicate FirstOrLatest(trace: seq<Event>, id: string, from: seq<nat>, n: nat)
    requires n < |trace| == |from| && trace[n].ExtraInfo?
  {
    from[n] + 1 == |Hops(trace, id, n)| ||
    (trace[n].statusCode.Some? && TrueNames(trace, id, from, n, from[n]).None?)
  }

  /** With pairwise distinct statuses the sink itself always has every name on its own hop. */
  lemma DistinctStatusesAttribute(
    trace: seq<Event>, tracking: bool, id: string, status: nat -> int, from: seq<nat>, n: nat)
    requires Truthful(trace, id, status, from) && n <= |trace|
    requires forall g: nat, h: nat :: g < h < |Hops(trace, id, |trace|)| ==> status(g) != status(h)
    requires forall m: nat :: m < |trace| && CarriesCookies(trace[m], id) ==> FirstOrLatest(trace, id, from, m)
    ensures var s := After(trace, tracking, n);
            forall h :: 0 <= h < |ChainOf(s, id)| ==>
              s.entries[ChainOf(s, id)[h]].setCookieNames == TrueNames(trace, id, from, n, h)
  {
    forall m: nat | m < |trace| && CarriesCookies(trace[m], id) ensures HarmlessAt(trace, id, status, from, m) {
      assert TruthfulAt(trace, id, status, from, m) && FirstOrLatest(trace, id, from, m);
      ChainOnlyGrows(trace, id, m, |trace|);
    }
    AttributedWhileHarmless(trace, id, status, from, n);
    HopsAreTheView(trace, tracking, id, n);
    var s := After(trace, tracking, n);
    forall h | 0 <= h < |ChainOf(s, id)|
      ensures s.entries[ChainOf(s, id)[h]].setCookieNames == TrueNames(trace, id, from, n, h)
    {
      assert NamesTrue(trace, id, from, n, h);
      assert View(s, id)[h] == HopOf(s.entries[ChainOf(s, id)[h]]);
    }
  }

  // ---------- Where attribution and statuses go wrong ----------

  function Get(path: string): Request
  {
    Request(path, Some(path), "GET")
  }

  const TWO_EQUAL_302 := [
    WillBeSent("r", Get("/"), Some("Document"), None),
    WillBeSent("r", Get("/"), Some("Document"), Some(Redirect(302, Some("/")))),
    WillBeSent("r", Get("/"), Some("Document"), Some(Redirect(302, Some("/")))),
    ExtraInfo("r", Some(302), Some("s=1"))]

  lemma CookieNameIsRead()
    ensures NamesOf(TWO_EQUAL_302[3]) == ["s"] && Merged(None, ["s"]) == ["s"]
  {
    assert IndexOf("s=1", '\n') == 3;
    assert "s=1"[..1] == "s";
    assert Trim("s") == "s";
    assert Distinct([]) == [];
    assert [] + ["s"] == ["s"];
  }

  lemma ThreeHops()
    ensures Hops(TWO_EQUAL_302, "r", 3) == [Hop(Some(302), None), Hop(Some(302), None), Hop(None, None)]
    ensures Hops(TWO_EQUAL_302, "r", 1) == [Hop(None, None)]
    ensures Hops(TWO_EQUAL_302, "r", 2) == [Hop(Some(302), None), Hop(None, None)]
  {
    assert Kept(Get("/"), Some("Document"));
  }

  lemma TwoEqualIsTruthful()
    ensures Truthful(TWO_EQUAL_302, "r", h => 302, [0, 0, 0, 1])
  {
    var trace, from := TWO_EQUAL_302, [0, 0, 0, 1];
    assert Kept(Get("/"), Some("Document"));
    ThreeHops();
    assert TrueNames(trace, "r", from, 3, 1) == None;
  }

  /** Two hops answer 302 and only the second sets a cookie: its name lands on the first. */
  lemma TwoEqualStatusesMisattribute()
    ensures Truthful(TWO_EQUAL_302, "r", h => 302, [0, 0, 0, 1])
    ensures var hops := Hops(TWO_EQUAL_302, "r", 4);
            |hops| == 3 && hops[0].names == Some(["s"]) && hops[1].names == None &&
            TrueNames(TWO_EQUAL_302, "r", [0, 0, 0, 1], 4, 0) == None &&
            TrueNames(TWO_EQUAL_302, "r", [0, 0, 0, 1], 4, 1) == Some(["s"])
  {
    var trace, from := TWO_EQUAL_302, [0, 0, 0, 1];
    TwoEqualIsTruthful();
    ThreeHops();
    CookieNameIsRead();
    assert Receiver(Hops(trace, "r", 3), Some(302)) == 0;
    assert TrueNames(trace, "r", from, 3, 0) == None && TrueNames(trace, "r", from, 3, 1) == None;
  }

  const FILTERED_HOP := [
    WillBeSent("r", Get("/"), Some("Document"), None),
    WillBeSent("r", Get(".js"), Some("Document"), Some(Redirect(302, None))),
    ResponseReceived("r", 200, None)]

  /** When a later hop is filtered out, its response overwrites the redirect status of the hop before it. */
  lemma FilteredHopOverwritesStatus()
    ensures Hops(FILTERED_HOP, "r", 2) == [Hop(Some(302), None)]
    ensures Hops(FILTERED_HOP, "r", 3) == [Hop(Some(200), None)]
  {
    var trace := FILTERED_HOP;
    assert Hops(trace, "r", 1) == [Hop(None, None)];
    assert !Kept(Get(".js"), Some("Document")) by {
      assert LastIndexOf(".js", '.') == 0;
      assert Lower(".js"[0..]) == ".js";
    }
  }
}
