/**
  Network capture over CDP events (src/drivers/cdp-network-capture.ts), on values: entries are
  numbered by their place in the sink and scripts by their order of creation. `Step` is the
  specification of the event handlers; Capture.dfy implements it on shared mutable entries.
 */
module CaptureModel {
  import opened Wrappers
  import opened AckTypes

  const STATIC_EXTENSIONS := {".css", ".js", ".png", ".jpg", ".jpeg", ".gif", ".svg", ".ico", ".woff", ".woff2",
                              ".ttf", ".eot", ".map"}

  const KEEP_RESOURCE_TYPES := {"XHR", "Fetch", "EventSource", "Document", "Preflight", "Other"}

  /** `pathname` is None when the URL does not parse. */
  datatype Request = Request(url: string, pathname: Option<string>, verb: string)

  datatype Redirect = Redirect(status: int, location: Option<string>)

  datatype Event =
    | WillBeSent(id: string, request: Request, resourceType: Option<string>, redirect: Option<Redirect>)
    | ResponseReceived(id: string, status: int, location: Option<string>)
    | ExtraInfo(id: string, statusCode: Option<int>, setCookie: Option<string>)
    | LoadingFinished(id: string, encodedDataLength: Option<int>)
    | LoadingFailed(id: string)

  datatype Entry = Entry(
    verb: string, url: string, isNavigation: bool,
    status: Option<int>, redirectUrl: Option<string>, setCookieNames: Option<seq<string>>)

  datatype Script = Script(url: string, bytes: Option<int>)

  datatype Containers = Containers(
    entries: seq<Entry>,
    latest: map<string, nat>,
    chains: map<string, seq<nat>>,
    scripts: seq<Script>,
    ledger: seq<nat>,
    open: map<string, nat>)

  const EMPTY := Containers([], map[], map[], [], [], map[])

  /** The numbers held by the maps stand for entries and scripts that exist. */
  ghost predicate InBounds(s: Containers)
  {
    && (forall id :: id in s.latest ==> s.latest[id] < |s.entries|)
    && (forall id, j :: id in s.chains && 0 <= j < |s.chains[id]| ==> s.chains[id][j] < |s.entries|)
    && (forall id :: id in s.open ==> s.open[id] < |s.scripts|)
  }

  type State = s: Containers | InBounds(s) witness EMPTY

  // ---------- The filter ----------

  function LastIndexOf(s: string, c: char): (r: int)
    ensures -1 <= r < |s|
    ensures r >= 0 ==> s[r] == c
    ensures forall i :: r < i < |s| ==> s[i] != c
  {
    if s == [] then -1
    else if s[|s| - 1] == c then |s| - 1
    else LastIndexOf(s[..|s| - 1], c)
  }

  function Lower(s: string): (r: string)
    ensures |r| == |s|
  {
    seq(|s|, i requires 0 <= i < |s| => if 'A' <= s[i] <= 'Z' then s[i] - 'A' + 'a' else s[i])
  }

  predicate IsStaticAsset(request: Request)
  {
    request.pathname.Some? &&
    (var p := request.pathname.value;
     var dot := LastIndexOf(p, '.');
     (if dot >= 0 then Lower(p[dot..]) else "") in STATIC_EXTENSIONS)
  }

  predicate Kept(request: Request, resourceType: Option<string>)
  {
    !IsStaticAsset(request) &&
    (resourceType.None? || resourceType.value == "" || resourceType.value in KEEP_RESOURCE_TYPES)
  }

  // ---------- Set-Cookie names ----------

  function IndexOf(s: string, c: char): (r: nat)
    ensures r <= |s|
    ensures r < |s| ==> s[r] == c
    ensures forall i :: 0 <= i < r ==> s[i] != c
  {
    if s == [] then 0
    else if s[0] == c then 0
    else 1 + IndexOf(s[1..], c)
  }

  function TrimStart(s: string): string
  {
    if s != [] && IsTrimmed(s[0]) then TrimStart(s[1..]) else s
  }

  function Trim(s: string): string
  {
    var t := TrimStart(s);
    TrimEnd(t)
  }

  function TrimEnd(s: string): string
  {
    if s != [] && IsTrimmed(s[|s| - 1]) then TrimEnd(s[..|s| - 1]) else s
  }

  /** The name on one line of a Set-Cookie header, if it has one. */
  function LineName(line: string): seq<string>
  {
    var eq := IndexOf(line, '=');
    if eq == 0 || eq == |line| then []
    else
      var name := Trim(line[..eq]);
      if name == "" then [] else [name]
  }

  function CookieNames(header: string): seq<string>
    decreases |header|
  {
    var nl := IndexOf(header, '\n');
    if nl == |header| then LineName(header)
    else LineName(header[..nl]) + CookieNames(header[nl + 1..])
  }

  function NamesOf(e: Event): seq<string>
    requires e.ExtraInfo?
  {
    if e.setCookie.None? then [] else CookieNames(e.setCookie.value)
  }

  /** Insertion order without repetition, as `new Set` keeps it. */
  function Distinct(names: seq<string>): (r: seq<string>)
    ensures r == [] <==> names == []
  {
    if names == [] then []
    else
      var rest := Distinct(names[..|names| - 1]);
      var last := names[|names| - 1];
      if last in names[..|names| - 1] then rest else rest + [last]
  }

  function Merged(old_: Option<seq<string>>, names: seq<string>): seq<string>
  {
    Distinct((if old_.Some? then old_.value else []) + names)
  }

  // ---------- The handlers ----------

  function SeeScript(s: State, id: string, url: string): State
  {
    if id in s.open then
      s.(scripts := s.scripts[s.open[id] := s.scripts[s.open[id]].(url := url)])
    else
      s.(scripts := s.scripts + [Script(url, None)], ledger := s.ledger + [|s.scripts|],
         open := s.open[id := |s.scripts|])
  }

  function WithLocation(e: Entry, location: Option<string>): Entry
  {
    if location.Some? && location.value != "" then e.(redirectUrl := location) else e
  }

  /** A redirect response finalises the previous hop unless its status is already known. */
  function FinishHop(s: State, id: string, redirect: Redirect): State
  {
    if id in s.latest && s.entries[s.latest[id]].status.None? then
      var i := s.latest[id];
      s.(entries := s.entries[i := WithLocation(s.entries[i].(status := Some(redirect.status)), redirect.location)])
    else s
  }

  function ChainOf(s: State, id: string): seq<nat>
  {
    if id in s.chains then s.chains[id] else []
  }

  function PushEntry(s: State, id: string, entry: Entry): State
  {
    s.(entries := s.entries + [entry],
       latest := s.latest[id := |s.entries|],
       chains := s.chains[id := ChainOf(s, id) + [|s.entries|]])
  }

  function NewEntry(request: Request, resourceType: Option<string>): Entry
  {
    Entry(request.verb, request.url, resourceType == Some("Document"), None, None, None)
  }

  /** The script ledger and the previous hop, brought up to date before the new request is looked at. */
  function Settled(s: State, id: string, request: Request, resourceType: Option<string>, redirect: Option<Redirect>,
                   tracking: bool): State
  {
    var s1 := if resourceType == Some("Script") && tracking then SeeScript(s, id, request.url) else s;
    if redirect.Some? then FinishHop(s1, id, redirect.value) else s1
  }

  function Send(s: State, id: string, request: Request, resourceType: Option<string>, redirect: Option<Redirect>,
                tracking: bool): State
  {
    var settled := Settled(s, id, request, resourceType, redirect, tracking);
    if Kept(request, resourceType) then PushEntry(settled, id, NewEntry(request, resourceType)) else settled
  }

  function Receive(s: State, id: string, status: int, location: Option<string>): State
  {
    if id !in s.latest then s
    else
      var i := s.latest[id];
      var e := s.entries[i].(status := Some(status));
      s.(entries := s.entries[i := if 300 <= status < 400 then WithLocation(e, location) else e])
  }

  /** The first hop whose status matches and that has no cookie names yet; |chain| when there is none. */
  function FirstMatch(entries: seq<Entry>, chain: seq<nat>, status: int): (k: nat)
    ensures k <= |chain|
    ensures k < |chain| ==> Matches(entries, chain[k], status)
    ensures forall j :: 0 <= j < k ==> !Matches(entries, chain[j], status)
  {
    if chain == [] then 0
    else if Matches(entries, chain[0], status) then 0
    else 1 + FirstMatch(entries, chain[1..], status)
  }

  predicate Matches(entries: seq<Entry>, i: nat, status: int)
  {
    i < |entries| && entries[i].status == Some(status) && entries[i].setCookieNames.None?
  }

  function Target(s: State, id: string, statusCode: Option<int>): (r: Option<nat>)
    ensures r.Some? ==> r.value < |s.entries|
  {
    var chain := ChainOf(s, id);
    var k := if statusCode.Some? then FirstMatch(s.entries, chain, statusCode.value) else |chain|;
    if k < |chain| then Some(chain[k])
    else if id in s.latest then Some(s.latest[id])
    else None
  }

  function Attribute(s: State, id: string, statusCode: Option<int>, names: seq<string>): State
  {
    var target := Target(s, id, statusCode);
    if names == [] || target.None? then s
    else
      var e := s.entries[target.value];
      s.(entries := s.entries[target.value := e.(setCookieNames := Some(Merged(e.setCookieNames, names)))])
  }

  function CloseScript(s: State, id: string, bytes: Option<int>): State
  {
    if id !in s.open then s
    else
      var n := s.open[id];
      var sc := if bytes.Some? && bytes.value >= 0 then s.scripts[n].(bytes := bytes) else s.scripts[n];
      s.(scripts := s.scripts[n := sc], open := s.open - {id})
  }

  /** `indexOf` then `splice`: the first occurrence goes. */
  function Without(ledger: seq<nat>, n: nat): seq<nat>
  {
    if ledger == [] then []
    else if ledger[0] == n then ledger[1..]
    else [ledger[0]] + Without(ledger[1..], n)
  }

  function FailScript(s: State, id: string): State
  {
    (if id in s.open then s.(ledger := Without(s.ledger, s.open[id])) else s).(open := s.open - {id})
  }

  function Step(s: State, e: Event, tracking: bool): State
  {
    match e
    case WillBeSent(id, request, resourceType, redirect) => Send(s, id, request, resourceType, redirect, tracking)
    case ResponseReceived(id, status, location) => Receive(s, id, status, location)
    case ExtraInfo(id, statusCode, _) => Attribute(s, id, statusCode, NamesOf(e))
    case LoadingFinished(id, bytes) => CloseScript(s, id, bytes)
    case LoadingFailed(id) => FailScript(s, id)
  }

  function After(trace: seq<Event>, tracking: bool, n: nat): State
    requires n <= |trace|
  {
    if n == 0 then EMPTY else Step(After(trace, tracking, n - 1), trace[n - 1], tracking)
  }

  // ---------- The containers agree ----------

  type Chains = map<string, seq<nat>>

  predicate InChain(chains: Chains, id: string, i: nat)
  {
    id in chains && i in chains[id]
  }

  ghost predicate InSomeChain(chains: Chains, i: nat)
  {
    exists id :: InChain(chains, id, i)
  }

  predicate Increasing(xs: seq<nat>)
  {
    forall j, k :: 0 <= j < k < |xs| ==> xs[j] < xs[k]
  }

  /**
    Over `size` sink entries: every chain ends at the latest entry and increases, and the chains partition the
    sink.
   */
  ghost predicate ChainsAgree(size: nat, latest: map<string, nat>, chains: Chains)
  {
    && latest.Keys == chains.Keys
    && (forall id :: id in chains ==>
          |chains[id]| > 0 && latest[id] == chains[id][|chains[id]| - 1] && Increasing(chains[id]))
    && (forall id, i: nat :: InChain(chains, id, i) ==> i < size)
    && (forall i :: 0 <= i < size ==> InSomeChain(chains, i))
    && (forall id, id', i: nat :: InChain(chains, id, i) && InChain(chains, id', i) ==> id == id')
  }

  /** Each open record is its own element of the ledger, and the ledger lists scripts in order of creation. */
  ghost predicate ScriptsAgree(size: nat, ledger: seq<nat>, open: map<string, nat>)
  {
    && Increasing(ledger)
    && (forall n :: n in ledger ==> n < size)
    && (forall id :: id in open ==> open[id] in ledger)
    && (forall id, id' :: id in open && id' in open && open[id] == open[id'] ==> id == id')
  }

  ghost predicate Agree(s: State)
  {
    ChainsAgree(|s.entries|, s.latest, s.chains) && ScriptsAgree(|s.scripts|, s.ledger, s.open)
  }

  lemma PushAgrees(size: nat, latest: map<string, nat>, chains: Chains, id: string)
    requires ChainsAgree(size, latest, chains)
    ensures var grown := (if id in chains then chains[id] else []) + [size];
            ChainsAgree(size + 1, latest[id := size], chains[id := grown])
  {
    var before := if id in chains then chains[id] else [];
    var after := chains[id := before + [size]];
    forall r, i: nat
      ensures InChain(after, r, i) <==> InChain(chains, r, i) || (r == id && i == size)
    {
    }
    forall j | 0 <= j < |before| ensures before[j] < size {
      assert InChain(chains, id, before[j]);
    }
    forall i | 0 <= i < size + 1 ensures InSomeChain(after, i) {
      if i < size {
        assert InSomeChain(chains, i);
        var r :| InChain(chains, r, i);
        assert InChain(after, r, i);
      } else {
        assert InChain(after, id, i);
      }
    }
  }

  lemma {:induction false} WithoutMembers(ledger: seq<nat>, n: nat, m: nat)
    requires Increasing(ledger)
    ensures m in Without(ledger, n) <==> m in ledger && m != n
    decreases |ledger|
  {
    if |ledger| > 0 {
      assert ledger == [ledger[0]] + ledger[1..];
      if ledger[0] == n {
        assert forall k :: 0 <= k < |ledger[1..]| ==> ledger[1..][k] == ledger[k + 1] && ledger[0] < ledger[k + 1];
      } else {
        WithoutMembers(ledger[1..], n, m);
      }
    }
  }

  lemma {:induction false} WithoutIncreases(ledger: seq<nat>, n: nat)
    requires Increasing(ledger)
    ensures Increasing(Without(ledger, n))
    decreases |ledger|
  {
    if |ledger| > 0 && ledger[0] != n {
      WithoutIncreases(ledger[1..], n);
      var r := Without(ledger, n);
      forall k | 1 <= k < |r| ensures r[0] < r[k] {
        WithoutMembers(ledger[1..], n, r[k]);
        var j :| 0 <= j < |ledger[1..]| && ledger[1..][j] == r[k];
        assert ledger[0] < ledger[j + 1];
      }
      assert r == [r[0]] + Without(ledger[1..], n);
    }
  }

  /** Removing a number from an increasing ledger removes exactly it. */
  lemma WithoutExact(ledger: seq<nat>, n: nat)
    requires Increasing(ledger)
    ensures Increasing(Without(ledger, n)) && forall m: nat :: m in Without(ledger, n) <==> m in ledger && m != n
  {
    WithoutIncreases(ledger, n);
    forall m: nat ensures m in Without(ledger, n) <==> m in ledger && m != n {
      WithoutMembers(ledger, n, m);
    }
  }

  lemma NewScriptAgrees(size: nat, ledger: seq<nat>, open: map<string, nat>, id: string)
    requires ScriptsAgree(size, ledger, open)
    ensures ScriptsAgree(size + 1, ledger + [size], open[id := size])
  {
    var longer := ledger + [size];
    forall j, k | 0 <= j < k < |longer| ensures longer[j] < longer[k] {
      assert longer[j] in ledger;
    }
    var wider := open[id := size];
    forall r | r in wider ensures wider[r] in longer {
      if r == id {
        assert longer[|ledger|] == size;
      } else {
        assert open[r] in ledger;
      }
    }
  }

  lemma SeeScriptAgrees(s: State, id: string, url: string)
    requires Agree(s)
    ensures Agree(SeeScript(s, id, url))
  {
    if id !in s.open {
      NewScriptAgrees(|s.scripts|, s.ledger, s.open, id);
    }
  }

  lemma FinishHopAgrees(s: State, id: string, redirect: Redirect)
    requires Agree(s)
    ensures Agree(FinishHop(s, id, redirect))
  {
  }

  lemma PushEntryAgrees(s: State, id: string, entry: Entry)
    requires Agree(s)
    ensures Agree(PushEntry(s, id, entry))
  {
    PushAgrees(|s.entries|, s.latest, s.chains, id);
  }

  lemma FailAgrees(s: State, id: string)
    requires Agree(s)
    ensures Agree(FailScript(s, id))
  {
    if id in s.open {
      WithoutExact(s.ledger, s.open[id]);
      forall n | n in Without(s.ledger, s.open[id]) ensures n < |s.scripts| {
        assert n in s.ledger;
      }
    }
  }

  lemma SettledAgrees(s: State, id: string, request: Request, resourceType: Option<string>, redirect: Option<Redirect>,
                      tracking: bool)
    requires Agree(s)
    ensures Agree(Settled(s, id, request, resourceType, redirect, tracking))
  {
    var s1 := if resourceType == Some("Script") && tracking then SeeScript(s, id, request.url) else s;
    SeeScriptAgrees(s, id, request.url);
    if redirect.Some? {
      FinishHopAgrees(s1, id, redirect.value);
    }
  }

  lemma SendAgrees(s: State, id: string, request: Request, resourceType: Option<string>, redirect: Option<Redirect>,
                   tracking: bool)
    requires Agree(s)
    ensures Agree(Send(s, id, request, resourceType, redirect, tracking))
  {
    SettledAgrees(s, id, request, resourceType, redirect, tracking);
    PushEntryAgrees(Settled(s, id, request, resourceType, redirect, tracking), id, NewEntry(request, resourceType));
  }

  lemma StepAgrees(s: State, e: Event, tracking: bool)
    requires Agree(s)
    ensures Agree(Step(s, e, tracking))
  {
    match e
    case WillBeSent(id, request, resourceType, redirect) =>
      SendAgrees(s, id, request, resourceType, redirect, tracking);
    case ResponseReceived(id, status, location) =>
    case ExtraInfo(id, statusCode, _) =>
    case LoadingFinished(id, bytes) =>
    case LoadingFailed(id) => FailAgrees(s, id);
  }

  lemma NothingAgrees()
    ensures Agree(EMPTY)
  {
    assert EMPTY.latest.Keys == EMPTY.chains.Keys;
  }

  /**
    On every event trace: the latest entry of a request is the last of its chain, each sink entry
    lies in exactly one chain and in sink order, and every open script record is its own live
    ledger element.
   */
  lemma {:induction false} ContainersAgree(trace: seq<Event>, tracking: bool, n: nat)
    requires n <= |trace|
    ensures Agree(After(trace, tracking, n))
  {
    if n == 0 {
      NothingAgrees();
    } else {
      ContainersAgree(trace, tracking, n - 1);
      StepAgrees(After(trace, tracking, n - 1), trace[n - 1], tracking);
    }
  }

  // ---------- Script records ----------

  predicate RequestsScript(e: Event, id: string)
  {
    e.WillBeSent? && e.id == id && e.resourceType == Some("Script")
  }

  predicate EndsLoading(e: Event, id: string)
  {
    (e.LoadingFinished? || e.LoadingFailed?) && e.id == id
  }

  /** The URL of the last script request of `id`, while that is still loading. */
  function LoadingScript(trace: seq<Event>, id: string, n: nat): Option<string>
    requires n <= |trace|
  {
    if n == 0 then None
    else if RequestsScript(trace[n - 1], id) then Some(trace[n - 1].request.url)
    else if EndsLoading(trace[n - 1], id) then None
    else LoadingScript(trace, id, n - 1)
  }

  function OpenUrl(s: State, id: string): Option<string>
  {
    if id in s.open then Some(s.scripts[s.open[id]].url) else None
  }

  lemma SeenScript(s: State, id: string, url: string, watched: string)
    requires Agree(s)
    ensures var t := SeeScript(s, id, url);
            && OpenUrl(t, watched) == (if id == watched then Some(url) else OpenUrl(s, watched))
            && (watched in s.open ==> watched in t.open && t.open[watched] == s.open[watched])
            && (id in s.open ==> t.ledger == s.ledger)
  {
  }

  lemma ClosedScript(s: State, id: string, bytes: Option<int>, watched: string)
    requires Agree(s)
    ensures var t := CloseScript(s, id, bytes);
            && OpenUrl(t, watched) == (if id == watched then None else OpenUrl(s, watched))
            && (watched in s.open && id != watched ==> watched in t.open && t.open[watched] == s.open[watched])
  {
  }

  predicate SameScripts(s: State, t: State)
  {
    t.scripts == s.scripts && t.ledger == s.ledger && t.open == s.open
  }

  lemma FinishKeepsScripts(s: State, id: string, redirect: Redirect)
    ensures SameScripts(s, FinishHop(s, id, redirect))
  {
  }

  lemma PushKeepsScripts(s: State, id: string, entry: Entry)
    ensures SameScripts(s, PushEntry(s, id, entry))
  {
  }

  /** Whatever else a request does, scripts are touched by the ledger's part alone. */
  lemma SendOnScripts(s: State, e: Event)
    requires e.WillBeSent?
    ensures SameScripts(if e.resourceType == Some("Script") then SeeScript(s, e.id, e.request.url) else s,
                        Step(s, e, true))
  {
    var seen := if e.resourceType == Some("Script") then SeeScript(s, e.id, e.request.url) else s;
    if e.redirect.Some? {
      FinishKeepsScripts(seen, e.id, e.redirect.value);
    }
    PushKeepsScripts(Settled(s, e.id, e.request, e.resourceType, e.redirect, true),
                     e.id, NewEntry(e.request, e.resourceType));
  }

  /** The record of `id` as the event leaves it: its URL, and that it is the same record. */
  ghost predicate ScriptFollows(s: State, e: Event, t: State, id: string)
  {
    && OpenUrl(t, id) == (if RequestsScript(e, id) then Some(e.request.url)
                          else if EndsLoading(e, id) then None else OpenUrl(s, id))
    && (id in s.open && !EndsLoading(e, id) ==> id in t.open && t.open[id] == s.open[id])
  }

  lemma StepOnScript(s: State, e: Event, id: string)
    requires Agree(s)
    ensures ScriptFollows(s, e, Step(s, e, true), id)
  {
    match e
    case WillBeSent(other, request, resourceType, _) =>
      SendOnScripts(s, e);
      SeenScript(s, other, request.url, id);
    case LoadingFinished(other, bytes) => ClosedScript(s, other, bytes, id);
    case ResponseReceived(_, _, _) => assert SameScripts(s, Step(s, e, true));
    case ExtraInfo(_, _, _) => assert SameScripts(s, Step(s, e, true));
    case LoadingFailed(_) =>
  }

  ghost predicate RecordFits(s: State, url: Option<string>, id: string)
  {
    OpenUrl(s, id) == url && (id in s.open ==> s.open[id] in s.ledger)
  }

  lemma RecordFollows(s: State, e: Event, id: string, url: Option<string>)
    requires Agree(s) && OpenUrl(s, id) == url
    ensures var later :=
              if RequestsScript(e, id) then Some(e.request.url) else if EndsLoading(e, id) then None else url;
            RecordFits(Step(s, e, true), later, id)
  {
    StepOnScript(s, e, id);
    StepAgrees(s, e, true);
  }

  /**
    On every trace a script has an open record exactly while it is loading: one in the ledger, under the URL
    of its last request.
   */
  lemma OpenScriptsExact(trace: seq<Event>, id: string, n: nat)
    requires n <= |trace|
    ensures RecordFits(After(trace, true, n), LoadingScript(trace, id, n), id)
  {
    for m := 0 to n
      invariant RecordFits(After(trace, true, m), LoadingScript(trace, id, m), id)
    {
      ContainersAgree(trace, true, m);
      RecordFollows(After(trace, true, m), trace[m], id, LoadingScript(trace, id, m));
    }
  }

  predicate SameRecord(s: State, t: State, id: string)
  {
    id in s.open && id in t.open && t.open[id] == s.open[id]
  }

  lemma StepKeepsRecord(s: State, t: State, e: Event, id: string)
    requires SameRecord(s, t, id) && Agree(t) && !EndsLoading(e, id)
    ensures SameRecord(s, Step(t, e, true), id)
  {
    StepOnScript(t, e, id);
  }

  /** Through every redirect the record stays the same one, until the script ends. */
  lemma RecordStays(trace: seq<Event>, id: string, m: nat, n: nat)
    requires m <= n <= |trace| && id in After(trace, true, m).open
    requires forall i :: m <= i < n ==> !EndsLoading(trace[i], id)
    ensures SameRecord(After(trace, true, m), After(trace, true, n), id)
  {
    for k := m to n
      invariant SameRecord(After(trace, true, m), After(trace, true, k), id)
    {
      ContainersAgree(trace, true, k);
      StepKeepsRecord(After(trace, true, m), After(trace, true, k), trace[k], id);
    }
  }
}
