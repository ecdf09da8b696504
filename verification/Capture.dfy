/**
  The capture handlers on the heap: entries and scripts are objects shared by the sink, the
  per-request maps and the ledger, and an update through one container is seen through all.
  Each handler carries out `CaptureModel.Step`.
 */
module Capture {
  import opened Wrappers
  import CM = CaptureModel

  class EntryObject {
    const verb: string
    const url: string
    const isNavigation: bool
    var status: Option<int>
    var redirectUrl: Option<string>
    var setCookieNames: Option<seq<string>>

    constructor (verb: string, url: string, isNavigation: bool)
      ensures View() == CM.Entry(verb, url, isNavigation, None, None, None)
    {
      this.verb, this.url, this.isNavigation := verb, url, isNavigation;
      status, redirectUrl, setCookieNames := None, None, None;
    }

    function View(): CM.Entry
      reads this
    {
      CM.Entry(verb, url, isNavigation, status, redirectUrl, setCookieNames)
    }
  }

  class ScriptObject {
    var url: string
    var bytes: Option<int>

    constructor (url: string)
      ensures View() == CM.Script(url, None)
    {
      this.url, bytes := url, None;
    }

    function View(): CM.Script
      reads this
    {
      CM.Script(url, bytes)
    }
  }

  /** Removing the first occurrence, given where it is; |ledger| when there is none. */
  lemma {:induction false} WithoutAt(ledger: seq<nat>, n: nat, i: nat)
    requires i <= |ledger| && (forall j :: 0 <= j < i ==> ledger[j] != n) && (i < |ledger| ==> ledger[i] == n)
    ensures CM.Without(ledger, n) == if i < |ledger| then ledger[..i] + ledger[i + 1..] else ledger
  {
    if i > 0 {
      var rest := ledger[1..];
      WithoutAt(rest, n, i - 1);
      if i < |ledger| {
        assert ledger[..i] == [ledger[0]] + rest[..i - 1];
        assert ledger[i + 1..] == rest[i..];
      }
    }
  }

  ghost predicate EntriesMatch(sink: seq<EntryObject>, entries: seq<CM.Entry>)
    reads sink
  {
    && |sink| == |entries|
    && (forall i, j :: 0 <= i < j < |sink| ==> sink[i] != sink[j])
    && (forall i :: 0 <= i < |sink| ==> sink[i].View() == entries[i])
  }

  ghost predicate LatestMatch(sink: seq<EntryObject>, byReqId: map<string, EntryObject>, latest: map<string, nat>)
  {
    && byReqId.Keys == latest.Keys
    && (forall id :: id in byReqId ==> latest[id] < |sink| && byReqId[id] == sink[latest[id]])
  }

  ghost predicate ChainMatches(sink: seq<EntryObject>, chain: seq<EntryObject>, numbers: seq<nat>)
  {
    |chain| == |numbers| && forall k :: 0 <= k < |chain| ==> numbers[k] < |sink| && chain[k] == sink[numbers[k]]
  }

  ghost predicate ChainsMatch(sink: seq<EntryObject>, chainByReqId: map<string, seq<EntryObject>>, chains: CM.Chains)
  {
    && chainByReqId.Keys == chains.Keys
    && (forall id :: id in chainByReqId ==> ChainMatches(sink, chainByReqId[id], chains[id]))
  }

  ghost predicate ScriptsMatch(made: seq<ScriptObject>, scripts: seq<CM.Script>)
    reads made
  {
    && |made| == |scripts|
    && (forall i, j :: 0 <= i < j < |made| ==> made[i] != made[j])
    && (forall i :: 0 <= i < |made| ==> made[i].View() == scripts[i])
  }

  ghost predicate LedgerMatch(made: seq<ScriptObject>, loaded: seq<ScriptObject>, ledger: seq<nat>)
  {
    |loaded| == |ledger| && forall j :: 0 <= j < |loaded| ==> ledger[j] < |made| && loaded[j] == made[ledger[j]]
  }

  ghost predicate OpenMatch(made: seq<ScriptObject>, scriptByReqId: map<string, ScriptObject>, open: map<string, nat>)
  {
    && scriptByReqId.Keys == open.Keys
    && (forall id :: id in scriptByReqId ==> open[id] < |made| && scriptByReqId[id] == made[open[id]])
  }

  lemma LatestGrows(sink: seq<EntryObject>, byReqId: map<string, EntryObject>, latest: map<string, nat>, id: string,
                    entry: EntryObject)
    requires LatestMatch(sink, byReqId, latest)
    ensures LatestMatch(sink + [entry], byReqId[id := entry], latest[id := |sink|])
  {
  }

  lemma ChainsGrow(sink: seq<EntryObject>, chainByReqId: map<string, seq<EntryObject>>, chains: CM.Chains, id: string,
                   entry: EntryObject)
    requires ChainsMatch(sink, chainByReqId, chains)
    ensures var objects := (if id in chainByReqId then chainByReqId[id] else []) + [entry];
            var numbers := (if id in chains then chains[id] else []) + [|sink|];
            ChainsMatch(sink + [entry], chainByReqId[id := objects], chains[id := numbers])
  {
    assert id in chainByReqId ==> ChainMatches(sink, chainByReqId[id], chains[id]);
    forall r | r in chainByReqId && r != id ensures ChainMatches(sink + [entry], chainByReqId[r], chains[r]) {
      assert ChainMatches(sink, chainByReqId[r], chains[r]);
    }
  }

  /** Splicing the script's record out of the ledger is removing its number. */
  lemma LedgerSplice(made: seq<ScriptObject>, loaded: seq<ScriptObject>, ledger: seq<nat>, n: nat, index: nat)
    requires LedgerMatch(made, loaded, ledger) && n < |made| && index <= |loaded|
    requires forall i, j :: 0 <= i < j < |made| ==> made[i] != made[j]
    requires (forall j :: 0 <= j < index ==> loaded[j] != made[n]) && (index < |loaded| ==> loaded[index] == made[n])
    ensures LedgerMatch(made, if index < |loaded| then loaded[..index] + loaded[index + 1..] else loaded,
                        CM.Without(ledger, n))
  {
    assert index < |loaded| ==> ledger[index] == n;
    WithoutAt(ledger, n, index);
  }

  lemma EntriesGrow(sink: seq<EntryObject>, entries: seq<CM.Entry>, entry: EntryObject)
    requires EntriesMatch(sink, entries) && entry !in sink
    ensures EntriesMatch(sink + [entry], entries + [entry.View()])
  {
  }

  /** A new entry pushed to the sink and to both maps matches the model's. */
  lemma PushMatches(sink: seq<EntryObject>, byReqId: map<string, EntryObject>,
                    chainByReqId: map<string, seq<EntryObject>>, model: CM.State, id: string, entry: EntryObject)
    requires EntriesMatch(sink, model.entries) && LatestMatch(sink, byReqId, model.latest)
    requires ChainsMatch(sink, chainByReqId, model.chains) && entry !in sink
    ensures var grown := CM.PushEntry(model, id, entry.View());
            && EntriesMatch(sink + [entry], grown.entries)
            && LatestMatch(sink + [entry], byReqId[id := entry], grown.latest)
            && ChainsMatch(sink + [entry],
                           chainByReqId[id := (if id in chainByReqId then chainByReqId[id] else []) + [entry]],
                           grown.chains)
  {
    LatestGrows(sink, byReqId, model.latest, id, entry);
    ChainsGrow(sink, chainByReqId, model.chains, id, entry);
    EntriesGrow(sink, model.entries, entry);
  }

  lemma ScriptsGrow(made: seq<ScriptObject>, scripts: seq<CM.Script>, script: ScriptObject)
    requires ScriptsMatch(made, scripts) && script !in made
    ensures ScriptsMatch(made + [script], scripts + [script.View()])
  {
  }

  lemma LedgerGrows(made: seq<ScriptObject>, loaded: seq<ScriptObject>, ledger: seq<nat>, script: ScriptObject)
    requires LedgerMatch(made, loaded, ledger)
    ensures LedgerMatch(made + [script], loaded + [script], ledger + [|made|])
  {
  }

  lemma OpenGrows(made: seq<ScriptObject>, scriptByReqId: map<string, ScriptObject>, open: map<string, nat>, id: string,
                  script: ScriptObject)
    requires OpenMatch(made, scriptByReqId, open)
    ensures OpenMatch(made + [script], scriptByReqId[id := script], open[id := |made|])
  {
  }

  lemma OpenShrinks(made: seq<ScriptObject>, scriptByReqId: map<string, ScriptObject>, open: map<string, nat>,
                    id: string)
    requires OpenMatch(made, scriptByReqId, open)
    ensures OpenMatch(made, scriptByReqId - {id}, open - {id})
  {
  }

  lemma CloseIs(s: CM.State, id: string, bytes: Option<int>, t: CM.State)
    requires id in s.open
    requires t == (if bytes.Some? && bytes.value >= 0
                   then s.(scripts := s.scripts[s.open[id] := s.scripts[s.open[id]].(bytes := bytes)],
                           open := s.open - {id})
                   else s.(open := s.open - {id}))
    ensures t == CM.CloseScript(s, id, bytes)
  {
    assert s.scripts == s.scripts[s.open[id] := s.scripts[s.open[id]]];
  }

  lemma {:induction false} FirstMatchIs(entries: seq<CM.Entry>, chain: seq<nat>, status: int, k: nat)
    requires k <= |chain| && (forall j :: 0 <= j < k ==> !CM.Matches(entries, chain[j], status))
    requires k < |chain| ==> CM.Matches(entries, chain[k], status)
    ensures CM.FirstMatch(entries, chain, status) == k
    decreases k
  {
    if k > 0 {
      FirstMatchIs(entries, chain[1..], status, k - 1);
    }
  }

  class Recorder {
    const tracking: bool
    var sink: seq<EntryObject>
    var byReqId: map<string, EntryObject>
    var chainByReqId: map<string, seq<EntryObject>>
    var scriptByReqId: map<string, ScriptObject>
    var loadedScripts: seq<ScriptObject>

    ghost var model: CM.State
    ghost var made: seq<ScriptObject>

    ghost predicate EntriesValid()
      reads this, sink
    {
      && EntriesMatch(sink, model.entries)
      && LatestMatch(sink, byReqId, model.latest)
      && ChainsMatch(sink, chainByReqId, model.chains)
    }

    ghost predicate ScriptsValid()
      reads this, made
    {
      && ScriptsMatch(made, model.scripts)
      && LedgerMatch(made, loadedScripts, model.ledger)
      && OpenMatch(made, scriptByReqId, model.open)
    }

    /** The containers hold what the model says, through the very same objects. */
    ghost predicate Valid()
      reads this, sink, made
    {
      EntriesValid() && ScriptsValid()
    }

    constructor (tracking: bool)
      ensures Valid() && model == CM.EMPTY && this.tracking == tracking
    {
      this.tracking := tracking;
      sink, byReqId, chainByReqId, scriptByReqId, loadedScripts := [], map[], map[], map[], [];
      model, made := CM.EMPTY, [];
    }

    /** Assigns the fields of a shared entry; every container that holds it sees the change. */
    method Overwrite(entry: EntryObject, ghost i: nat, status: Option<int>, redirectUrl: Option<string>,
                     names: Option<seq<string>>)
      requires Valid() && i < |sink| && entry == sink[i]
      modifies this`model, entry
      ensures Valid()
      ensures model == old(model).(entries := old(model).entries[i := old(model).entries[i].(
                status := status, redirectUrl := redirectUrl, setCookieNames := names)])
    {
      entry.status, entry.redirectUrl, entry.setCookieNames := status, redirectUrl, names;
      model := model.(entries := model.entries[i := model.entries[i].(
        status := status, redirectUrl := redirectUrl, setCookieNames := names)]);
    }

    method AddScript(id: string, url: string)
      requires Valid() && id !in scriptByReqId
      modifies this`loadedScripts, this`scriptByReqId, this`made, this`model
      ensures Valid() && model == CM.SeeScript(old(model), id, url)
      ensures sink == old(sink) && forall o :: o in made ==> o in old(made) || fresh(o)
    {
      var script := new ScriptObject(url);
      ScriptsGrow(made, model.scripts, script);
      LedgerGrows(made, loadedScripts, model.ledger, script);
      OpenGrows(made, scriptByReqId, model.open, id, script);
      loadedScripts := loadedScripts + [script];
      scriptByReqId := scriptByReqId[id := script];
      made := made + [script];
      model := CM.SeeScript(model, id, url);
    }

    method SeeScript(id: string, url: string)
      requires Valid()
      modifies this, made
      ensures Valid() && model == CM.SeeScript(old(model), id, url)
      ensures sink == old(sink) && forall o :: o in made ==> o in old(made) || fresh(o)
    {
      if id in scriptByReqId {
        var existing := scriptByReqId[id];
        existing.url := url;
        model := CM.SeeScript(model, id, url);
      } else {
        AddScript(id, url);
      }
    }

    method FinishHop(id: string, redirect: CM.Redirect)
      requires Valid()
      modifies this`model, sink
      ensures Valid() && model == CM.FinishHop(old(model), id, redirect)
    {
      if id in byReqId {
        var prev := byReqId[id];
        if prev.status.None? {
          var location :=
            if redirect.location.Some? && redirect.location.value != "" then redirect.location else prev.redirectUrl;
          Overwrite(prev, model.latest[id], Some(redirect.status), location, prev.setCookieNames);
        }
      }
    }

    method PushEntry(id: string, request: CM.Request, resourceType: Option<string>)
      requires Valid()
      modifies this
      ensures Valid() && model == CM.PushEntry(old(model), id, CM.NewEntry(request, resourceType))
      ensures made == old(made) && forall o :: o in sink ==> o in old(sink) || fresh(o)
    {
      var entry := new EntryObject(request.verb, request.url, resourceType == Some("Document"));
      Append(id, entry, CM.NewEntry(request, resourceType));
    }

    method Append(id: string, entry: EntryObject, ghost view: CM.Entry)
      requires Valid() && entry !in sink && entry.View() == view
      modifies this`sink, this`byReqId, this`chainByReqId, this`model
      ensures Valid() && model == CM.PushEntry(old(model), id, view)
      ensures made == old(made) && sink == old(sink) + [entry]
    {
      Enter(id, entry, view);
    }

    /** The entry goes to the sink and to both maps. */
    method Enter(id: string, entry: EntryObject, ghost view: CM.Entry)
      requires EntriesValid() && entry !in sink && entry.View() == view
      modifies this`sink, this`byReqId, this`chainByReqId, this`model
      ensures EntriesValid() && model == CM.PushEntry(old(model), id, view) && sink == old(sink) + [entry]
    {
      var chain := (if id in chainByReqId then chainByReqId[id] else []) + [entry];
      var longer, latest, chains := sink + [entry], byReqId[id := entry], chainByReqId[id := chain];
      ghost var grown := CM.PushEntry(model, id, view);
      PushMatches(sink, byReqId, chainByReqId, model, id, entry);
      assert LatestMatch(longer, latest, grown.latest) && ChainsMatch(longer, chains, grown.chains);
      sink, byReqId, chainByReqId, model := longer, latest, chains, grown;
      assert EntriesMatch(sink, model.entries);
    }

    /** The script ledger and the hop before, brought up to date. */
    method Settle(e: CM.Event)
      requires Valid() && e.WillBeSent?
      modifies this, sink, made
      ensures Valid() && model == CM.Settled(old(model), e.id, e.request, e.resourceType, e.redirect, tracking)
      ensures sink == old(sink) && forall o :: o in made ==> o in old(made) || fresh(o)
    {
      if e.resourceType == Some("Script") && tracking {
        SeeScript(e.id, e.request.url);
      }
      if e.redirect.Some? {
        FinishHop(e.id, e.redirect.value);
      }
    }

    method OnRequestWillBeSent(e: CM.Event)
      requires Valid() && e.WillBeSent?
      modifies this, sink, made
      ensures Valid() && model == CM.Step(old(model), e, tracking)
      ensures forall o :: o in sink ==> o in old(sink) || fresh(o)
      ensures forall o :: o in made ==> o in old(made) || fresh(o)
    {
      Settle(e);
      if CM.IsStaticAsset(e.request) {
        return;
      }
      if e.resourceType.Some? && e.resourceType.value != "" && e.resourceType.value !in CM.KEEP_RESOURCE_TYPES {
        return;
      }
      PushEntry(e.id, e.request, e.resourceType);
    }

    method OnResponseReceived(e: CM.Event)
      requires Valid() && e.ResponseReceived?
      modifies this`model, sink
      ensures Valid() && model == CM.Step(old(model), e, tracking)
    {
      if e.id in byReqId {
        var entry := byReqId[e.id];
        var location := entry.redirectUrl;
        if 300 <= e.status < 400 && e.location.Some? && e.location.value != "" {
          location := e.location;
        }
        Overwrite(entry, model.latest[e.id], Some(e.status), location, entry.setCookieNames);
      }
    }

    /** The place of the first hop with this status and no names; |chain| when there is none. */
    static method FirstUnnamed(chain: seq<EntryObject>, status: int, ghost sink: seq<EntryObject>,
                               ghost entries: seq<CM.Entry>, ghost numbers: seq<nat>)
      returns (k: nat)
      requires EntriesMatch(sink, entries) && ChainMatches(sink, chain, numbers)
      ensures k == CM.FirstMatch(entries, numbers, status) <= |chain|
    {
      k := 0;
      while k < |chain| && !(chain[k].status == Some(status) && chain[k].setCookieNames.None?)
        invariant k <= |chain|
        invariant forall j :: 0 <= j < k ==> !CM.Matches(entries, numbers[j], status)
      {
        assert chain[k].View() == entries[numbers[k]];
        k := k + 1;
      }
      assert k < |chain| ==> chain[k].View() == entries[numbers[k]];
      FirstMatchIs(entries, numbers, status, k);
    }

    /** The entry an extra-info event is about: the first status match without names, else the latest. */
    method FindTarget(id: string, statusCode: Option<int>) returns (target: Option<EntryObject>)
      requires Valid()
      ensures var t := CM.Target(model, id, statusCode);
              target == if t.Some? then Some(sink[t.value]) else None
    {
      var chain := if id in chainByReqId then chainByReqId[id] else [];
      ghost var numbers := CM.ChainOf(model, id);
      assert ChainMatches(sink, chain, numbers);
      if statusCode.Some? {
        var k := FirstUnnamed(chain, statusCode.value, sink, model.entries, numbers);
        if k < |chain| {
          return Some(chain[k]);
        }
      }
      target := if id in byReqId then Some(byReqId[id]) else None;
    }

    method OnExtraInfo(e: CM.Event)
      requires Valid() && e.ExtraInfo?
      modifies this`model, sink
      ensures Valid() && model == CM.Step(old(model), e, tracking)
    {
      var names := CM.NamesOf(e);
      var target := FindTarget(e.id, e.statusCode);
      if names != [] && target.Some? {
        var entry := target.value;
        Overwrite(entry, CM.Target(model, e.id, e.statusCode).value, entry.status, entry.redirectUrl,
                  Some(CM.Merged(entry.setCookieNames, names)));
      }
    }

    /** Assigns the size of a script's shared record. */
    method Measure(script: ScriptObject, ghost n: nat, bytes: Option<int>)
      requires Valid() && n < |made| && script == made[n]
      modifies this`model, script
      ensures Valid()
      ensures model == old(model).(scripts := old(model).scripts[n := old(model).scripts[n].(bytes := bytes)])
    {
      script.bytes := bytes;
      model := model.(scripts := model.scripts[n := model.scripts[n].(bytes := bytes)]);
    }

    method CloseOpen(id: string)
      requires Valid() && id in scriptByReqId
      modifies this`scriptByReqId, this`model
      ensures Valid() && model == old(model).(open := old(model).open - {id})
    {
      OpenShrinks(made, scriptByReqId, model.open, id);
      scriptByReqId := scriptByReqId - {id};
      model := model.(open := model.open - {id});
    }

    method OnLoadingFinished(e: CM.Event)
      requires Valid() && e.LoadingFinished?
      modifies this`scriptByReqId, this`model, made
      ensures Valid() && model == CM.Step(old(model), e, tracking)
      ensures sink == old(sink) && made == old(made)
    {
      ghost var before := model;
      if e.id in scriptByReqId {
        var script := scriptByReqId[e.id];
        if e.encodedDataLength.Some? && e.encodedDataLength.value >= 0 {
          Measure(script, model.open[e.id], e.encodedDataLength);
        }
        CloseOpen(e.id);
        CloseIs(before, e.id, e.encodedDataLength, model);
      }
    }

    /** `indexOf`. */
    static method IndexIn(loaded: seq<ScriptObject>, script: ScriptObject) returns (index: nat)
      ensures index <= |loaded| && (forall j :: 0 <= j < index ==> loaded[j] != script)
      ensures index < |loaded| ==> loaded[index] == script
    {
      index := 0;
      while index < |loaded| && loaded[index] != script
        invariant index <= |loaded| && forall j :: 0 <= j < index ==> loaded[j] != script
      {
        index := index + 1;
      }
    }

    /** Splices the request's open script out of the ledger. */
    method DropRecord(id: string)
      requires Valid() && id in scriptByReqId
      modifies this`loadedScripts
      ensures LedgerMatch(made, loadedScripts, CM.Without(model.ledger, model.open[id]))
    {
      var script := scriptByReqId[id];
      var index := IndexIn(loadedScripts, script);
      LedgerSplice(made, loadedScripts, model.ledger, model.open[id], index);
      if index < |loadedScripts| {
        loadedScripts := loadedScripts[..index] + loadedScripts[index + 1..];
      }
    }

    method OnLoadingFailed(e: CM.Event)
      requires Valid() && e.LoadingFailed?
      modifies this`loadedScripts, this`scriptByReqId, this`model
      ensures Valid() && model == CM.Step(old(model), e, tracking)
      ensures sink == old(sink) && made == old(made)
    {
      OpenShrinks(made, scriptByReqId, model.open, e.id);
      if e.id in scriptByReqId {
        DropRecord(e.id);
      }
      scriptByReqId := scriptByReqId - {e.id};
      model := CM.FailScript(model, e.id);
    }
  }
}
