/**
  The capability cache (src/cache/capability-cache.ts): a map with expiry against the history of
  what was stored and evicted. The clock is an integer handed to every operation.
 */
module CapabilityCache {
  import opened Wrappers
  import opened AckTypes
  import opened CacheKey
  import opened StableSort

  datatype Entry = Entry(body: Json, status: int, ts: int, ttl: int)

  type Entries = map<string, Entry>

  function Member(fields: map<string, Json>, name: string): Option<Json>
  {
    if name in fields then Some(fields[name]) else None
  }

  /** Present and not null. */
  predicate Given(fields: map<string, Json>, name: string)
  {
    name in fields && !fields[name].Null?
  }

  predicate IsCacheable(status: int, body: Json)
  {
    && 200 <= status < 300
    && (body.Obj? ==>
          && Member(body.fields, "ok") != Some(Bool(false))
          && !Given(body.fields, "error")
          && Member(body.fields, "needs_generation") != Some(Bool(true))
          && !Given(body.fields, "blocker")
          && Member(body.fields, "healable") != Some(Bool(true)))
  }

  predicate Expired(entry: Entry, now: int)
  {
    now - entry.ts >= entry.ttl
  }

  // ---------- Operations on the map ----------

  function Found(store: Entries, key: string, now: int): Option<Entry>
  {
    if key in store && !Expired(store[key], now) then Some(store[key]) else None
  }

  function AfterGet(store: Entries, key: string, now: int): Entries
  {
    if key in store && Expired(store[key], now) then store - {key} else store
  }

  predicate Accepted(status: int, body: Json, ttl: int)
  {
    IsCacheable(status, body) && ttl > 0
  }

  function AfterSet(store: Entries, key: string, status: int, body: Json, ttl: int, now: int): Entries
  {
    if Accepted(status, body, ttl) then store[key := Entry(body, status, now, ttl)] else store
  }

  function AfterEvict(store: Entries, prefix: string): Entries
  {
    map key | key in store && !(prefix <= key) :: store[key]
  }

  function AfterSweep(store: Entries, now: int): Entries
  {
    map key | key in store && !Expired(store[key], now) :: store[key]
  }

  class Cache {
    const cmp: Comparator
    const digest: Digest
    var store: Entries

    constructor (cmp: Comparator, digest: Digest)
      ensures store == map[] && this.cmp == cmp && this.digest == digest
    {
      this.cmp, this.digest, store := cmp, digest, map[];
    }

    method Get(slot: Slot, now: int) returns (hit: Option<Entry>)
      modifies this
      ensures hit == Found(old(store), Key(cmp, digest, slot), now)
      ensures store == AfterGet(old(store), Key(cmp, digest, slot), now)
    {
      var key := Key(cmp, digest, slot);
      if key !in store {
        return None;
      }
      var entry := store[key];
      if now - entry.ts >= entry.ttl {
        store := store - {key};
        return None;
      }
      return Some(entry);
    }

    method Set(slot: Slot, status: int, body: Json, ttl: int, now: int) returns (stored: bool)
      modifies this
      ensures stored == Accepted(status, body, ttl)
      ensures store == AfterSet(old(store), Key(cmp, digest, slot), status, body, ttl, now)
    {
      if !IsCacheable(status, body) {
        return false;
      }
      if ttl <= 0 {
        return false;
      }
      store := store[Key(cmp, digest, slot) := Entry(body, status, now, ttl)];
      return true;
    }

    method ClearAll()
      modifies this
      ensures store == map[]
    {
      store := map[];
    }

    method EvictForCapability(platform: string, identity: Option<string>, capability: string) returns (n: nat)
      modifies this
      ensures store == AfterEvict(old(store), KeyPrefix(platform, identity, capability))
      ensures n == |old(store)| - |store|
    {
      var prefix := KeyPrefix(platform, identity, capability);
      var keys := store.Keys;
      n := 0;
      while keys != {}
        invariant keys <= store.Keys <= old(store).Keys
        invariant forall key :: key in store ==> store[key] == old(store)[key]
        invariant forall key :: key in old(store) && key !in keys ==> (key in store <==> !(prefix <= key))
        invariant n == |old(store)| - |store|
        decreases keys
      {
        var key :| key in keys;
        if prefix <= key {
          DropOne(store, key);
          store := store - {key};
          n := n + 1;
        }
        keys := keys - {key};
      }
    }

    method Sweep(now: int)
      modifies this
      ensures store == AfterSweep(old(store), now)
    {
      var keys := store.Keys;
      while keys != {}
        invariant keys <= store.Keys <= old(store).Keys
        invariant forall key :: key in store ==> store[key] == old(store)[key]
        invariant forall key :: key in old(store) && key !in keys ==> (key in store <==> !Expired(old(store)[key], now))
        decreases keys
      {
        var key :| key in keys;
        if now - store[key].ts >= store[key].ttl {
          store := store - {key};
        }
        keys := keys - {key};
      }
    }

    /**
      The read-through helper up to where it executes the capability: a fresh entry is served, its age read
      off the clock once more, and nothing is executed.
     */
    method Begin(slot: Slot, ttl: int, now: int, later: int) returns (reply: Option<Reply>)
      modifies this
      ensures var hit := if ttl > 0 then Found(old(store), Key(cmp, digest, slot), now) else None;
              reply == if hit.Some? then Some(Served(hit.value, later)) else None
      ensures store == if ttl > 0 then AfterGet(old(store), Key(cmp, digest, slot), now) else old(store)
      ensures reply.Some? ==> store == old(store)
    {
      if ttl > 0 {
        var hit := Get(slot, now);
        if hit.Some? {
          return Some(Served(hit.value, later));
        }
      }
      return None;
    }

    /** From there on, with what the execution gave; other calls may have run in between. */
    method Finish(slot: Slot, ttl: int, outcome: Outcome, now: int) returns (reply: Reply)
      modifies this
      ensures reply == Reply(outcome.status, outcome.body, None)
      ensures store == AfterSet(old(store), Key(cmp, digest, slot), outcome.status, outcome.body, ttl, now)
    {
      if ttl > 0 {
        var _ := Set(slot, outcome.status, outcome.body, ttl, now);
      }
      return Reply(outcome.status, outcome.body, None);
    }
  }

  datatype Outcome = Outcome(status: int, body: Json)

  /** A reply; a cached one carries its age, folded into an object body too. */
  datatype Reply = Reply(status: int, body: Json, age: Option<int>)

  function Served(entry: Entry, now: int): Reply
  {
    var age := now - entry.ts;
    var body :=
      if entry.body.Obj? then Obj(entry.body.fields["_cache_hit" := Bool(true)]["_cache_age_ms" := Num(age)])
      else entry.body;
    Reply(entry.status, body, Some(age))
  }

  lemma DropOne(store: Entries, key: string)
    requires key in store
    ensures |store - {key}| == |store| - 1
  {
    assert (store - {key}).Keys == store.Keys - {key};
    assert |store.Keys| == |store| && |(store - {key}).Keys| == |store - {key}|;
  }

  // ---------- Histories ----------

  datatype Event =
    | Stored(slot: Slot, status: int, body: Json, ttl: int, at: int)
    | Read(slot: Slot, at: int)
    | Evicted(platform: string, identity: Option<string>, capability: string, at: int)
    | Swept(at: int)
    | Cleared(at: int)

  function Step(cmp: Comparator, digest: Digest, store: Entries, event: Event): Entries
  {
    match event
    case Stored(slot, status, body, ttl, at) => AfterSet(store, Key(cmp, digest, slot), status, body, ttl, at)
    case Read(slot, at) => AfterGet(store, Key(cmp, digest, slot), at)
    case Evicted(platform, identity, capability, _) => AfterEvict(store, KeyPrefix(platform, identity, capability))
    case Swept(at) => AfterSweep(store, at)
    case Cleared(_) => map[]
  }

  function After(cmp: Comparator, digest: Digest, history: seq<Event>): Entries
  {
    if |history| == 0 then map[]
    else Step(cmp, digest, After(cmp, digest, history[..|history| - 1]), history[|history| - 1])
  }

  /** The latest accepted result of a slot that shares this one's key, not evicted or cleared since, of any age. */
  function Latest(cmp: Comparator, history: seq<Event>, slot: Slot): Option<Entry>
  {
    if |history| == 0 then None
    else
      var before := Latest(cmp, history[..|history| - 1], slot);
      match history[|history| - 1]
      case Stored(s, status, body, ttl, at) =>
        if Accepted(status, body, ttl) && SharesKey(cmp, s, slot) then Some(Entry(body, status, at, ttl)) else before
      case Read(_, _) => before
      case Evicted(platform, identity, capability, _) =>
        if Reaches(platform, identity, capability, slot) then None else before
      case Swept(_) => before
      case Cleared(_) => None
  }

  function Fresh(entry: Option<Entry>, now: int): Option<Entry>
  {
    if entry.Some? && !Expired(entry.value, now) then entry else None
  }

  /** Since the latest result was stored, a read of the slot or a sweep has seen it expired. */
  predicate SeenExpired(cmp: Comparator, history: seq<Event>, slot: Slot)
  {
    |history| > 0 &&
    var before := history[..|history| - 1];
    var gone := Latest(cmp, before, slot).Some? && Expired(Latest(cmp, before, slot).value, history[|history| - 1].at);
    match history[|history| - 1]
    case Stored(s, status, body, ttl, _) =>
      !(Accepted(status, body, ttl) && SharesKey(cmp, s, slot)) && SeenExpired(cmp, before, slot)
    case Read(s, _) => SeenExpired(cmp, before, slot) || (SharesKey(cmp, s, slot) && gone)
    case Evicted(platform, identity, capability, _) =>
      !Reaches(platform, identity, capability, slot) && SeenExpired(cmp, before, slot)
    case Swept(_) => SeenExpired(cmp, before, slot) || gone
    case Cleared(_) => false
  }

  function Lookup(store: Entries, key: string): Option<Entry>
  {
    if key in store then Some(store[key]) else None
  }

  lemma StepAtKey(cmp: Comparator, digest: Digest, store: Entries, event: Event, slot: Slot)
    requires WeakOrder(cmp) && TellsApart(digest)
    ensures var was, now := Lookup(store, Key(cmp, digest, slot)),
                        Lookup(Step(cmp, digest, store, event), Key(cmp, digest, slot));
            now == match event
                   case Stored(s, status, body, ttl, at) =>
                     if Accepted(status, body, ttl) && SharesKey(cmp, s, slot) then Some(Entry(body, status, at, ttl))
                     else was
                   case Read(s, at) => if SharesKey(cmp, s, slot) then Fresh(was, at) else was
                   case Evicted(platform, identity, capability, _) =>
                     if Reaches(platform, identity, capability, slot) then None else was
                   case Swept(at) => Fresh(was, at)
                   case Cleared(_) => None
  {
    match event
    case Stored(s, _, _, _, _) => KeyShared(cmp, digest, s, slot);
    case Read(s, _) => KeyShared(cmp, digest, s, slot);
    case Evicted(platform, identity, capability, _) => PrefixReaches(cmp, digest, platform, identity, capability, slot);
    case _ =>
  }

  lemma {:induction false} MapHoldsLatest(cmp: Comparator, digest: Digest, history: seq<Event>, slot: Slot)
    requires WeakOrder(cmp) && TellsApart(digest)
    ensures Lookup(After(cmp, digest, history), Key(cmp, digest, slot)) ==
            if SeenExpired(cmp, history, slot) then None else Latest(cmp, history, slot)
    decreases |history|
  {
    if |history| > 0 {
      var n := |history| - 1;
      MapHoldsLatest(cmp, digest, history[..n], slot);
      StepAtKey(cmp, digest, After(cmp, digest, history[..n]), history[n], slot);
    }
  }

  /**
    Whatever the clock does and the names hold, a read gives the latest accepted result of a slot that shares
    its key and has not been evicted, if it is still fresh, unless it was seen expired before.
   */
  lemma GetExact(cmp: Comparator, digest: Digest, history: seq<Event>, slot: Slot, now: int)
    requires WeakOrder(cmp) && TellsApart(digest)
    ensures var latest := Latest(cmp, history, slot);
            Found(After(cmp, digest, history), Key(cmp, digest, slot), now) == Fresh(latest, now) <==>
            !(Fresh(latest, now).Some? && SeenExpired(cmp, history, slot))
  {
    MapHoldsLatest(cmp, digest, history, slot);
  }

  /** The clock never goes back, up to the present. */
  predicate Orderly(history: seq<Event>, now: int)
  {
    && (forall i :: 0 <= i < |history| ==> history[i].at <= now)
    && (forall i, j :: 0 <= i < j < |history| ==> history[i].at <= history[j].at)
  }

  lemma {:induction false} ExpiredStaysExpired(cmp: Comparator, history: seq<Event>, slot: Slot, now: int)
    requires Orderly(history, now) && SeenExpired(cmp, history, slot)
    ensures Latest(cmp, history, slot).Some? && Expired(Latest(cmp, history, slot).value, now)
    decreases |history|
  {
    var n := |history| - 1;
    if SeenExpired(cmp, history[..n], slot) {
      ExpiredStaysExpired(cmp, history[..n], slot, now);
    }
  }

  /** With a clock that never goes back, a read gives exactly the latest result that is still fresh. */
  lemma GetIsLatest(cmp: Comparator, digest: Digest, history: seq<Event>, slot: Slot, now: int)
    requires WeakOrder(cmp) && TellsApart(digest) && Orderly(history, now)
    ensures Found(After(cmp, digest, history), Key(cmp, digest, slot), now) == Fresh(Latest(cmp, history, slot), now)
  {
    GetExact(cmp, digest, history, slot, now);
    if SeenExpired(cmp, history, slot) {
      ExpiredStaysExpired(cmp, history, slot, now);
    }
  }

  function Writes(history: seq<Event>): seq<Event>
  {
    if |history| == 0 then []
    else
      var last := history[|history| - 1];
      Writes(history[..|history| - 1]) + (if last.Read? || last.Swept? then [] else [last])
  }

  lemma {:induction false} LatestOfWrites(cmp: Comparator, history: seq<Event>, slot: Slot)
    ensures Latest(cmp, Writes(history), slot) == Latest(cmp, history, slot)
  {
    if |history| > 0 {
      var n := |history| - 1;
      LatestOfWrites(cmp, history[..n], slot);
      var last := history[n];
      if !last.Read? && !last.Swept? {
        assert Writes(history)[..|Writes(history)| - 1] == Writes(history[..n]);
      } else {
        assert Writes(history) == Writes(history[..n]);
      }
    }
  }

  /** Sweeps and reads, with their evictions, make no difference to any later read. */
  lemma SweepsAndReadsAreInvisible(
    cmp: Comparator, digest: Digest, a: seq<Event>, b: seq<Event>, slot: Slot, now: int)
    requires WeakOrder(cmp) && TellsApart(digest) && Orderly(a, now) && Orderly(b, now) && Writes(a) == Writes(b)
    ensures Found(After(cmp, digest, a), Key(cmp, digest, slot), now) ==
            Found(After(cmp, digest, b), Key(cmp, digest, slot), now)
  {
    GetIsLatest(cmp, digest, a, slot, now);
    GetIsLatest(cmp, digest, b, slot, now);
    LatestOfWrites(cmp, a, slot);
    LatestOfWrites(cmp, b, slot);
  }

  /** Nothing that the caller must act on is ever served, on any history and for any clock and names. */
  lemma {:induction false} FailuresAreNeverServed(cmp: Comparator, digest: Digest, history: seq<Event>, key: string,
                                                  now: int)
    ensures var hit := Found(After(cmp, digest, history), key, now);
            hit.Some? ==> IsCacheable(hit.value.status, hit.value.body) && now < hit.value.ts + hit.value.ttl
    decreases |history|
  {
    if |history| > 0 {
      FailuresAreNeverServed(cmp, digest, history[..|history| - 1], key, now);
    }
  }

  /** When the clock goes back, a read can have thrown away what is fresh again. */
  lemma ClockMustNotGoBack(cmp: Comparator, digest: Digest)
    ensures var slot := Slot("site", None, "list", None);
            var history := [Stored(slot, 200, Null, 1_000, 0), Read(slot, 2_000)];
            Latest(cmp, history, slot) == Some(Entry(Null, 200, 0, 1_000)) &&
            Fresh(Latest(cmp, history, slot), 500).Some? &&
            Found(After(cmp, digest, history), Key(cmp, digest, slot), 500).None?
  {
    var slot := Slot("site", None, "list", None);
    var key := Key(cmp, digest, slot);
    var stored := Stored(slot, 200, Null, 1_000, 0);
    var history := [stored, Read(slot, 2_000)];
    assert history[..1] == [stored] && [stored][..0] == [];
    var entry := Entry(Null, 200, 0, 1_000);
    assert After(cmp, digest, [stored]) == map[key := entry];
    assert Latest(cmp, [stored], slot) == Some(entry);
    assert After(cmp, digest, history) == AfterGet(map[key := entry], key, 2_000);
  }
}
