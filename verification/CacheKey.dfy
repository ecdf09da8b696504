/**
  Keys of the capability cache (cacheKey and stableArgsHash in src/cache/capability-cache.ts):
  names joined by "::" and a digest of the arguments' JSON text. The text is printed with the sorted
  top-level names as an allowlist (section 25.5.2 of ECMA-262), which filters nested objects too.
  The collation that sorts the names, which may tie some, and the digest are parameters.
 */
module CacheKey {
  import opened Wrappers
  import opened Text
  import opened AckTypes
  import opened JsonText
  import opened StableSort

  type Digest = string -> string

  /** An object: its names in the order of `Object.keys`, each once, and what they hold. */
  datatype Record = Record(names: seq<string>, fields: map<string, Json>)

  predicate NamesItsFields(record: Record)
  {
    Distinct(record.names) && NamesOf(record.names) == record.fields.Keys
  }

  type Arguments = record: Record | NamesItsFields(record) witness Record([], map[])

  type Args = Option<Arguments>

  function NamesOf(names: seq<string>): set<string>
  {
    set n | n in names
  }

  predicate NoColon(s: string)
  {
    ':' !in s
  }

  /** No two texts collide, and no digest reads as the mark for absent arguments. */
  ghost predicate TellsApart(digest: Digest)
  {
    && (forall s, t :: digest(s) == digest(t) ==> s == t)
    && (forall s :: digest(s) != "noargs" && NoColon(digest(s)))
  }

  // ---------- The allowlist ----------

  function Allow(names: seq<string>, v: Json): Tree
    decreases v
  {
    match v
    case Null => TNull
    case Bool(b) => TBool(b)
    case Num(n) => TNum(n)
    case Dec(text) => TDec(text)
    case Str(s) => TStr(s)
    case Arr(items) => TArr(seq(|items|, i requires 0 <= i < |items| => Allow(names, items[i])))
    case Obj(_) => TObj(AllowMembers(names, names, v))
  }

  function AllowMembers(names: seq<string>, rest: seq<string>, v: Json): seq<Member>
    requires v.Obj?
    decreases v, |rest|
  {
    if |rest| == 0 then []
    else
      (if rest[0] in v.fields then [Member(rest[0], Allow(names, v.fields[rest[0]]))] else []) +
      AllowMembers(names, rest[1..], v)
  }

  /** What the allowlist keeps of a value. */
  function Project(keys: set<string>, v: Json): Json
  {
    match v
    case Arr(items) => Arr(seq(|items|, i requires 0 <= i < |items| => Project(keys, items[i])))
    case Obj(fields) => Obj(map k | k in fields && k in keys :: Project(keys, fields[k]))
    case _ => v
  }

  lemma {:induction false} MembersFromProjection(names: seq<string>, rest: seq<string>, v: Json)
    requires v.Obj? && forall n :: n in rest ==> n in names
    ensures AllowMembers(names, rest, v) == AllowMembers(names, rest, Project(NamesOf(names), v))
    decreases v, |rest|
  {
    if |rest| > 0 {
      assert rest[0] in rest && rest[0] in NamesOf(names);
      if rest[0] in v.fields {
        AllowFromProjection(names, v.fields[rest[0]]);
      }
      MembersFromProjection(names, rest[1..], v);
    }
  }

  lemma {:induction false} AllowFromProjection(names: seq<string>, v: Json)
    ensures Allow(names, v) == Allow(names, Project(NamesOf(names), v))
    decreases v
  {
    match v
    case Arr(items) =>
      forall i | 0 <= i < |items| ensures Allow(names, items[i]) == Allow(names, Project(NamesOf(names), items[i])) {
        AllowFromProjection(names, items[i]);
      }
    case Obj(_) => MembersFromProjection(names, names, v);
    case _ =>
  }

  lemma {:induction false} MembersAreNamed(names: seq<string>, rest: seq<string>, v: Json, i: nat)
    requires v.Obj? && i < |AllowMembers(names, rest, v)|
    ensures AllowMembers(names, rest, v)[i].name in rest
    decreases |rest|
  {
    var here := if rest[0] in v.fields then 1 else 0;
    if i >= here {
      MembersAreNamed(names, rest[1..], v, i - here);
    }
  }

  /** Members with distinct names say which names are present and what they hold. */
  lemma {:induction false} MembersTell(names: seq<string>, rest: seq<string>, v: Json, w: Json, n: string)
    requires v.Obj? && w.Obj? && Distinct(rest) && n in rest
    requires AllowMembers(names, rest, v) == AllowMembers(names, rest, w)
    ensures n in v.fields <==> n in w.fields
    ensures n in v.fields ==> Allow(names, v.fields[n]) == Allow(names, w.fields[n])
    decreases |rest|
  {
    FirstMember(names, rest, v);
    FirstMember(names, rest, w);
    var p, q := AllowMembers(names, rest, v), AllowMembers(names, rest, w);
    assert AllowMembers(names, rest[1..], v) == if rest[0] in v.fields then p[1..] else p;
    assert AllowMembers(names, rest[1..], w) == if rest[0] in w.fields then q[1..] else q;
    if n != rest[0] {
      MembersTell(names, rest[1..], v, w, n);
    }
  }

  lemma FirstMember(names: seq<string>, rest: seq<string>, v: Json)
    requires v.Obj? && |rest| > 0 && Distinct(rest)
    ensures var p := AllowMembers(names, rest, v);
            rest[0] in v.fields <==> |p| > 0 && p[0].name == rest[0]
    ensures rest[0] in v.fields ==> AllowMembers(names, rest, v)[0].value == Allow(names, v.fields[rest[0]])
  {
    if rest[0] !in v.fields && |AllowMembers(names, rest, v)| > 0 {
      MembersAreNamed(names, rest[1..], v, 0);
      assert AllowMembers(names, rest, v) == AllowMembers(names, rest[1..], v);
      assert rest[0] !in rest[1..];
    }
  }

  lemma {:induction false} AllowTellsProjection(names: seq<string>, v: Json, w: Json)
    requires Distinct(names) && Allow(names, v) == Allow(names, w)
    ensures Project(NamesOf(names), v) == Project(NamesOf(names), w)
    decreases v
  {
    match v
    case Arr(items) =>
      assert |items| == |Allow(names, v).items| == |Allow(names, w).items| == |w.items|;
      forall i | 0 <= i < |items| ensures Project(NamesOf(names), items[i]) == Project(NamesOf(names), w.items[i]) {
        assert Allow(names, v).items[i] == Allow(names, w).items[i];
        AllowTellsProjection(names, items[i], w.items[i]);
      }
    case Obj(fields) =>
      forall n | n in names ensures n in fields <==> n in w.fields {
        MembersTell(names, names, v, w, n);
      }
      forall n | n in names && n in fields
        ensures Project(NamesOf(names), fields[n]) == Project(NamesOf(names), w.fields[n])
      {
        MembersTell(names, names, v, w, n);
        AllowTellsProjection(names, fields[n], w.fields[n]);
      }
    case _ =>
  }

  // ---------- Arguments ----------

  function Fields(args: Args): map<string, Json>
  {
    if args.None? then map[] else args.value.fields
  }

  function Names(args: Args): seq<string>
  {
    if args.None? then [] else args.value.names
  }

  function StableArgsHash(cmp: Comparator, digest: Digest, args: Args): string
  {
    if |Fields(args)| == 0 then "noargs"
    else digest(Print(Allow(Sort(cmp, Names(args)), Obj(Fields(args)))))
  }

  /** The arguments agree on all that their own top-level names let through, and on the order of the names that tie. */
  predicate SameArgs(cmp: Comparator, a: Args, b: Args)
  {
    if |Fields(a)| == 0 || |Fields(b)| == 0 then |Fields(a)| == |Fields(b)|
    else
      && Project(Fields(a).Keys, Obj(Fields(a))) == Project(Fields(b).Keys, Obj(Fields(b)))
      && SameTies(cmp, Names(a), Names(b))
  }

  lemma SortedNames(cmp: Comparator, args: Args)
    requires WeakOrder(cmp)
    ensures Distinct(Names(args)) && NamesOf(Names(args)) == Fields(args).Keys
    ensures Distinct(Sort(cmp, Names(args))) && NamesOf(Sort(cmp, Names(args))) == Fields(args).Keys
  {
    SortIsStable(cmp, Names(args));
    StableIsDistinct(cmp, Names(args), Sort(cmp, Names(args)));
  }

  lemma {:induction false} AllMembersPresent(names: seq<string>, rest: seq<string>, v: Json)
    requires v.Obj? && forall n :: n in rest ==> n in v.fields
    ensures |AllowMembers(names, rest, v)| == |rest|
    ensures forall i :: 0 <= i < |rest| ==> AllowMembers(names, rest, v)[i].name == rest[i]
    decreases |rest|
  {
    if |rest| > 0 {
      assert rest[0] in rest;
      AllMembersPresent(names, rest[1..], v);
    }
  }

  lemma SameTextSameNames(p: seq<string>, a: map<string, Json>, q: seq<string>, b: map<string, Json>)
    requires NamesOf(p) == a.Keys && NamesOf(q) == b.Keys && Allow(p, Obj(a)) == Allow(q, Obj(b))
    ensures p == q
  {
    AllMembersPresent(p, p, Obj(a));
    AllMembersPresent(q, q, Obj(b));
    var x, y := AllowMembers(p, p, Obj(a)), AllowMembers(q, q, Obj(b));
    assert x == y;
    assert forall i :: 0 <= i < |p| ==> p[i] == x[i].name == y[i].name == q[i];
  }

  lemma EqualProjectionsEqualNames(a: map<string, Json>, b: map<string, Json>)
    requires Project(a.Keys, Obj(a)) == Project(b.Keys, Obj(b))
    ensures a.Keys == b.Keys
  {
    assert Project(a.Keys, Obj(a)).fields.Keys == a.Keys && Project(b.Keys, Obj(b)).fields.Keys == b.Keys;
  }

  lemma SameNamesWhenEqual(p: seq<string>, q: seq<string>)
    requires NamesOf(p) == NamesOf(q)
    ensures SameNames(p, q)
  {
    forall n ensures n in p <==> n in q {
      assert n in NamesOf(p) <==> n in NamesOf(q);
    }
  }

  /**
    Two argument objects share a hash exactly when their projections agree, so that nested names absent from
    the top level do not count, and the names that tie come in the same order, in which the sort leaves them.
   */
  lemma ArgsShareExact(cmp: Comparator, digest: Digest, a: Args, b: Args)
    requires WeakOrder(cmp) && TellsApart(digest)
    ensures StableArgsHash(cmp, digest, a) == StableArgsHash(cmp, digest, b) <==> SameArgs(cmp, a, b)
  {
    var x, y := Fields(a), Fields(b);
    if |x| > 0 && |y| > 0 {
      SortedNames(cmp, a);
      SortedNames(cmp, b);
      var p, q := Sort(cmp, Names(a)), Sort(cmp, Names(b));
      if x.Keys == y.Keys {
        SameNamesWhenEqual(Names(a), Names(b));
        SortExact(cmp, Names(a), Names(b));
      }
      if SameArgs(cmp, a, b) {
        EqualProjectionsEqualNames(x, y);
        AllowFromProjection(p, Obj(x));
        AllowFromProjection(q, Obj(y));
      }
      if StableArgsHash(cmp, digest, a) == StableArgsHash(cmp, digest, b) {
        PrintIsInjective(Allow(p, Obj(x)), Allow(q, Obj(y)));
        SameTextSameNames(p, x, q, y);
        AllowTellsProjection(p, Obj(x), Obj(y));
      }
    }
  }

  /** Every member name, at any depth, is one of these. */
  predicate Within(keys: set<string>, v: Json)
  {
    match v
    case Arr(items) => forall i :: 0 <= i < |items| ==> Within(keys, items[i])
    case Obj(fields) => forall k :: k in fields ==> k in keys && Within(keys, fields[k])
    case _ => true
  }

  lemma {:induction false} ProjectExact(keys: set<string>, v: Json)
    ensures Project(keys, v) == v <==> Within(keys, v)
    decreases v
  {
    match v
    case Arr(items) =>
      forall i | 0 <= i < |items| ensures Project(keys, items[i]) == items[i] <==> Within(keys, items[i]) {
        ProjectExact(keys, items[i]);
      }
      assert Project(keys, v).items == items <==> forall i :: 0 <= i < |items| ==> Project(keys, items[i]) == items[i];
    case Obj(fields) =>
      forall k | k in fields ensures Project(keys, fields[k]) == fields[k] <==> Within(keys, fields[k]) {
        ProjectExact(keys, fields[k]);
      }
      if Project(keys, v) == v {
        forall k | k in fields ensures k in keys && Within(keys, fields[k]) {
          assert k in Project(keys, v).fields;
        }
      }
    case _ =>
  }

  /**
    Arguments whose nested names all appear at the top level, flat ones above all, share a hash exactly
    when they are equal and the names that tie come in the same order.
   */
  lemma FlatArgsExact(cmp: Comparator, digest: Digest, a: Args, b: Args)
    requires WeakOrder(cmp) && TellsApart(digest)
    requires Within(Fields(a).Keys, Obj(Fields(a))) && Within(Fields(b).Keys, Obj(Fields(b)))
    ensures StableArgsHash(cmp, digest, a) == StableArgsHash(cmp, digest, b) <==>
            Fields(a) == Fields(b) && SameTies(cmp, Names(a), Names(b))
  {
    ArgsShareExact(cmp, digest, a, b);
    ProjectExact(Fields(a).Keys, Obj(Fields(a)));
    ProjectExact(Fields(b).Keys, Obj(Fields(b)));
    SortedNames(cmp, a);
    SortedNames(cmp, b);
    if |Fields(a)| == 0 && |Fields(b)| == 0 {
      assert Fields(a) == map[] == Fields(b);
      assert forall n :: n in Names(a) ==> n in NamesOf(Names(a));
    }
  }

  /** Two names that the collation ties: equal arguments that list them in either order have different hashes. */
  lemma TiedNamesSplit(cmp: Comparator, digest: Digest, x: string, y: string) returns (a: Args, b: Args)
    requires WeakOrder(cmp) && TellsApart(digest) && x != y && cmp(x, y) == 0
    ensures Fields(a) == Fields(b) && StableArgsHash(cmp, digest, a) != StableArgsHash(cmp, digest, b)
  {
    var fields: map<string, Json> := map[x := Null, y := Null];
    a, b := Some(Record([x, y], fields)), Some(Record([y, x], fields));
    var p, q := Names(a), Names(b);
    assert Before(p, x, y) by { assert p[0] == x && p[1] == y; }
    assert !Before(q, x, y);
    assert x in p && y in p;
    FlatArgsExact(cmp, digest, a, b);
  }

  function ById(n: int): map<string, Json>
  {
    map["query" := Obj(map["id" := Num(n)])]
  }

  lemma IdIsDropped(n: int)
    ensures Project({"query"}, Obj(ById(n))) == Obj(map["query" := Obj(map[])])
  {
    var none: map<string, Json> := map[];
    assert "id" != "query";
    assert Project({"query"}, Obj(map["id" := Num(n)])) == Obj(none);
    assert Project({"query"}, Obj(ById(n))).fields == map["query" := Obj(none)];
  }

  /** Two different requests that differ only below the top level share a hash. */
  lemma NestedNamesAreDropped(cmp: Comparator, digest: Digest) returns (a: Args, b: Args)
    requires WeakOrder(cmp) && TellsApart(digest)
    ensures Fields(a) != Fields(b) && StableArgsHash(cmp, digest, a) == StableArgsHash(cmp, digest, b)
  {
    a, b := Some(Record(["query"], ById(1))), Some(Record(["query"], ById(2)));
    assert ById(1)["query"].fields["id"] != ById(2)["query"].fields["id"];
    assert ById(1).Keys == {"query"} == ById(2).Keys;
    IdIsDropped(1);
    IdIsDropped(2);
    ArgsShareExact(cmp, digest, a, b);
  }

  // ---------- Keys ----------

  datatype Slot = Slot(platform: string, identity: Option<string>, capability: string, args: Args)

  function IdentityName(identity: Option<string>): string
  {
    if identity.None? || identity.value == "" then "default" else identity.value
  }

  function KeyPrefix(platform: string, identity: Option<string>, capability: string): string
  {
    platform + ("::" + (IdentityName(identity) + ("::" + (capability + "::"))))
  }

  function Key(cmp: Comparator, digest: Digest, slot: Slot): string
  {
    KeyPrefix(slot.platform, slot.identity, slot.capability) + StableArgsHash(cmp, digest, slot.args)
  }

  predicate ColonFree(platform: string, identity: Option<string>, capability: string)
  {
    NoColon(platform) && NoColon(IdentityName(identity)) && NoColon(capability)
  }

  predicate SameCapability(
    platform: string, identity: Option<string>, capability: string, slot: Slot)
  {
    platform == slot.platform && IdentityName(identity) == IdentityName(slot.identity) && capability == slot.capability
  }

  predicate SameSlot(cmp: Comparator, a: Slot, b: Slot)
  {
    SameCapability(a.platform, a.identity, a.capability, b) && SameArgs(cmp, a.args, b.args)
  }

  function PrefixOf(slot: Slot): string
  {
    KeyPrefix(slot.platform, slot.identity, slot.capability)
  }

  /** Slots that the cache cannot tell apart: their names read alike once joined. */
  predicate SharesKey(cmp: Comparator, a: Slot, b: Slot)
  {
    PrefixOf(a) == PrefixOf(b) && SameArgs(cmp, a.args, b.args)
  }

  /** An eviction that reaches the slot: the evicted capability's joined names start the slot's. */
  predicate Reaches(platform: string, identity: Option<string>, capability: string, slot: Slot)
  {
    KeyPrefix(platform, identity, capability) <= PrefixOf(slot)
  }

  lemma HashHasNoColon(cmp: Comparator, digest: Digest, args: Args)
    requires TellsApart(digest)
    ensures NoColon(StableArgsHash(cmp, digest, args))
  {
  }

  /** What ends in a colon cannot end inside a colon-free rest. */
  lemma EndsBefore(p: string, q: string, rest: string)
    requires |p| > 0 && p[|p| - 1] == ':' && NoColon(rest) && p <= q + rest
    ensures p <= q
  {
    var whole := q + rest;
    assert forall i :: |q| <= i < |whole| ==> whole[i] in rest;
    assert whole[|p| - 1] == ':';
  }

  /** Whatever the names hold, a prefix starts the keys of exactly the slots that it reaches. */
  lemma PrefixReaches(
    cmp: Comparator, digest: Digest, platform: string, identity: Option<string>, capability: string, slot: Slot)
    requires TellsApart(digest)
    ensures KeyPrefix(platform, identity, capability) <= Key(cmp, digest, slot) <==>
            Reaches(platform, identity, capability, slot)
  {
    HashHasNoColon(cmp, digest, slot.args);
    var p := KeyPrefix(platform, identity, capability);
    if p <= Key(cmp, digest, slot) {
      EndsBefore(p, PrefixOf(slot), StableArgsHash(cmp, digest, slot.args));
    }
  }

  /**
    Whatever the names hold, slots share a key exactly when their joined names and their arguments' hashes are
    the same.
   */
  lemma KeyShared(cmp: Comparator, digest: Digest, a: Slot, b: Slot)
    requires WeakOrder(cmp) && TellsApart(digest)
    ensures Key(cmp, digest, a) == Key(cmp, digest, b) <==> SharesKey(cmp, a, b)
  {
    ArgsShareExact(cmp, digest, a.args, b.args);
    var p, q := PrefixOf(a), PrefixOf(b);
    var x, y := StableArgsHash(cmp, digest, a.args), StableArgsHash(cmp, digest, b.args);
    if p + x == q + y {
      HashHasNoColon(cmp, digest, a.args);
      HashHasNoColon(cmp, digest, b.args);
      EndsBefore(p, q, y);
      EndsBefore(q, p, x);
      assert p == q && (p + x)[|p|..] == x && (q + y)[|q|..] == y;
    }
  }

  lemma CutAtColons(a: string, b: string, x: string, y: string)
    requires NoColon(a) && NoColon(b) && a + ("::" + x) == b + ("::" + y)
    ensures a == b && x == y
  {
    var left, right := a + ("::" + x), b + ("::" + y);
    assert left[|a|] == ':' && right[|b|] == ':';
    assert forall i :: 0 <= i < |a| ==> left[i] == a[i] && a[i] in a;
    assert forall i :: 0 <= i < |b| ==> right[i] == b[i] && b[i] in b;
    assert |a| == |b|;
    assert a == left[..|a|] && b == right[..|b|];
    assert x == left[|a| + 2..] && y == right[|b| + 2..];
  }

  lemma PrefixedRegroup(platform: string, identity: Option<string>, capability: string, rest: string)
    ensures KeyPrefix(platform, identity, capability) + rest ==
            platform + ("::" + (IdentityName(identity) + ("::" + (capability + ("::" + rest)))))
  {
    var i, c := IdentityName(identity), capability;
    assert (c + "::") + rest == c + ("::" + rest);
    assert ("::" + (c + "::")) + rest == "::" + (c + ("::" + rest));
    assert (i + ("::" + (c + "::"))) + rest == i + ("::" + (c + ("::" + rest)));
    assert ("::" + (i + ("::" + (c + "::")))) + rest == "::" + (i + ("::" + (c + ("::" + rest))));
  }

  lemma PrefixTells(p: string, i: Option<string>, c: string, x: string, q: string, j: Option<string>, d: string,
                    y: string)
    requires ColonFree(p, i, c) && ColonFree(q, j, d)
    requires KeyPrefix(p, i, c) + x == KeyPrefix(q, j, d) + y
    ensures p == q && IdentityName(i) == IdentityName(j) && c == d && x == y
  {
    PrefixedRegroup(p, i, c, x);
    PrefixedRegroup(q, j, d, y);
    var m, n := IdentityName(i), IdentityName(j);
    CutAtColons(p, q, m + ("::" + (c + ("::" + x))), n + ("::" + (d + ("::" + y))));
    CutAtColons(m, n, c + ("::" + x), d + ("::" + y));
    CutAtColons(c, d, x, y);
  }

  /**
    Without colons in the names, slots that share a key are the same capability of the same identity with the
    same arguments.
   */
  lemma ColonFreeShares(cmp: Comparator, a: Slot, b: Slot)
    requires ColonFree(a.platform, a.identity, a.capability) && ColonFree(b.platform, b.identity, b.capability)
    ensures SharesKey(cmp, a, b) <==> SameSlot(cmp, a, b)
  {
    if SharesKey(cmp, a, b) {
      assert PrefixOf(a) + "" == PrefixOf(b) + "";
      PrefixTells(a.platform, a.identity, a.capability, "", b.platform, b.identity, b.capability, "");
    }
  }

  /** Without colons in the names, an eviction reaches exactly the evicted capability's slots. */
  lemma ColonFreeReaches(platform: string, identity: Option<string>, capability: string, slot: Slot)
    requires ColonFree(platform, identity, capability) && ColonFree(slot.platform, slot.identity, slot.capability)
    ensures Reaches(platform, identity, capability, slot) <==> SameCapability(platform, identity, capability, slot)
  {
    var p, q := KeyPrefix(platform, identity, capability), PrefixOf(slot);
    if p <= q {
      assert p + q[|p|..] == q + "";
      PrefixTells(platform, identity, capability, q[|p|..], slot.platform, slot.identity, slot.capability, "");
    }
  }

  /** With a colon in a name, evicting one capability reaches another. */
  lemma ColonsConfuse(cmp: Comparator, digest: Digest)
    ensures var other := Slot("site", None, "list::all", None);
            !SameCapability("site", None, "list", other) && KeyPrefix("site", None, "list") <= Key(cmp, digest, other)
  {
    PrefixedRegroup("site", None, "list::all", "noargs");
    PrefixedRegroup("site", None, "list", "all::noargs");
    assert "list::all" + ("::" + "noargs") == "list" + ("::" + "all::noargs");
  }
}
