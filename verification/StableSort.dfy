/**
  Sorting distinct names with a comparator that may tie some of them, as `Array.prototype.sort` does it
  (section 23.1.3.30 of ECMA-262): names that tie stay in the order in which they came.
 */
module StableSort {
  import opened Text

  type Comparator = (string, string) -> int

  /** A consistent comparator; names may tie. */
  ghost predicate WeakOrder(cmp: Comparator)
  {
    && (forall a, b :: cmp(a, b) < 0 <==> cmp(b, a) > 0)
    && (forall a, b, c :: cmp(a, b) <= 0 && cmp(b, c) <= 0 ==> cmp(a, c) <= 0)
  }

  function InsertName(cmp: Comparator, name: string, sorted: seq<string>): seq<string>
  {
    if |sorted| == 0 || cmp(name, sorted[0]) <= 0 then [name] + sorted
    else [sorted[0]] + InsertName(cmp, name, sorted[1..])
  }

  function Sort(cmp: Comparator, names: seq<string>): seq<string>
  {
    if |names| == 0 then [] else InsertName(cmp, names[0], Sort(cmp, names[1..]))
  }

  predicate Before(names: seq<string>, a: string, b: string)
  {
    exists i, j :: 0 <= i < j < |names| && names[i] == a && names[j] == b
  }

  predicate Precedes(cmp: Comparator, names: seq<string>, a: string, b: string)
  {
    cmp(a, b) < 0 || (cmp(a, b) == 0 && Before(names, a, b))
  }

  predicate IsStable(cmp: Comparator, names: seq<string>, sorted: seq<string>)
  {
    forall i, j :: 0 <= i < j < |sorted| ==> Precedes(cmp, names, sorted[i], sorted[j])
  }

  predicate SameNames(a: seq<string>, b: seq<string>)
  {
    (forall n :: n in a ==> n in b) && (forall n :: n in b ==> n in a)
  }

  /** Names that the comparator ties come in the same order. */
  predicate SameTies(cmp: Comparator, p: seq<string>, q: seq<string>)
  {
    forall a, b :: a in p && b in p && cmp(a, b) == 0 ==> (Before(p, a, b) <==> Before(q, a, b))
  }

  lemma {:induction false} InsertIsStable(cmp: Comparator, names: seq<string>, sorted: seq<string>)
    requires WeakOrder(cmp) && |names| > 0 && IsStable(cmp, names, sorted)
    requires forall n :: n in sorted ==> n in names[1..]
    ensures IsStable(cmp, names, InsertName(cmp, names[0], sorted))
    ensures forall n :: n in InsertName(cmp, names[0], sorted) <==> n == names[0] || n in sorted
    decreases |sorted|
  {
    var name := names[0];
    if |sorted| > 0 {
      var head := sorted[0];
      assert sorted == [head] + sorted[1..];
      if cmp(name, head) <= 0 {
        forall j | 0 <= j < |sorted| ensures Precedes(cmp, names, name, sorted[j]) {
          assert j > 0 ==> Precedes(cmp, names, head, sorted[j]);
          assert sorted[j] in names[1..];
          var k :| 0 <= k < |names[1..]| && names[1..][k] == sorted[j];
          assert names[k + 1] == sorted[j];
        }
      } else {
        InsertIsStable(cmp, names, sorted[1..]);
        var rest := InsertName(cmp, name, sorted[1..]);
        forall j | 0 <= j < |rest| ensures Precedes(cmp, names, head, rest[j]) {
          assert rest[j] in rest;
          if rest[j] != name {
            var k :| 0 <= k < |sorted[1..]| && sorted[1..][k] == rest[j];
            assert sorted[k + 1] == rest[j];
          }
        }
      }
    }
  }

  lemma BeforeInRest(names: seq<string>, a: string, b: string)
    requires |names| > 0 && Before(names[1..], a, b)
    ensures Before(names, a, b)
  {
    var i, j :| 0 <= i < j < |names[1..]| && names[1..][i] == a && names[1..][j] == b;
    assert names[i + 1] == a && names[j + 1] == b;
  }

  /** Sorting puts every name in its place, tied names in the order they came. */
  lemma {:induction false} SortIsStable(cmp: Comparator, names: seq<string>)
    requires WeakOrder(cmp)
    ensures IsStable(cmp, names, Sort(cmp, names)) && SameNames(Sort(cmp, names), names)
    decreases |names|
  {
    if |names| > 0 {
      var rest := names[1..];
      SortIsStable(cmp, rest);
      var sorted := Sort(cmp, rest);
      forall i, j | 0 <= i < j < |sorted| ensures Precedes(cmp, names, sorted[i], sorted[j]) {
        assert Precedes(cmp, rest, sorted[i], sorted[j]);
        if Before(rest, sorted[i], sorted[j]) {
          BeforeInRest(names, sorted[i], sorted[j]);
        }
      }
      InsertIsStable(cmp, names, sorted);
      assert names == [names[0]] + rest;
    }
  }

  lemma PrecedesOneWay(cmp: Comparator, names: seq<string>, a: string, b: string)
    requires WeakOrder(cmp) && Distinct(names) && Precedes(cmp, names, a, b)
    ensures !Precedes(cmp, names, b, a) && a != b
  {
  }

  lemma StableIsDistinct(cmp: Comparator, names: seq<string>, sorted: seq<string>)
    requires WeakOrder(cmp) && Distinct(names) && IsStable(cmp, names, sorted)
    ensures Distinct(sorted)
  {
    forall i, j | 0 <= i < j < |sorted| ensures sorted[i] != sorted[j] {
      PrecedesOneWay(cmp, names, sorted[i], sorted[j]);
    }
  }

  lemma FirstOfBoth(cmp: Comparator, names: seq<string>, a: seq<string>, b: seq<string>)
    requires WeakOrder(cmp) && Distinct(names) && IsStable(cmp, names, a) && IsStable(cmp, names, b)
    requires |a| > 0 && |b| > 0 && a[0] in b && b[0] in a
    ensures a[0] == b[0]
  {
    var k :| 0 <= k < |a| && a[k] == b[0];
    var l :| 0 <= l < |b| && b[l] == a[0];
    assert l > 0 ==> Precedes(cmp, names, b[0], b[l]);
    if k > 0 {
      PrecedesOneWay(cmp, names, a[0], a[k]);
    }
  }

  lemma {:induction false} StableIsUnique(cmp: Comparator, names: seq<string>, a: seq<string>, b: seq<string>)
    requires WeakOrder(cmp) && Distinct(names) && IsStable(cmp, names, a) && IsStable(cmp, names, b) && SameNames(a, b)
    ensures a == b
    decreases |a|
  {
    assert (|a| > 0 ==> a[0] in b) && (|b| > 0 ==> b[0] in a);
    if |a| > 0 && |b| > 0 {
      FirstOfBoth(cmp, names, a, b);
      StableIsDistinct(cmp, names, a);
      StableIsDistinct(cmp, names, b);
      assert a == [a[0]] + a[1..] && b == [b[0]] + b[1..];
      assert a[0] !in a[1..] && b[0] !in b[1..];
      forall n ensures n in a[1..] <==> n in b[1..] {
        assert n in a <==> n == a[0] || n in a[1..];
        assert n in b <==> n == b[0] || n in b[1..];
      }
      StableIsUnique(cmp, names, a[1..], b[1..]);
    }
  }

  /** Two orders of the same names are sorted alike if and only if the names that tie come in the same order. */
  lemma SortExact(cmp: Comparator, p: seq<string>, q: seq<string>)
    requires WeakOrder(cmp) && Distinct(p) && Distinct(q) && SameNames(p, q)
    ensures Sort(cmp, p) == Sort(cmp, q) <==> SameTies(cmp, p, q)
  {
    var s, t := Sort(cmp, p), Sort(cmp, q);
    SortIsStable(cmp, p);
    SortIsStable(cmp, q);
    if SameTies(cmp, p, q) {
      forall i, j | 0 <= i < j < |t| ensures Precedes(cmp, p, t[i], t[j]) {
        assert Precedes(cmp, q, t[i], t[j]) && t[i] in t && t[j] in t;
      }
      StableIsUnique(cmp, p, s, t);
    }
    if s == t {
      forall a, b | a in p && b in p && cmp(a, b) == 0 ensures Before(p, a, b) <==> Before(q, a, b) {
        TiesShow(cmp, p, s, a, b);
        TiesShow(cmp, q, s, a, b);
      }
    }
  }

  /** The sorted names show in which order two tied names came. */
  lemma TiesShow(cmp: Comparator, names: seq<string>, sorted: seq<string>, a: string, b: string)
    requires WeakOrder(cmp) && Distinct(names) && IsStable(cmp, names, sorted) && SameNames(sorted, names)
    requires a in names && b in names && cmp(a, b) == 0
    ensures Before(names, a, b) <==> Before(sorted, a, b)
  {
    if Before(sorted, a, b) {
      var i, j :| 0 <= i < j < |sorted| && sorted[i] == a && sorted[j] == b;
      assert Precedes(cmp, names, a, b);
    }
    if Before(names, a, b) {
      PrecedesOneWay(cmp, names, a, b);
      var i :| 0 <= i < |sorted| && sorted[i] == a;
      var j :| 0 <= j < |sorted| && sorted[j] == b;
      assert j < i ==> Precedes(cmp, names, b, a);
    }
  }
}
