/**
  Keyset pagination in the abstract: a walk reads one stretch of keys after another, each from
  the set of keys present at that moment and each beyond the mark the previous stretch left.
 */
module KeysetWalk {
  import opened Wrappers

  /** A strict total order on the keys that matter. */
  ghost predicate StrictTotal<K(!new)>(lt: (K, K) -> bool, keys: set<K>)
  {
    && (forall a, b :: a in keys && b in keys ==> lt(a, b) || a == b || lt(b, a))
    && (forall a, b :: a in keys && b in keys && lt(a, b) ==> !lt(b, a))
    && (forall a, b, c :: a in keys && b in keys && c in keys && lt(a, b) && lt(b, c) ==> lt(a, c))
  }

  /** What one page read: the keys present, the mark it started from, the keys it lists and the mark it leaves. */
  datatype Stretch<K> = Stretch(present: set<K>, from: Option<K>, keys: seq<K>, to: Option<K>)

  ghost predicate Ascending<K>(lt: (K, K) -> bool, keys: seq<K>)
  {
    forall i, j :: 0 <= i < j < |keys| ==> lt(keys[i], keys[j])
  }

  predicate Beyond<K>(lt: (K, K) -> bool, mark: Option<K>, key: K)
  {
    mark.Some? ==> lt(mark.value, key)
  }

  /** The stretch lists, in order, everything present between its two marks; a mark left behind is its last key. */
  ghost predicate Covers<K(!new)>(lt: (K, K) -> bool, s: Stretch<K>)
  {
    && Ascending(lt, s.keys)
    && (forall key :: key in s.keys ==> key in s.present && Beyond(lt, s.from, key))
    && (s.to.Some? ==> s.keys != [] && s.to.value == s.keys[|s.keys| - 1])
    && (forall key :: key in s.present && Beyond(lt, s.from, key) ==>
          key in s.keys || (s.to.Some? && lt(s.to.value, key)))
  }

  predicate Linked<K(==)>(walk: seq<Stretch<K>>, i: nat)
    requires 0 < i < |walk|
  {
    walk[i - 1].to.Some? && walk[i].from == walk[i - 1].to
  }

  lemma PrefixIsWalk<K(!new)>(lt: (K, K) -> bool, walk: seq<Stretch<K>>, n: nat)
    requires IsWalk(lt, walk) && n <= |walk|
    ensures IsWalk(lt, walk[..n])
  {
    forall i | 0 < i < n ensures Linked(walk[..n], i) {
      assert Linked(walk, i);
    }
  }

  /** Each stretch covers and starts where the one before it left its mark. */
  ghost predicate IsWalk<K(!new)>(lt: (K, K) -> bool, walk: seq<Stretch<K>>)
  {
    && (forall i :: 0 <= i < |walk| ==> Covers(lt, walk[i]))
    && (walk != [] ==> walk[0].from.None?)
    && (forall i :: 0 < i < |walk| ==> Linked(walk, i))
  }

  function Listed<K>(walk: seq<Stretch<K>>): seq<K>
  {
    if walk == [] then [] else Listed(walk[..|walk| - 1]) + walk[|walk| - 1].keys
  }

  /** Only these keys are ever present. */
  ghost predicate Within<K>(walk: seq<Stretch<K>>, ever: set<K>)
  {
    forall i :: 0 <= i < |walk| ==> walk[i].present <= ever
  }

  function Elements<K>(keys: seq<K>): set<K>
  {
    set i | 0 <= i < |keys| :: keys[i]
  }

  lemma {:induction false} ListedWasPresent<K(!new)>(lt: (K, K) -> bool, walk: seq<Stretch<K>>, ever: set<K>)
    requires IsWalk(lt, walk) && Within(walk, ever)
    ensures Elements(Listed(walk)) <= ever
    decreases |walk|
  {
    if walk != [] {
      var n := |walk| - 1;
      assert Covers(lt, walk[n]) && walk[n].present <= ever;
      PrefixIsWalk(lt, walk, n);
      ListedWasPresent(lt, walk[..n], ever);
      var before := Listed(walk[..n]);
      forall i | 0 <= i < |Listed(walk)| ensures Listed(walk)[i] in ever {
        if i < |before| {
          assert before[i] in Elements(before);
        } else {
          assert walk[n].keys[i - |before|] in walk[n].keys;
        }
      }
    }
  }

  lemma MarkWasPresent<K(!new)>(lt: (K, K) -> bool, s: Stretch<K>)
    requires Covers(lt, s)
    ensures s.to.Some? ==> s.to.value in s.present
    ensures Elements(s.keys) <= s.present
  {
    forall i | 0 <= i < |s.keys| ensures s.keys[i] in s.present {
      assert s.keys[i] in s.keys;
    }
  }

  ghost predicate AtMostMark<K(!new)>(lt: (K, K) -> bool, keys: seq<K>, mark: K)
  {
    forall key :: key in keys ==> key == mark || lt(key, mark)
  }

  lemma AscendingConcat<K(!new)>(lt: (K, K) -> bool, a: seq<K>, b: seq<K>, mark: K, ever: set<K>)
    requires mark in ever && Elements(a) <= ever && Elements(b) <= ever
    requires StrictTotal(lt, ever) && Ascending(lt, a) && Ascending(lt, b)
    requires AtMostMark(lt, a, mark) && forall key :: key in b ==> lt(mark, key)
    ensures Ascending(lt, a + b)
  {
    forall i, j | 0 <= i < j < |a + b| ensures lt((a + b)[i], (a + b)[j]) {
      if i < |a| <= j {
        assert a[i] in a && b[j - |a|] in b;
        assert a[i] in Elements(a) && b[j - |a|] in Elements(b);
      }
    }
  }

  /** The mark a stretch leaves bounds what it lists, and what came before the mark it started from. */
  lemma MarkBounds<K(!new)>(lt: (K, K) -> bool, before: seq<K>, last: Stretch<K>, ever: set<K>)
    requires Covers(lt, last) && last.to.Some? && StrictTotal(lt, ever)
    requires Elements(before) <= ever && last.present <= ever
    requires last.from.None? ==> before == []
    requires last.from.Some? ==> last.from.value in ever && AtMostMark(lt, before, last.from.value)
    ensures AtMostMark(lt, before + last.keys, last.to.value)
  {
    MarkWasPresent(lt, last);
    assert last.to.value in last.keys;
    forall key | key in before + last.keys ensures key == last.to.value || lt(key, last.to.value) {
      if key in last.keys {
        var i :| 0 <= i < |last.keys| && last.keys[i] == key;
      } else {
        var i :| 0 <= i < |before| && before[i] == key;
        assert before[i] in Elements(before) && lt(last.from.value, last.to.value);
      }
    }
  }

  lemma {:induction false} WalkAscends<K(!new)>(lt: (K, K) -> bool, walk: seq<Stretch<K>>, ever: set<K>)
    requires IsWalk(lt, walk) && Within(walk, ever) && StrictTotal(lt, ever)
    ensures Ascending(lt, Listed(walk))
    ensures walk != [] && walk[|walk| - 1].to.Some? ==> AtMostMark(lt, Listed(walk), walk[|walk| - 1].to.value)
    decreases |walk|
  {
    if walk != [] {
      var n := |walk| - 1;
      var last := walk[n];
      PrefixIsWalk(lt, walk, n);
      WalkAscends(lt, walk[..n], ever);
      ListedWasPresent(lt, walk, ever);
      ListedWasPresent(lt, walk[..n], ever);
      var before := Listed(walk[..n]);
      assert Covers(lt, last) && last.present <= ever;
      if n == 0 {
        assert before + last.keys == last.keys;
      } else {
        assert Linked(walk, n);
        assert walk[n - 1].present <= ever && Covers(lt, walk[n - 1]);
        MarkWasPresent(lt, walk[n - 1]);
        MarkWasPresent(lt, last);
        AscendingConcat(lt, before, last.keys, last.from.value, ever);
      }
      if last.to.Some? {
        MarkBounds(lt, before, last, ever);
      }
    }
  }

  /** A key present at every stretch so far has been listed or lies beyond the mark left. */
  lemma {:induction false} WalkCovers<K(!new)>(lt: (K, K) -> bool, walk: seq<Stretch<K>>, key: K)
    requires IsWalk(lt, walk) && walk != [] && forall i :: 0 <= i < |walk| ==> key in walk[i].present
    ensures key in Listed(walk) || (walk[|walk| - 1].to.Some? && lt(walk[|walk| - 1].to.value, key))
    decreases |walk|
  {
    var n := |walk| - 1;
    assert Covers(lt, walk[n]);
    if n > 0 {
      assert Linked(walk, n);
      PrefixIsWalk(lt, walk, n);
      WalkCovers(lt, walk[..n], key);
    }
  }

  /**
    Exactly once under change: once no mark is left, the keys listed are strictly increasing and
    hold every key that was present throughout.
   */
  lemma WalkIsExactlyOnce<K(!new)>(lt: (K, K) -> bool, walk: seq<Stretch<K>>, ever: set<K>)
    requires Within(walk, ever) && StrictTotal(lt, ever)
    requires IsWalk(lt, walk) && walk != [] && walk[|walk| - 1].to.None?
    ensures Ascending(lt, Listed(walk))
    ensures forall key :: (forall i :: 0 <= i < |walk| ==> key in walk[i].present) ==> key in Listed(walk)
  {
    WalkAscends(lt, walk, ever);
    forall key | forall i :: 0 <= i < |walk| ==> key in walk[i].present ensures key in Listed(walk) {
      WalkCovers(lt, walk, key);
    }
  }

  lemma {:induction false} AscendingCount<K(!new)>(lt: (K, K) -> bool, keys: seq<K>, ever: set<K>)
    requires Elements(keys) <= ever && StrictTotal(lt, ever) && Ascending(lt, keys)
    ensures |Elements(keys)| == |keys|
    decreases |keys|
  {
    if keys != [] {
      var n := |keys| - 1;
      assert Elements(keys) == Elements(keys[..n]) + {keys[n]};
      AscendingCount(lt, keys[..n], ever);
    }
  }

  lemma {:induction false} StretchesAreNonEmpty<K(!new)>(lt: (K, K) -> bool, walk: seq<Stretch<K>>)
    requires IsWalk(lt, walk) && walk != []
    ensures |Listed(walk)| >= |walk| - 1
    ensures walk[|walk| - 1].to.Some? ==> |Listed(walk)| >= |walk|
    decreases |walk|
  {
    var n := |walk| - 1;
    assert Covers(lt, walk[n]);
    if n > 0 {
      assert Linked(walk, n);
      PrefixIsWalk(lt, walk, n);
      StretchesAreNonEmpty(lt, walk[..n]);
    }
  }

  lemma {:induction false} SubsetSize<K>(a: set<K>, b: set<K>)
    requires a <= b
    ensures |a| <= |b|
    decreases a
  {
    if a != {} {
      var x :| x in a;
      SubsetSize(a - {x}, b - {x});
    }
  }

  /** A walk has at most one stretch more than there are keys that were ever present. */
  lemma WalkTerminates<K(!new)>(lt: (K, K) -> bool, walk: seq<Stretch<K>>, ever: set<K>)
    requires Within(walk, ever) && StrictTotal(lt, ever) && IsWalk(lt, walk)
    ensures |walk| <= |ever| + 1
  {
    if walk != [] {
      StretchesAreNonEmpty(lt, walk);
      WalkAscends(lt, walk, ever);
      ListedWasPresent(lt, walk, ever);
      AscendingCount(lt, Listed(walk), ever);
      SubsetSize(Elements(Listed(walk)), ever);
    }
  }
}
