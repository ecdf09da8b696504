/**
  An insertion-ordered map that drops its oldest key once it exceeds a bound, as JavaScript code keeps one in
  a Map.
 */
module BoundedMemory {
  datatype Item<K, V> = Item(key: K, value: V)

  predicate Has<K(==), V>(items: seq<Item<K, V>>, key: K)
  {
    exists i :: 0 <= i < |items| && items[i].key == key
  }

  predicate DistinctKeys<K(==), V>(items: seq<Item<K, V>>)
  {
    forall i, j :: 0 <= i < j < |items| ==> items[i].key != items[j].key
  }

  /** `Map.get`. */
  function Get<K(==), V>(items: seq<Item<K, V>>, key: K): (value: V)
    requires Has(items, key)
    ensures Item(key, value) in items
  {
    if items[0].key == key then items[0].value
    else
      assert Has(items[1..], key) by {
        var i :| 0 <= i < |items| && items[i].key == key;
        assert items[1..][i - 1].key == key;
      }
      Get(items[1..], key)
  }

  /** `Map.set`: a key already present keeps its place. */
  function Put<K(==), V>(items: seq<Item<K, V>>, key: K, value: V): seq<Item<K, V>>
  {
    if |items| == 0 then [Item(key, value)]
    else if items[0].key == key then [Item(key, value)] + items[1..]
    else [items[0]] + Put(items[1..], key, value)
  }

  /** `Map.delete`. */
  function Without<K(==), V>(items: seq<Item<K, V>>, key: K): seq<Item<K, V>>
  {
    if |items| == 0 then []
    else (if items[0].key == key then [] else [items[0]]) + Without(items[1..], key)
  }

  function Trim<K, V>(items: seq<Item<K, V>>, bound: nat): seq<Item<K, V>>
  {
    if |items| > bound then items[1..] else items
  }

  lemma {:induction false} PutPlaces<K, V>(items: seq<Item<K, V>>, key: K, value: V, i: nat)
    requires DistinctKeys(items) && i < |Put(items, key, value)|
    ensures var put := Put(items, key, value);
            && |items| <= |put| <= |items| + 1
            && (i < |items| ==> put[i] == if items[i].key == key then Item(key, value) else items[i])
            && (i == |items| ==> put[i] == Item(key, value) && forall j :: 0 <= j < |items| ==> items[j].key != key)
            && (|put| == |items| ==> exists j :: 0 <= j < |items| && items[j].key == key)
    decreases |items|
  {
    if |items| > 0 && items[0].key != key {
      var rest := items[1..];
      assert Put(items, key, value)[1..] == Put(rest, key, value);
      PutPlaces(rest, key, value, if i == 0 then 0 else i - 1);
      if i == |items| {
        assert forall j :: 0 < j < |items| ==> items[j] == rest[j - 1];
      }
    }
  }

  /** Setting a key keeps keys distinct, and grows the map exactly when the key is new. */
  lemma PutExact<K, V>(items: seq<Item<K, V>>, key: K, value: V)
    requires DistinctKeys(items)
    ensures DistinctKeys(Put(items, key, value))
    ensures |Put(items, key, value)| == if Has(items, key) then |items| else |items| + 1
  {
    var put := Put(items, key, value);
    PutPlaces(items, key, value, 0);
    if |put| == |items| + 1 {
      PutPlaces(items, key, value, |items|);
    }
    forall i, j | 0 <= i < j < |put| ensures put[i].key != put[j].key {
      PutPlaces(items, key, value, i);
      PutPlaces(items, key, value, j);
    }
  }

  lemma {:induction false} PutFresh<K, V>(items: seq<Item<K, V>>, key: K, value: V)
    requires forall i :: 0 <= i < |items| ==> items[i].key != key
    ensures Put(items, key, value) == items + [Item(key, value)]
  {
    if |items| > 0 {
      PutFresh(items[1..], key, value);
    }
  }

  /** What is kept after a history of insertions, dropping the oldest beyond the bound each time. */
  function Kept<K(==), V>(history: seq<Item<K, V>>, bound: nat): seq<Item<K, V>>
  {
    if |history| == 0 then []
    else
      var last := history[|history| - 1];
      Trim(Put(Kept(history[..|history| - 1], bound), last.key, last.value), bound)
  }

  function Last<T>(items: seq<T>, bound: nat): seq<T>
  {
    if |items| <= bound then items else items[|items| - bound..]
  }

  lemma LastOfOneMore<T>(items: seq<T>, bound: nat)
    requires |items| > 0 && bound > 0
    ensures var n := |items| - 1;
            Last(items, bound) ==
            var longer := Last(items[..n], bound) + [items[n]];
            if |longer| > bound then longer[1..] else longer
  {
  }

  lemma LastIsFrom<T>(items: seq<T>, bound: nat, k: nat)
    requires k < |Last(items, bound)|
    ensures |items| - |Last(items, bound)| + k >= 0
    ensures Last(items, bound)[k] == items[|items| - |Last(items, bound)| + k]
  {
  }

  /** Of keys inserted once each, exactly the last `bound` are kept. */
  lemma {:induction false} KeepsTheLast<K, V>(history: seq<Item<K, V>>, bound: nat)
    requires DistinctKeys(history) && bound > 0
    ensures Kept(history, bound) == Last(history, bound)
  {
    if |history| > 0 {
      var n := |history| - 1;
      var before, last := history[..n], history[n];
      KeepsTheLast(before, bound);
      forall k | 0 <= k < |Last(before, bound)| ensures Last(before, bound)[k].key != last.key {
        LastIsFrom(before, bound, k);
      }
      PutFresh(Last(before, bound), last.key, last.value);
      LastOfOneMore(history, bound);
    }
  }

  lemma LastHolds<K, V>(history: seq<Item<K, V>>, bound: nat, i: nat)
    requires DistinctKeys(history) && i < |history|
    ensures Has(Last(history, bound), history[i].key) <==> |history| - i <= bound
    ensures |history| - i <= bound ==> history[i] in Last(history, bound)
  {
    var last := Last(history, bound);
    var dropped := |history| - |last|;
    if i >= dropped {
      LastIsFrom(history, bound, i - dropped);
    }
    if Has(last, history[i].key) {
      var k :| 0 <= k < |last| && last[k].key == history[i].key;
      LastIsFrom(history, bound, k);
    }
  }
}
