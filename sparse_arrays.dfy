/**
  An Android `SparseArray<V>` as a value: its entries in strictly increasing key
  order, so that `keyAt(i)` is the key of the i-th entry. `put` keeps the order
  (replacing the value of a present key), `remove` deletes a key, `get` answers
  `null` (here `None`) for an absent one.
 */
module SparseArrays {
  import opened Wrappers

  datatype Entry<V> = Entry(key: int, value: V)

  /** The keys strictly increase from first entry to last. */
  ghost predicate Sorted<V>(a: seq<Entry<V>>) {
    forall i, j :: 0 <= i < j < |a| ==> a[i].key < a[j].key
  }

  function Keys<V>(a: seq<Entry<V>>): set<int> {
    set i | 0 <= i < |a| :: a[i].key
  }

  /** Two arrays with the same keys at the same positions. */
  ghost predicate SameKeys<V, W>(a: seq<Entry<V>>, b: seq<Entry<W>>) {
    |a| == |b| && forall i :: 0 <= i < |a| ==> a[i].key == b[i].key
  }

  lemma KeysCons<V>(a: seq<Entry<V>>)
    requires a != []
    ensures Keys(a) == {a[0].key} + Keys(a[1..])
  {
    forall k | k in Keys(a) ensures k in {a[0].key} + Keys(a[1..]) {
      var i :| 0 <= i < |a| && a[i].key == k;
      if i > 0 { assert a[1..][i - 1].key == k; }
    }
    forall k | k in Keys(a[1..]) ensures k in Keys(a) {
      var i :| 0 <= i < |a[1..]| && a[1..][i].key == k;
      assert a[i + 1].key == k;
    }
  }

  /** `get(key)`: the value stored under `key`, or `None` when there is none. */
  function Get<V>(a: seq<Entry<V>>, key: int): (r: Option<V>)
    ensures r.Some? <==> key in Keys(a)
  {
    if a == [] then None
    else
      KeysCons(a);
      if a[0].key == key then Some(a[0].value) else Get(a[1..], key)
  }

  /** In a sorted array, looking up the key at position `i` finds the value at `i`. */
  lemma {:induction false} GetAt<V>(a: seq<Entry<V>>, i: nat)
    requires Sorted(a) && i < |a|
    ensures Get(a, a[i].key) == Some(a[i].value)
  {
    if i > 0 {
      GetAt(a[1..], i - 1);
    }
  }

  /** `put(key, value)`: stores `value` under `key`, keeping the keys sorted. */
  function Put<V>(a: seq<Entry<V>>, key: int, value: V): (r: seq<Entry<V>>)
    ensures Keys(r) == Keys(a) + {key}
  {
    if a == [] then
      assert Keys([Entry(key, value)]) == {key} by { KeysCons([Entry(key, value)]); }
      [Entry(key, value)]
    else
      KeysCons(a);
      if a[0].key == key then
        KeysCons([Entry(key, value)] + a[1..]);
        assert ([Entry(key, value)] + a[1..])[1..] == a[1..];
        [Entry(key, value)] + a[1..]
      else if key < a[0].key then
        KeysCons([Entry(key, value)] + a);
        assert ([Entry(key, value)] + a)[1..] == a;
        [Entry(key, value)] + a
      else
        var rest := Put(a[1..], key, value);
        KeysCons([a[0]] + rest);
        assert ([a[0]] + rest)[1..] == rest;
        [a[0]] + rest
  }

  /** The tail of a sorted array is sorted and lies above its first key. */
  lemma SortedTail<V>(a: seq<Entry<V>>)
    requires Sorted(a) && a != []
    ensures Sorted(a[1..])
    ensures forall k :: k in Keys(a[1..]) ==> a[0].key < k
  {
    forall k | k in Keys(a[1..]) ensures a[0].key < k {
      var i :| 0 <= i < |a[1..]| && a[1..][i].key == k;
      assert a[i + 1].key == k;
    }
  }

  /** Appending an entry above every key keeps the array sorted and adds its key. */
  lemma AppendAbove<V>(a: seq<Entry<V>>, e: Entry<V>)
    requires Sorted(a) && forall k :: k in Keys(a) ==> k < e.key
    ensures Sorted(a + [e]) && Keys(a + [e]) == Keys(a) + {e.key}
  {
    var a' := a + [e];
    forall i, j | 0 <= i < j < |a'| ensures a'[i].key < a'[j].key {
      assert a'[i] == a[i];
      if j < |a| {
        assert a'[j] == a[j];
      } else {
        assert a[i].key in Keys(a);
      }
    }
    forall k | k in Keys(a') ensures k in Keys(a) + {e.key} {
      var i :| 0 <= i < |a'| && a'[i].key == k;
      if i < |a| { assert a'[i] == a[i]; }
    }
    forall k | k in Keys(a) ensures k in Keys(a') {
      var i :| 0 <= i < |a| && a[i].key == k;
      assert a'[i] == a[i];
    }
    assert a'[|a|].key == e.key;
  }

  /** `put` keeps a sorted array sorted. */
  lemma {:induction false} PutSorted<V>(a: seq<Entry<V>>, key: int, value: V)
    requires Sorted(a)
    ensures Sorted(Put(a, key, value))
  {
    if a != [] {
      SortedTail(a);
      var e := Entry(key, value);
      if a[0].key == key {
        assert Put(a, key, value) == [e] + a[1..];
        SortedCons(e, a[1..]);
      } else if key < a[0].key {
        assert Put(a, key, value) == [e] + a;
        KeysCons(a);
        SortedCons(e, a);
      } else {
        var rest := Put(a[1..], key, value);
        assert Put(a, key, value) == [a[0]] + rest;
        PutSorted(a[1..], key, value);
        SortedCons(a[0], rest);
      }
    }
  }

  /** After `put(key, value)`, `get` finds `value` under `key` and the old value under every other key. */
  lemma {:induction false} GetPut<V>(a: seq<Entry<V>>, key: int, value: V, k: int)
    ensures Get(Put(a, key, value), k) == if k == key then Some(value) else Get(a, k)
  {
    if a != [] && a[0].key != key && key > a[0].key {
      GetPut(a[1..], key, value, k);
      assert ([a[0]] + Put(a[1..], key, value))[1..] == Put(a[1..], key, value);
    } else if a != [] && a[0].key == key {
      assert ([Entry(key, value)] + a[1..])[1..] == a[1..];
    } else if a != [] {
      assert ([Entry(key, value)] + a)[1..] == a;
    }
  }

  /** Consing an entry below every key of a sorted array keeps it sorted. */
  lemma SortedCons<V>(e: Entry<V>, a: seq<Entry<V>>)
    ensures Sorted(a) && (forall k :: k in Keys(a) ==> e.key < k) ==> Sorted([e] + a)
  {
    if Sorted(a) && (forall k :: k in Keys(a) ==> e.key < k) {
      forall i, j | 0 <= i < j < |[e] + a| ensures ([e] + a)[i].key < ([e] + a)[j].key {
      if i == 0 {
        assert ([e] + a)[j].key == a[j - 1].key;
        assert a[j - 1].key in Keys(a);
      }
      }
    }
  }

  /** `put` of a key above every present key appends: this is how the fragment
      queue stays in arrival order. */
  lemma {:induction false} PutAbove<V>(a: seq<Entry<V>>, key: int, value: V)
    requires forall k :: k in Keys(a) ==> k < key
    ensures Put(a, key, value) == a + [Entry(key, value)]
  {
    if a != [] {
      KeysCons(a);
      PutAbove(a[1..], key, value);
      assert [a[0]] + (a[1..] + [Entry(key, value)]) == a + [Entry(key, value)];
    }
  }

  /** `remove(key)`: deletes the entry stored under `key`, if any. */
  function Remove<V>(a: seq<Entry<V>>, key: int): (r: seq<Entry<V>>)
    ensures Keys(r) == Keys(a) - {key}
  {
    if a == [] then []
    else
      KeysCons(a);
      var rest := Remove(a[1..], key);
      if a[0].key == key then rest
      else
        KeysCons([a[0]] + rest);
        assert ([a[0]] + rest)[1..] == rest;
        [a[0]] + rest
  }

  /** `remove` keeps a sorted array sorted. */
  lemma {:induction false} RemoveSorted<V>(a: seq<Entry<V>>, key: int)
    requires Sorted(a)
    ensures Sorted(Remove(a, key))
  {
    if a != [] {
      SortedTail(a);
      RemoveSorted(a[1..], key);
      if a[0].key != key {
        SortedCons(a[0], Remove(a[1..], key));
      }
    }
  }

  /** After `remove(key)`, `get` finds nothing under `key` and the old value under every other key. */
  lemma {:induction false} GetRemove<V>(a: seq<Entry<V>>, key: int, k: int)
    ensures Get(Remove(a, key), k) == if k == key then None else Get(a, k)
  {
    if a != [] {
      GetRemove(a[1..], key, k);
      if a[0].key != key {
        assert ([a[0]] + Remove(a[1..], key))[1..] == Remove(a[1..], key);
      }
    }
  }

  /** Removing the lowest key of a sorted array drops its first entry. */
  lemma {:induction false} RemoveFirst<V>(a: seq<Entry<V>>)
    requires Sorted(a) && a != []
    ensures Remove(a, a[0].key) == a[1..]
  {
    KeysCons(a);
    RemoveAbsent(a[1..], a[0].key);
  }

  /** Removing an absent key changes nothing. */
  lemma {:induction false} RemoveAbsent<V>(a: seq<Entry<V>>, key: int)
    requires key !in Keys(a)
    ensures Remove(a, key) == a
  {
    if a != [] {
      KeysCons(a);
      RemoveAbsent(a[1..], key);
    }
  }
}
