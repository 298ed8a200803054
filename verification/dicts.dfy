/**
 * Python dictionaries as insertion-ordered association lists: assignment
 * replaces the value of a present key in place and appends a new key at the
 * end, so iteration order is first-insertion order.
 */
module Dicts {
  import opened Wrappers

  type Dict<K, V> = seq<(K, V)>

  function Keys<K, V>(d: Dict<K, V>): (ks: seq<K>)
    ensures |ks| == |d| && forall i :: 0 <= i < |d| ==> ks[i] == d[i].0
  {
    if d == [] then [] else [d[0].0] + Keys(d[1..])
  }

  function Values<K, V>(d: Dict<K, V>): (vs: seq<V>)
    ensures |vs| == |d| && forall i :: 0 <= i < |d| ==> vs[i] == d[i].1
  {
    if d == [] then [] else [d[0].1] + Values(d[1..])
  }

  /** No key occurs twice: what every dictionary satisfies. */
  ghost predicate KeysDistinct<K, V>(d: Dict<K, V>)
  {
    forall i, j :: 0 <= i < j < |d| ==> d[i].0 != d[j].0
  }

  /** Is `k` a key of `d`? */
  predicate HasKey<K(==), V>(d: Dict<K, V>, k: K)
  {
    exists i :: 0 <= i < |d| && d[i].0 == k
  }

  /** `d.get(k)` */
  function Get<K(==), V>(d: Dict<K, V>, k: K): Option<V>
  {
    if d == [] then None
    else if d[0].0 == k then Some(d[0].1)
    else Get(d[1..], k)
  }

  /** `get` finds exactly the keys present, and returns a value stored with the key. */
  lemma {:induction false} GetSpec<K, V>(d: Dict<K, V>, k: K)
    ensures Get(d, k).Some? <==> HasKey(d, k)
    ensures Get(d, k).Some? ==> exists i :: 0 <= i < |d| && d[i] == (k, Get(d, k).value)
  {
    if d != [] && d[0].0 != k {
      GetSpec(d[1..], k);
      if HasKey(d, k) {
        var i :| 0 <= i < |d| && d[i].0 == k;
        assert d[1..][i - 1].0 == k;
      }
      if Get(d, k).Some? {
        var i :| 0 <= i < |d[1..]| && d[1..][i] == (k, Get(d, k).value);
        assert d[i + 1] == (k, Get(d, k).value);
      }
    }
  }

  /** In a dictionary, the value stored with a key is what `get` returns for it. */
  lemma {:induction false} GetAt<K, V>(d: Dict<K, V>, i: nat)
    requires KeysDistinct(d) && i < |d|
    ensures Get(d, d[i].0) == Some(d[i].1)
  {
    if i > 0 && d[0].0 != d[i].0 {
      assert d[1..][i - 1] == d[i];
      GetAt(d[1..], i - 1);
    }
  }

  /** `d[k] = v`: a present key keeps its place and takes the new value; a new key goes last. */
  function Set<K(==), V>(d: Dict<K, V>, k: K, v: V): (r: Dict<K, V>)
    ensures |r| == if HasKey(d, k) then |d| else |d| + 1
    ensures forall i :: 0 <= i < |d| ==> r[i].0 == d[i].0 && (d[i].0 != k ==> r[i] == d[i])
    ensures |r| > |d| ==> r[|d|] == (k, v)
  {
    if d == [] then [(k, v)]
    else if d[0].0 == k then [(k, v)] + d[1..]
    else
      assert HasKey(d, k) <==> HasKey(d[1..], k) by {
        if HasKey(d, k) {
          var i :| 0 <= i < |d| && d[i].0 == k;
          assert d[1..][i - 1].0 == k;
        }
      }
      [d[0]] + Set(d[1..], k, v)
  }

  /** Assigning a key not yet present appends it. */
  lemma {:induction false} SetNew<K, V>(d: Dict<K, V>, k: K, v: V)
    requires !HasKey(d, k)
    ensures Set(d, k, v) == d + [(k, v)]
  {
    var r := Set(d, k, v);
    assert |r| == |d| + 1;
    forall i | 0 <= i < |d| ensures r[i] == d[i] {
      assert d[i].0 != k;
    }
  }

  /** After `d[k] = v`, `k` looks up `v` and every other key looks up what it did before. */
  lemma {:induction false} SetGet<K, V>(d: Dict<K, V>, k: K, v: V, k': K)
    ensures Get(Set(d, k, v), k') == if k' == k then Some(v) else Get(d, k')
  {
    if d != [] && d[0].0 != k && d[0].0 != k' {
      SetGet(d[1..], k, v, k');
    }
  }

  /** Assigning to a key already present leaves the keys, and their order, as they were. */
  lemma SetKeys<K, V>(d: Dict<K, V>, k: K, v: V)
    requires HasKey(d, k)
    ensures Keys(Set(d, k, v)) == Keys(d)
  {
  }

  /** Two dictionaries with the same key list have the same keys. */
  lemma SameKeysHasKey<K, V, W>(a: Dict<K, V>, b: Dict<K, W>, k: K)
    requires Keys(a) == Keys(b)
    ensures HasKey(a, k) <==> HasKey(b, k)
  {
    if HasKey(a, k) {
      var i :| 0 <= i < |a| && a[i].0 == k;
      assert Keys(b)[i] == k;
    }
    if HasKey(b, k) {
      var i :| 0 <= i < |b| && b[i].0 == k;
      assert Keys(a)[i] == k;
    }
  }

  /** Assigning pairs whose keys are all present leaves the keys as they were. */
  lemma {:induction false} UpdateKeys<K, V>(d: Dict<K, V>, pairs: seq<(K, V)>)
    requires forall i :: 0 <= i < |pairs| ==> HasKey(d, pairs[i].0)
    ensures Keys(Update(d, pairs)) == Keys(d)
    decreases |pairs|
  {
    if pairs != [] {
      var n := |pairs| - 1;
      var front := pairs[..n];
      assert forall i :: 0 <= i < n ==> front[i] == pairs[i];
      UpdateKeys(d, front);
      var u := Update(d, front);
      assert HasKey(u, pairs[n].0) by {
        var j :| 0 <= j < |d| && d[j].0 == pairs[n].0;
        assert Keys(u)[j] == Keys(d)[j];
      }
      SetKeys(u, pairs[n].0, pairs[n].1);
    }
  }

  lemma SetKeepsDistinct<K, V>(d: Dict<K, V>, k: K, v: V)
    requires KeysDistinct(d)
    ensures KeysDistinct(Set(d, k, v))
  {
    var r := Set(d, k, v);
    forall i, j | 0 <= i < j < |r| ensures r[i].0 != r[j].0 {
      if j == |d| {
        assert r[i].0 == d[i].0;
      }
    }
  }

  /** `d.pop(k)` for a present key: the entry for `k` goes, the others keep their order. */
  function Remove<K(==), V>(d: Dict<K, V>, k: K): (r: Dict<K, V>)
    ensures |r| <= |d|
  {
    if d == [] then []
    else if d[0].0 == k then Remove(d[1..], k)
    else [d[0]] + Remove(d[1..], k)
  }

  /** After removing `k`, `k` is gone and every other key looks up what it did before. */
  lemma {:induction false} RemoveGet<K, V>(d: Dict<K, V>, k: K, k': K)
    ensures Get(Remove(d, k), k') == if k' == k then None else Get(d, k')
  {
    if d != [] {
      RemoveGet(d[1..], k, k');
    }
  }

  /** `dict(pairs)` or a dict display: pairs are assigned in order, so a repeated key keeps its last value. */
  function FromPairs<K(==), V>(pairs: seq<(K, V)>): Dict<K, V>
  {
    if pairs == [] then []
    else
      var last := pairs[|pairs| - 1];
      Set(FromPairs(pairs[..|pairs| - 1]), last.0, last.1)
  }

  lemma {:induction false} FromPairsDistinct<K, V>(pairs: seq<(K, V)>)
    ensures KeysDistinct(FromPairs(pairs))
  {
    if pairs != [] {
      var last := pairs[|pairs| - 1];
      FromPairsDistinct(pairs[..|pairs| - 1]);
      SetKeepsDistinct(FromPairs(pairs[..|pairs| - 1]), last.0, last.1);
    }
  }

  /** Assigning pairs in order makes exactly their keys the keys of the dictionary. */
  lemma {:induction false} FromPairsHasKey<K, V>(pairs: seq<(K, V)>, k: K)
    ensures Get(FromPairs(pairs), k).Some? <==> exists i :: 0 <= i < |pairs| && pairs[i].0 == k
  {
    if pairs != [] {
      var n := |pairs| - 1;
      FromPairsHasKey(pairs[..n], k);
      SetGet(FromPairs(pairs[..n]), pairs[n].0, pairs[n].1, k);
      if exists i :: 0 <= i < n && pairs[..n][i].0 == k {
        var i :| 0 <= i < n && pairs[..n][i].0 == k;
        assert pairs[i].0 == k;
      }
      if exists i :: 0 <= i < |pairs| && pairs[i].0 == k {
        var i :| 0 <= i < |pairs| && pairs[i].0 == k;
        if i < n { assert pairs[..n][i].0 == k; }
      }
    }
  }

  /** Assigning pairs in order leaves, for each key, the value of the last pair with that key. */
  lemma {:induction false} FromPairsLast<K, V>(pairs: seq<(K, V)>, k: K)
    requires Get(FromPairs(pairs), k).Some?
    ensures exists i :: (0 <= i < |pairs| && pairs[i] == (k, Get(FromPairs(pairs), k).value)
      && forall j :: i < j < |pairs| ==> pairs[j].0 != k)
  {
    var n := |pairs| - 1;
    var front := pairs[..n];
    SetGet(FromPairs(front), pairs[n].0, pairs[n].1, k);
    if pairs[n].0 != k {
      FromPairsLast(front, k);
      LastInFront(pairs, k, Get(FromPairs(pairs), k).value);
    }
  }

  /** A last occurrence among all but the final pair stays the last when the final pair has another key. */
  lemma LastInFront<K, V>(pairs: seq<(K, V)>, k: K, v: V)
    requires |pairs| > 0 && pairs[|pairs| - 1].0 != k
    requires var front := pairs[..|pairs| - 1];
      exists i :: (0 <= i < |front| && front[i] == (k, v) && forall j :: i < j < |front| ==> front[j].0 != k)
    ensures exists i :: (0 <= i < |pairs| && pairs[i] == (k, v) && forall j :: i < j < |pairs| ==> pairs[j].0 != k)
  {
    var front := pairs[..|pairs| - 1];
    var i :| (0 <= i < |front| && front[i] == (k, v) && forall j :: i < j < |front| ==> front[j].0 != k);
    assert pairs[i] == front[i];
    forall j | i < j < |pairs| ensures pairs[j].0 != k {
      if j < |front| { assert front[j] == pairs[j]; }
    }
  }

  /** `d.update(pairs)`: the pairs are assigned to `d` in order. */
  function Update<K(==), V>(d: Dict<K, V>, pairs: seq<(K, V)>): Dict<K, V>
    decreases |pairs|
  {
    if pairs == [] then d
    else
      var last := pairs[|pairs| - 1];
      Set(Update(d, pairs[..|pairs| - 1]), last.0, last.1)
  }

  /** A key no pair names keeps its value. */
  lemma {:induction false} UpdateUntouched<K, V>(d: Dict<K, V>, pairs: seq<(K, V)>, k: K)
    requires forall i :: 0 <= i < |pairs| ==> pairs[i].0 != k
    ensures Get(Update(d, pairs), k) == Get(d, k)
    decreases |pairs|
  {
    if pairs != [] {
      var n := |pairs| - 1;
      var front := pairs[..n];
      calc {
        Get(Update(d, pairs), k);
        Get(Set(Update(d, front), pairs[n].0, pairs[n].1), k);
      == { SetGet(Update(d, front), pairs[n].0, pairs[n].1, k); }
        Get(Update(d, front), k);
      == { assert forall i :: 0 <= i < n ==> front[i] == pairs[i];
           UpdateUntouched(d, front, k); }
        Get(d, k);
      }
    }
  }

  /** A key takes the value of the last pair that names it. */
  lemma {:induction false} UpdateLast<K, V>(d: Dict<K, V>, pairs: seq<(K, V)>, i: nat)
    requires i < |pairs|
    requires forall j :: i < j < |pairs| ==> pairs[j].0 != pairs[i].0
    ensures Get(Update(d, pairs), pairs[i].0) == Some(pairs[i].1)
    decreases |pairs|
  {
    var n := |pairs| - 1;
    var front := pairs[..n];
    var k := pairs[i].0;
    assert Update(d, pairs) == Set(Update(d, front), pairs[n].0, pairs[n].1);
    SetGet(Update(d, front), pairs[n].0, pairs[n].1, k);
    if i < n {
      assert front[i] == pairs[i];
      forall j | i < j < n ensures front[j].0 != front[i].0 {
        assert front[j] == pairs[j];
      }
      UpdateLast(d, front, i);
    }
  }

  /** The pairs of `d` with key and value swapped. */
  function Swap<K, V>(d: Dict<K, V>): (r: seq<(V, K)>)
    ensures |r| == |d| && forall i :: 0 <= i < |d| ==> r[i] == (d[i].1, d[i].0)
  {
    if d == [] then [] else [(d[0].1, d[0].0)] + Swap(d[1..])
  }

  /** `{v: k for k, v in d.items()}` */
  function Invert<K, V(==)>(d: Dict<K, V>): Dict<V, K>
  {
    FromPairs(Swap(d))
  }

  /**
   * The inverted dictionary holds exactly the values of `d`, sends each to
   * the last key holding it, and looking that key up in `d` gives the value
   * back.
   */
  lemma InvertRoundTrip<K, V>(d: Dict<K, V>, m: V)
    requires KeysDistinct(d)
    ensures Get(Invert(d), m).Some? <==> exists i :: 0 <= i < |d| && d[i].1 == m
    ensures Get(Invert(d), m).Some? ==>
      (exists i :: (0 <= i < |d| && d[i] == (Get(Invert(d), m).value, m)
        && forall j :: i < j < |d| ==> d[j].1 != m))
      && Get(d, Get(Invert(d), m).value) == Some(m)
  {
    InvertHasKey(d, m);
    var sw := Swap(d);
    assert Invert(d) == FromPairs(sw);
    if Get(FromPairs(sw), m).Some? {
      var k := Get(FromPairs(sw), m).value;
      FromPairsLast(sw, m);
      var i :| 0 <= i < |sw| && sw[i] == (m, k) && forall j :: i < j < |sw| ==> sw[j].0 != m;
      SwappedLast(d, m, k, i);
    }
  }

  /** The inverted dictionary has exactly the values of `d` as keys. */
  lemma InvertHasKey<K, V>(d: Dict<K, V>, m: V)
    ensures Get(Invert(d), m).Some? <==> exists i :: 0 <= i < |d| && d[i].1 == m
  {
    var sw := Swap(d);
    FromPairsHasKey(sw, m);
    if exists i :: 0 <= i < |d| && d[i].1 == m {
      var i :| 0 <= i < |d| && d[i].1 == m;
      assert sw[i].0 == m;
    }
  }

  /** The last swapped pair `(m, k)` comes from the last entry of `d` holding `m`, whose key gives `m` back. */
  lemma SwappedLast<K, V>(d: Dict<K, V>, m: V, k: K, i: nat)
    requires KeysDistinct(d)
    requires var sw := Swap(d);
      i < |sw| && sw[i] == (m, k) && forall j :: i < j < |sw| ==> sw[j].0 != m
    ensures exists i :: (0 <= i < |d| && d[i] == (k, m) && forall j :: i < j < |d| ==> d[j].1 != m)
    ensures Get(d, k) == Some(m)
  {
    var sw := Swap(d);
    assert d[i] == (k, m);
    GetAt(d, i);
    forall j | i < j < |d| ensures d[j].1 != m {
      assert sw[j].0 == d[j].1;
    }
  }
}
