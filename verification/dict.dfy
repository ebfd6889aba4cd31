/**
 * Python's dict: a mapping that remembers insertion order.  A dict is a
 * sequence of (key, value) pairs with distinct keys; assigning to an existing
 * key replaces its value in place, assigning to a new key appends it.
 */
module Dict {
  import opened Wrappers

  type Dict<K(==), V> = seq<(K, V)>

  function Keys<K(==), V>(d: Dict<K, V>): (r: seq<K>)
    ensures |r| == |d|
    ensures forall i | 0 <= i < |d| :: r[i] == d[i].0
  {
    seq(|d|, i requires 0 <= i < |d| => d[i].0)
  }

  function Values<K(==), V>(d: Dict<K, V>): (r: seq<V>)
    ensures |r| == |d|
    ensures forall i | 0 <= i < |d| :: r[i] == d[i].1
  {
    seq(|d|, i requires 0 <= i < |d| => d[i].1)
  }

  predicate UniqueKeys<K(==), V>(d: Dict<K, V>)
  {
    forall i, j | 0 <= i < j < |d| :: d[i].0 != d[j].0
  }

  predicate HasKey<K(==), V>(d: Dict<K, V>, k: K)
  {
    exists i | 0 <= i < |d| :: d[i].0 == k
  }

  /** Position of key `k`, or -1. */
  function IndexOfKey<K(==), V>(d: Dict<K, V>, k: K): (r: int)
    ensures -1 <= r < |d|
    ensures r >= 0 ==> d[r].0 == k && forall i | 0 <= i < r :: d[i].0 != k
    ensures r < 0 <==> !HasKey(d, k)
    decreases |d|
  {
    if |d| == 0 then -1
    else if d[|d| - 1].0 == k && IndexOfKey(d[..|d| - 1], k) < 0 then |d| - 1
    else IndexOfKey(d[..|d| - 1], k)
  }

  /** d.get(k) */
  function Get<K(==), V>(d: Dict<K, V>, k: K): (r: Option<V>)
    ensures r.Some? <==> HasKey(d, k)
    ensures r.Some? ==> exists i | 0 <= i < |d| :: d[i] == (k, r.value)
  {
    var i := IndexOfKey(d, k);
    if i < 0 then None else Some(d[i].1)
  }

  /** d[k] = v */
  function Put<K(==), V>(d: Dict<K, V>, k: K, v: V): (r: Dict<K, V>)
    ensures HasKey(d, k) ==> |r| == |d| && Keys(r) == Keys(d)
    ensures !HasKey(d, k) ==> r == d + [(k, v)]
  {
    var i := IndexOfKey(d, k);
    if i < 0 then d + [(k, v)] else d[i := (k, v)]
  }

  /** del d[k] (no effect when `k` is absent, as with d.pop(k, None)). */
  function Remove<K(==), V>(d: Dict<K, V>, k: K): (r: Dict<K, V>)
    ensures |r| <= |d|
    ensures forall i | 0 <= i < |r| :: r[i] in d && r[i].0 != k
    decreases |d|
  {
    if |d| == 0 then []
    else if d[0].0 == k then Remove(d[1..], k)
    else [d[0]] + Remove(d[1..], k)
  }

  /** Reading a key finds its first entry. */
  lemma GetFirst<K, V>(d: Dict<K, V>, k: K, i: int)
    requires 0 <= i < |d| && d[i].0 == k
    requires forall j | 0 <= j < i :: d[j].0 != k
    ensures Get(d, k) == Some(d[i].1)
  {
    var r := IndexOfKey(d, k);
    assert r >= 0;
    assert r == i;
  }

  /** The value just stored under `k` is the one read back. */
  lemma GetPutSame<K, V>(d: Dict<K, V>, k: K, v: V)
    ensures Get(Put(d, k, v), k) == Some(v)
  {
    var r := Put(d, k, v);
    var i := IndexOfKey(d, k);
    var pos := if i >= 0 then i else |d|;
    assert r[pos] == (k, v);
    forall m | 0 <= m < pos
      ensures r[m].0 != k
    {
      assert r[m] == d[m];
    }
    GetFirst(r, k, pos);
  }

  /** A key other than the first entry's is read from the rest of the dict. */
  lemma GetTail<K, V>(d: Dict<K, V>, k: K)
    requires |d| > 0 && d[0].0 != k
    ensures Get(d, k) == Get(d[1..], k)
  {
    if HasKey(d[1..], k) {
      var i := IndexOfKey(d[1..], k);
      assert d[i + 1] == d[1..][i];
      GetFirst(d, k, i + 1);
    }
  }

  /** Storing under `k` leaves every other key's value alone. */
  lemma GetPutOther<K, V>(d: Dict<K, V>, k: K, v: V, k2: K)
    requires k2 != k
    ensures Get(Put(d, k, v), k2) == Get(d, k2)
  {
    var r := Put(d, k, v);
    forall m | 0 <= m < |d|
      ensures r[m].0 == k2 <==> d[m].0 == k2
      ensures r[m].0 == k2 ==> r[m] == d[m]
    {
    }
    var j := IndexOfKey(d, k2);
    if j >= 0 {
      assert r[j] == d[j];
    }
  }

  /** Put keeps keys distinct. */
  /** Every entry after d[k] = v was already there or is (k, v). */
  lemma PutMembers<K, V>(d: Dict<K, V>, k: K, v: V, e: (K, V))
    requires e in Put(d, k, v)
    ensures e in d || e == (k, v)
  {
    var i := IndexOfKey(d, k);
    if i >= 0 {
      var j :| 0 <= j < |d| && d[i := (k, v)][j] == e;
      if j != i {
        assert d[j] == e;
      }
    }
  }

  lemma PutUnique<K, V>(d: Dict<K, V>, k: K, v: V)
    requires UniqueKeys(d)
    ensures UniqueKeys(Put(d, k, v))
  {
  }

  /** Keys present after a Put: the old ones and `k`. */
  lemma HasKeyPut<K, V>(d: Dict<K, V>, k: K, v: V, k2: K)
    ensures HasKey(Put(d, k, v), k2) <==> HasKey(d, k2) || k2 == k
  {
    var r := Put(d, k, v);
    if HasKey(d, k2) {
      var i :| 0 <= i < |d| && d[i].0 == k2;
      assert r[i].0 == k2;
    }
    if k2 == k {
      var i := IndexOfKey(d, k);
      if i >= 0 { assert r[i].0 == k; } else { assert r[|d|].0 == k; }
    }
  }

  /** Removing an absent key changes nothing. */
  lemma {:induction false} RemoveAbsent<K, V>(d: Dict<K, V>, k: K)
    requires !HasKey(d, k)
    ensures Remove(d, k) == d
    decreases |d|
  {
    if |d| > 0 {
      assert !HasKey(d[1..], k) by {
        forall i | 0 <= i < |d[1..]|
          ensures d[1..][i].0 != k
        {
          assert d[1..][i] == d[i + 1];
        }
      }
      RemoveAbsent(d[1..], k);
    }
  }

  /** In a dict with distinct keys, removing the first key leaves the other entries. */
  lemma RemoveFirst<K, V>(d: Dict<K, V>)
    requires |d| > 0 && UniqueKeys(d)
    ensures Remove(d, d[0].0) == d[1..]
  {
    assert !HasKey(d[1..], d[0].0) by {
      forall i | 0 <= i < |d[1..]|
        ensures d[1..][i].0 != d[0].0
      {
        assert d[1..][i] == d[i + 1];
      }
    }
    RemoveAbsent(d[1..], d[0].0);
  }

  /** Removal keeps keys distinct. */
  lemma {:induction false} RemoveUnique<K, V>(d: Dict<K, V>, k: K)
    requires UniqueKeys(d)
    ensures UniqueKeys(Remove(d, k))
    decreases |d|
  {
    if |d| > 0 {
      var rest := d[1..];
      assert UniqueKeys(rest) by {
        forall i, j | 0 <= i < j < |rest|
          ensures rest[i].0 != rest[j].0
        {
          assert rest[i] == d[i + 1] && rest[j] == d[j + 1];
        }
      }
      RemoveUnique(rest, k);
      if d[0].0 != k {
        var r := Remove(rest, k);
        forall i | 0 <= i < |r|
          ensures r[i].0 != d[0].0
        {
          var m :| 0 <= m < |rest| && rest[m] == r[i];
          assert rest[m] == d[m + 1];
        }
      }
    }
  }

  /** The keys left after a removal: all but `k`. */
  lemma {:induction false} RemoveHasKey<K, V>(d: Dict<K, V>, k: K, k2: K)
    ensures HasKey(Remove(d, k), k2) <==> HasKey(d, k2) && k2 != k
    decreases |d|
  {
    if |d| > 0 {
      RemoveHasKey(d[1..], k, k2);
      if HasKey(d[1..], k2) {
        var i :| 0 <= i < |d[1..]| && d[1..][i].0 == k2;
        assert d[i + 1].0 == k2;
      }
      if HasKey(d, k2) && d[0].0 != k2 {
        var i :| 0 <= i < |d| && d[i].0 == k2;
        assert d[1..][i - 1].0 == k2;
      }
      if d[0].0 != k {
        var r := Remove(d[1..], k);
        assert Remove(d, k) == [d[0]] + r;
        if HasKey(r, k2) {
          var i :| 0 <= i < |r| && r[i].0 == k2;
          assert ([d[0]] + r)[i + 1].0 == k2;
        }
        if d[0].0 == k2 {
          assert ([d[0]] + r)[0].0 == k2;
        }
        if HasKey([d[0]] + r, k2) && d[0].0 != k2 {
          var i :| 0 <= i < |[d[0]] + r| && ([d[0]] + r)[i].0 == k2;
          assert r[i - 1].0 == k2;
        }
      }
    }
  }

  /** `for k in keys: d[k] = f(k)` */
  function PutEach<K(==), V>(d: Dict<K, V>, keys: seq<K>, f: K -> V): Dict<K, V>
    decreases |keys|
  {
    if keys == [] then d else Put(PutEach(d, keys[..|keys| - 1], f), keys[|keys| - 1], f(keys[|keys| - 1]))
  }

  /** Storing each key of a list keeps keys distinct. */
  lemma {:induction false} PutEachUnique<K, V>(d: Dict<K, V>, keys: seq<K>, f: K -> V)
    requires UniqueKeys(d)
    ensures UniqueKeys(PutEach(d, keys, f))
    decreases |keys|
  {
    if keys != [] {
      PutEachUnique(d, keys[..|keys| - 1], f);
      PutUnique(PutEach(d, keys[..|keys| - 1], f), keys[|keys| - 1], f(keys[|keys| - 1]));
    }
  }

  /** After storing f(k) for each key of the list, those keys read f(k) and every other key is as before. */
  lemma {:induction false} PutEachGet<K, V>(d: Dict<K, V>, keys: seq<K>, f: K -> V, k: K)
    requires UniqueKeys(d)
    ensures Get(PutEach(d, keys, f), k) == if k in keys then Some(f(k)) else Get(d, k)
    decreases |keys|
  {
    if keys != [] {
      var front := keys[..|keys| - 1];
      var last := keys[|keys| - 1];
      var prev := PutEach(d, front, f);
      PutEachGet(d, front, f, k);
      PutEachUnique(d, front, f);
      if k == last {
        GetPutSame(prev, last, f(last));
      } else {
        GetPutOther(prev, last, f(last), k);
        assert k in keys <==> k in front by {
          assert keys == front + [last];
        }
      }
    }
  }
}
