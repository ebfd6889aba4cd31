/**
 * Counting dictionaries, as the statistics and report code builds them with
 * `counts[k] = counts.get(k, 0) + 1` over a list of keys.  A count table is
 * an insertion-ordered `Dict` from keys to integers.
 */
module Counter {
  import opened Wrappers
  import opened Dict

  type Counts<K(==)> = Dict<K, int>

  /** The sum of all counts: sum(counts.values()). */
  function Total<K(==)>(c: Counts<K>): int
    decreases |c|
  {
    if c == [] then 0 else c[0].1 + Total(c[1..])
  }

  /** How often `k` has been counted: counts.get(k, 0). */
  function CountOf<K(==)>(c: Counts<K>, k: K): int
  {
    Get(c, k).GetOr(0)
  }

  /** counts[k] = counts.get(k, 0) + 1 */
  function Bump<K(==)>(c: Counts<K>, k: K): (r: Counts<K>)
    ensures |r| == |c| || r == c + [(k, 1)]
  {
    Put(c, k, CountOf(c, k) + 1)
  }

  /** Counting every key of `keys` in turn, starting from `init`. */
  function Tally<K(==)>(init: Counts<K>, keys: seq<K>): (r: Counts<K>)
    decreases |keys|
  {
    if keys == [] then init else Bump(Tally(init, keys[..|keys| - 1]), keys[|keys| - 1])
  }

  /** Counting one more key of the list is one more bump. */
  lemma TallyStep<K>(init: Counts<K>, keys: seq<K>, i: int)
    requires 0 <= i < |keys|
    ensures Tally(init, keys[..i + 1]) == Bump(Tally(init, keys[..i]), keys[i])
  {
    assert keys[..i + 1][..i] == keys[..i];
  }

  /** Replacing one entry changes the total by the difference of the two counts. */
  lemma {:induction false} TotalUpdate<K>(c: Counts<K>, i: nat, p: (K, int))
    requires i < |c|
    ensures Total(c[i := p]) == Total(c) - c[i].1 + p.1
    decreases |c|
  {
    if i > 0 {
      assert c[i := p][1..] == c[1..][i - 1 := p];
      TotalUpdate(c[1..], i - 1, p);
    }
  }

  /** Appending one entry adds its count to the total. */
  lemma {:induction false} TotalAppend<K>(c: Counts<K>, p: (K, int))
    ensures Total(c + [p]) == Total(c) + p.1
    decreases |c|
  {
    if c != [] {
      assert (c + [p])[1..] == c[1..] + [p];
      TotalAppend(c[1..], p);
    }
  }

  /** Each bump adds exactly one to the total. */
  lemma BumpTotal<K>(c: Counts<K>, k: K)
    ensures Total(Bump(c, k)) == Total(c) + 1
  {
    var i := IndexOfKey(c, k);
    if i < 0 {
      TotalAppend(c, (k, 1));
    } else {
      TotalUpdate(c, i, (k, c[i].1 + 1));
    }
  }

  /** A bump raises the count of its own key by one and leaves every other count alone. */
  lemma BumpCount<K>(c: Counts<K>, k: K, k2: K)
    requires UniqueKeys(c)
    ensures CountOf(Bump(c, k), k2) == CountOf(c, k2) + (if k2 == k then 1 else 0)
  {
    if k2 == k {
      GetPutSame(c, k, CountOf(c, k) + 1);
    } else {
      GetPutOther(c, k, CountOf(c, k) + 1, k2);
    }
  }

  /** Counting n keys adds n to the total: the counts sum to the number of items counted. */
  lemma {:induction false} TallyTotal<K>(init: Counts<K>, keys: seq<K>)
    ensures Total(Tally(init, keys)) == Total(init) + |keys|
    decreases |keys|
  {
    if keys != [] {
      TallyTotal(init, keys[..|keys| - 1]);
      BumpTotal(Tally(init, keys[..|keys| - 1]), keys[|keys| - 1]);
    }
  }

  /** Counting keeps the keys of the table distinct. */
  lemma {:induction false} TallyUnique<K>(init: Counts<K>, keys: seq<K>)
    requires UniqueKeys(init)
    ensures UniqueKeys(Tally(init, keys))
    decreases |keys|
  {
    if keys != [] {
      var c := Tally(init, keys[..|keys| - 1]);
      TallyUnique(init, keys[..|keys| - 1]);
      PutUnique(c, keys[|keys| - 1], CountOf(c, keys[|keys| - 1]) + 1);
    }
  }

  /** The count of each key is its starting count plus the number of times it occurs. */
  lemma {:induction false} TallyCount<K>(init: Counts<K>, keys: seq<K>, k: K)
    requires UniqueKeys(init)
    ensures CountOf(Tally(init, keys), k) == CountOf(init, k) + multiset(keys)[k]
    decreases |keys|
  {
    if keys != [] {
      var front := keys[..|keys| - 1];
      var last := keys[|keys| - 1];
      TallyCount(init, front, k);
      TallyUnique(init, front);
      BumpCount(Tally(init, front), last, k);
      assert keys == front + [last];
      assert multiset(keys)[k] == multiset(front)[k] + (if k == last then 1 else 0);
    }
  }

  /** The keys of a tally: the starting keys and every key counted. */
  lemma {:induction false} TallyKeys<K>(init: Counts<K>, keys: seq<K>, k: K)
    ensures HasKey(Tally(init, keys), k) <==> HasKey(init, k) || k in keys
    decreases |keys|
  {
    if keys != [] {
      var front := keys[..|keys| - 1];
      TallyKeys(init, front, k);
      HasKeyPut(Tally(init, front), keys[|keys| - 1], CountOf(Tally(init, front), keys[|keys| - 1]) + 1, k);
      assert keys == front + [keys[|keys| - 1]];
    }
  }
}
