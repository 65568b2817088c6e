/**
 * Group-by with a summed weight per group: the shape shared by pandas'
 * `value_counts`, `groupby(...).size()` and `groupby(...)[col].sum()`.
 * Items are (key, weight) pairs; counting uses weight 1.
 */
module Tally {
  import opened Basics

  /** One group: its key and the sum of its members' weights. */
  datatype Entry<K> = Entry(key: K, total: int)

  function KeyOf<K>(e: Entry<K>): K { e.key }
  function TotalOf<K>(e: Entry<K>): int { e.total }
  function WeightOfItem<K>(p: (K, int)): int { p.1 }

  function KeysOf<K>(g: seq<Entry<K>>): seq<K> { MapSeq(g, KeyOf) }
  function ItemKeys<K>(items: seq<(K, int)>): seq<K> { MapSeq(items, (p: (K, int)) => p.0) }

  /** Reference definition: the sum of the weights `items` carries under key `k`. */
  function WeightOf<K(==)>(items: seq<(K, int)>, k: K): int {
    if items == [] then 0
    else
      var last := items[|items| - 1];
      WeightOf(items[..|items| - 1], k) + (if last.0 == k then last.1 else 0)
  }

  /** The total recorded for key `k`, or 0 when there is no group for it. */
  function Lookup<K(==)>(g: seq<Entry<K>>, k: K): int {
    if g == [] then 0 else if g[0].key == k then g[0].total else Lookup(g[1..], k)
  }

  /** Adds weight `w` to the group of `k`, opening a new group at the end when there is none. */
  function Add<K(==)>(g: seq<Entry<K>>, k: K, w: int): (r: seq<Entry<K>>)
    ensures |r| >= |g|
  {
    if g == [] then [Entry(k, w)]
    else if g[0].key == k then [Entry(k, g[0].total + w)] + g[1..]
    else [g[0]] + Add(g[1..], k, w)
  }

  /** Groups `items` by key in order of first appearance, summing the weights. */
  function Group<K(==)>(items: seq<(K, int)>): seq<Entry<K>> {
    if items == [] then []
    else
      var last := items[|items| - 1];
      Add(Group(items[..|items| - 1]), last.0, last.1)
  }

  lemma {:induction false} AddKeys<K>(g: seq<Entry<K>>, k: K, w: int)
    ensures forall x :: x in KeysOf(Add(g, k, w)) <==> x == k || x in KeysOf(g)
  {
    if g != [] && g[0].key != k {
      AddKeys(g[1..], k, w);
      assert KeysOf(Add(g, k, w)) == [g[0].key] + KeysOf(Add(g[1..], k, w));
      assert KeysOf(g) == [g[0].key] + KeysOf(g[1..]);
    } else if g != [] {
      assert KeysOf(Add(g, k, w)) == KeysOf(g);
      assert KeysOf(g)[0] == k;
    } else {
      assert KeysOf(Add(g, k, w)) == [k];
    }
  }

  lemma {:induction false} AddDistinct<K>(g: seq<Entry<K>>, k: K, w: int)
    requires DistinctBy(g, KeyOf)
    ensures DistinctBy(Add(g, k, w), KeyOf)
  {
    if g != [] && g[0].key != k {
      var rest := Add(g[1..], k, w);
      AddDistinct(g[1..], k, w);
      AddKeys(g[1..], k, w);
      forall j | 0 <= j < |rest|
        ensures rest[j].key != g[0].key
      {
        assert rest[j].key in KeysOf(rest);
        if rest[j].key != k {
          assert rest[j].key in KeysOf(g[1..]);
          var m :| 0 <= m < |g[1..]| && KeysOf(g[1..])[m] == rest[j].key;
          assert g[m + 1].key == rest[j].key;
        }
      }
    }
  }

  lemma {:induction false} AddLookup<K>(g: seq<Entry<K>>, k: K, w: int, j: K)
    ensures Lookup(Add(g, k, w), j) == Lookup(g, j) + (if j == k then w else 0)
  {
    if g != [] && g[0].key != k {
      AddLookup(g[1..], k, w, j);
    }
  }

  lemma {:induction false} AddSum<K>(g: seq<Entry<K>>, k: K, w: int)
    ensures SumBy(Add(g, k, w), TotalOf) == SumBy(g, TotalOf) + w
  {
    if g != [] {
      if g[0].key == k {
        assert Add(g, k, w)[1..] == g[1..];
      } else {
        AddSum(g[1..], k, w);
        assert Add(g, k, w)[1..] == Add(g[1..], k, w);
      }
    } else {
      assert Add(g, k, w)[1..] == [];
    }
  }

  /** In a grouping with distinct keys, every group's total is what Lookup finds for its key. */
  lemma {:induction false} LookupAt<K>(g: seq<Entry<K>>, i: int)
    requires DistinctBy(g, KeyOf)
    requires 0 <= i < |g|
    ensures Lookup(g, g[i].key) == g[i].total
  {
    if i > 0 {
      assert g[0].key != g[i].key;
      assert g[1..][i - 1] == g[i];
      LookupAt(g[1..], i - 1);
    }
  }

  /**
   * Group is a correct group-by: one group per distinct key ever seen, and
   * the group of each key holds the sum of that key's weights.
   */
  lemma {:induction false} GroupCorrect<K>(items: seq<(K, int)>)
    ensures DistinctBy(Group(items), KeyOf)
    ensures forall k :: Lookup(Group(items), k) == WeightOf(items, k)
    ensures forall k :: k in KeysOf(Group(items)) <==> k in ItemKeys(items)
    ensures SumBy(Group(items), TotalOf) == SumBy(items, WeightOfItem)
  {
    if items != [] {
      var n := |items| - 1;
      var init, last := items[..n], items[n];
      GroupCorrect(init);
      AddDistinct(Group(init), last.0, last.1);
      AddKeys(Group(init), last.0, last.1);
      AddSum(Group(init), last.0, last.1);
      forall k
        ensures Lookup(Group(items), k) == WeightOf(items, k)
      {
        AddLookup(Group(init), last.0, last.1, k);
      }
      assert items == init + [last];
      assert ItemKeys(items) == ItemKeys(init) + [last.0];
      SumByAppend(init, [last], WeightOfItem);
    }
  }

  /** Pairs every key with weight 1, so that a group's total is its size. */
  function Ones<K>(keys: seq<K>): (items: seq<(K, int)>)
    ensures ItemKeys(items) == keys
  {
    MapSeq(keys, (k: K) => (k, 1))
  }

  lemma {:induction false} OnesWeight<K>(keys: seq<K>, k: K)
    ensures WeightOf(Ones(keys), k) == multiset(keys)[k]
  {
    if keys != [] {
      var n := |keys| - 1;
      assert Ones(keys)[..n] == Ones(keys[..n]);
      assert keys == keys[..n] + [keys[n]];
      OnesWeight(keys[..n], k);
    }
  }

  lemma {:induction false} OnesSum<K>(keys: seq<K>)
    ensures SumBy(Ones(keys), WeightOfItem) == |keys|
  {
    if keys != [] {
      assert Ones(keys)[1..] == Ones(keys[1..]);
      OnesSum(keys[1..]);
    }
  }

  /** Reordering the rows of a table keeps its set of keys. */
  lemma PermutedKeys<K>(r: seq<Entry<K>>, g: seq<Entry<K>>)
    requires multiset(r) == multiset(g)
    ensures forall k :: k in KeysOf(r) <==> k in KeysOf(g)
  {
    KeysWithin(r, g);
    KeysWithin(g, r);
  }

  lemma KeysWithin<K>(r: seq<Entry<K>>, g: seq<Entry<K>>)
    requires multiset(r) == multiset(g)
    ensures forall k :: k in KeysOf(r) ==> k in KeysOf(g)
  {
    forall k | k in KeysOf(r)
      ensures k in KeysOf(g)
    {
      var i :| 0 <= i < |r| && KeysOf(r)[i] == k;
      assert r[i] in multiset(g);
      var j :| 0 <= j < |g| && g[j] == r[i];
      assert KeysOf(g)[j] == k;
    }
  }
}
