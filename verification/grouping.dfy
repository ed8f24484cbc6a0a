/** The "reduce into an object" idiom of the aggregation: a JavaScript object
    used as a dictionary from a key to a running total, where a key that is not
    yet present is first set to 0 and then increased. Its keys keep the order in
    which they were first inserted, so it is modelled as an association list. */
module Grouping {
  import opened Wrappers

  datatype Entry<K> = Entry(key: K, total: real)

  function KeysOf<K>(a: seq<Entry<K>>): (ks: seq<K>)
    ensures |ks| == |a|
    ensures forall i :: 0 <= i < |a| ==> ks[i] == a[i].key
  {
    if |a| == 0 then [] else [a[0].key] + KeysOf(a[1..])
  }

  predicate DistinctKeys<K(==)>(a: seq<Entry<K>>) {
    forall i, j :: 0 <= i < j < |a| ==> a[i].key != a[j].key
  }

  /** `acc[k]`: the total stored under `k`, if any. */
  function Find<K(==)>(a: seq<Entry<K>>, k: K): Option<real> {
    if |a| == 0 then None
    else if a[0].key == k then Some(a[0].total)
    else Find(a[1..], k)
  }

  /** `if (!acc[k]) acc[k] = 0; acc[k] += v;` */
  function AddTo<K(==)>(a: seq<Entry<K>>, k: K, v: real): seq<Entry<K>> {
    if |a| == 0 then [Entry(k, 0.0 + v)]
    else if a[0].key == k then [Entry(k, a[0].total + v)] + a[1..]
    else [a[0]] + AddTo(a[1..], k, v)
  }

  /** A key is found exactly when it is one of the keys. */
  lemma {:induction false} FindPresent<K>(a: seq<Entry<K>>, k: K)
    ensures Find(a, k).Some? <==> k in KeysOf(a)
  {
    if |a| > 0 {
      FindPresent(a[1..], k);
      assert KeysOf(a) == [a[0].key] + KeysOf(a[1..]);
    }
  }

  /** Adding to `k` raises the total under `k` by `v` (from 0 when it was
      absent) and leaves every other key's total alone. */
  lemma {:induction false} FindAddTo<K>(a: seq<Entry<K>>, k: K, v: real, k2: K)
    ensures Find(AddTo(a, k, v), k2)
         == if k2 == k then Some(Find(a, k).GetOr(0.0) + v) else Find(a, k2)
  {
    if |a| > 0 && a[0].key != k {
      FindAddTo(a[1..], k, v, k2);
    }
  }

  /** Adding keeps the key order; a new key goes to the end. */
  lemma {:induction false} AddToKeys<K>(a: seq<Entry<K>>, k: K, v: real)
    ensures KeysOf(AddTo(a, k, v)) == if k in KeysOf(a) then KeysOf(a) else KeysOf(a) + [k]
  {
    if |a| > 0 {
      AddToKeys(a[1..], k, v);
      assert KeysOf(a) == [a[0].key] + KeysOf(a[1..]);
      if a[0].key != k {
        assert KeysOf(AddTo(a, k, v)) == [a[0].key] + KeysOf(AddTo(a[1..], k, v));
      } else {
        assert KeysOf(AddTo(a, k, v)) == [k] + KeysOf(a[1..]);
      }
    }
  }

  lemma AddToDistinct<K>(a: seq<Entry<K>>, k: K, v: real)
    requires DistinctKeys(a)
    ensures DistinctKeys(AddTo(a, k, v))
  {
    AddToKeys(a, k, v);
    var b := AddTo(a, k, v);
    forall i, j | 0 <= i < j < |b| ensures b[i].key != b[j].key {
      assert KeysOf(b)[i] == b[i].key && KeysOf(b)[j] == b[j].key;
      if j == |a| {
        assert KeysOf(a)[i] == a[i].key;
      } else {
        assert KeysOf(a)[i] == a[i].key && KeysOf(a)[j] == a[j].key;
      }
    }
  }

  /** Some element of `xs` has key `k`. */
  predicate Occurs<T, K(==)>(xs: seq<T>, key: T -> K, k: K) {
    exists i :: 0 <= i < |xs| && key(xs[i]) == k
  }

  /** The sum of `amount` over the elements of `xs` whose key is `k`: the
      reference the grouped totals are checked against. */
  function Total<T, K(==)>(xs: seq<T>, key: T -> K, amount: T -> real, k: K): real
    decreases |xs|
  {
    if |xs| == 0 then 0.0
    else (if key(xs[0]) == k then amount(xs[0]) else 0.0) + Total(xs[1..], key, amount, k)
  }

  /** The sum of `amount` over every element of `xs`. */
  function SumAll<T>(xs: seq<T>, amount: T -> real): real
    decreases |xs|
  {
    if |xs| == 0 then 0.0 else amount(xs[0]) + SumAll(xs[1..], amount)
  }

  /** The sum of the totals stored in a dictionary. */
  function SumTotals<K>(a: seq<Entry<K>>): real {
    if |a| == 0 then 0.0 else a[0].total + SumTotals(a[1..])
  }

  /** `xs.reduce((acc, x) => { add amount(x) to acc[key(x)] }, acc)`. */
  function GroupInto<T, K(==)>(acc: seq<Entry<K>>, xs: seq<T>, key: T -> K, amount: T -> real): seq<Entry<K>>
    decreases |xs|
  {
    if |xs| == 0 then acc
    else GroupInto(AddTo(acc, key(xs[0]), amount(xs[0])), xs[1..], key, amount)
  }

  /** The same reduce started from the empty object `{}`. */
  function GroupBy<T, K(==)>(xs: seq<T>, key: T -> K, amount: T -> real): seq<Entry<K>> {
    GroupInto([], xs, key, amount)
  }

  /** Grouping into a dictionary that already holds some totals: a key ends up
      present when it was present or occurs in the list, and its total is the
      old one (0 when absent) plus the sum of the amounts carrying it. */
  lemma {:induction false} GroupIntoFind<T, K>(acc: seq<Entry<K>>, xs: seq<T>, key: T -> K, amount: T -> real, k: K)
    ensures Find(GroupInto(acc, xs, key, amount), k)
         == if Find(acc, k).Some? || Occurs(xs, key, k)
            then Some(Find(acc, k).GetOr(0.0) + Total(xs, key, amount, k))
            else None
    decreases |xs|
  {
    if |xs| > 0 {
      var x := xs[0];
      var acc' := AddTo(acc, key(x), amount(x));
      GroupIntoFind(acc', xs[1..], key, amount, k);
      FindAddTo(acc, key(x), amount(x), k);
      OccursCons(xs, key, k);
      assert GroupInto(acc, xs, key, amount) == GroupInto(acc', xs[1..], key, amount);
      assert Total(xs, key, amount, k) == (if key(x) == k then amount(x) else 0.0) + Total(xs[1..], key, amount, k);
      FindStep(Occurs(xs, key, k), Occurs(xs[1..], key, k), key(x) == k,
               Find(acc, k), Find(acc', k), Total(xs, key, amount, k), Total(xs[1..], key, amount, k),
               amount(x), Find(GroupInto(acc', xs[1..], key, amount), k));
    }
  }

  /** The inductive step of GroupIntoFind, over the facts it combines: whether
      the key occurs in the list and in its tail, whether the head carries it,
      what is found before and after adding the head, and the totals. */
  lemma FindStep(occurs: bool, occursTail: bool, head: bool,
                 found: Option<real>, found': Option<real>, total: real, totalTail: real,
                 v: real, result: Option<real>)
    requires found' == if head then Some(found.GetOr(0.0) + v) else found
    requires occurs <==> head || occursTail
    requires total == (if head then v else 0.0) + totalTail
    requires result == if found'.Some? || occursTail then Some(found'.GetOr(0.0) + totalTail) else None
    ensures result == if found.Some? || occurs then Some(found.GetOr(0.0) + total) else None
  {
  }

  /** A key occurs in a non-empty list iff it is the head's key or occurs in the tail. */
  lemma OccursCons<T, K>(xs: seq<T>, key: T -> K, k: K)
    requires |xs| > 0
    ensures Occurs(xs, key, k) <==> key(xs[0]) == k || Occurs(xs[1..], key, k)
  {
    if Occurs(xs[1..], key, k) {
      var i :| 0 <= i < |xs[1..]| && key(xs[1..][i]) == k;
      assert key(xs[i + 1]) == k;
    }
    if Occurs(xs, key, k) && key(xs[0]) != k {
      var i :| 0 <= i < |xs| && key(xs[i]) == k;
      assert key(xs[1..][i - 1]) == k;
    }
  }

  lemma {:induction false} GroupIntoKeys<T, K>(acc: seq<Entry<K>>, xs: seq<T>, key: T -> K, amount: T -> real)
    requires DistinctKeys(acc)
    ensures DistinctKeys(GroupInto(acc, xs, key, amount))
    ensures forall k :: k in KeysOf(GroupInto(acc, xs, key, amount)) <==> k in KeysOf(acc) || Occurs(xs, key, k)
    decreases |xs|
  {
    var r := GroupInto(acc, xs, key, amount);
    forall k ensures k in KeysOf(r) <==> k in KeysOf(acc) || Occurs(xs, key, k) {
      GroupIntoFind(acc, xs, key, amount, k);
      FindPresent(acc, k);
      FindPresent(r, k);
    }
    if |xs| > 0 {
      AddToDistinct(acc, key(xs[0]), amount(xs[0]));
      GroupIntoKeys(AddTo(acc, key(xs[0]), amount(xs[0])), xs[1..], key, amount);
    }
  }

  /** The grouped dictionary has one entry per key that occurs, no key twice,
      and each entry holds the sum of the amounts carrying its key. */
  lemma GroupByCorrect<T, K>(xs: seq<T>, key: T -> K, amount: T -> real, k: K)
    ensures DistinctKeys(GroupBy(xs, key, amount))
    ensures k in KeysOf(GroupBy(xs, key, amount)) <==> Occurs(xs, key, k)
    ensures Find(GroupBy(xs, key, amount), k)
         == if Occurs(xs, key, k) then Some(Total(xs, key, amount, k)) else None
  {
    GroupIntoKeys([], xs, key, amount);
    GroupIntoFind([], xs, key, amount, k);
  }

  /** In a list without repeated keys, the entry at position `i` is the one found for its key. */
  lemma {:induction false} FindAtIndex<K>(a: seq<Entry<K>>, i: nat)
    requires DistinctKeys(a) && i < |a|
    ensures Find(a, a[i].key) == Some(a[i].total)
  {
    if i > 0 {
      FindAtIndex(a[1..], i - 1);
    }
  }

  lemma {:induction false} SumTotalsAddTo<K>(a: seq<Entry<K>>, k: K, v: real)
    ensures SumTotals(AddTo(a, k, v)) == SumTotals(a) + v
  {
    if |a| > 0 && a[0].key != k {
      SumTotalsAddTo(a[1..], k, v);
    }
  }

  /** Grouping neither creates nor loses any amount. */
  lemma {:induction false} GroupIntoSum<T, K>(acc: seq<Entry<K>>, xs: seq<T>, key: T -> K, amount: T -> real)
    ensures SumTotals(GroupInto(acc, xs, key, amount)) == SumTotals(acc) + SumAll(xs, amount)
    decreases |xs|
  {
    if |xs| > 0 {
      SumTotalsAddTo(acc, key(xs[0]), amount(xs[0]));
      GroupIntoSum(AddTo(acc, key(xs[0]), amount(xs[0])), xs[1..], key, amount);
    }
  }

  /** Totals add up over concatenated lists. */
  lemma {:induction false} TotalAppend<T, K>(a: seq<T>, b: seq<T>, key: T -> K, amount: T -> real, k: K)
    ensures Total(a + b, key, amount, k) == Total(a, key, amount, k) + Total(b, key, amount, k)
    decreases |a|
  {
    if |a| == 0 {
      assert a + b == b;
    } else {
      TotalAppend(a[1..], b, key, amount, k);
      assert (a + b)[0] == a[0];
      assert (a + b)[1..] == a[1..] + b;
    }
  }

  lemma {:induction false} SumAllAppend<T>(a: seq<T>, b: seq<T>, amount: T -> real)
    ensures SumAll(a + b, amount) == SumAll(a, amount) + SumAll(b, amount)
    decreases |a|
  {
    if |a| == 0 {
      assert a + b == b;
    } else {
      SumAllAppend(a[1..], b, amount);
      assert (a + b)[0] == a[0];
      assert (a + b)[1..] == a[1..] + b;
    }
  }
}
