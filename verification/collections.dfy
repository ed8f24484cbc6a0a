/** `Array.prototype.filter` on sequences, with the facts the screens and the
    aggregation rely on: the result is the order-preserving subsequence of the
    elements that pass, with their multiplicities. */
module Collections {

  function Filter<T>(xs: seq<T>, p: T -> bool): seq<T>
    decreases |xs|
  {
    if |xs| == 0 then []
    else (if p(xs[0]) then [xs[0]] else []) + Filter(xs[1..], p)
  }

  /** `small` is obtained from `big` by deleting elements, keeping order. */
  predicate Subsequence<T(==)>(small: seq<T>, big: seq<T>)
    decreases |big|
  {
    if |small| == 0 then true
    else if |big| == 0 then false
    else if small[0] == big[0] then Subsequence(small[1..], big[1..])
    else Subsequence(small, big[1..])
  }

  /** The filtered list keeps, in order, exactly the elements that pass `p`:
      each passing element as often as in `xs`, each failing one never. */
  lemma FilterSpec<T>(xs: seq<T>, p: T -> bool)
    ensures Subsequence(Filter(xs, p), xs)
    ensures forall i :: 0 <= i < |Filter(xs, p)| ==> p(Filter(xs, p)[i])
    ensures forall x :: multiset(Filter(xs, p))[x] == if p(x) then multiset(xs)[x] else 0
  {
    FilterSubsequence(xs, p);
    FilterPasses(xs, p);
    forall x ensures multiset(Filter(xs, p))[x] == if p(x) then multiset(xs)[x] else 0 {
      FilterCount(xs, p, x);
    }
  }

  lemma {:induction false} FilterSubsequence<T>(xs: seq<T>, p: T -> bool)
    ensures Subsequence(Filter(xs, p), xs)
    decreases |xs|
  {
    if |xs| > 0 {
      FilterSubsequence(xs[1..], p);
      var r := Filter(xs, p);
      if p(xs[0]) {
        assert r[0] == xs[0] && r[1..] == Filter(xs[1..], p);
      } else {
        assert r == Filter(xs[1..], p);
        SubsequenceCons(r, xs[0], xs[1..]);
        assert [xs[0]] + xs[1..] == xs;
      }
    }
  }

  lemma {:induction false} FilterPasses<T>(xs: seq<T>, p: T -> bool)
    ensures forall i :: 0 <= i < |Filter(xs, p)| ==> p(Filter(xs, p)[i])
    decreases |xs|
  {
    if |xs| > 0 {
      FilterPasses(xs[1..], p);
      var r := Filter(xs, p);
      var tail := Filter(xs[1..], p);
      forall i | 0 <= i < |r| ensures p(r[i]) {
        if p(xs[0]) {
          if i > 0 {
            assert r[i] == tail[i - 1];
          }
        } else {
          assert r[i] == tail[i];
        }
      }
    }
  }

  lemma {:induction false} FilterCount<T>(xs: seq<T>, p: T -> bool, x: T)
    ensures multiset(Filter(xs, p))[x] == if p(x) then multiset(xs)[x] else 0
    decreases |xs|
  {
    if |xs| > 0 {
      FilterCount(xs[1..], p, x);
      assert xs == [xs[0]] + xs[1..];
      assert multiset(xs) == multiset([xs[0]]) + multiset(xs[1..]);
      var head := if p(xs[0]) then [xs[0]] else [];
      assert multiset(Filter(xs, p)) == multiset(head) + multiset(Filter(xs[1..], p));
    }
  }

  /** Putting an element in front of the bigger list keeps a subsequence one. */
  lemma {:induction false} SubsequenceCons<T>(small: seq<T>, x: T, big: seq<T>)
    requires Subsequence(small, big)
    ensures Subsequence(small, [x] + big)
    decreases |big| + 1, 0
  {
    assert ([x] + big)[1..] == big;
    if |small| > 0 && small[0] == x {
      SubsequenceDropHead(small, big);
    }
  }

  lemma {:induction false} SubsequenceDropHead<T>(small: seq<T>, big: seq<T>)
    requires |small| > 0 && Subsequence(small, big)
    ensures Subsequence(small[1..], big)
    decreases |big|, 1
  {
    assert big == [big[0]] + big[1..];
    if small[0] == big[0] {
      SubsequenceCons(small[1..], big[0], big[1..]);
    } else {
      SubsequenceDropHead(small, big[1..]);
      SubsequenceCons(small[1..], big[0], big[1..]);
    }
  }

  /** Membership in the filtered list: in the list and passing `p`. */
  lemma FilterMembership<T>(xs: seq<T>, p: T -> bool, x: T)
    ensures x in Filter(xs, p) <==> x in xs && p(x)
  {
    FilterSpec(xs, p);
    assert x in Filter(xs, p) <==> multiset(Filter(xs, p))[x] > 0;
    assert x in xs <==> multiset(xs)[x] > 0;
  }

  /** A one-element list is kept whole or dropped. */
  lemma FilterSingleton<T>(x: T, p: T -> bool)
    ensures Filter([x], p) == if p(x) then [x] else []
  {
    assert [x][1..] == [];
  }

  /** Filtering distributes over concatenation. */
  lemma {:induction false} FilterAppend<T>(a: seq<T>, b: seq<T>, p: T -> bool)
    ensures Filter(a + b, p) == Filter(a, p) + Filter(b, p)
    decreases |a|
  {
    if |a| > 0 {
      FilterAppend(a[1..], b, p);
      assert (a + b)[0] == a[0];
      assert (a + b)[1..] == a[1..] + b;
    } else {
      assert a + b == b;
    }
  }

  /** Two tests that agree on every element of the list select the same elements. */
  lemma {:induction false} FilterCongruent<T>(xs: seq<T>, p: T -> bool, q: T -> bool)
    requires forall i :: 0 <= i < |xs| ==> p(xs[i]) == q(xs[i])
    ensures Filter(xs, p) == Filter(xs, q)
    decreases |xs|
  {
    if |xs| > 0 {
      FilterCongruent(xs[1..], p, q);
    }
  }

  /** Filtering by `p` and then by `q` is filtering once by a test equal to both. */
  lemma {:induction false} FilterCompose<T>(xs: seq<T>, p: T -> bool, q: T -> bool, both: T -> bool)
    requires forall i :: 0 <= i < |xs| ==> both(xs[i]) == (p(xs[i]) && q(xs[i]))
    ensures Filter(Filter(xs, p), q) == Filter(xs, both)
    decreases |xs|
  {
    if |xs| > 0 {
      FilterCompose(xs[1..], p, q, both);
      var head := if p(xs[0]) then [xs[0]] else [];
      FilterAppend(head, Filter(xs[1..], p), q);
      if p(xs[0]) {
        assert Filter(head, q) == if q(xs[0]) then [xs[0]] else [] by {
          assert head[1..] == [];
        }
      }
    }
  }

  /** A test every element passes keeps the whole list. */
  lemma {:induction false} FilterAllPass<T>(xs: seq<T>, p: T -> bool)
    requires forall i :: 0 <= i < |xs| ==> p(xs[i])
    ensures Filter(xs, p) == xs
    decreases |xs|
  {
    if |xs| > 0 {
      FilterAllPass(xs[1..], p);
      assert xs == [xs[0]] + xs[1..];
    }
  }

  /** A test no element passes keeps nothing. */
  lemma {:induction false} FilterNonePass<T>(xs: seq<T>, p: T -> bool)
    requires forall i :: 0 <= i < |xs| ==> !p(xs[i])
    ensures Filter(xs, p) == []
    decreases |xs|
  {
    if |xs| > 0 {
      FilterNonePass(xs[1..], p);
    }
  }
}
