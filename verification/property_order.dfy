/** The order in which `Object.keys` lists the own string keys of an ordinary
    object (OrdinaryOwnPropertyKeys, section 10.1.11.1 of ECMAScript 2024):
    first every key that is an array index, in ascending numeric order, then
    every other key in the order it was created. The reduce accumulators are
    association lists in creation order; this module gives the order the
    charts see. */
module PropertyOrder {
  import opened Text
  import opened Collections

  /** 2^32 - 1: an array index is an integer below it (section 6.1.7). */
  const INDEX_BOUND: nat := 0xFFFF_FFFF

  /** `s` is an array index: the canonical decimal text of an integer in
      0 .. 2^32 - 2, so digits only and no leading zero. */
  predicate IsArrayIndex(s: string) {
    && 1 <= |s| && AllDigits(s)
    && (s[0] != '0' || |s| == 1)
    && DecimalValue(s) < INDEX_BOUND
  }

  /** Every key that is not an array index keeps its creation order. */
  predicate IsNamedKey(s: string) {
    !IsArrayIndex(s)
  }

  /** The numeric value of an array index; other keys never need one. */
  function IndexValue(s: string): nat {
    if IsArrayIndex(s) then DecimalValue(s) else 0
  }

  predicate IndexSorted(s: seq<string>) {
    forall i, j :: 0 <= i < j < |s| ==> IndexValue(s[i]) <= IndexValue(s[j])
  }

  predicate Distinct(s: seq<string>) {
    forall i, j :: 0 <= i < j < |s| ==> s[i] != s[j]
  }

  /** `r` is how `Object.keys` lists an object whose keys were created in the
      order `ks`: the same keys, the array indices first in ascending value,
      then the other keys exactly in creation order. */
  predicate ListedAsObjectKeys(r: seq<string>, ks: seq<string>) {
    && multiset(r) == multiset(ks)
    && var n := |Filter(ks, IsArrayIndex)|;
       && n <= |r|
       && (forall i :: 0 <= i < n ==> IsArrayIndex(r[i]))
       && IndexSorted(r[..n])
       && r[n..] == Filter(ks, IsNamedKey)
  }

  function InsertByIndex(k: string, s: seq<string>): seq<string>
    decreases |s|
  {
    if |s| == 0 || IndexValue(k) <= IndexValue(s[0]) then [k] + s
    else [s[0]] + InsertByIndex(k, s[1..])
  }

  function SortByIndex(ks: seq<string>): seq<string>
    decreases |ks|
  {
    if |ks| == 0 then [] else InsertByIndex(ks[0], SortByIndex(ks[1..]))
  }

  /** `Object.keys(obj)` for an object whose keys were created in the order `ks`. */
  function OwnKeys(ks: seq<string>): seq<string> {
    SortByIndex(Filter(ks, IsArrayIndex)) + Filter(ks, IsNamedKey)
  }

  lemma {:induction false} InsertByIndexCount(k: string, s: seq<string>)
    ensures multiset(InsertByIndex(k, s)) == multiset(s) + multiset{k}
    decreases |s|
  {
    if |s| > 0 && IndexValue(k) > IndexValue(s[0]) {
      InsertByIndexCount(k, s[1..]);
      assert s == [s[0]] + s[1..];
    }
  }

  /** Every key of `s` is at least `b` in value. */
  predicate AtLeast(b: nat, s: seq<string>) {
    forall i :: 0 <= i < |s| ==> b <= IndexValue(s[i])
  }

  lemma {:induction false} InsertByIndexAtLeast(b: nat, k: string, s: seq<string>)
    requires AtLeast(b, s) && b <= IndexValue(k)
    ensures AtLeast(b, InsertByIndex(k, s))
    decreases |s|
  {
    if |s| > 0 && IndexValue(k) > IndexValue(s[0]) {
      InsertByIndexAtLeast(b, k, s[1..]);
      var rest := InsertByIndex(k, s[1..]);
      assert InsertByIndex(k, s) == [s[0]] + rest;
    }
  }

  lemma {:induction false} InsertByIndexSorted(k: string, s: seq<string>)
    requires IndexSorted(s)
    ensures IndexSorted(InsertByIndex(k, s))
    decreases |s|
  {
    var r := InsertByIndex(k, s);
    if |s| == 0 || IndexValue(k) <= IndexValue(s[0]) {
      assert AtLeast(IndexValue(k), s);
      forall i, j | 0 <= i < j < |r| ensures IndexValue(r[i]) <= IndexValue(r[j]) {
        assert r[j] == s[j - 1];
        if i > 0 {
          assert r[i] == s[i - 1];
        }
      }
    } else {
      var rest := InsertByIndex(k, s[1..]);
      InsertByIndexSorted(k, s[1..]);
      assert AtLeast(IndexValue(s[0]), s[1..]);
      InsertByIndexAtLeast(IndexValue(s[0]), k, s[1..]);
      assert r == [s[0]] + rest;
      forall i, j | 0 <= i < j < |r| ensures IndexValue(r[i]) <= IndexValue(r[j]) {
        assert r[j] == rest[j - 1];
        if i > 0 {
          assert r[i] == rest[i - 1];
        }
      }
    }
  }

  lemma {:induction false} SortByIndexSpec(ks: seq<string>)
    ensures IndexSorted(SortByIndex(ks))
    ensures multiset(SortByIndex(ks)) == multiset(ks)
    decreases |ks|
  {
    if |ks| > 0 {
      SortByIndexSpec(ks[1..]);
      InsertByIndexSorted(ks[0], SortByIndex(ks[1..]));
      InsertByIndexCount(ks[0], SortByIndex(ks[1..]));
      assert ks == [ks[0]] + ks[1..];
    }
  }

  /** Every key is listed exactly as often as it was created. */
  lemma OwnKeysSameKeys(ks: seq<string>)
    ensures multiset(OwnKeys(ks)) == multiset(ks)
  {
    var idx, named := Filter(ks, IsArrayIndex), Filter(ks, IsNamedKey);
    SortByIndexSpec(idx);
    forall x ensures multiset(OwnKeys(ks))[x] == multiset(ks)[x] {
      FilterCount(ks, IsArrayIndex, x);
      FilterCount(ks, IsNamedKey, x);
    }
    assert multiset(OwnKeys(ks)) == multiset(ks);
  }

  /** `Object.keys` lists the array indices first, in ascending value, then
      the other keys in creation order, and no key more or less often. */
  lemma OwnKeysSpec(ks: seq<string>)
    ensures ListedAsObjectKeys(OwnKeys(ks), ks)
  {
    var idx := Filter(ks, IsArrayIndex);
    var sorted := SortByIndex(idx);
    var r := OwnKeys(ks);
    OwnKeysSameKeys(ks);
    SortByIndexSpec(idx);
    assert |sorted| == |multiset(sorted)| == |idx|;
    assert r[..|idx|] == sorted;
    FilterPasses(ks, IsArrayIndex);
    forall i | 0 <= i < |idx| ensures IsArrayIndex(r[i]) {
      assert r[i] == sorted[i];
      assert sorted[i] in multiset(idx);
    }
  }

  /** Without array indices among the keys, `Object.keys` is the creation order. */
  lemma OwnKeysNamed(ks: seq<string>)
    requires forall i :: 0 <= i < |ks| ==> IsNamedKey(ks[i])
    ensures OwnKeys(ks) == ks
  {
    FilterAllPass(ks, IsNamedKey);
    FilterNonePass(ks, IsArrayIndex);
  }

  lemma {:induction false} DistinctCount(s: seq<string>, x: string)
    requires Distinct(s)
    ensures multiset(s)[x] <= 1
    decreases |s|
  {
    if |s| > 0 {
      assert s == [s[0]] + s[1..];
      DistinctCount(s[1..], x);
      assert s[0] !in s[1..];
    }
  }

  lemma RepeatCount(s: seq<string>, i: nat, j: nat)
    requires i < j < |s| && s[i] == s[j]
    ensures multiset(s)[s[i]] >= 2
  {
    assert s == s[..i] + [s[i]] + s[i + 1..j] + [s[j]] + s[j + 1..];
  }

  /** Listing the keys of an object never repeats one. */
  lemma OwnKeysDistinct(ks: seq<string>)
    requires Distinct(ks)
    ensures Distinct(OwnKeys(ks))
  {
    var r := OwnKeys(ks);
    OwnKeysSameKeys(ks);
    forall i, j | 0 <= i < j < |r| ensures r[i] != r[j] {
      if r[i] == r[j] {
        RepeatCount(r, i, j);
        DistinctCount(ks, r[i]);
      }
    }
  }

  /** A category created with a store-chosen key such as "q3Xf" and then a
      seeded category listed as "2" come out of `Object.keys` in the opposite
      order: "2" is an array index. */
  lemma IndexKeyListedFirst()
    ensures OwnKeys(["q3Xf", "2"]) == ["2", "q3Xf"]
  {
    assert !IsArrayIndex("q3Xf") by {
      assert !IsDigit("q3Xf"[0]);
    }
    assert IsArrayIndex("2") by {
      assert DecimalValue("2") == DecimalValue("2"[..0]) * 10 + DigitValue('2');
    }
    assert Filter(["q3Xf", "2"], IsArrayIndex) == ["2"] by {
      FilterSingleton("2", IsArrayIndex);
      assert ["q3Xf", "2"][1..] == ["2"];
    }
    assert Filter(["q3Xf", "2"], IsNamedKey) == ["q3Xf"] by {
      FilterSingleton("2", IsNamedKey);
      assert ["q3Xf", "2"][1..] == ["2"];
    }
    assert SortByIndex(["2"]) == ["2"] by {
      assert ["2"][1..] == [];
    }
  }
}
