/** The `dadosEvolucaoFinanceira` memo of the finance context: transactions
    sorted by date (stable), reduced into an object keyed by "YYYY-MM" holding
    each month's net amount, and the last six months turned into chart labels
    "MM/YY" and values, with a fixed placeholder when there is nothing. */
module Evolution {
  import opened Wrappers
  import opened Text
  import opened Collections
  import opened Grouping
  import opened Calendar
  import opened Records
  import Finance
  import PropertyOrder

  /** The signed contribution to a month: `+valor` for income, `-valor` for
      every other `tipo`. */
  function Signed(t: Transaction): real {
    if t.tipo == INCOME then t.valor else -t.valor
  }

  // ------------------------------------------------------- stable date sort

  predicate SortedByDate(s: seq<Transaction>) {
    forall i, j :: 0 <= i < j < |s| ==> DateLe(s[i].data, s[j].data)
  }

  /** Insert before the first element that is not earlier: equal dates keep
      the inserted element first. */
  function InsertByDate(t: Transaction, s: seq<Transaction>): seq<Transaction> {
    if |s| == 0 || DateLe(t.data, s[0].data) then [t] + s
    else [s[0]] + InsertByDate(t, s[1..])
  }

  /** `[...transacoes].sort((a, b) => new Date(a.data) - new Date(b.data))`. */
  function SortByDate(ts: seq<Transaction>): seq<Transaction> {
    if |ts| == 0 then [] else InsertByDate(ts[0], SortByDate(ts[1..]))
  }

  lemma {:induction false} InsertByDatePermutes(t: Transaction, s: seq<Transaction>)
    ensures multiset(InsertByDate(t, s)) == multiset(s) + multiset{t}
  {
    if |s| > 0 && !DateLe(t.data, s[0].data) {
      InsertByDatePermutes(t, s[1..]);
      assert s == [s[0]] + s[1..];
    }
  }

  /** Every element of `InsertByDate(t, s)` is `t` or an element of `s`. */
  lemma InsertByDateMember(t: Transaction, s: seq<Transaction>, j: int)
    requires 0 <= j < |InsertByDate(t, s)|
    ensures InsertByDate(t, s)[j] == t || exists k :: 0 <= k < |s| && s[k] == InsertByDate(t, s)[j]
  {
    var r := InsertByDate(t, s);
    InsertByDatePermutes(t, s);
    assert r[j] in multiset(r);
    if r[j] != t {
      assert r[j] in multiset(s);
      assert r[j] in s;
    }
  }

  lemma {:induction false} InsertByDateSorted(t: Transaction, s: seq<Transaction>)
    requires SortedByDate(s)
    ensures SortedByDate(InsertByDate(t, s))
  {
    var r := InsertByDate(t, s);
    if |s| == 0 || DateLe(t.data, s[0].data) {
      forall i, j | 0 <= i < j < |r| ensures DateLe(r[i].data, r[j].data) {
        if i == 0 && j > 1 {
          DateLeTransitive(t.data, s[0].data, s[j - 1].data);
        }
      }
    } else {
      DateLeTotal(t.data, s[0].data);
      InsertByDateSorted(t, s[1..]);
      var rest := InsertByDate(t, s[1..]);
      forall j | 0 <= j < |rest| ensures DateLe(s[0].data, rest[j].data) {
        InsertByDateMember(t, s[1..], j);
        if rest[j] != t {
          var k :| 0 <= k < |s[1..]| && s[1..][k] == rest[j];
          assert s[k + 1] == rest[j];
        }
      }
      assert r == [s[0]] + rest;
      forall i, j | 0 <= i < j < |r| ensures DateLe(r[i].data, r[j].data) {
        assert r[j] == rest[j - 1];
        if i > 0 {
          assert r[i] == rest[i - 1];
        }
      }
    }
  }

  /** The sort yields a date-ordered permutation of its input. */
  lemma {:induction false} SortByDateSpec(ts: seq<Transaction>)
    ensures SortedByDate(SortByDate(ts))
    ensures multiset(SortByDate(ts)) == multiset(ts)
    decreases |ts|
  {
    if |ts| > 0 {
      var sorted := SortByDate(ts[1..]);
      assert SortedByDate(sorted) && multiset(sorted) == multiset(ts[1..]) by {
        SortByDateSpec(ts[1..]);
      }
      InsertByDateSorted(ts[0], sorted);
      InsertByDatePermutes(ts[0], sorted);
      assert multiset(ts) == multiset(ts[1..]) + multiset{ts[0]} by {
        assert ts == [ts[0]] + ts[1..];
      }
    }
  }

  function SameDate(d: Date): Transaction -> bool {
    (t: Transaction) => t.data == d
  }

  lemma {:induction false} InsertByDateStable(t: Transaction, s: seq<Transaction>, d: Date)
    ensures Filter(InsertByDate(t, s), SameDate(d)) == Filter([t] + s, SameDate(d))
  {
    var p := SameDate(d);
    if |s| > 0 && !DateLe(t.data, s[0].data) {
      var rest := s[1..];
      var head, moved, tail := Filter([s[0]], p), Filter([t], p), Filter(rest, p);
      assert Filter(InsertByDate(t, s), p) == head + (moved + tail) by {
        InsertByDateStable(t, rest, d);
        FilterAppend([s[0]], InsertByDate(t, rest), p);
        FilterAppend([t], rest, p);
      }
      assert Filter([t] + s, p) == moved + (head + tail) by {
        FilterAppend([t], s, p);
        FilterAppend([s[0]], rest, p);
        assert s == [s[0]] + rest;
      }
      // t is strictly later than s[0], so at most one of them has date d.
      assert head == [] || moved == [] by {
        FilterSingleton(s[0], p);
        FilterSingleton(t, p);
      }
      if head == [] {
        assert head + (moved + tail) == moved + tail == moved + (head + tail);
      } else {
        assert head + (moved + tail) == head + tail == moved + (head + tail);
      }
    }
  }

  /** The sort is stable: the transactions of any one date keep their original
      relative order. */
  lemma {:induction false} SortByDateStable(ts: seq<Transaction>, d: Date)
    ensures Filter(SortByDate(ts), SameDate(d)) == Filter(ts, SameDate(d))
    decreases |ts|
  {
    if |ts| > 0 {
      SortByDateStable(ts[1..], d);
      InsertByDateStable(ts[0], SortByDate(ts[1..]), d);
      FilterAppend([ts[0]], SortByDate(ts[1..]), SameDate(d));
      FilterAppend([ts[0]], ts[1..], SameDate(d));
      assert ts == [ts[0]] + ts[1..];
    }
  }

  lemma {:induction false} InsertByDateTotal<K>(t: Transaction, s: seq<Transaction>, key: Transaction -> K, amount: Transaction -> real, k: K)
    ensures Total(InsertByDate(t, s), key, amount, k) == (if key(t) == k then amount(t) else 0.0) + Total(s, key, amount, k)
    ensures SumAll(InsertByDate(t, s), amount) == amount(t) + SumAll(s, amount)
  {
    var r := InsertByDate(t, s);
    if |s| == 0 || DateLe(t.data, s[0].data) {
      assert r[1..] == s;
    } else {
      InsertByDateTotal(t, s[1..], key, amount, k);
      assert r[1..] == InsertByDate(t, s[1..]);
    }
  }

  /** Sorting neither adds nor loses any amount, overall or per key. */
  lemma {:induction false} SortByDateTotal<K>(ts: seq<Transaction>, key: Transaction -> K, amount: Transaction -> real, k: K)
    ensures Total(SortByDate(ts), key, amount, k) == Total(ts, key, amount, k)
    ensures SumAll(SortByDate(ts), amount) == SumAll(ts, amount)
    decreases |ts|
  {
    if |ts| > 0 {
      SortByDateTotal(ts[1..], key, amount, k);
      InsertByDateTotal(ts[0], SortByDate(ts[1..]), key, amount, k);
    }
  }

  // ------------------------------------------------------- months and keys

  predicate Ascending(ks: seq<MonthKey>) {
    forall i, j :: 0 <= i < j < |ks| ==> KeyBefore(ks[i], ks[j])
  }

  /** The object key of a month: `${year}-${String(month).padStart(2, "0")}`. */
  function MonthKeyString(k: MonthKey): string {
    NatToString(k.year) + "-" + Pad2(k.month)
  }

  /** Month keys never collide: in particular the same month of two different
      years gets two different keys. */
  lemma MonthKeyStringInjective(a: MonthKey, b: MonthKey)
    ensures MonthKeyString(a) == MonthKeyString(b) ==> a == b
  {
    if MonthKeyString(a) == MonthKeyString(b) {
      var s := MonthKeyString(a);
      Pad2Digits(a.month);
      Pad2Digits(b.month);
      var ya := NatToString(a.year);
      var yb := NatToString(b.year);
      assert |ya| == |yb| by {
        assert |s| == |ya| + 3 == |yb| + 3;
      }
      assert s[..|ya|] == ya;
      assert MonthKeyString(b)[..|yb|] == yb;
      assert s[|ya| + 1..] == Pad2(a.month);
      assert MonthKeyString(b)[|yb| + 1..] == Pad2(b.month);
      NatToStringInjective(a.year, b.year);
      Pad2Injective(a.month, b.month);
    }
  }

  /** A month key is never an array index, since it holds a "-". */
  lemma MonthKeyNamed(k: MonthKey)
    ensures PropertyOrder.IsNamedKey(MonthKeyString(k))
  {
    var y := NatToString(k.year);
    assert MonthKeyString(k)[|y|] == '-';
  }

  /** The object keys behind an association list of months. */
  function KeyStrings(a: seq<Entry<MonthKey>>): (r: seq<string>)
    ensures |r| == |a| && forall i :: 0 <= i < |a| ==> r[i] == MonthKeyString(a[i].key)
  {
    seq(|a|, i requires 0 <= i < |a| => MonthKeyString(a[i].key))
  }

  /** `Object.keys(saldoPorMes)`, and so `Object.values`, list the months in
      the order the reduce created them: the association list's own order. */
  lemma SaldoPorMesKeyOrder(ts: seq<Transaction>)
    ensures PropertyOrder.OwnKeys(KeyStrings(SaldoPorMes(ts))) == KeyStrings(SaldoPorMes(ts))
  {
    var ks := KeyStrings(SaldoPorMes(ts));
    forall i | 0 <= i < |ks| ensures PropertyOrder.IsNamedKey(ks[i]) {
      MonthKeyNamed(SaldoPorMes(ts)[i].key);
    }
    PropertyOrder.OwnKeysNamed(ks);
  }

  /** The chart label of a month key: `const [ano, mes] = chave.split("-")`
      then `${mes}/${ano.substring(2)}`. */
  function Label(k: MonthKey): string {
    var parts := Split(MonthKeyString(k), '-');
    PartOr(parts, 1) + "/" + SubstringFrom(PartOr(parts, 0), 2)
  }

  /** A label is the zero-padded month, a slash and the year without its first
      two digits; for a four-digit year that is "MM/YY". */
  lemma LabelShape(k: MonthKey)
    ensures Label(k) == Pad2(k.month) + "/" + SubstringFrom(NatToString(k.year), 2)
    ensures 1000 <= k.year <= 9999 ==> Label(k) == Pad2(k.month) + "/" + Pad2(k.year % 100) && |Label(k)| == 5
  {
    var y := NatToString(k.year);
    Pad2Digits(k.month);
    DigitsHaveNoSeparator(y, '-');
    DigitsHaveNoSeparator(Pad2(k.month), '-');
    SplitAtSeparator(y, '-', Pad2(k.month));
    SplitWithoutSeparator(Pad2(k.month), '-');
    assert MonthKeyString(k) == y + ['-'] + Pad2(k.month);
    if 1000 <= k.year <= 9999 {
      FourDigitYear(k.year);
    }
  }

  // ----------------------------------------------------- the monthly totals

  /** `saldoPorMes`: the sorted transactions reduced into month totals. */
  function SaldoPorMes(ts: seq<Transaction>): seq<Entry<MonthKey>> {
    GroupBy(SortByDate(ts), MonthOf, Signed)
  }

  predicate HasMonth(ts: seq<Transaction>, k: MonthKey) {
    exists i :: 0 <= i < |ts| && MonthOf(ts[i]) == k
  }

  /** A month's net amount, summed directly over the unsorted list: income minus
      every non-income amount dated in that month, and nothing from other months. */
  function NetOfMonth(ts: seq<Transaction>, k: MonthKey): real {
    Total(ts, MonthOf, Signed, k)
  }

  lemma {:induction false} GroupIntoAscending(acc: seq<Entry<MonthKey>>, xs: seq<Transaction>)
    requires SortedByDate(xs)
    requires Ascending(KeysOf(acc))
    requires forall i, j :: 0 <= i < |acc| && 0 <= j < |xs| ==> KeyLe(acc[i].key, MonthOf(xs[j]))
    ensures Ascending(KeysOf(GroupInto(acc, xs, MonthOf, Signed)))
    decreases |xs|
  {
    if |xs| > 0 {
      var m := MonthOf(xs[0]);
      var acc' := AddTo(acc, m, Signed(xs[0]));
      AddToKeys(acc, m, Signed(xs[0]));
      assert forall i :: 0 <= i < |acc| ==> KeysOf(acc)[i] == acc[i].key;
      assert forall i :: 0 <= i < |acc'| ==> KeysOf(acc')[i] == acc'[i].key;
      forall j | 1 <= j < |xs| ensures KeyLe(m, MonthOf(xs[j])) {
        DateLeMonth(xs[0].data, xs[j].data);
      }
      if m !in KeysOf(acc) {
        forall i | 0 <= i < |acc| ensures KeyBefore(acc[i].key, m) {
          assert KeyLe(acc[i].key, MonthOf(xs[0]));
          assert acc[i].key != m;
        }
      }
      forall i, j | 0 <= i < |acc'| && 0 <= j < |xs[1..]| ensures KeyLe(acc'[i].key, MonthOf(xs[1..][j])) {
        assert xs[1..][j] == xs[j + 1];
        if i < |acc| {
          assert acc'[i].key == acc[i].key;
        }
      }
      GroupIntoAscending(acc', xs[1..]);
    }
  }

  /** The month totals: no month twice, months in chronological order, a month
      present exactly when some transaction is dated in it, holding that month's
      net amount. */
  lemma SaldoPorMesCorrect(ts: seq<Transaction>, k: MonthKey)
    ensures DistinctKeys(SaldoPorMes(ts))
    ensures Ascending(KeysOf(SaldoPorMes(ts)))
    ensures k in KeysOf(SaldoPorMes(ts)) <==> HasMonth(ts, k)
    ensures Find(SaldoPorMes(ts), k) == if HasMonth(ts, k) then Some(NetOfMonth(ts, k)) else None
  {
    var sorted := SortByDate(ts);
    SortByDateSpec(ts);
    SortByDateTotal(ts, MonthOf, Signed, k);
    GroupByCorrect(sorted, MonthOf, Signed, k);
    GroupIntoAscending([], sorted);
    assert Occurs(sorted, MonthOf, k) <==> HasMonth(ts, k) by {
      if Occurs(sorted, MonthOf, k) {
        var i :| 0 <= i < |sorted| && MonthOf(sorted[i]) == k;
        assert sorted[i] in multiset(ts);
      }
      if HasMonth(ts, k) {
        var i :| 0 <= i < |ts| && MonthOf(ts[i]) == k;
        assert ts[i] in multiset(sorted);
      }
    }
  }

  // ------------------------------------------------------ the chart payload

  /** How many months the chart shows. */
  const WINDOW: nat := 6
  const NO_DATA_LABEL := "Sem dados"

  /** `array.slice(-n)` for a positive `n`: the last `n` elements, or all. */
  function Last<E>(s: seq<E>, n: nat): (r: seq<E>)
    requires n > 0
    ensures |r| == if |s| < n then |s| else n
    ensures forall i :: 0 <= i < |r| ==> r[i] == s[|s| - |r| + i]
  {
    if |s| > n then s[|s| - n..] else s
  }

  function TotalsOf<K>(s: seq<Entry<K>>): (r: seq<real>)
    ensures |r| == |s| && forall i :: 0 <= i < |s| ==> r[i] == s[i].total
  {
    seq(|s|, i requires 0 <= i < |s| => s[i].total)
  }

  function Labels(ks: seq<MonthKey>): (r: seq<string>)
    ensures |r| == |ks| && forall i :: 0 <= i < |ks| ==> r[i] == Label(ks[i])
  {
    seq(|ks|, i requires 0 <= i < |ks| => Label(ks[i]))
  }

  datatype NetSeries = NetSeries(labels: seq<string>, data: seq<real>)

  /** The last six month totals. */
  function NetWindow(ts: seq<Transaction>): seq<Entry<MonthKey>> {
    Last(SaldoPorMes(ts), WINDOW)
  }

  /** `dadosEvolucaoFinanceira`: labels and values of the last six months, or a
      single "Sem dados" point at zero when there is no month at all. */
  function DadosEvolucaoFinanceira(ts: seq<Transaction>): (r: NetSeries)
    ensures |r.labels| == |r.data|
  {
    var saldoPorMes := SaldoPorMes(ts);
    var labels := Labels(Last(KeysOf(saldoPorMes), WINDOW));
    var data := Last(TotalsOf(saldoPorMes), WINDOW);
    if |labels| == 0 then NetSeries([NO_DATA_LABEL], [0.0])
    else NetSeries(labels, data)
  }

  /** The tail of a chronological, duplicate-free month list keeps both
      properties. */
  lemma LastKeepsOrder(all: seq<Entry<MonthKey>>)
    requires DistinctKeys(all) && Ascending(KeysOf(all))
    ensures DistinctKeys(Last(all, WINDOW)) && Ascending(KeysOf(Last(all, WINDOW)))
  {
    var w := Last(all, WINDOW);
    var off := |all| - |w|;
    var ka, kw := KeysOf(all), KeysOf(w);
    forall i, j | 0 <= i < j < |w| ensures w[i].key != w[j].key && KeyBefore(kw[i], kw[j]) {
      assert w[i] == all[off + i] && w[j] == all[off + j];
      assert kw[i] == ka[off + i] && kw[j] == ka[off + j];
    }
  }

  /** Every month the tail drops precedes all the months it keeps. */
  lemma LastDropsEarlier(all: seq<Entry<MonthKey>>, k: MonthKey)
    requires Ascending(KeysOf(all))
    requires k in KeysOf(all)
    ensures k in KeysOf(Last(all, WINDOW)) || (|Last(all, WINDOW)| == WINDOW && KeyBefore(k, Last(all, WINDOW)[0].key))
  {
    var w := Last(all, WINDOW);
    var off := |all| - |w|;
    var ka, kw := KeysOf(all), KeysOf(w);
    var idx :| 0 <= idx < |ka| && ka[idx] == k;
    if idx >= off {
      assert w[idx - off] == all[idx];
      assert kw[idx - off] == k;
    } else {
      assert w[0] == all[off];
      assert KeyBefore(ka[idx], ka[off]);
    }
  }

  /** The window holds at most six months and is empty only for no
      transactions. */
  lemma NetWindowSize(ts: seq<Transaction>)
    ensures |NetWindow(ts)| <= WINDOW
    ensures |NetWindow(ts)| == 0 <==> |ts| == 0
  {
    if |ts| > 0 {
      SaldoPorMesCorrect(ts, MonthOf(ts[0]));
      assert HasMonth(ts, MonthOf(ts[0]));
    } else {
      assert SortByDate(ts) == [];
    }
  }

  /** The six-month window: at most six months, none of them twice, in
      chronological order, each holding that month's net amount; it is empty
      only for no transactions; and every month with a transaction is either
      in the window or, when the window is full, earlier than all of it. */
  lemma NetWindowCorrect(ts: seq<Transaction>)
    ensures |NetWindow(ts)| <= WINDOW
    ensures |NetWindow(ts)| == 0 <==> |ts| == 0
    ensures DistinctKeys(NetWindow(ts))
    ensures Ascending(KeysOf(NetWindow(ts)))
    ensures forall i :: 0 <= i < |NetWindow(ts)| ==>
      HasMonth(ts, NetWindow(ts)[i].key) && NetWindow(ts)[i].total == NetOfMonth(ts, NetWindow(ts)[i].key)
    ensures forall j :: 0 <= j < |ts| ==>
      MonthOf(ts[j]) in KeysOf(NetWindow(ts)) ||
      (|NetWindow(ts)| == WINDOW && KeyBefore(MonthOf(ts[j]), NetWindow(ts)[0].key))
  {
    var all := SaldoPorMes(ts);
    var w := NetWindow(ts);
    var off := |all| - |w|;
    NetWindowSize(ts);
    if |ts| > 0 {
      SaldoPorMesCorrect(ts, MonthOf(ts[0]));
      LastKeepsOrder(all);
    } else {
      SaldoPorMesCorrect(ts, MonthKey(0, 1));
      assert SortByDate(ts) == [];
      LastKeepsOrder(all);
    }
    forall i | 0 <= i < |w| ensures HasMonth(ts, w[i].key) && w[i].total == NetOfMonth(ts, w[i].key) {
      var k := w[i].key;
      assert w[i] == all[off + i];
      SaldoPorMesCorrect(ts, k);
      assert KeysOf(all)[off + i] == k;
      FindAtIndex(all, off + i);
    }
    forall j | 0 <= j < |ts| ensures MonthOf(ts[j]) in KeysOf(w) || (|w| == WINDOW && KeyBefore(MonthOf(ts[j]), w[0].key)) {
      SaldoPorMesCorrect(ts, MonthOf(ts[j]));
      assert HasMonth(ts, MonthOf(ts[j]));
      LastDropsEarlier(all, MonthOf(ts[j]));
    }
  }

  /** The first label of any month has a slash at index 2. */
  lemma LabelSlash(k: MonthKey)
    ensures |Label(k)| >= 3 && Label(k)[2] == '/'
  {
    LabelShape(k);
    Pad2Digits(k.month);
  }

  /** The labels and values shown are those of the six-month window. */
  lemma PayloadOfWindow(ts: seq<Transaction>)
    ensures var all := SaldoPorMes(ts); var w := NetWindow(ts);
      |Labels(Last(KeysOf(all), WINDOW))| == |w| == |Last(TotalsOf(all), WINDOW)| &&
      (forall i :: 0 <= i < |w| ==> Labels(Last(KeysOf(all), WINDOW))[i] == Label(w[i].key)) &&
      (forall i :: 0 <= i < |w| ==> Last(TotalsOf(all), WINDOW)[i] == w[i].total)
  {
    var all := SaldoPorMes(ts);
    var w := NetWindow(ts);
    var ks, ds := Last(KeysOf(all), WINDOW), Last(TotalsOf(all), WINDOW);
    assert |ks| == |w| == |ds|;
    forall i | 0 <= i < |w| ensures Labels(ks)[i] == Label(w[i].key) && ds[i] == w[i].total {
      var j := |all| - |w| + i;
      assert w[i] == all[j];
      assert ks[i] == KeysOf(all)[j] == all[j].key;
      assert ds[i] == TotalsOf(all)[j] == all[j].total;
    }
  }

  /** The payload is the placeholder for an empty window, and otherwise the
      labels and totals of the window itself. */
  lemma DadosOfWindow(ts: seq<Transaction>)
    ensures var w := NetWindow(ts);
      DadosEvolucaoFinanceira(ts)
        == if |w| == 0 then NetSeries([NO_DATA_LABEL], [0.0]) else NetSeries(Labels(KeysOf(w)), TotalsOf(w))
  {
    var all := SaldoPorMes(ts);
    var w := NetWindow(ts);
    var labels := Labels(Last(KeysOf(all), WINDOW));
    var data := Last(TotalsOf(all), WINDOW);
    PayloadOfWindow(ts);
    assert labels == Labels(KeysOf(w));
    assert data == TotalsOf(w);
  }

  /** The payload has one to six points, as many labels as values. */
  lemma DadosSize(ts: seq<Transaction>)
    ensures var r := DadosEvolucaoFinanceira(ts);
      1 <= |r.labels| <= WINDOW && |r.labels| == |r.data|
  {
    NetWindowSize(ts);
    DadosOfWindow(ts);
  }

  /** No non-empty list of month labels is the placeholder: a real label has
      a slash where "Sem dados" has a letter. */
  lemma LabelsNotPlaceholder(ks: seq<MonthKey>)
    requires |ks| > 0
    ensures Labels(ks) != [NO_DATA_LABEL]
  {
    LabelSlash(ks[0]);
    assert Labels(ks)[0] == Label(ks[0]);
    assert NO_DATA_LABEL[2] == 'm';
  }

  /** The payload is the placeholder exactly when there are no transactions. */
  lemma DadosSentinel(ts: seq<Transaction>)
    ensures |ts| == 0 <==> DadosEvolucaoFinanceira(ts) == NetSeries([NO_DATA_LABEL], [0.0])
  {
    NetWindowSize(ts);
    DadosOfWindow(ts);
    if |ts| > 0 {
      LabelsNotPlaceholder(KeysOf(NetWindow(ts)));
    }
  }

  /** With transactions, the payload is the window's labels and totals. */
  lemma DadosEntries(ts: seq<Transaction>)
    ensures |ts| > 0 ==> var r := DadosEvolucaoFinanceira(ts); var w := NetWindow(ts);
      |r.labels| == |w| &&
      forall i :: 0 <= i < |w| ==> r.labels[i] == Label(w[i].key) && r.data[i] == w[i].total
  {
    NetWindowSize(ts);
    DadosOfWindow(ts);
  }

  /** The chart payload: the placeholder exactly when there are no
      transactions, otherwise one "MM/YY"-style label and one net amount per
      month of the window, in order. */
  lemma DadosEvolucaoFinanceiraCorrect(ts: seq<Transaction>)
    ensures var r := DadosEvolucaoFinanceira(ts);
      1 <= |r.labels| <= WINDOW && |r.labels| == |r.data|
    ensures |ts| == 0 <==> DadosEvolucaoFinanceira(ts) == NetSeries([NO_DATA_LABEL], [0.0])
    ensures |ts| > 0 ==> var r := DadosEvolucaoFinanceira(ts); var w := NetWindow(ts);
      |r.labels| == |w| &&
      forall i :: 0 <= i < |w| ==> r.labels[i] == Label(w[i].key) && r.data[i] == w[i].total
  {
    DadosSize(ts);
    DadosSentinel(ts);
    DadosEntries(ts);
  }

  /** When every transaction is income or expense, the month totals add up to
      the overall balance of the summary cards. */
  lemma SaldoPorMesAddsUp(ts: seq<Transaction>)
    requires forall i :: 0 <= i < |ts| ==> ts[i].tipo == INCOME || ts[i].tipo == EXPENSE
    ensures SumTotals(SaldoPorMes(ts)) == Finance.SumOfKind(ts, INCOME) - Finance.SumOfKind(ts, EXPENSE)
  {
    GroupIntoSum([], SortByDate(ts), MonthOf, Signed);
    SortByDateTotal(ts, MonthOf, Signed, MonthKey(0, 1));
    SignedSum(ts);
  }

  lemma {:induction false} SignedSum(ts: seq<Transaction>)
    requires forall i :: 0 <= i < |ts| ==> ts[i].tipo == INCOME || ts[i].tipo == EXPENSE
    ensures SumAll(ts, Signed) == Finance.SumOfKind(ts, INCOME) - Finance.SumOfKind(ts, EXPENSE)
  {
    if |ts| > 0 {
      SignedSum(ts[1..]);
    }
  }
}
