/** The aggregation engine of the finance context provider: amount
    normalisation, the income/expense/balance totals, the current month's
    totals per category and the pie-chart series built from them, the budget
    map, and which records deleting a category removes. The reference month
    (`new Date()` in the provider) is a parameter. The monthly net series is in
    module Evolution. */
module Finance {
  import opened Wrappers
  import opened Calendar
  import opened Records
  import opened Collections
  import opened Grouping
  import opened PropertyOrder

  /** `normalizarNumero`: a value `Number()` cannot read becomes 0; any number is kept. */
  function NormalizarNumero(v: Option<real>): (r: real)
    ensures v.None? ==> r == 0.0
    ensures v.Some? ==> r == v.value
  {
    if v.None? then 0.0 else v.value
  }

  /** `prepararTransacao`: the record with its amount normalised and every other field kept. */
  function PrepararTransacao(t: TransactionDraft): (r: TransactionDraft)
    ensures r.valor.Some?
    ensures t.valor.Some? ==> r.valor == t.valor
    ensures t.valor.None? ==> r.valor == Some(0.0)
    ensures r.tipo == t.tipo && r.descricao == t.descricao
    ensures r.categoriaId == t.categoriaId && r.data == t.data
  {
    t.(valor := Some(NormalizarNumero(t.valor)))
  }

  /** Preparing a prepared record changes nothing. */
  lemma PrepararTransacaoIdempotent(t: TransactionDraft)
    ensures PrepararTransacao(PrepararTransacao(t)) == PrepararTransacao(t)
  {
  }

  // ---------------------------------------------------------------- totals

  /** The sum of the amounts of the transactions whose `tipo` is `kind`. */
  function SumOfKind(ts: seq<Transaction>, kind: string): real {
    Total(ts, TipoOf, ValorOf, kind)
  }

  /** The `receitaTotal`/`despesaTotal`/`saldoTotal` memo: one pass over the
      transactions, adding income to one total and expense to the other;
      transactions of any other `tipo` are ignored. */
  method CalcularTotais(ts: seq<Transaction>) returns (saldoTotal: real, receitaTotal: real, despesaTotal: real)
    ensures receitaTotal == SumOfKind(ts, INCOME)
    ensures despesaTotal == SumOfKind(ts, EXPENSE)
    ensures saldoTotal == receitaTotal - despesaTotal
    ensures |ts| == 0 ==> receitaTotal == 0.0 && despesaTotal == 0.0 && saldoTotal == 0.0
  {
    var receita := 0.0;
    var despesa := 0.0;
    var i := 0;
    while i < |ts|
      invariant 0 <= i <= |ts|
      invariant receita == SumOfKind(ts[..i], INCOME)
      invariant despesa == SumOfKind(ts[..i], EXPENSE)
    {
      TotalAppend(ts[..i], [ts[i]], TipoOf, ValorOf, INCOME);
      TotalAppend(ts[..i], [ts[i]], TipoOf, ValorOf, EXPENSE);
      assert ts[..i + 1] == ts[..i] + [ts[i]];
      if ts[i].tipo == INCOME {
        receita := receita + ts[i].valor;
      } else if ts[i].tipo == EXPENSE {
        despesa := despesa + ts[i].valor;
      }
      i := i + 1;
    }
    assert ts[..|ts|] == ts;
    saldoTotal, receitaTotal, despesaTotal := receita - despesa, receita, despesa;
  }

  /** Totals of two batches add up: the totals are a sum over the list. */
  lemma SumOfKindAppend(a: seq<Transaction>, b: seq<Transaction>, kind: string)
    ensures SumOfKind(a + b, kind) == SumOfKind(a, kind) + SumOfKind(b, kind)
  {
    TotalAppend(a, b, TipoOf, ValorOf, kind);
  }

  // ------------------------------------------------- categories by id

  /** `categorias.find(cat => cat.id === id)`: the first category with that id. */
  function FindCategory(cats: seq<Category>, id: string): (r: Option<Category>)
    ensures r.Some? ==> exists i :: 0 <= i < |cats| && cats[i] == r.value && cats[i].id == id
                          && forall j :: 0 <= j < i ==> cats[j].id != id
    ensures r.None? <==> forall i :: 0 <= i < |cats| ==> cats[i].id != id
  {
    if |cats| == 0 then None
    else if cats[0].id == id then Some(cats[0])
    else
      var r := FindCategory(cats[1..], id);
      assert forall i :: 1 <= i < |cats| ==> cats[i] == cats[1..][i - 1];
      r
  }

  // --------------------------------------------- month totals per category

  /** The filter of the monthly memos: `tipo` equal to `kind` and the date in
      the reference month and year. */
  function KindInMonth(kind: string, ref: MonthKey): Transaction -> bool {
    (t: Transaction) => t.tipo == kind && MonthOf(t) == ref
  }

  /** Some transaction of `kind` in the reference month carries category `id`. */
  predicate HasMonthly(ts: seq<Transaction>, kind: string, ref: MonthKey, id: string) {
    exists i :: 0 <= i < |ts| && ts[i].tipo == kind && MonthOf(ts[i]) == ref && ts[i].categoriaId == id
  }

  /** The amount of `kind` category `id` has in the reference month, summed
      directly over the list. */
  function MonthlySpent(ts: seq<Transaction>, kind: string, ref: MonthKey, id: string): real
    decreases |ts|
  {
    if |ts| == 0 then 0.0
    else
      (if ts[0].tipo == kind && MonthOf(ts[0]) == ref && ts[0].categoriaId == id then ts[0].valor else 0.0)
      + MonthlySpent(ts[1..], kind, ref, id)
  }

  /** Filter the month's transactions of one kind, then reduce them into an
      object keyed by `categoriaId` (lines 169-185 for expenses, 208-224 for income). */
  function MonthlyByKind(ts: seq<Transaction>, kind: string, ref: MonthKey): seq<Entry<string>> {
    GroupBy(Filter(ts, KindInMonth(kind, ref)), CategoriaOf, ValorOf)
  }

  lemma {:induction false} MonthlyTotalMatches(ts: seq<Transaction>, kind: string, ref: MonthKey, id: string)
    ensures Total(Filter(ts, KindInMonth(kind, ref)), CategoriaOf, ValorOf, id) == MonthlySpent(ts, kind, ref, id)
    decreases |ts|
  {
    if |ts| > 0 {
      var p := KindInMonth(kind, ref);
      var head := if p(ts[0]) then [ts[0]] else [];
      MonthlyTotalMatches(ts[1..], kind, ref, id);
      TotalAppend(head, Filter(ts[1..], p), CategoriaOf, ValorOf, id);
      if p(ts[0]) {
        assert head[1..] == [];
      }
    }
  }

  lemma MonthlyOccursMatches(ts: seq<Transaction>, kind: string, ref: MonthKey, id: string)
    ensures Occurs(Filter(ts, KindInMonth(kind, ref)), CategoriaOf, id) <==> HasMonthly(ts, kind, ref, id)
  {
    var p := KindInMonth(kind, ref);
    var f := Filter(ts, p);
    if HasMonthly(ts, kind, ref, id) {
      var i :| 0 <= i < |ts| && ts[i].tipo == kind && MonthOf(ts[i]) == ref && ts[i].categoriaId == id;
      FilterMembership(ts, p, ts[i]);
      var j :| 0 <= j < |f| && f[j] == ts[i];
      assert CategoriaOf(f[j]) == id;
    }
    if Occurs(f, CategoriaOf, id) {
      var j :| 0 <= j < |f| && CategoriaOf(f[j]) == id;
      FilterMembership(ts, p, f[j]);
    }
  }

  /** The month's totals of one kind: exactly one entry for each category id
      with at least one such transaction in the reference month, holding the
      sum of their amounts; other kinds and other months contribute nothing. */
  lemma MonthlyByKindCorrect(ts: seq<Transaction>, kind: string, ref: MonthKey, id: string)
    ensures DistinctKeys(MonthlyByKind(ts, kind, ref))
    ensures id in KeysOf(MonthlyByKind(ts, kind, ref)) <==> HasMonthly(ts, kind, ref, id)
    ensures Find(MonthlyByKind(ts, kind, ref), id)
         == if HasMonthly(ts, kind, ref, id) then Some(MonthlySpent(ts, kind, ref, id)) else None
  {
    GroupByCorrect(Filter(ts, KindInMonth(kind, ref)), CategoriaOf, ValorOf, id);
    MonthlyTotalMatches(ts, kind, ref, id);
    MonthlyOccursMatches(ts, kind, ref, id);
  }

  /** `gastosDoMesPorCategoria`: the reference month's expense per category id. */
  function GastosDoMesPorCategoria(ts: seq<Transaction>, ref: MonthKey): (r: seq<Entry<string>>)
    ensures DistinctKeys(r)
    ensures forall id :: Find(r, id).Some? <==> HasMonthly(ts, EXPENSE, ref, id)
    ensures forall id :: HasMonthly(ts, EXPENSE, ref, id) ==> Find(r, id) == Some(MonthlySpent(ts, EXPENSE, ref, id))
  {
    var r := MonthlyByKind(ts, EXPENSE, ref);
    forall id ensures Find(r, id) == if HasMonthly(ts, EXPENSE, ref, id) then Some(MonthlySpent(ts, EXPENSE, ref, id)) else None {
      MonthlyByKindCorrect(ts, EXPENSE, ref, id);
    }
    MonthlyByKindCorrect(ts, EXPENSE, ref, "");
    r
  }

  // ------------------------------------------------------------ pie charts

  const FALLBACK_NAME: string := "Outros"
  const FALLBACK_COLOR: string := "#585858"
  const LEGEND_FONT_SIZE: int := 16

  /** One pie-chart slice, with the fields the chart component reads. */
  datatype Slice = Slice(name: string, population: real, color: string, legendFontColor: string, legendFontSize: int)

  /** The slice of one category id with its total: name and colour of the
      category found by id, or the fixed fallback when no category has that id. */
  function SliceOf(cats: seq<Category>, id: string, total: real): Slice {
    var c := FindCategory(cats, id);
    Slice(
      if c.Some? then c.value.nome else FALLBACK_NAME,
      total,
      if c.Some? then c.value.cor else FALLBACK_COLOR,
      FALLBACK_COLOR,
      LEGEND_FONT_SIZE)
  }

  /** `Object.keys(totals).map(id => slice)`, reading `totals[id]` as the
      population. The keys come in `Object.keys` order, not creation order. */
  function Slices(totals: seq<Entry<string>>, cats: seq<Category>): seq<Slice> {
    var ids := OwnKeys(KeysOf(totals));
    seq(|ids|, i requires 0 <= i < |ids| => SliceOf(cats, ids[i], Find(totals, ids[i]).GetOr(0.0)))
  }

  /** The ids behind the slices of a monthly chart, in slice order. */
  function SeriesIds(ts: seq<Transaction>, kind: string, ref: MonthKey): seq<string> {
    OwnKeys(KeysOf(MonthlyByKind(ts, kind, ref)))
  }

  /** The slice for category `id` with total `v`: the category's name and
      colour if some category has that id, else "Outros" and "#585858". */
  predicate IsSliceFor(s: Slice, cats: seq<Category>, id: string, v: real) {
    && s.population == v
    && s.legendFontColor == FALLBACK_COLOR && s.legendFontSize == LEGEND_FONT_SIZE
    && ((forall i :: 0 <= i < |cats| ==> cats[i].id != id) ==>
          s.name == FALLBACK_NAME && s.color == FALLBACK_COLOR)
    && ((exists i :: 0 <= i < |cats| && cats[i].id == id) ==>
          exists i :: 0 <= i < |cats| && cats[i].id == id
            && s.name == cats[i].nome && s.color == cats[i].cor
            && forall j :: 0 <= j < i ==> cats[j].id != id)
  }

  /** The slices follow `Object.keys` order of the grouped ids: ids that are
      array indices first, in ascending value, then the others in the order
      the reduce created them. */
  lemma SeriesIdsOrder(ts: seq<Transaction>, kind: string, ref: MonthKey)
    ensures ListedAsObjectKeys(SeriesIds(ts, kind, ref), KeysOf(MonthlyByKind(ts, kind, ref)))
  {
    OwnKeysSpec(KeysOf(MonthlyByKind(ts, kind, ref)));
  }

  /** A monthly chart has one slice per category id with a transaction of that
      kind in the reference month (ids distinct), whose population is that
      id's total and whose name and colour follow the fallback rule. The ids
      are in `Object.keys` order (`SeriesIdsOrder`). */
  lemma ChartSeriesCorrect(ts: seq<Transaction>, cats: seq<Category>, kind: string, ref: MonthKey)
    ensures var ids := SeriesIds(ts, kind, ref);
      var r := Slices(MonthlyByKind(ts, kind, ref), cats);
      && |r| == |ids|
      && (forall i, j :: 0 <= i < j < |ids| ==> ids[i] != ids[j])
      && (forall id :: id in ids <==> HasMonthly(ts, kind, ref, id))
      && (forall i :: 0 <= i < |r| ==> IsSliceFor(r[i], cats, ids[i], MonthlySpent(ts, kind, ref, ids[i])))
  {
    var ids := SeriesIds(ts, kind, ref);
    var r := Slices(MonthlyByKind(ts, kind, ref), cats);
    SeriesIdsMembers(ts, kind, ref);
    forall i | 0 <= i < |r| ensures IsSliceFor(r[i], cats, ids[i], MonthlySpent(ts, kind, ref, ids[i])) {
      SliceAt(ts, cats, kind, ref, i);
    }
  }

  /** The slice ids are distinct and are exactly the ids with a transaction of
      that kind in the reference month. */
  lemma SeriesIdsMembers(ts: seq<Transaction>, kind: string, ref: MonthKey)
    ensures var ids := SeriesIds(ts, kind, ref);
      && Distinct(ids)
      && (forall id :: id in ids <==> HasMonthly(ts, kind, ref, id))
  {
    var ks := KeysOf(MonthlyByKind(ts, kind, ref));
    var ids := SeriesIds(ts, kind, ref);
    OwnKeysSameKeys(ks);
    assert Distinct(ks) by {
      MonthlyByKindCorrect(ts, kind, ref, "");
    }
    OwnKeysDistinct(ks);
    forall id ensures id in ids <==> HasMonthly(ts, kind, ref, id) {
      MonthlyByKindCorrect(ts, kind, ref, id);
      assert id in ids <==> id in multiset(ks);
    }
  }

  lemma SliceAt(ts: seq<Transaction>, cats: seq<Category>, kind: string, ref: MonthKey, i: nat)
    requires i < |SeriesIds(ts, kind, ref)|
    ensures i < |Slices(MonthlyByKind(ts, kind, ref), cats)|
    ensures IsSliceFor(Slices(MonthlyByKind(ts, kind, ref), cats)[i], cats,
      SeriesIds(ts, kind, ref)[i], MonthlySpent(ts, kind, ref, SeriesIds(ts, kind, ref)[i]))
  {
    var g := MonthlyByKind(ts, kind, ref);
    var id := SeriesIds(ts, kind, ref)[i];
    assert HasMonthly(ts, kind, ref, id) by {
      SeriesIdsMembers(ts, kind, ref);
    }
    MonthlyByKindCorrect(ts, kind, ref, id);
    assert Slices(g, cats)[i] == SliceOf(cats, id, MonthlySpent(ts, kind, ref, id));
  }

  /** `dadosGraficoDespesas`: the expense pie chart of the reference month. */
  function DadosGraficoDespesas(ts: seq<Transaction>, cats: seq<Category>, ref: MonthKey): (r: seq<Slice>)
    ensures |r| == |SeriesIds(ts, EXPENSE, ref)|
    ensures forall id :: id in SeriesIds(ts, EXPENSE, ref) <==> HasMonthly(ts, EXPENSE, ref, id)
    ensures forall i :: 0 <= i < |r| ==>
      IsSliceFor(r[i], cats, SeriesIds(ts, EXPENSE, ref)[i], MonthlySpent(ts, EXPENSE, ref, SeriesIds(ts, EXPENSE, ref)[i]))
  {
    ChartSeriesCorrect(ts, cats, EXPENSE, ref);
    Slices(GastosDoMesPorCategoria(ts, ref), cats)
  }

  /** `dadosGraficoReceitas`: the same chart for the month's income. */
  function DadosGraficoReceitas(ts: seq<Transaction>, cats: seq<Category>, ref: MonthKey): (r: seq<Slice>)
    ensures |r| == |SeriesIds(ts, INCOME, ref)|
    ensures forall id :: id in SeriesIds(ts, INCOME, ref) <==> HasMonthly(ts, INCOME, ref, id)
    ensures forall i :: 0 <= i < |r| ==>
      IsSliceFor(r[i], cats, SeriesIds(ts, INCOME, ref)[i], MonthlySpent(ts, INCOME, ref, SeriesIds(ts, INCOME, ref)[i]))
  {
    ChartSeriesCorrect(ts, cats, INCOME, ref);
    Slices(MonthlyByKind(ts, INCOME, ref), cats)
  }

  // ------------------------------------------------------------ budget map

  /** The key a budget document is filed under: `item.categoriaId || item.id`. */
  function BudgetKey(d: BudgetDoc): string {
    if d.categoriaId != "" then d.categoriaId else d.id
  }

  /** The reduce that builds `orcamentos`, continued from `acc`: each document
      sets its key to its normalised limit, overwriting what was there. */
  function BudgetMapFrom(acc: map<string, real>, docs: seq<BudgetDoc>): map<string, real>
    decreases |docs|
  {
    if |docs| == 0 then acc
    else BudgetMapFrom(acc[BudgetKey(docs[0]) := NormalizarNumero(docs[0].valorLimite)], docs[1..])
  }

  /** `orcamentos`: the budget documents reduced into a map from key to limit. */
  function MapaOrcamentos(docs: seq<BudgetDoc>): map<string, real> {
    BudgetMapFrom(map[], docs)
  }

  /** Document `i` is the last one filed under `k`. */
  predicate LastWithKey(docs: seq<BudgetDoc>, i: int, k: string) {
    0 <= i < |docs| && BudgetKey(docs[i]) == k
    && forall j :: i < j < |docs| ==> BudgetKey(docs[j]) != k
  }

  lemma {:induction false} BudgetMapFromSpec(acc: map<string, real>, docs: seq<BudgetDoc>, k: string)
    ensures k in BudgetMapFrom(acc, docs) <==> k in acc || exists i :: 0 <= i < |docs| && BudgetKey(docs[i]) == k
    ensures (forall i :: 0 <= i < |docs| ==> BudgetKey(docs[i]) != k) && k in acc ==> BudgetMapFrom(acc, docs)[k] == acc[k]
    ensures forall i :: LastWithKey(docs, i, k) ==> BudgetMapFrom(acc, docs)[k] == NormalizarNumero(docs[i].valorLimite)
    decreases |docs|
  {
    if |docs| > 0 {
      var acc' := acc[BudgetKey(docs[0]) := NormalizarNumero(docs[0].valorLimite)];
      var rest := docs[1..];
      BudgetMapFromSpec(acc', rest, k);
      assert forall i :: 1 <= i < |docs| ==> docs[i] == rest[i - 1];
      forall i | LastWithKey(docs, i, k) ensures BudgetMapFrom(acc, docs)[k] == NormalizarNumero(docs[i].valorLimite) {
        if i > 0 {
          assert LastWithKey(rest, i - 1, k);
        } else {
          assert forall j :: 0 <= j < |rest| ==> BudgetKey(rest[j]) != k by {
            forall j | 0 <= j < |rest| ensures BudgetKey(rest[j]) != k {
              assert BudgetKey(docs[j + 1]) != k;
            }
          }
        }
      }
      if exists i :: 0 <= i < |rest| && BudgetKey(rest[i]) == k {
        var i :| 0 <= i < |rest| && BudgetKey(rest[i]) == k;
        assert BudgetKey(docs[i + 1]) == k;
      }
    }
  }

  /** The budget map has a key exactly for each document key, and holds the
      normalised limit of the last document filed under it: later entries win. */
  lemma MapaOrcamentosCorrect(docs: seq<BudgetDoc>, k: string)
    ensures k in MapaOrcamentos(docs) <==> exists i :: 0 <= i < |docs| && BudgetKey(docs[i]) == k
    ensures forall i :: LastWithKey(docs, i, k) ==> MapaOrcamentos(docs)[k] == NormalizarNumero(docs[i].valorLimite)
  {
    BudgetMapFromSpec(map[], docs, k);
  }

  /** Some document is filed under `k`, so a last one is. */
  lemma {:induction false} LastWithKeyExists(docs: seq<BudgetDoc>, k: string, i0: int)
    requires 0 <= i0 < |docs| && BudgetKey(docs[i0]) == k
    ensures exists i :: LastWithKey(docs, i, k)
    decreases |docs| - i0
  {
    if forall j :: i0 < j < |docs| ==> BudgetKey(docs[j]) != k {
      assert LastWithKey(docs, i0, k);
    } else {
      var j :| i0 < j < |docs| && BudgetKey(docs[j]) == k;
      LastWithKeyExists(docs, k, j);
    }
  }

  /** `salvarOrcamento`: the budget document written for a category, stored
      under the category id and carrying the normalised limit. */
  function SalvarOrcamento(categoriaId: string, valor: real): (d: BudgetDoc)
    ensures d.id == categoriaId && BudgetKey(d) == categoriaId
    ensures NormalizarNumero(d.valorLimite) == valor
  {
    BudgetDoc(categoriaId, categoriaId, Some(NormalizarNumero(Some(valor))))
  }

  /** Once the saved document is the one filed under its category (the store
      overwrites the document of that id), the budget map reads back the saved
      value for that category. */
  lemma SavedBudgetReadsBack(docs: seq<BudgetDoc>, categoriaId: string, valor: real)
    requires SalvarOrcamento(categoriaId, valor) in docs
    requires forall j :: 0 <= j < |docs| && BudgetKey(docs[j]) == categoriaId ==> docs[j] == SalvarOrcamento(categoriaId, valor)
    ensures categoriaId in MapaOrcamentos(docs) && MapaOrcamentos(docs)[categoriaId] == valor
  {
    var i0 :| 0 <= i0 < |docs| && docs[i0] == SalvarOrcamento(categoriaId, valor);
    LastWithKeyExists(docs, categoriaId, i0);
    MapaOrcamentosCorrect(docs, categoriaId);
  }

  // -------------------------------------------------------- cascade delete

  /** The three collections the provider holds. */
  datatype Snapshot = Snapshot(categorias: seq<Category>, transacoes: seq<Transaction>, orcamentos: seq<BudgetDoc>)

  /** One deletion the provider sends to the store, naming a document id. */
  datatype Deletion = DeleteTransaction(docId: string) | DeleteBudget(docId: string) | DeleteCategory(docId: string)

  function InCategory(id: string): Transaction -> bool {
    (t: Transaction) => t.categoriaId == id
  }

  function OutsideCategory(id: string): Transaction -> bool {
    (t: Transaction) => t.categoriaId != id
  }

  function TransactionIdNot(x: string): Transaction -> bool {
    (t: Transaction) => t.id != x
  }

  function BudgetIdNot(x: string): BudgetDoc -> bool {
    (b: BudgetDoc) => b.id != x
  }

  function CategoryIdNot(x: string): Category -> bool {
    (c: Category) => c.id != x
  }

  function IdsOf(ts: seq<Transaction>): (ids: seq<string>)
    ensures |ids| == |ts| && forall i :: 0 <= i < |ts| ==> ids[i] == ts[i].id
  {
    seq(|ts|, i requires 0 <= i < |ts| => ts[i].id)
  }

  function TransactionDeletions(ids: seq<string>): (ds: seq<Deletion>)
    ensures |ds| == |ids| && forall i :: 0 <= i < |ids| ==> ds[i] == DeleteTransaction(ids[i])
  {
    seq(|ids|, i requires 0 <= i < |ids| => DeleteTransaction(ids[i]))
  }

  /** `deletarCategoria`: one deletion per transaction of the category, in list
      order, then the budget and the category, all sent together. */
  function DeletarCategoria(id: string, ts: seq<Transaction>): (r: seq<Deletion>)
    ensures |r| == |Filter(ts, InCategory(id))| + 2
    ensures forall i :: 0 <= i < |r| - 2 ==>
      r[i] == DeleteTransaction(Filter(ts, InCategory(id))[i].id) && Filter(ts, InCategory(id))[i].categoriaId == id
    ensures r[|r| - 2] == DeleteBudget(id) && r[|r| - 1] == DeleteCategory(id)
  {
    FilterSpec(ts, InCategory(id));
    TransactionDeletions(IdsOf(Filter(ts, InCategory(id)))) + [DeleteBudget(id), DeleteCategory(id)]
  }

  /** What one deletion does to the collections: removes the documents with that id. */
  function ApplyDeletion(s: Snapshot, d: Deletion): Snapshot {
    match d
    case DeleteTransaction(x) => s.(transacoes := Filter(s.transacoes, TransactionIdNot(x)))
    case DeleteBudget(x) => s.(orcamentos := Filter(s.orcamentos, BudgetIdNot(x)))
    case DeleteCategory(x) => s.(categorias := Filter(s.categorias, CategoryIdNot(x)))
  }

  function ApplyDeletions(s: Snapshot, ds: seq<Deletion>): Snapshot
    decreases |ds|
  {
    if |ds| == 0 then s else ApplyDeletions(ApplyDeletion(s, ds[0]), ds[1..])
  }

  /** The intended outcome of deleting category `id`: its transactions, its
      budget and the category itself are gone; everything else is kept, in order. */
  function CascadeOutcome(id: string, s: Snapshot): (r: Snapshot)
    ensures forall t :: t in r.transacoes <==> t in s.transacoes && t.categoriaId != id
    ensures forall c :: c in r.categorias <==> c in s.categorias && c.id != id
    ensures forall b :: b in r.orcamentos <==> b in s.orcamentos && b.id != id
    ensures Subsequence(r.transacoes, s.transacoes) && Subsequence(r.categorias, s.categorias)
    ensures Subsequence(r.orcamentos, s.orcamentos)
  {
    var r := Snapshot(
      Filter(s.categorias, CategoryIdNot(id)),
      Filter(s.transacoes, OutsideCategory(id)),
      Filter(s.orcamentos, BudgetIdNot(id)));
    FilterSpec(s.categorias, CategoryIdNot(id));
    FilterSpec(s.transacoes, OutsideCategory(id));
    FilterSpec(s.orcamentos, BudgetIdNot(id));
    forall t ensures t in r.transacoes <==> t in s.transacoes && t.categoriaId != id {
      FilterMembership(s.transacoes, OutsideCategory(id), t);
    }
    forall c ensures c in r.categorias <==> c in s.categorias && c.id != id {
      FilterMembership(s.categorias, CategoryIdNot(id), c);
    }
    forall b ensures b in r.orcamentos <==> b in s.orcamentos && b.id != id {
      FilterMembership(s.orcamentos, BudgetIdNot(id), b);
    }
    r
  }

  predicate UniqueIds(ts: seq<Transaction>) {
    forall i, j :: 0 <= i < j < |ts| ==> ts[i].id != ts[j].id
  }

  /** The transaction part of a run of transaction deletions: every transaction
      whose id is named is removed. */
  lemma {:induction false} DeleteTransactionsRun(s: Snapshot, ids: seq<string>, rest: seq<Deletion>)
    ensures ApplyDeletions(s, TransactionDeletions(ids) + rest)
         == ApplyDeletions(s.(transacoes := Filter(s.transacoes, (t: Transaction) => t.id !in ids)), rest)
    decreases |ids|
  {
    var ds := TransactionDeletions(ids);
    if |ids| == 0 {
      assert ds + rest == rest;
      FilterCongruent(s.transacoes, (t: Transaction) => t.id !in ids, (t: Transaction) => true);
      FilterKeepsAll(s.transacoes);
    } else {
      var s1 := ApplyDeletion(s, DeleteTransaction(ids[0]));
      var tail := ids[1..];
      assert (ds + rest)[0] == DeleteTransaction(ids[0]);
      assert (ds + rest)[1..] == TransactionDeletions(tail) + rest;
      DeleteTransactionsRun(s1, tail, rest);
      FilterCompose(s.transacoes, TransactionIdNot(ids[0]), (t: Transaction) => t.id !in tail,
                    (t: Transaction) => t.id !in ids);
    }
  }

  lemma {:induction false} FilterKeepsAll(xs: seq<Transaction>)
    ensures Filter(xs, (t: Transaction) => true) == xs
    decreases |xs|
  {
    if |xs| > 0 {
      FilterKeepsAll(xs[1..]);
      assert xs == [xs[0]] + xs[1..];
    }
  }

  /** Sending the deletions `deletarCategoria` selects yields exactly the
      cascade outcome, given that transaction document ids are unique. */
  lemma DeletarCategoriaOutcome(id: string, s: Snapshot)
    requires UniqueIds(s.transacoes)
    ensures ApplyDeletions(s, DeletarCategoria(id, s.transacoes)) == CascadeOutcome(id, s)
  {
    var ts := s.transacoes;
    var ids := IdsOf(Filter(ts, InCategory(id)));
    var tail := [DeleteBudget(id), DeleteCategory(id)];
    assert DeletarCategoria(id, ts) == TransactionDeletions(ids) + tail;
    DeleteTransactionsRun(s, ids, tail);
    var s1 := s.(transacoes := Filter(ts, (t: Transaction) => t.id !in ids));
    var s2 := s1.(orcamentos := Filter(s.orcamentos, BudgetIdNot(id)));
    var s3 := s2.(categorias := Filter(s.categorias, CategoryIdNot(id)));
    assert ApplyDeletions(s1, tail) == s3 by {
      assert ApplyDeletion(s1, tail[0]) == s2;
      assert ApplyDeletions(s1, tail) == ApplyDeletions(s2, tail[1..]);
      assert ApplyDeletion(s2, tail[1..][0]) == s3;
      assert tail[1..][1..] == [];
      assert ApplyDeletions(s2, tail[1..]) == ApplyDeletions(s3, []);
    }
    RelatedIds(id, ts);
    FilterCongruent(ts, (t: Transaction) => t.id !in ids, OutsideCategory(id));
    assert s3 == CascadeOutcome(id, s);
  }

  /** With unique ids, a transaction's id is among the deleted ones exactly
      when it belongs to the deleted category. */
  lemma RelatedIds(id: string, ts: seq<Transaction>)
    requires UniqueIds(ts)
    ensures forall i :: 0 <= i < |ts| ==>
      (ts[i].id !in IdsOf(Filter(ts, InCategory(id)))) == (ts[i].categoriaId != id)
  {
    forall i | 0 <= i < |ts| ensures (ts[i].id !in IdsOf(Filter(ts, InCategory(id)))) == (ts[i].categoriaId != id) {
      RelatedId(id, ts, i);
    }
  }

  /** The same for one transaction of the list. */
  lemma RelatedId(id: string, ts: seq<Transaction>, i: int)
    requires UniqueIds(ts) && 0 <= i < |ts|
    ensures (ts[i].id in IdsOf(Filter(ts, InCategory(id)))) == (ts[i].categoriaId == id)
  {
    var related := Filter(ts, InCategory(id));
    var ids := IdsOf(related);
    if ts[i].categoriaId == id {
      FilterMembership(ts, InCategory(id), ts[i]);
      var j :| 0 <= j < |related| && related[j] == ts[i];
      assert ids[j] == ts[i].id;
    } else if ts[i].id in ids {
      var j :| 0 <= j < |ids| && ids[j] == ts[i].id;
      FilterMembership(ts, InCategory(id), related[j]);
      assert false;
    }
  }

  /** When every budget document is filed under its own document id (as the
      store writes them), the cascade removes exactly the deleted category's
      key from the budget map and nothing else. */
  lemma {:induction false} CascadeBudgetMap(acc: map<string, real>, docs: seq<BudgetDoc>, id: string)
    requires forall i :: 0 <= i < |docs| ==> BudgetKey(docs[i]) == docs[i].id
    ensures BudgetMapFrom(acc - {id}, Filter(docs, BudgetIdNot(id))) == BudgetMapFrom(acc, docs) - {id}
    decreases |docs|
  {
    if |docs| > 0 {
      var d, rest := docs[0], docs[1..];
      var v := NormalizarNumero(d.valorLimite);
      var p := BudgetIdNot(id);
      var kept := Filter(rest, p);
      assert BudgetKey(d) == d.id;
      assert BudgetMapFrom(acc, docs) == BudgetMapFrom(acc[d.id := v], rest);
      assert BudgetMapFrom(acc[d.id := v] - {id}, kept) == BudgetMapFrom(acc[d.id := v], rest) - {id} by {
        assert forall i :: 0 <= i < |rest| ==> rest[i] == docs[i + 1];
        CascadeBudgetMap(acc[d.id := v], rest, id);
      }
      if d.id == id {
        assert Filter(docs, p) == kept;
        assert acc[d.id := v] - {id} == acc - {id};
      } else {
        assert Filter(docs, p) == [d] + kept;
        assert ([d] + kept)[0] == d && ([d] + kept)[1..] == kept;
        assert BudgetMapFrom(acc - {id}, [d] + kept) == BudgetMapFrom((acc - {id})[d.id := v], kept);
        assert (acc - {id})[d.id := v] == acc[d.id := v] - {id};
      }
    }
  }

  /** After the cascade the budget map is the old one without the deleted
      category's key, when every document is filed under its own id. */
  lemma MapaOrcamentosAfterCascade(id: string, s: Snapshot)
    requires forall i :: 0 <= i < |s.orcamentos| ==> BudgetKey(s.orcamentos[i]) == s.orcamentos[i].id
    ensures MapaOrcamentos(CascadeOutcome(id, s).orcamentos) == MapaOrcamentos(s.orcamentos) - {id}
  {
    CascadeBudgetMap(map[], s.orcamentos, id);
    var empty: map<string, real> := map[];
    assert empty - {id} == empty;
  }
}
