/** The budgets screen (`TelaOrcamento`): per expense category, the saved
    limit ("meta"), the month's spending ("gastos"), the percentage used, the
    progress bar's width and colour, and the modal that edits the limit. */
module BudgetScreen {
  import opened Wrappers
  import opened Text
  import opened Collections
  import opened Grouping
  import opened Calendar
  import opened Records
  import opened Finance

  // ------------------------------------------------------------ the bar

  const GREEN: string := "#28a745"
  const YELLOW: string := "#ffc107"
  const RED: string := "#dc3545"

  /** `BarraProgresso`'s colour: green, overridden by yellow above 75, and by
      red above 90. */
  function BarColor(progresso: real): (c: string)
    ensures c == GREEN <==> progresso <= 75.0
    ensures c == YELLOW <==> 75.0 < progresso <= 90.0
    ensures c == RED <==> progresso > 90.0
  {
    var corBarra := GREEN;
    var corBarra := if progresso > 75.0 then YELLOW else corBarra;
    if progresso > 90.0 then RED else corBarra
  }

  /** How alarming a colour is: green 0, yellow 1, red 2. */
  function Severity(c: string): nat {
    if c == RED then 2 else if c == YELLOW then 1 else 0
  }

  /** More progress never gives a calmer colour. */
  lemma BarColorMonotone(p: real, q: real)
    requires p <= q
    ensures Severity(BarColor(p)) <= Severity(BarColor(q))
  {
  }

  /** `Math.min(progresso, 100)`: the drawn width. */
  function BarWidth(progresso: real): (w: real)
    ensures w <= 100.0 && w <= progresso
    ensures w == progresso || w == 100.0
  {
    if progresso <= 100.0 then progresso else 100.0
  }

  // ------------------------------------------------------------ the card

  /** `orcamentos[id] || 0`: the stored limit, or 0 when there is none. */
  function Meta(orcamentos: map<string, real>, id: string): (m: real)
    ensures id in orcamentos ==> m == orcamentos[id]
    ensures id !in orcamentos ==> m == 0.0
  {
    if id in orcamentos then orcamentos[id] else 0.0
  }

  /** `gastosDoMesPorCategoria[id] || 0`: the month's total, or 0 when the
      category has no entry. */
  function Gastos(gastosDoMes: seq<Entry<string>>, id: string): (g: real)
    ensures Find(gastosDoMes, id).Some? ==> g == Find(gastosDoMes, id).value
    ensures Find(gastosDoMes, id).None? ==> g == 0.0
  {
    Find(gastosDoMes, id).GetOr(0.0)
  }

  /** `meta > 0 ? (gastos / meta) * 100 : 0`, not clamped. */
  function Percentagem(meta: real, gastos: real): (p: real)
    ensures meta <= 0.0 ==> p == 0.0
    ensures meta > 0.0 ==> p * meta == gastos * 100.0
  {
    if meta > 0.0 then (gastos / meta) * 100.0 else 0.0
  }

  /** With a positive limit the percentage passes 100 exactly when spending
      passes the limit, and passes 90 exactly when spending passes 90% of it. */
  lemma PercentagemThresholds(meta: real, gastos: real)
    requires meta > 0.0
    ensures Percentagem(meta, gastos) > 100.0 <==> gastos > meta
    ensures Percentagem(meta, gastos) > 90.0 <==> gastos * 10.0 > meta * 9.0
    ensures Percentagem(meta, gastos) >= 0.0 <==> gastos >= 0.0
  {
    var p := Percentagem(meta, gastos);
    ThresholdOf(p, meta, gastos, 100.0);
    ThresholdOf(p, meta, gastos, 90.0);
    ThresholdOf(p, meta, gastos, 0.0);
  }

  /** A percentage `p` of `gastos` over a positive `meta` passes a threshold
      exactly when `gastos * 100` passes the threshold times `meta`. */
  lemma ThresholdOf(p: real, meta: real, gastos: real, c: real)
    requires meta > 0.0 && p * meta == gastos * 100.0
    ensures p > c <==> gastos * 100.0 > c * meta
    ensures p >= c <==> gastos * 100.0 >= c * meta
  {
    ScaleCompare(p, c, meta);
  }

  /** Multiplying by a positive factor keeps strict and weak order. */
  lemma ScaleCompare(x: real, y: real, f: real)
    requires f > 0.0
    ensures x > y <==> x * f > y * f
    ensures x >= y <==> x * f >= y * f
  {
    if x > y {
      assert (x - y) * f > 0.0;
    }
    if x * f > y * f {
      assert (x - y) * f > 0.0;
    }
  }

  lemma {:induction false} NoMonthlyNoSpent(ts: seq<Transaction>, kind: string, ref: MonthKey, id: string)
    requires !HasMonthly(ts, kind, ref, id)
    ensures MonthlySpent(ts, kind, ref, id) == 0.0
    decreases |ts|
  {
    if |ts| > 0 {
      NoMonthlyNoSpent(ts[1..], kind, ref, id);
    }
  }

  /** What one budget card shows. */
  datatype Card = Card(meta: real, gastos: real, percentagem: real, width: real, color: string)

  /** `renderItemOrcamento` for one category, from the provider's values. */
  function CardFor(orcamentos: map<string, real>, gastosDoMes: seq<Entry<string>>, c: Category): Card {
    var meta := Meta(orcamentos, c.id);
    var gastos := Gastos(gastosDoMes, c.id);
    var percentagem := Percentagem(meta, gastos);
    Card(meta, gastos, percentagem, BarWidth(percentagem), BarColor(percentagem))
  }

  /** A card built from the budget documents and the transactions: its limit
      is the category's entry of the budget map, its spending is the category's
      expense in the reference month, the bar never passes 100, and the bar is
      red exactly when spending passes 90% of a positive limit. */
  lemma CardCorrect(docs: seq<BudgetDoc>, ts: seq<Transaction>, ref: MonthKey, c: Category)
    ensures var card := CardFor(MapaOrcamentos(docs), GastosDoMesPorCategoria(ts, ref), c);
      card.gastos == MonthlySpent(ts, EXPENSE, ref, c.id) &&
      card.meta == (if c.id in MapaOrcamentos(docs) then MapaOrcamentos(docs)[c.id] else 0.0) &&
      card.width <= 100.0 &&
      (card.meta <= 0.0 ==> card.percentagem == 0.0 && card.color == GREEN) &&
      (card.meta > 0.0 ==> (card.color == RED <==> card.gastos * 10.0 > card.meta * 9.0))
  {
    var card := CardFor(MapaOrcamentos(docs), GastosDoMesPorCategoria(ts, ref), c);
    if !HasMonthly(ts, EXPENSE, ref, c.id) {
      NoMonthlyNoSpent(ts, EXPENSE, ref, c.id);
    }
    if card.meta > 0.0 {
      PercentagemThresholds(card.meta, card.gastos);
    }
  }

  // ----------------------------------------------------------- the modal

  /** `orcamentos[id] ? String(orcamentos[id]) : ""`: the text the modal opens
      with; `show` stands for `String` on numbers. */
  function Prefill(orcamentos: map<string, real>, id: string, show: real -> string): (s: string)
    ensures id !in orcamentos ==> s == ""
    ensures id in orcamentos && orcamentos[id] == 0.0 ==> s == ""
    ensures id in orcamentos && orcamentos[id] != 0.0 ==> s == show(orcamentos[id])
  {
    if id in orcamentos && orcamentos[id] != 0.0 then show(orcamentos[id]) else ""
  }

  /** What pressing "Salvar Meta" does. */
  datatype MetaOutcome = NotSaved | SaveBudget(categoriaId: string, valor: real)

  /** `handleSalvarMeta`: the first comma becomes a dot, the text is parsed
      (`parse` stands for `parseFloat`), an unreadable or zero value becomes 0, a
      negative value saves nothing, and anything else is saved once for the
      category being edited. */
  function HandleSalvarMeta(valorMetaInput: string, parse: string -> Option<real>, categoriaAtual: Category): (r: MetaOutcome)
    ensures var parsed := parse(ReplaceFirst(valorMetaInput, ',', '.'));
      (r.NotSaved? <==> parsed.Some? && parsed.value < 0.0) &&
      (r.SaveBudget? ==> r.categoriaId == categoriaAtual.id && r.valor >= 0.0) &&
      (parsed.None? ==> r == SaveBudget(categoriaAtual.id, 0.0)) &&
      (parsed.Some? && parsed.value >= 0.0 ==> r == SaveBudget(categoriaAtual.id, parsed.value))
  {
    var valor := NormalizarNumero(parse(ReplaceFirst(valorMetaInput, ',', '.')));
    if valor < 0.0 then NotSaved else SaveBudget(categoriaAtual.id, valor)
  }

  /** Save, then reopen: once the saved document is the one filed under the
      category, the card's limit is the saved value and the modal reopens with
      its text, except that a saved 0 reopens empty. */
  lemma SaveThenReopen(docs: seq<BudgetDoc>, valorMetaInput: string, parse: string -> Option<real>, c: Category, show: real -> string)
    requires HandleSalvarMeta(valorMetaInput, parse, c).SaveBudget?
    requires var o := HandleSalvarMeta(valorMetaInput, parse, c);
      SalvarOrcamento(o.categoriaId, o.valor) in docs &&
      forall j :: 0 <= j < |docs| && BudgetKey(docs[j]) == c.id ==> docs[j] == SalvarOrcamento(o.categoriaId, o.valor)
    ensures var o := HandleSalvarMeta(valorMetaInput, parse, c);
      Meta(MapaOrcamentos(docs), c.id) == o.valor &&
      Prefill(MapaOrcamentos(docs), c.id, show) == (if o.valor > 0.0 then show(o.valor) else "")
  {
    var o := HandleSalvarMeta(valorMetaInput, parse, c);
    SavedBudgetReadsBack(docs, o.categoriaId, o.valor);
  }

  // ---------------------------------------------------- the category list

  function IsExpenseCategory(c: Category): bool {
    c.tipo == EXPENSE
  }

  /** `categorias.filter(c => c.tipo === 'expense')`: the expense categories in
      their original order, each kept as often as it occurs. */
  function CategoriasDeDespesa(cats: seq<Category>): (r: seq<Category>)
    ensures Subsequence(r, cats)
    ensures forall i :: 0 <= i < |r| ==> r[i].tipo == EXPENSE
    ensures forall c :: multiset(r)[c] == if c.tipo == EXPENSE then multiset(cats)[c] else 0
  {
    FilterSpec(cats, IsExpenseCategory);
    Filter(cats, IsExpenseCategory)
  }

  /** The list the screen renders cards for, as written: `data={categorias}`,
      every category, although `categoriasDeDespesa` is computed for it. */
  function CardsListed(categorias: seq<Category>): seq<Category> {
    categorias
  }

  /** As written, the seeded income category "Salário" gets a budget card,
      while the expense filter would have left it out. */
  lemma SeededIncomeGetsCard()
    ensures var salario := Category("1", "Salário", INCOME, "#36A2EB");
      salario in CardsListed([salario]) && salario !in CategoriasDeDespesa([salario])
  {
    var salario := Category("1", "Salário", INCOME, "#36A2EB");
    assert CardsListed([salario])[0] == salario;
    assert multiset(CategoriasDeDespesa([salario]))[salario] == 0;
  }
}
