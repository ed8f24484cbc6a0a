/** The transactions screen (`TelaTransacao` of the main app): the month and
    year filter with its arrows, the category name lookup, the display form of
    a stored date, the select/edit/delete state of the list, and the inline
    edit form. The older screen of the same name repeats the filter, the lookup
    and the arrows; see module TransactionScreen. */
module TransactionList {
  import opened Wrappers
  import opened Text
  import opened Collections
  import opened Calendar
  import opened Records
  import opened Finance
  import opened Forms

  // ------------------------------------------------------ date display

  /** A stored date of the form `YYYY-MM-DD`. */
  predicate IsoShape(s: string) {
    Fields3(s, '-', 4, 2, 2)
  }

  /** `formatarExibicaoDaData`: empty or short text is shown as is; otherwise
      the first three `-`-separated pieces are shown in reverse order joined
      by `/`, a missing piece printing as "undefined". */
  function FormatarExibicaoDaData(dateString: string): (r: string)
    ensures |dateString| < 10 ==> r == dateString
  {
    if dateString == "" || |dateString| < 10 then dateString
    else
      var parts := Split(dateString, '-');
      PartOr(parts, 2) + "/" + PartOr(parts, 1) + "/" + PartOr(parts, 0)
  }

  /** A stored `YYYY-MM-DD` date is shown as `DD/MM/YYYY`. */
  lemma FormatarExibicaoIso(s: string)
    requires IsoShape(s)
    ensures FormatarExibicaoDaData(s) == s[8..] + "/" + s[5..7] + "/" + s[..4]
    ensures Fields3(FormatarExibicaoDaData(s), '/', 2, 2, 4)
  {
    Fields3Split(s, '-', 4, 2, 2);
    Fields3Of(s[8..], s[5..7], s[..4], '/');
  }

  // ------------------------------------------------------- month filter

  /** The month (1..12 as shown) and year the list is restricted to. */
  datatype MonthFilter = MonthFilter(mes: int, ano: int)

  /** `alterarMesFiltro(passo)`: move the month, wrapping below January to
      December of the year before and above December to January of the year
      after. */
  function AlterarMesFiltro(f: MonthFilter, passo: int): (g: MonthFilter)
    ensures 1 <= g.mes <= 12
    ensures 1 <= f.mes + passo <= 12 ==> g == MonthFilter(f.mes + passo, f.ano)
    ensures f.mes + passo < 1 ==> g == MonthFilter(12, f.ano - 1)
    ensures f.mes + passo > 12 ==> g == MonthFilter(1, f.ano + 1)
  {
    var novoMes := f.mes + passo;
    if novoMes < 1 then MonthFilter(12, f.ano - 1)
    else if novoMes > 12 then MonthFilter(1, f.ano + 1)
    else MonthFilter(novoMes, f.ano)
  }

  /** From a valid month, each arrow moves exactly one calendar month, and the
      opposite arrow undoes it. */
  lemma AlterarMesFiltroSteps(f: MonthFilter, passo: int)
    requires 1 <= f.mes <= 12
    requires passo == 1 || passo == -1
    ensures MonthIndex(AlterarMesFiltro(f, passo).ano, AlterarMesFiltro(f, passo).mes) == MonthIndex(f.ano, f.mes) + passo
    ensures AlterarMesFiltro(AlterarMesFiltro(f, passo), -passo) == f
  {
  }

  /** The list's test for one transaction: its month and year equal the filter's. */
  function InFilter(f: MonthFilter): Transaction -> bool {
    (t: Transaction) => t.data.month == f.mes && t.data.year == f.ano
  }

  /** `transacoesFiltradas`: the transactions of the filter's month, in order. */
  function TransacoesFiltradas(ts: seq<Transaction>, f: MonthFilter): (r: seq<Transaction>)
    ensures Subsequence(r, ts)
    ensures forall i :: 0 <= i < |r| ==> r[i].data.month == f.mes && r[i].data.year == f.ano
    ensures forall t :: multiset(r)[t] == if t.data.month == f.mes && t.data.year == f.ano then multiset(ts)[t] else 0
  {
    FilterSpec(ts, InFilter(f));
    Filter(ts, InFilter(f))
  }

  function HasTipo(kind: string): Transaction -> bool {
    (t: Transaction) => t.tipo == kind
  }

  /** The transactions of one kind in the list for a month are exactly those
      the provider sums for that month and kind, in the same order. */
  lemma FilteredListMatchesMonthly(ts: seq<Transaction>, kind: string, ref: MonthKey)
    ensures Filter(TransacoesFiltradas(ts, MonthFilter(ref.month, ref.year)), HasTipo(kind)) == Filter(ts, KindInMonth(kind, ref))
  {
    FilterCompose(ts, InFilter(MonthFilter(ref.month, ref.year)), HasTipo(kind), KindInMonth(kind, ref));
  }

  // --------------------------------------------------- category names

  const NO_CATEGORY: string := "Sem Categoria"

  /** `buscarNomeCategoriaPorId`: the name of the first category with that id,
      or "Sem Categoria". */
  function NomeDaCategoria(cats: seq<Category>, id: string): (nome: string)
    ensures (forall i :: 0 <= i < |cats| ==> cats[i].id != id) ==> nome == NO_CATEGORY
    ensures forall i :: 0 <= i < |cats| && cats[i].id == id && (forall j :: 0 <= j < i ==> cats[j].id != id) ==> nome == cats[i].nome
  {
    match FindCategory(cats, id)
    case Some(c) => c.nome
    case None => NO_CATEGORY
  }

  // ------------------------------------------------- list interaction

  /** The ids of the item with the menu open and of the item being edited. */
  datatype Selection = Selection(selecionado: Option<string>, editando: Option<string>)

  /** What the user does in the list. */
  datatype ListEvent =
    | SelectItem(itemId: string)   // tap on an item
    | StartEdit(itemId: string)    // "Editar" in the menu
    | Delete(itemId: string)       // "Excluir" in the menu
    | CloseMenu                    // "Cancelar" in the menu
    | CloseEdit                    // cancel or save in the edit form

  /** The new state and the deletion sent to the provider, if any. */
  datatype ListStep = ListStep(state: Selection, deletion: Option<Deletion>)

  /** A menu open on one item and a form open on another never coexist. */
  predicate Exclusive(s: Selection) {
    s.selecionado.None? || s.editando.None?
  }

  /** `handleSelectItem`, `handleStartEdit`, `handleDelete` and the two
      buttons that only reset one id. */
  function Step(s: Selection, e: ListEvent): (r: ListStep)
    ensures Exclusive(r.state)
    ensures r.deletion.Some? <==> e.Delete?
    ensures e.SelectItem? ==> r.state.editando.None?
    ensures e.SelectItem? ==> r.state.selecionado == if s.selecionado == Some(e.itemId) then None else Some(e.itemId)
    ensures e.StartEdit? ==> r.state == Selection(None, Some(e.itemId))
    ensures e.Delete? ==> r.state == s.(selecionado := None) && r.deletion == Some(DeleteTransaction(e.itemId))
    ensures e.CloseMenu? ==> r.state == s.(selecionado := None)
    ensures e.CloseEdit? ==> r.state == s.(editando := None)
  {
    match e
    case SelectItem(id) =>
      ListStep(Selection(if s.selecionado == Some(id) then None else Some(id), None), None)
    case StartEdit(id) => ListStep(Selection(None, Some(id)), None)
    case Delete(id) => ListStep(s.(selecionado := None), Some(DeleteTransaction(id)))
    case CloseMenu => ListStep(s.(selecionado := None), None)
    case CloseEdit => ListStep(s.(editando := None), None)
  }

  /** The state after a run of events, and the deletions they sent in order. */
  datatype ListRun = ListRun(state: Selection, deletions: seq<Deletion>)

  /** The deletions a run of events asks for, read off the events alone. */
  function DeletesIn(es: seq<ListEvent>): seq<Deletion>
    decreases |es|
  {
    if |es| == 0 then []
    else (if es[0].Delete? then [DeleteTransaction(es[0].itemId)] else []) + DeletesIn(es[1..])
  }

  /** Whatever state the run starts from, it sends one deletion per "Excluir",
      for that item, in the order they were pressed. */
  function Run(s: Selection, es: seq<ListEvent>): (r: ListRun)
    ensures r.deletions == DeletesIn(es)
    decreases |es|
  {
    if |es| == 0 then ListRun(s, [])
    else
      var step := Step(s, es[0]);
      var rest := Run(step.state, es[1..]);
      ListRun(rest.state, (if step.deletion.Some? then [step.deletion.value] else []) + rest.deletions)
  }

  /** Tapping the same item twice closes its menu, unless it was open before. */
  lemma SelectTwice(s: Selection, id: string)
    ensures Step(Step(s, SelectItem(id)).state, SelectItem(id)).state
         == Selection(if s.selecionado == Some(id) then Some(id) else None, None)
  {
  }

  /** From the initial state, any sequence of events leaves at most one of the
      menu and the edit form open. */
  lemma {:induction false} RunExclusive(s: Selection, es: seq<ListEvent>)
    requires Exclusive(s)
    ensures Exclusive(Run(s, es).state)
    decreases |es|
  {
    if |es| > 0 {
      RunExclusive(Step(s, es[0]).state, es[1..]);
    }
  }

  // --------------------------------------------------------- edit form

  /** The edit form's outcome: nothing saved, or `editarTransacao(id, dados)`. */
  datatype EditOutcome = EditRejected(reason: Rejection) | EditSaved(itemId: string, dados: TransactionDraft)

  /** `handleSaveClick`: the amount must be a positive number, the description
      must not be blank, and the date text must look like `YYYY-MM-DD` (digits
      only; the ranges of month and day are not checked). */
  function HandleSaveClick(itemId: string, descricao: string, valor: string, categoriaId: string,
                           data: string, tipo: string, parse: string -> Option<real>): (r: EditOutcome)
    ensures var v := ParseAmount(valor, parse);
      && (r == EditRejected(InvalidAmount) <==> !IsPositiveAmount(v))
      && (r == EditRejected(EmptyDescription) <==> IsPositiveAmount(v) && IsBlank(descricao))
      && (r == EditRejected(InvalidDateFormat) <==> IsPositiveAmount(v) && !IsBlank(descricao) && !IsoShape(data))
      && (r.EditSaved? <==> IsPositiveAmount(v) && !IsBlank(descricao) && IsoShape(data))
      && (r.EditSaved? ==> r.itemId == itemId && r.dados == TransactionDraft(tipo, v, Trim(descricao), categoriaId, Some(data)))
  {
    var valorNumerico := ParseAmount(valor, parse);
    if !IsPositiveAmount(valorNumerico) then EditRejected(InvalidAmount)
    else if IsBlank(descricao) then EditRejected(EmptyDescription)
    else if !IsoShape(data) then EditRejected(InvalidDateFormat)
    else EditSaved(itemId, TransactionDraft(tipo, valorNumerico, Trim(descricao), categoriaId, Some(data)))
  }

  /** A saved edit has a positive amount and a trimmed, non-empty description,
      and the provider's normalisation leaves it unchanged. */
  lemma EditSavedShape(itemId: string, descricao: string, valor: string, categoriaId: string,
                       data: string, tipo: string, parse: string -> Option<real>)
    requires HandleSaveClick(itemId, descricao, valor, categoriaId, data, tipo, parse).EditSaved?
    ensures var d := HandleSaveClick(itemId, descricao, valor, categoriaId, data, tipo, parse).dados;
      && d.valor.Some? && d.valor.value > 0.0
      && d.descricao != "" && !IsWhitespace(d.descricao[0]) && !IsWhitespace(d.descricao[|d.descricao| - 1])
      && PrepararTransacao(d) == d
  {
  }

  /** The date check is only a shape check: a thirteenth month is accepted. */
  lemma EditAcceptsMonthThirteen(itemId: string, descricao: string, valor: string, categoriaId: string,
                                 tipo: string, parse: string -> Option<real>)
    requires IsPositiveAmount(ParseAmount(valor, parse)) && !IsBlank(descricao)
    ensures HandleSaveClick(itemId, descricao, valor, categoriaId, "2025-13-01", tipo, parse).EditSaved?
  {
    Fields3Of("2025", "13", "01", '-');
    assert "2025" + ['-'] + "13" + ['-'] + "01" == "2025-13-01";
  }
}
