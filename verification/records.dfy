/** The records the app stores: categories, transactions and budget limits, as
    the data layer hands them to the context, and the drafts the forms build. */
module Records {
  import opened Wrappers
  import opened Calendar

  /** The two `tipo` values the screens produce. Stored records may carry any string. */
  const INCOME: string := "income"
  const EXPENSE: string := "expense"

  datatype Category = Category(id: string, nome: string, tipo: string, cor: string)

  /** A stored transaction. `data` is the stored "YYYY-MM-DD" text as JavaScript
      parses it; `valor` is the number kept in the store. */
  datatype Transaction = Transaction(
    id: string,
    tipo: string,
    valor: real,
    descricao: string,
    categoriaId: string,
    data: Date)

  /** A transaction as a form hands it to the context, before it is stored.
      `valor` is what `Number(valor)` makes of the field (None for NaN); `data`
      is the date text, absent when the form does not set one. */
  datatype TransactionDraft = TransactionDraft(
    tipo: string,
    valor: Option<real>,
    descricao: string,
    categoriaId: string,
    data: Option<string>)

  /** A budget document: its document id, the category field (empty when
      missing) and what `Number(valorLimite)` makes of the stored limit. */
  datatype BudgetDoc = BudgetDoc(id: string, categoriaId: string, valorLimite: Option<real>)

  /** A category as the category form saves it (no id: the store assigns one). */
  datatype CategoryDraft = CategoryDraft(nome: string, tipo: string, cor: string)

  function TipoOf(t: Transaction): string { t.tipo }
  function ValorOf(t: Transaction): real { t.valor }
  function CategoriaOf(t: Transaction): string { t.categoriaId }
  function MonthOf(t: Transaction): MonthKey { MonthOfDate(t.data) }
}
