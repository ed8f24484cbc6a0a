# controle-financas: a Dafny model of the finance engine and its screen helpers

This project models the personal-finance app "controle-financas", a React Native
app. Users record income ("income") and expense ("expense") transactions
against categories. They set a monthly spending goal (orçamento, meta) per
category, and they read totals, pie charts and a six-month net-balance
("saldo") chart.

The model has two parts.

The aggregation engine of `context/ContextoFinancas.js` (modules `Finance`,
`Evolution`, with `Grouping`, `PropertyOrder`, `Calendar`, `Records`) covers:
- `normalizarNumero`, `prepararTransacao`;
- the receita/despesa/saldo totals;
- the current month's expense per category;
- the expense and income pie-chart series with the "Outros" fallback, in
  the order `Object.keys` lists the category ids;
- the monthly net series, capped at six months, with the "Sem dados" sentinel;
- the budget map built from the budget documents;
- the selection made by the category cascade delete.

The screen helpers:
- **`BudgetScreen`** (`TelaOrcamento.js`): progress-bar colour and width, the
  meta/gastos/percentagem card values, the modal prefill, `handleSalvarMeta`,
  and the expense-category filter.
- **`NewTransaction`** (`TelaAddTransacao.js`): the DD/MM/AAAA validator, the
  typing mask, DD/MM/AAAA→AAAA-MM-DD conversion and `handleSave`.
- **`TransactionList`** (the newer `TelaTransacao.js`): AAAA-MM-DD→DD/MM/AAAA
  display, the month filter and its ±1 step, the category-name lookup, the
  select/edit/delete state machine, and the edit form's `handleSaveClick`.
- **`TransactionScreen`** (the older `TelaTransacao.js`): `formatDate`, the
  month step and the filter, stated against `TransactionList`, which holds the
  same code. The screen defines `formatDate` but never calls it: each item
  shows `item.data` as stored (screens/Transactions/TelaTransacao.js:56).
- **`AddTransactionForm`** (`AddTransactionScreen.js`): the type filter for
  categories and `handleSave`.
- **`CategoryForm`** and **`CategoryEditor`** (the two `TelaAddCategoria.js`):
  defaults, edit-mode detection, `salvar` validation and dispatch.
- **`CategoryStore`** (the category data-access object,
  controle-financas-main/dao/CategoriaDAO.js): how a stored category
  document is listed and deleted, kept apart because the seeded categories
  carry their own `id` field (see "## Findings").

Representation choices:
- **Amounts** are `real`. JavaScript `Number(x)` and `parseFloat(x)` become an
  `Option<real>`, where `None` stands for NaN.
- **String parsing** is a function parameter `parse: string -> Option<real>`.
  Only the `replace(',', '.')` before it is modelled.
- **Stored dates** are parsed `Calendar.Date(year, month 1..12, day)`.
- **The current month** (`new Date()`) is a `MonthKey` parameter.
- **JavaScript objects used as ordered dictionaries** (the `reduce`
  accumulators, `saldoPorMes`) are association lists `seq<Entry<K>>` in
  the order the keys were created, in module `Grouping`. `Object.keys`
  lists array-index keys such as "2" before the others, in ascending value;
  module `PropertyOrder` gives that order, and the charts use it. `AddTo` is the source's
  `if (!acc[k]) acc[k] = 0; acc[k] += v`.
- **Firestore writes** become values: `Finance.Deletion` for the cascade,
  `BudgetScreen.MetaOutcome`, `Forms.Outcome`, `TransactionList.EditOutcome`
  and `CategoryEditor.CategoryCall` for the screens' single context call.

## Model

| member | source | states |
|---|---|---|
| Finance.NormalizarNumero | context/ContextoFinancas.js:15-18 | the result is 0 when the amount is NaN and the amount itself otherwise |
| Finance.PrepararTransacao | context/ContextoFinancas.js:53-56 | only `valor` changes, to the normalised amount; id, tipo, descricao, categoriaId and data are preserved |
| Finance.PrepararTransacaoIdempotent | context/ContextoFinancas.js:53-56 | preparing an already prepared transaction changes nothing |
| Finance.CalcularTotais | context/ContextoFinancas.js:152-162 | receita is the sum over tipo "income" and despesa the sum over tipo "expense"; other tipos are ignored; saldo = receita − despesa; all three are 0 for no transactions |
| Finance.FindCategory | context/ContextoFinancas.js:190 | the lookup returns the first category with the id, or nothing when no category has it |
| Finance.MonthlyByKindCorrect | context/ContextoFinancas.js:164-186 | the per-category map has distinct keys; a key is present iff that category has a transaction of the kind in the reference month and year; its value is the sum of exactly those amounts |
| Finance.GastosDoMesPorCategoria | context/ContextoFinancas.js:164-186 | keys are exactly the categories with an expense in the reference month; each value is that month's expense sum; income and other months add nothing |
| Finance.ChartSeriesCorrect | context/ContextoFinancas.js:188-238 | one slice per aggregated category id, the ids distinct and in `SeriesIds` order; population is the id's total; name and colour come from the category when found, else "Outros" and "#585858" |
| Finance.SeriesIdsOrder | context/ContextoFinancas.js:188-238 | the slice ids are listed as `Object.keys` lists the grouped ids: array-index ids first in ascending value, then the rest in creation order |
| Finance.DadosGraficoDespesas | context/ContextoFinancas.js:188-201 | the expense pie has one slice per category with expenses, in `Object.keys` order of the category ids, whose population is that category's expense total and whose label falls back to "Outros" |
| Finance.DadosGraficoReceitas | context/ContextoFinancas.js:203-238 | the same rule, and the same `Object.keys` order, applied to the reference month's income |
| PropertyOrder.OwnKeysSpec | context/ContextoFinancas.js:189 | `Object.keys` lists the same keys, each as often, with the array indices first in ascending value and then the other keys in creation order |
| PropertyOrder.OwnKeysDistinct | context/ContextoFinancas.js:189 | an object's keys are never listed twice |
| PropertyOrder.OwnKeysNamed | context/ContextoFinancas.js:258 | with no array index among the keys, `Object.keys` gives the creation order |
| PropertyOrder.IndexKeyListedFirst | context/ContextoFinancas.js:226 | keys created as "q3Xf" then "2" are listed as "2" then "q3Xf" |
| Finance.MapaOrcamentosCorrect | context/ContextoFinancas.js:85-89 | the map has a key exactly for each document's `categoriaId || id`; its value is the normalised limit of the LAST document with that key (later entries win) |
| Finance.SalvarOrcamento | context/ContextoFinancas.js:140-144 | the saved document is keyed by the category id and carries a limit that normalises to the value given |
| Finance.SavedBudgetReadsBack | context/ContextoFinancas.js:85-89 | once the saved document is the only one keyed by that category, the budget map reads back the saved value |
| Finance.DeletarCategoria | context/ContextoFinancas.js:113-118 | the deletions are one per transaction of the category, in list order, then the budget keyed by the id, then the category itself |
| Finance.DeletarCategoriaOutcome | context/ContextoFinancas.js:113-120 | after the cascade (ids unique): the remaining transactions are exactly those of other categories, the budget and category with the id are gone, and every other record is untouched |
| Finance.RelatedIds | context/ContextoFinancas.js:115-116 | a transaction id is deleted iff that transaction belongs to the deleted category |
| Finance.MapaOrcamentosAfterCascade | context/ContextoFinancas.js:113-120 | when every document is filed under its own id, the budget map after the cascade is the old map without the deleted category's key, all other entries unchanged |
| Evolution.SortByDateSpec | context/ContextoFinancas.js:242-244 | the sort returns the same multiset of transactions in non-decreasing date order |
| Evolution.SortByDateStable | context/ContextoFinancas.js:242-244 | transactions on the same date keep their relative order |
| Evolution.SortByDateTotal | context/ContextoFinancas.js:242-244 | sorting changes no per-key total and no overall sum, so no month's net value |
| Evolution.MonthKeyStringInjective | context/ContextoFinancas.js:247-248 | the `YYYY-MM` key is injective on (year, month): the same month in different years never collides |
| Evolution.LabelShape | context/ContextoFinancas.js:260-264 | the label is the zero-padded month, "/", then the year string from its third character; for four-digit years that is `MM/YY` |
| Evolution.GroupIntoAscending | context/ContextoFinancas.js:246-256 | grouping date-sorted transactions yields month keys in strictly ascending order |
| Evolution.SaldoPorMesCorrect | context/ContextoFinancas.js:241-256 | saldoPorMes has distinct, ascending month keys; a month is a key iff some transaction falls in it; its value is income minus every non-income amount of that month only |
| Evolution.MonthKeyNamed | context/ContextoFinancas.js:248 | a month key `chaveMes` always holds a "-", so it is never an array index |
| Evolution.SaldoPorMesKeyOrder | context/ContextoFinancas.js:258-265 | `Object.keys(saldoPorMes)` lists the month keys exactly in the order the reduce created them |
| Evolution.SaldoPorMesAddsUp | context/ContextoFinancas.js:254-255 | when every tipo is income or expense, the month values add up to receita − despesa |
| Evolution.Last | context/ContextoFinancas.js:259 | `slice(-6)`: at most the last 6 entries, a suffix of the input, all of it when shorter |
| Evolution.NetWindowCorrect | context/ContextoFinancas.js:258-265 | at most 6 months; empty iff there are no transactions; distinct, ascending, each with its month's net value; every month with data is in the window or precedes a full window |
| Evolution.DadosEvolucaoFinanceira | context/ContextoFinancas.js:240-273 | labels and data always have equal length |
| Evolution.DadosEvolucaoFinanceiraCorrect | context/ContextoFinancas.js:258-273 | 1..6 entries; exactly `["Sem dados"]`/`[0]` iff there are no transactions; otherwise the labels and data of the window, in order |
| Grouping.GroupByCorrect | context/ContextoFinancas.js:178-185 | the reduce yields distinct keys, one per key that occurs, each holding the sum of that key's values |
| Grouping.GroupIntoFind | context/ContextoFinancas.js:178-185 | continuing the reduce from a non-empty object: a key is present afterwards iff it was present before or occurs in the list, and its total is the old total (0 when absent) plus the sum of that key's values |
| BudgetScreen.BarColor | screens/Budgets/TelaOrcamento.js:14-19 | green iff progress ≤ 75, yellow iff 75 < progress ≤ 90, red iff progress > 90 |
| BudgetScreen.BarColorMonotone | screens/Budgets/TelaOrcamento.js:15-19 | more progress never gives a less severe colour |
| BudgetScreen.BarWidth | screens/Budgets/TelaOrcamento.js:22 | the drawn width is min(progress, 100), never more than 100 |
| BudgetScreen.Meta | screens/Budgets/TelaOrcamento.js:139 | the goal is the stored budget, or 0 when it is absent |
| BudgetScreen.Gastos | screens/Budgets/TelaOrcamento.js:141 | spending is the category's monthly expense entry, or 0 when absent |
| BudgetScreen.Percentagem | screens/Budgets/TelaOrcamento.js:145 | 0 whenever meta ≤ 0; otherwise gastos/meta·100, unclamped |
| BudgetScreen.PercentagemThresholds | screens/Budgets/TelaOrcamento.js:145 | with meta > 0: above 100 iff spending exceeds the goal, above 90 iff spending exceeds 9/10 of it |
| BudgetScreen.CardCorrect | screens/Budgets/TelaOrcamento.js:136-164 | a card shows the month's expense total against the goal from the budget map, a bar at most 100 wide, green for no goal, red iff spending exceeds 9/10 of a positive goal |
| BudgetScreen.Prefill | screens/Budgets/TelaOrcamento.js:69 | the input is prefilled with the shown budget when it is truthy, else ""; a stored 0 prefills "" |
| BudgetScreen.HandleSalvarMeta | screens/Budgets/TelaOrcamento.js:79-91 | an empty or unparseable input saves 0; a negative value saves nothing; otherwise one save of the parsed value for the current category |
| BudgetScreen.SaveThenReopen | screens/Budgets/TelaOrcamento.js:63-91 | saving a goal and reopening the modal shows the saved value again, and "" for 0 |
| BudgetScreen.CategoriasDeDespesa | screens/Budgets/TelaOrcamento.js:56 | the order-preserving subsequence of exactly the expense categories |
| BudgetScreen.SeededIncomeGetsCard | screens/Budgets/TelaOrcamento.js:217-219 | the list rendered holds the seeded income category "Salário", which the expense filter excludes |
| Text.ReplaceFirst | screens/Budgets/TelaOrcamento.js:83 | `replace(',', '.')` keeps the length of the input |
| Text.ReplaceFirstSpec | screens/Transactions/TelaAddTransacao.js:79 | only the first occurrence of the character (the comma) changes, into the replacement (a dot); a string without it is returned unchanged |
| Text.ReplaceFirstAt | screens/Transactions/TelaAddTransacao.js:79 | position by position: the replacement exactly where the first comma stood, the original character everywhere else |
| Text.Trim | screens/Transactions/TelaAddTransacao.js:85 | the result is the infix left after removing whitespace only, and all of it, from both ends; it is "" iff the input is all whitespace |
| Text.TrimIdempotent | screens/Transactions/TelaAddTransacao.js:101 | trimming a trimmed description changes nothing |
| NewTransaction.ValidarFormatoDataCorrect | screens/Transactions/TelaAddTransacao.js:14-30 | accepted iff the text is `\d{2}/\d{2}/\d{4}`, 1 ≤ month ≤ 12, year ≥ 100 and the day exists in that month (leap years included) |
| Calendar.ConstructDateRoundTrip | screens/Transactions/TelaAddTransacao.js:28-29 | `new Date(ano, mes-1, dia)` reads back the same day, month and year iff the day exists in that month and the year is outside 0..99 (which JavaScript maps to 1900..1999) |
| Calendar.RolloverMoves | screens/Transactions/TelaAddTransacao.js:28 | a day before the first rolls the date into an earlier month, a day past the last into a later one; an existing day stays where it is |
| NewTransaction.DataPadraoValid | screens/Transactions/TelaAddTransacao.js:11 | the default date text built from a real date with a four-digit year passes the validator |
| NewTransaction.FormatarDataInputSpec | screens/Transactions/TelaAddTransacao.js:44-62 | at most 10 characters; its digits are the first 8 digits typed; "/" after digit 2 iff more than 2 digits and after digit 4 iff more than 4; up to 2 digits are returned unchanged; 8 digits give DD/MM/AAAA |
| NewTransaction.MaskPartial | screens/Transactions/TelaAddTransacao.js:56-57 | for three or four digits: the one "/" sits at index 2, every other character is a digit, and the digits read back in order |
| NewTransaction.MaskFull | screens/Transactions/TelaAddTransacao.js:54-55 | for five to eight digits: the "/" sit exactly at indices 2 and 5, every other character is a digit, the digits read back in order, and eight digits have the DD/MM/AAAA shape |
| NewTransaction.FormatarDataInputIdempotent | screens/Transactions/TelaAddTransacao.js:44-62 | masking masked text changes nothing |
| NewTransaction.Digits8 | screens/Transactions/TelaAddTransacao.js:46-50 | the cleaned text is the input's digits in order, cut to the first 8 |
| NewTransaction.ConverterDataRoundTrip | screens/Transactions/TelaAddTransacao.js:95-96 | a DD/MM/AAAA text converts to AAAA-MM-DD, and the list's display turns it back into the original |
| NewTransaction.ExibicaoRoundTrip | controle-financas-main/screens/Transactions/TelaTransacao.js:12-16 | displaying an AAAA-MM-DD text and converting it back gives the original |
| NewTransaction.HandleSave | screens/Transactions/TelaAddTransacao.js:77-104 | rejected when the amount is unparseable or ≤ 0, then when the trimmed description is empty, then when no category is set; saved iff all three checks pass, as one record with tipo, the amount, the trimmed description, the category and the converted date |
| NewTransaction.HandleSaveDate | screens/Transactions/TelaAddTransacao.js:94-104 | the outcome does not depend on whether the date is valid; a saved record is unchanged by the context's preparation; a valid date is stored as AAAA-MM-DD |
| TransactionList.FormatarExibicaoDaData | controle-financas-main/screens/Transactions/TelaTransacao.js:12-13 | empty text and text shorter than 10 characters are returned unchanged |
| TransactionList.FormatarExibicaoIso | controle-financas-main/screens/Transactions/TelaTransacao.js:12-16 | an AAAA-MM-DD text is displayed as its day, "/", month, "/", year fields, a DD/MM/AAAA text |
| TransactionList.AlterarMesFiltro | controle-financas-main/screens/Transactions/TelaTransacao.js:165-172 | the month stays in 1..12; January −1 is December of the previous year; December +1 is January of the next; otherwise the year is unchanged |
| TransactionList.AlterarMesFiltroSteps | controle-financas-main/screens/Transactions/TelaTransacao.js:165-172 | a step moves the absolute month index by exactly the step; +1 then −1 (and −1 then +1) returns the same month and year |
| TransactionList.TransacoesFiltradas | controle-financas-main/screens/Transactions/TelaTransacao.js:148-151 | the order-preserving subsequence of exactly the transactions in the filter's month and year |
| TransactionList.FilteredListMatchesMonthly | controle-financas-main/screens/Transactions/TelaTransacao.js:148-151 | the expenses in the filtered list are exactly those counted for that month by the monthly expense map |
| TransactionList.NomeDaCategoria | controle-financas-main/screens/Transactions/TelaTransacao.js:153-156 | the first matching category's name, or "Sem Categoria" when no category has the id |
| TransactionList.Step | controle-financas-main/screens/Transactions/TelaTransacao.js:177-199 | for the handlers: selecting clears editing and toggles the selection (the selected item becomes unselected, any other becomes selected); starting an edit clears the selection; deleting clears it and deletes that id; closing the menu or the form clears it; no state has both a menu and a form open. The screen disables the selected item's row (line 245), so it closes the menu through the cancel, edit and delete paths, never through a second tap |
| TransactionList.Run | controle-financas-main/screens/Transactions/TelaTransacao.js:177-199 | a run of events sends exactly one deletion per "Excluir" press, for that item, in order, whatever the state it starts from |
| TransactionList.SelectTwice | controle-financas-main/screens/Transactions/TelaTransacao.js:177-183 | selecting the same item twice restores whether its menu was open, with no form open, as `handleSelectItem` does; on screen the second tap is disabled (line 245) |
| TransactionList.RunExclusive | controle-financas-main/screens/Transactions/TelaTransacao.js:177-199 | from a state with at most one of menu or form open, every event sequence keeps it so |
| TransactionList.HandleSaveClick | controle-financas-main/screens/Transactions/TelaTransacao.js:35-62 | rejected for an unparseable or non-positive amount, a blank description or a date not shaped `\d{4}-\d{2}-\d{2}`; saved iff all three checks pass, as one edit of the item with the trimmed description |
| TransactionList.EditSavedShape | controle-financas-main/screens/Transactions/TelaTransacao.js:50-60 | a saved edit always carries a positive amount and a non-blank trimmed description, and the context's preparation leaves it unchanged |
| TransactionList.EditAcceptsMonthThirteen | controle-financas-main/screens/Transactions/TelaTransacao.js:45 | the date check is only syntactic: "2025-13-01" is saved |
| TransactionScreen.FormatDate | screens/Transactions/TelaTransacao.js:24-27 | `DD/MM` of two zero-padded two-digit fields that read back as the day and month (the screen never calls it) |
| TransactionScreen.FormatDateInjective | screens/Transactions/TelaTransacao.js:24-27 | different (day, month) pairs are never shown alike |
| TransactionScreen.ListedExactlyInMonth | screens/Transactions/TelaTransacao.js:18-21 | the filtered list keeps exactly the transactions of the selected month and year, in order |
| TransactionScreen.StepsMoveMonths | screens/Transactions/TelaTransacao.js:63-76 | n steps of +1 (or −1) keep the month in 1..12 and move the absolute month index by n (or −n) |
| TransactionScreen.TwelveStepsOneYear | screens/Transactions/TelaTransacao.js:63-76 | twelve +1 steps give the same month of the next year, twelve −1 steps that of the previous year |
| TransactionScreen.CategoryNameLookup | screens/Transactions/TelaTransacao.js:30-33 | with distinct ids, each category's id looks up its own name; an id no category has gives "Sem Categoria" |
| AddTransactionForm.CategoriasFiltradas | screens/Transactions/AddTransactionScreen.js:16 | the order-preserving subsequence of exactly the categories of the selected tipo |
| AddTransactionForm.ExpenseChoicesMatchBudgets | screens/Transactions/AddTransactionScreen.js:16 | with tipo "expense", the choices are the budget screen's expense categories |
| AddTransactionForm.HandleSave | screens/Transactions/AddTransactionScreen.js:28-52 | the amount check comes first, then the blank description, then the missing category; saved iff all three pass, as one record with tipo, amount, trimmed description, category and no date |
| AddTransactionForm.AgreesWithNewTransaction | screens/Transactions/AddTransactionScreen.js:28-52 | it accepts and rejects exactly as the dated form does, and saves the same record apart from the date |
| CategoryForm.PaletteHoldsDefault | screens/Budgets/TelaAddCategoria.js:9 | the palette has 8 distinct colours and the default colour "#FF6384" is one of them |
| CategoryForm.Inicial | screens/Budgets/TelaAddCategoria.js:34-36 | the form starts with name "", tipo "expense" and the palette's first colour, "#FF6384" |
| CategoryForm.Salvar | screens/Budgets/TelaAddCategoria.js:38-52 | a name that is blank after trim is rejected; otherwise one record with the trimmed name, the tipo and the colour |
| CategoryForm.SalvarStable | screens/Budgets/TelaAddCategoria.js:38-49 | a saved name is non-blank and trimmed, and saving the fields of a saved record yields the same record |
| CategoryEditor.InicialPara | controle-financas-main/screens/Budgets/TelaAddCategoria.js:44-46 | each field starts from the edited category's value when it is non-empty, else "" / "expense" / "#FF6384" |
| CategoryEditor.Salvar | controle-financas-main/screens/Budgets/TelaAddCategoria.js:34-70 | a blank name is rejected; otherwise exactly one call: an edit of the original id when a category was passed to the screen, a creation otherwise, with the trimmed name, tipo and colour |
| CategoryEditor.CreateModeIsCategoryForm | controle-financas-main/screens/Budgets/TelaAddCategoria.js:31-70 | without a category the editor starts and saves exactly as the older create-only form |
| CategoryEditor.EditUnchangedWritesBack | controle-financas-main/screens/Budgets/TelaAddCategoria.js:44-64 | opening a well-formed category and saving untouched writes the same name, tipo and colour back to the same id |
| CategoryStore.ApagarCategoria | controle-financas-main/dao/CategoriaDAO.js:23-25 | deleting by id removes exactly the documents whose key is that id, and nothing when there is none |
| CategoryStore.CreatedListedAlike | controle-financas-main/dao/CategoriaDAO.js:9-15 | for a category the form created, both listings give the document key as its id |
| CategoryStore.SeededCategorySurvivesDelete | controle-financas-main/dao/CategoriaDAO.js:9 | the seeded "Alimentação", listed with id "2", is still listed after `apagarCategoria("2")` |
| CategoryStore.DeleteRemovesListed | controle-financas-main/dao/CategoriaDAO.js:23-25 | with the key as the listed id, the listing after deleting an id is the listing before it with exactly the categories of that id removed, order kept |
| CategoryStore.DeleteRemovesListedMember | controle-financas-main/dao/CategoriaDAO.js:23-25 | a category is listed after deleting an id iff it was listed before and has another id |

## Left out

- The Firestore DAOs, the snapshot listeners, the timing of the seed of the initial categories (what it stores is `CategoryStore.SeedDoc`), the loading flags and the error feedback wrapper (context/ContextoFinancas.js:8-13, 20-99) are remote I/O and callback sequencing. The single-call wrappers `salvarNovaCategoria`, `editarCategoria`, `salvarNovaTransacao`, `editarTransacao`, `deletarTransacao` and `deletarOrcamento` (101-150) become the values the screens return (`Forms.Outcome`, `CategoryEditor.CategoryCall`, `TransactionList.ListStep`) and `Finance.ApplyDeletion`.
- The `Promise.all` in `deletarCategoria` runs concurrently. The model applies its deletions in sequence. Each deletion touches a different document, so the order does not matter.
- `context/FinanceContext.js` is not part of this model. It is AsyncStorage persistence; `AddTransactionScreen.js` imports its context, and its save path is modelled only up to the record handed over.
- JavaScript `Date` parsing and time zones: transactions carry an already parsed date. An unparseable stored date would form a "NaN-NaN" bucket in the net series; that bucket is not modelled.
- Finance.DeletarCategoriaOutcome: assumes each record's `id` is its document key, as `CategoryStore.Listed` lists it. That holds for every transaction, budget and category the app writes itself. It fails for the seeded categories, whose data field `id` hides the key (see "## Findings"). For those, the real cascade removes the transactions and the budget filed under the listed id, but not the category. Editing a seeded category likewise targets a document that does not exist, and the store rejects the update; that error path is not modelled.
- TransactionList.FormatarExibicaoDaData: compares the length in characters, while `dataString.length` counts UTF-16 code units. The two differ only for a stored date holding characters outside the Basic Multilingual Plane.
- Floating point: amounts are exact reals, so rounding, `toFixed`, `FormatarMoeda` and the `String(number)` of the modal prefill are out. The prefill's text is a parameter.
- `parseFloat`'s prefix parsing is the parameter `parse`. Its `|| 0` (NaN and 0 both become 0) is modelled.
- BudgetScreen.HandleSalvarMeta: takes the current category as given, because the modal only opens with one. A null `categoriaAtual` would throw.
- The long-press menu of the budget screen and its edit and delete navigation (screens/Budgets/TelaOrcamento.js:103-128) are React state and navigation. The deletion it triggers is `Finance.DeletarCategoria`.
- React rendering, styles, navigation stacks, `App.js`, the placeholder screens, and `TelaPainel.js`/`TelaRelatorio.js` only display context values or repeat the name lookup.
- The `useState(() => …, deps)` call at screens/Transactions/AddTransactionScreen.js:19-25 and screens/Transactions/TelaAddTransacao.js:68-74 runs once as an initialiser. It maintains nothing, so no invariant about the selected category is claimed.
- The default date (screens/Transactions/TelaAddTransacao.js:9-11) reads the clock. Today's date is a parameter.
- Calendar dates have a natural-number year. Negative years cannot arise from stored transactions.
- TransactionScreen.FormatDate: stated for days below 100, the only days a calendar date has.
- The totals count only "income" and "expense", while the net series subtracts every non-income amount. `Evolution.SaldoPorMesAddsUp` relates the two only when every tipo is one of the two.

## Findings

| source | as written | input that shows it | evidently intended | confidence | as-written member | corrected member |
|---|---|---|---|---|---|---|
| screens/Budgets/TelaOrcamento.js:217-219 | the budget list renders `data={categorias}`, every category | the seeded income category "Salário" (tipo "income") gets a budget card | render `categoriasDeDespesa`, which line 56 computes for this list and the comment at line 218 names | high; not executed | BudgetScreen.SeededIncomeGetsCard | BudgetScreen.CategoriasDeDespesa |
| controle-financas-main/dao/CategoriaDAO.js:9 | the listing spreads the data over `{ id: documento.id }`, so the seeded categories, stored with their own `id` field "1".."4" (context/ContextoFinancas.js:9-12, 67), are listed under that field instead of their document key | delete the seeded "Alimentação": it is listed with id "2", `apagarCategoria("2")` deletes the missing document "2", and the category stays listed | the listed id is the document key, so deleting or editing a listed category reaches its document | medium; not executed | CategoryStore.SeededCategorySurvivesDelete | CategoryStore.DeleteRemovesListed |
