/** The older new-transaction form (`AddTransactionScreen`): the categories
    offered for the chosen type and the save button's checks. It saves no date. */
module AddTransactionForm {
  import opened Wrappers
  import opened Text
  import opened Collections
  import opened Records
  import opened Forms
  import NewTransaction
  import BudgetScreen

  function HasCategoryTipo(tipo: string): Category -> bool {
    (c: Category) => c.tipo == tipo
  }

  /** `categorias.filter(cat => cat.tipo === tipo)`: the categories of the
      chosen type, in order, each as often as it occurs. */
  function CategoriasFiltradas(cats: seq<Category>, tipo: string): (r: seq<Category>)
    ensures Subsequence(r, cats)
    ensures forall i :: 0 <= i < |r| ==> r[i].tipo == tipo
    ensures forall c :: multiset(r)[c] == if c.tipo == tipo then multiset(cats)[c] else 0
  {
    FilterSpec(cats, HasCategoryTipo(tipo));
    Filter(cats, HasCategoryTipo(tipo))
  }

  /** For expenses, the form offers the very list the budgets screen computes. */
  lemma ExpenseChoicesMatchBudgets(cats: seq<Category>)
    ensures CategoriasFiltradas(cats, EXPENSE) == BudgetScreen.CategoriasDeDespesa(cats)
  {
    FilterCongruent(cats, HasCategoryTipo(EXPENSE), BudgetScreen.IsExpenseCategory);
  }

  /** `handleSave`: a positive amount first, then a non-blank description,
      then a chosen category; the record saved has no date. */
  function HandleSave(tipo: string, valor: string, descricao: string, categoriaId: string,
                      parse: string -> Option<real>): (r: Outcome<TransactionDraft>)
    ensures var v := ParseAmount(valor, parse);
      && (r == Rejected(InvalidAmount) <==> !IsPositiveAmount(v))
      && (r == Rejected(EmptyDescription) <==> IsPositiveAmount(v) && IsBlank(descricao))
      && (r == Rejected(MissingCategory) <==> IsPositiveAmount(v) && !IsBlank(descricao) && categoriaId == "")
      && (r.Saved? <==> IsPositiveAmount(v) && !IsBlank(descricao) && categoriaId != "")
      && (r.Saved? ==> r.record == TransactionDraft(tipo, v, Trim(descricao), categoriaId, None))
  {
    var valorNumerico := ParseAmount(valor, parse);
    if !IsPositiveAmount(valorNumerico) then Rejected(InvalidAmount)
    else if IsBlank(descricao) then Rejected(EmptyDescription)
    else if categoriaId == "" then Rejected(MissingCategory)
    else Saved(TransactionDraft(tipo, valorNumerico, Trim(descricao), categoriaId, None))
  }

  /** The two new-transaction forms decide alike and save the same record,
      except that only the newer one adds the converted date. */
  lemma AgreesWithNewTransaction(tipo: string, valor: string, descricao: string, categoriaId: string,
                                 dataInput: string, parse: string -> Option<real>)
    ensures var a := HandleSave(tipo, valor, descricao, categoriaId, parse);
      var b := NewTransaction.HandleSave(tipo, valor, descricao, categoriaId, dataInput, parse);
      && a.Saved? == b.Saved?
      && (a.Rejected? ==> a == b)
      && (a.Saved? ==> a.record == b.record.(data := None) && b.record.data == Some(NewTransaction.ConverterData(dataInput)))
  {
  }
}
