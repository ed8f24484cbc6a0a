/** The category form of the main app (`TelaAddCategoria`): opened with a
    category it edits that category, otherwise it creates one. */
module CategoryEditor {
  import opened Wrappers
  import opened Text
  import opened Records
  import opened Forms
  import opened CategoryForm

  /** `route.params?.categoria`: the category to edit, if any. */
  datatype RouteParams = RouteParams(categoria: Option<Category>)

  /** `!!categoriaParaEditar`. */
  predicate IsEditing(p: RouteParams) {
    p.categoria.Some?
  }

  /** `x || fallback` on a string field: the empty string is falsy. */
  function OrDefault(x: string, fallback: string): string {
    if x != "" then x else fallback
  }

  /** The fields the form opens with: the edited category's name, type and
      colour where they are non-empty, else `''`, `'expense'` and `'#FF6384'`. */
  function InicialPara(p: RouteParams): (f: Fields)
    ensures p.categoria.None? ==> f == CategoryForm.Inicial()
    ensures p.categoria.Some? ==> var c := p.categoria.value;
      && (c.nome != "" ==> f.nome == c.nome) && (c.nome == "" ==> f.nome == "")
      && (c.tipo != "" ==> f.tipo == c.tipo) && (c.tipo == "" ==> f.tipo == EXPENSE)
      && (c.cor != "" ==> f.cor == c.cor) && (c.cor == "" ==> f.cor == DEFAULT_COR)
  {
    match p.categoria
    case None => Fields(OrDefault("", ""), OrDefault("", EXPENSE), OrDefault("", DEFAULT_COR))
    case Some(c) => Fields(OrDefault(c.nome, ""), OrDefault(c.tipo, EXPENSE), OrDefault(c.cor, DEFAULT_COR))
  }

  /** The one call a valid save makes. */
  datatype CategoryCall = CreateCategory(record: CategoryDraft) | EditCategory(id: string, record: CategoryDraft)

  /** `salvar`: a blank name saves nothing; otherwise the trimmed name, the
      type and the colour go to `editarCategoria` with the edited category's id
      in edit mode, and to `salvarNovaCategoria` otherwise. */
  function Salvar(p: RouteParams, f: Fields): (r: Outcome<CategoryCall>)
    ensures r.Rejected? <==> IsBlank(f.nome)
    ensures r.Rejected? ==> r.reason == EmptyName
    ensures r.Saved? ==> r.record.record == CategoryDraft(Trim(f.nome), f.tipo, f.cor)
    ensures r.Saved? ==> (r.record.EditCategory? <==> IsEditing(p))
    ensures r.Saved? && IsEditing(p) ==> r.record.id == p.categoria.value.id
  {
    if IsBlank(f.nome) then Rejected(EmptyName)
    else
      var novaCategoria := CategoryDraft(Trim(f.nome), f.tipo, f.cor);
      if IsEditing(p) then Saved(EditCategory(p.categoria.value.id, novaCategoria))
      else Saved(CreateCategory(novaCategoria))
  }

  /** Without an edited category the form behaves like the older create-only
      form: same defaults, same checks, same record. */
  lemma CreateModeIsCategoryForm(f: Fields)
    ensures InicialPara(RouteParams(None)) == CategoryForm.Inicial()
    ensures Salvar(RouteParams(None), f).Rejected? == CategoryForm.Salvar(f).Rejected?
    ensures Salvar(RouteParams(None), f).Saved? ==>
      Salvar(RouteParams(None), f).record == CreateCategory(CategoryForm.Salvar(f).record)
  {
  }

  /** Opening a category whose fields are set and whose name is already trimmed
      and pressing save at once writes that category back unchanged. */
  lemma EditUnchangedWritesBack(c: Category)
    requires c.nome != "" && !IsWhitespace(c.nome[0]) && !IsWhitespace(c.nome[|c.nome| - 1])
    requires c.tipo != "" && c.cor != ""
    ensures Salvar(RouteParams(Some(c)), InicialPara(RouteParams(Some(c))))
         == Saved(EditCategory(c.id, CategoryDraft(c.nome, c.tipo, c.cor)))
  {
    TrimFixesTrimmed(c.nome);
  }
}
