/** The older category form (`screens/Budgets/TelaAddCategoria.js`): the
    colour palette, the defaults and the create-only save. */
module CategoryForm {
  import opened Text
  import opened Records
  import opened Forms

  /** The eight colours `SeletorDeCor` offers. */
  const CORES: seq<string> := ["#FF6384", "#36A2EB", "#FFCD56", "#4BC0C0", "#9966FF", "#FF0056", "#2E8B57", "#FFA07A"]
  const DEFAULT_COR: string := "#FF6384"

  /** The three fields of the form. */
  datatype Fields = Fields(nome: string, tipo: string, cor: string)

  /** The palette has eight distinct colours and the default is one of them. */
  lemma PaletteHoldsDefault()
    ensures |CORES| == 8
    ensures forall i, j :: 0 <= i < j < |CORES| ==> CORES[i] != CORES[j]
    ensures DEFAULT_COR in CORES && CORES[0] == DEFAULT_COR
  {
  }

  /** The fields a fresh form starts with. */
  function Inicial(): (f: Fields)
    ensures f.nome == "" && f.tipo == EXPENSE && f.cor in CORES && f.cor == CORES[0]
  {
    Fields("", EXPENSE, DEFAULT_COR)
  }

  /** `salvar`: a blank name saves nothing; otherwise the trimmed name, the
      type and the colour are saved once with `salvarNovaCategoria`. */
  function Salvar(f: Fields): (r: Outcome<CategoryDraft>)
    ensures r.Rejected? <==> IsBlank(f.nome)
    ensures r.Rejected? ==> r.reason == EmptyName
    ensures r.Saved? ==> r.record == CategoryDraft(Trim(f.nome), f.tipo, f.cor)
  {
    if IsBlank(f.nome) then Rejected(EmptyName)
    else Saved(CategoryDraft(Trim(f.nome), f.tipo, f.cor))
  }

  /** A saved name is non-empty with no whitespace at either end, so filling
      the form with a saved record and saving again saves the same record. */
  lemma SalvarStable(f: Fields)
    requires Salvar(f).Saved?
    ensures var d := Salvar(f).record;
      && d.nome != "" && !IsWhitespace(d.nome[0]) && !IsWhitespace(d.nome[|d.nome| - 1])
      && Salvar(Fields(d.nome, d.tipo, d.cor)) == Salvar(f)
  {
    TrimIdempotent(f.nome);
  }
}
