/** The older transactions screen (`screens/Transactions/TelaTransacao.js`).
    Its month filter, category lookup and arrows are the same code as the main
    app's screen and are modelled once, in module TransactionList; this module
    adds its short `DD/MM` date and states what that shared code gives here. */
module TransactionScreen {
  import opened Wrappers
  import opened Text
  import opened Collections
  import opened Calendar
  import opened Records
  import opened TransactionList

  /** `formatDate`: the day and the month, each padded to two digits. For a
      day below 100 the text is `DD/MM` and reads back as that day and month. */
  function FormatDate(d: Date): (r: string)
    ensures d.day < 100 ==> |r| == 5 && r[2] == '/' && AllDigits(r[..2]) && AllDigits(r[3..])
    ensures d.day < 100 ==> DecimalValue(r[..2]) == d.day && DecimalValue(r[3..]) == d.month
  {
    var r := Pad2(d.day) + "/" + Pad2(d.month);
    if d.day < 100 then
      Pad2Digits(d.day);
      Pad2Digits(d.month);
      assert r[..2] == Pad2(d.day) && r[3..] == Pad2(d.month);
      r
    else r
  }

  /** Two dates show the same short text exactly when they share day and month. */
  lemma FormatDateInjective(d: Date, e: Date)
    requires d.day < 100 && e.day < 100
    ensures FormatDate(d) == FormatDate(e) <==> d.day == e.day && d.month == e.month
  {
    var a, b := FormatDate(d), FormatDate(e);
    if a == b {
      assert a[..2] == b[..2] && a[3..] == b[3..];
    }
  }

  /** A transaction is listed for the filter exactly when the filter names its
      month key: the list and the provider's month totals agree on what "this
      month" is. */
  lemma ListedExactlyInMonth(ts: seq<Transaction>, ref: MonthKey, t: Transaction)
    ensures t in TransacoesFiltradas(ts, MonthFilter(ref.month, ref.year)) <==> t in ts && MonthOf(t) == ref
  {
    var f := MonthFilter(ref.month, ref.year);
    FilterMembership(ts, InFilter(f), t);
  }

  /** `alterarMesFiltro` applied `n` times with the same step. */
  function Steps(f: MonthFilter, passo: int, n: nat): MonthFilter
    decreases n
  {
    if n == 0 then f else Steps(AlterarMesFiltro(f, passo), passo, n - 1)
  }

  /** From a valid month, `n` presses of one arrow move exactly `n` calendar
      months in its direction. */
  lemma {:induction false} StepsMoveMonths(f: MonthFilter, passo: int, n: nat)
    requires 1 <= f.mes <= 12
    requires passo == 1 || passo == -1
    ensures 1 <= Steps(f, passo, n).mes <= 12
    ensures MonthIndex(Steps(f, passo, n).ano, Steps(f, passo, n).mes) == MonthIndex(f.ano, f.mes) + n * passo
    decreases n
  {
    if n > 0 {
      AlterarMesFiltroSteps(f, passo);
      StepsMoveMonths(AlterarMesFiltro(f, passo), passo, n - 1);
    }
  }

  /** Twelve presses of one arrow land on the same month one year away. */
  lemma TwelveStepsOneYear(f: MonthFilter, passo: int)
    requires 1 <= f.mes <= 12
    requires passo == 1 || passo == -1
    ensures Steps(f, passo, 12) == MonthFilter(f.mes, f.ano + passo)
  {
    StepsMoveMonths(f, passo, 12);
    var g := Steps(f, passo, 12);
    OneYearApart(f.ano, f.mes, g.ano, g.mes, passo);
  }

  /** Two valid months whose indices differ by twelve times `passo` are the
      same month, `passo` years apart. */
  lemma OneYearApart(ano: int, mes: int, ano': int, mes': int, passo: int)
    requires 1 <= mes <= 12 && 1 <= mes' <= 12
    requires MonthIndex(ano', mes') == MonthIndex(ano, mes) + 12 * passo
    ensures mes' == mes && ano' == ano + passo
  {
  }

  /** `getCategoryName` on a list whose ids are distinct: a listed category's
      id gives its name, an unknown id gives "Sem Categoria". */
  lemma CategoryNameLookup(cats: seq<Category>, i: int, id: string)
    requires forall a, b :: 0 <= a < b < |cats| ==> cats[a].id != cats[b].id
    requires 0 <= i < |cats|
    ensures NomeDaCategoria(cats, cats[i].id) == cats[i].nome
    ensures (forall j :: 0 <= j < |cats| ==> cats[j].id != id) ==> NomeDaCategoria(cats, id) == NO_CATEGORY
  {
  }
}
