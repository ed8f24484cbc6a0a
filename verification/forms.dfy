/** The checks the transaction and category forms share. */
module Forms {
  import opened Wrappers
  import opened Text

  /** Why a form saves nothing. */
  datatype Rejection = InvalidAmount | EmptyDescription | MissingCategory | InvalidDateFormat | EmptyName

  /** What pressing a form's save button does: nothing but a message, or one
      call that saves `record`. */
  datatype Outcome<R> = Rejected(reason: Rejection) | Saved(record: R)

  /** `parseFloat(valor.replace(',', '.'))`: the first comma is read as the
      decimal point; `parse` stands for `parseFloat` (None for NaN). */
  function ParseAmount(valor: string, parse: string -> Option<real>): Option<real> {
    parse(ReplaceFirst(valor, ',', '.'))
  }

  /** The negation of `!valorNumerico || valorNumerico <= 0`: a number above 0
      (NaN and 0 are falsy). */
  predicate IsPositiveAmount(v: Option<real>) {
    v.Some? && v.value > 0.0
  }

  /** `!texto.trim()`: nothing but whitespace. */
  predicate IsBlank(s: string) {
    Trim(s) == ""
  }
}
