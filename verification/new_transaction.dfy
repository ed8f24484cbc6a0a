/** The new-transaction form of the main app (`TelaAddTransacao`): the date
    field's `DD/MM/AAAA` mask, the date validator, the conversion to the stored
    `AAAA-MM-DD` text, and the save button's checks. */
module NewTransaction {
  import opened Wrappers
  import opened Text
  import opened Collections
  import opened Calendar
  import opened Records
  import opened Finance
  import opened Forms
  import TransactionList

  /** A date typed as `DD/MM/AAAA`: the regular expression `^(\d{2})\/(\d{2})\/(\d{4})$`. */
  predicate DateShape(s: string) {
    Fields3(s, '/', 2, 2, 4)
  }

  function Dia(s: string): nat
    requires DateShape(s)
  {
    Fields3Split(s, '/', 2, 2, 4);
    DecimalValue(s[..2])
  }

  function Mes(s: string): nat
    requires DateShape(s)
  {
    Fields3Split(s, '/', 2, 2, 4);
    DecimalValue(s[3..5])
  }

  function Ano(s: string): nat
    requires DateShape(s)
  {
    Fields3Split(s, '/', 2, 2, 4);
    DecimalValue(s[6..])
  }

  // --------------------------------------------------------- validator

  /** `validarFormatoData`: the shape, then the month range, then whether
      `new Date(ano, mes - 1, dia)` reads back the same day, month and year. */
  function ValidarFormatoData(dataString: string): bool {
    if !DateShape(dataString) then false
    else
      Fields3Split(dataString, '/', 2, 2, 4);
      var partes := Split(dataString, '/');
      var dia := DecimalValue(partes[0]);
      var mes := DecimalValue(partes[1]);
      var ano := DecimalValue(partes[2]);
      if mes < 1 || mes > 12 then false
      else ConstructDate(ano, mes - 1, dia) == CivilDate(ano, mes, dia)
  }

  /** The validator accepts exactly the well-shaped texts that name a real
      calendar day (29 February only in leap years) of a year from 0100 on:
      years 0000 to 0099 are read by `Date` as 1900 to 1999 and never match. */
  lemma ValidarFormatoDataCorrect(s: string)
    ensures ValidarFormatoData(s) <==>
      DateShape(s) && 1 <= Mes(s) <= 12 && Ano(s) >= 100 && 1 <= Dia(s) <= DaysInMonth(Ano(s), Mes(s))
  {
    if DateShape(s) {
      Fields3Split(s, '/', 2, 2, 4);
      if 1 <= Mes(s) <= 12 {
        ConstructDateRoundTrip(Ano(s), Mes(s), Dia(s));
      }
    }
  }

  /** `dataPadrao`: today's date as `DD/MM/AAAA`, the year unpadded. */
  function DataPadrao(hoje: Date): string
    requires hoje.day < 100
  {
    Pad2(hoje.day) + "/" + Pad2(hoje.month) + "/" + NatToString(hoje.year)
  }

  /** The form's initial date passes the validator on any real day of a
      four-digit year. */
  lemma DataPadraoValid(hoje: Date)
    requires 1000 <= hoje.year <= 9999 && 1 <= hoje.day <= DaysInMonth(hoje.year, hoje.month)
    ensures ValidarFormatoData(DataPadrao(hoje))
  {
    var s := DataPadrao(hoje);
    var y := NatToString(hoje.year);
    Pad2Digits(hoje.day);
    Pad2Digits(hoje.month);
    NatToStringRoundTrip(hoje.year);
    FourDigitYear(hoje.year);
    Fields3Of(Pad2(hoje.day), Pad2(hoje.month), y, '/');
    assert s == Pad2(hoje.day) + ['/'] + Pad2(hoje.month) + ['/'] + y;
    assert s[..2] == Pad2(hoje.day) && s[3..5] == Pad2(hoje.month) && s[6..] == y;
    ValidarFormatoDataCorrect(s);
  }

  // -------------------------------------------------------------- mask

  /** The digits of a text, in order, cut to the first eight. */
  function Digits8(text: string): (c: string)
    ensures |c| <= 8 && AllDigits(c)
    ensures var d := Filter(text, IsDigit); |c| == (if |d| > 8 then 8 else |d|) && c == d[..|c|]
  {
    FilterSpec(text, IsDigit);
    var d := Filter(text, IsDigit);
    if |d| > 8 then d[..8] else d
  }

  /** `formatarDataInput`: keep the digits (at most eight) and insert `/`
      after the second and the fourth when more follow. */
  function FormatarDataInput(text: string): (r: string)
  {
    var cleanText := Digits8(text);
    if |cleanText| > 4 then cleanText[..2] + "/" + cleanText[2..4] + "/" + cleanText[4..]
    else if |cleanText| > 2 then cleanText[..2] + "/" + cleanText[2..]
    else cleanText
  }

  lemma {:induction false} FilterAllDigits(s: string)
    requires AllDigits(s)
    ensures Filter(s, IsDigit) == s
    decreases |s|
  {
    if |s| > 0 {
      FilterAllDigits(s[1..]);
    }
  }

  lemma FilterDropsSlash(a: string, b: string)
    ensures Filter(a + "/" + b, IsDigit) == Filter(a, IsDigit) + Filter(b, IsDigit)
  {
    var slash := "/";
    assert Filter(slash, IsDigit) == [] by {
      assert !IsDigit(slash[0]) && slash[1..] == [];
    }
    FilterAppend(a, slash, IsDigit);
    assert Filter(a + slash, IsDigit) == Filter(a, IsDigit) + [];
    assert Filter(a, IsDigit) + [] == Filter(a, IsDigit);
    FilterAppend(a + slash, b, IsDigit);
  }

  /** The mask: at most ten characters; its digits are the first eight digits
      of the input in order; a slash stands exactly at index 2 when more than
      two digits were typed and at index 5 when more than four were, and
      everything else is a digit; up to two digits are returned unchanged. */
  lemma FormatarDataInputSpec(text: string)
    ensures var r := FormatarDataInput(text); var c := Digits8(text);
      && |r| <= 10
      && Filter(r, IsDigit) == c
      && (forall i :: 0 <= i < |r| ==> (r[i] == '/' <==> (i == 2 && |c| > 2) || (i == 5 && |c| > 4)))
      && (forall i :: 0 <= i < |r| && r[i] != '/' ==> IsDigit(r[i]))
      && (|c| <= 2 ==> r == c)
      && (|c| == 8 ==> DateShape(r))
  {
    var c := Digits8(text);
    if |c| > 4 {
      MaskFull(c);
    } else if |c| > 2 {
      MaskPartial(c);
    } else {
      FilterAllDigits(c);
    }
  }

  /** The mask of three to four digits: one slash after the second. */
  lemma MaskPartial(c: string)
    requires AllDigits(c) && 2 < |c| <= 4
    ensures var r := c[..2] + "/" + c[2..];
      && Filter(r, IsDigit) == c
      && (forall i :: 0 <= i < |r| ==> (r[i] == '/' <==> i == 2))
      && (forall i :: 0 <= i < |r| && r[i] != '/' ==> IsDigit(r[i]))
  {
    var r := c[..2] + "/" + c[2..];
    assert Filter(r, IsDigit) == c by {
      FilterAllDigits(c[..2]);
      FilterAllDigits(c[2..]);
      FilterDropsSlash(c[..2], c[2..]);
      assert c[..2] + c[2..] == c;
    }
    forall i | 0 <= i < |r| ensures (r[i] == '/' <==> i == 2) && (r[i] != '/' ==> IsDigit(r[i])) {
      if i < 2 {
        assert r[i] == c[i];
      } else if i > 2 {
        assert r[i] == c[2..][i - 3] == c[i - 1];
      }
    }
  }

  /** The mask of five to eight digits: slashes after the second and the fourth. */
  lemma MaskFull(c: string)
    requires AllDigits(c) && 4 < |c| <= 8
    ensures var r := c[..2] + "/" + c[2..4] + "/" + c[4..];
      && Filter(r, IsDigit) == c
      && (forall i :: 0 <= i < |r| ==> (r[i] == '/' <==> i == 2 || i == 5))
      && (forall i :: 0 <= i < |r| && r[i] != '/' ==> IsDigit(r[i]))
      && (|c| == 8 ==> DateShape(r))
  {
    var a := c[..2] + "/" + c[2..4];
    var r := a + "/" + c[4..];
    assert Filter(r, IsDigit) == c by {
      FilterAllDigits(c[..2]);
      FilterAllDigits(c[2..4]);
      FilterAllDigits(c[4..]);
      FilterDropsSlash(c[..2], c[2..4]);
      FilterDropsSlash(a, c[4..]);
      assert c[..2] + c[2..4] + c[4..] == c;
    }
    forall i | 0 <= i < |r| ensures (r[i] == '/' <==> i == 2 || i == 5) && (r[i] != '/' ==> IsDigit(r[i])) {
      if i < 2 {
        assert r[i] == c[i];
      } else if 2 < i < 5 {
        assert r[i] == a[i] == c[2..4][i - 3] == c[i - 1];
      } else if i > 5 {
        assert r[i] == c[4..][i - 6] == c[i - 2];
      }
    }
    if |c| == 8 {
      Fields3Of(c[..2], c[2..4], c[4..], '/');
    }
  }

  /** Masking a masked text changes nothing. */
  lemma FormatarDataInputIdempotent(text: string)
    ensures FormatarDataInput(FormatarDataInput(text)) == FormatarDataInput(text)
  {
    var r := FormatarDataInput(text);
    FormatarDataInputSpec(text);
    assert Digits8(r) == Digits8(text);
  }

  // -------------------------------------------------------- conversion

  /** `const [dia, mes, ano] = dataInput.split('/')` then `${ano}-${mes}-${dia}`,
      a missing piece printing as "undefined". */
  function ConverterData(dataInput: string): string {
    var partes := Split(dataInput, '/');
    PartOr(partes, 2) + "-" + PartOr(partes, 1) + "-" + PartOr(partes, 0)
  }

  /** A typed `DD/MM/AAAA` date is stored as `AAAA-MM-DD`, and the list shows
      the stored text as the date that was typed. */
  lemma ConverterDataRoundTrip(s: string)
    requires DateShape(s)
    ensures ConverterData(s) == s[6..] + "-" + s[3..5] + "-" + s[..2]
    ensures TransactionList.IsoShape(ConverterData(s))
    ensures TransactionList.FormatarExibicaoDaData(ConverterData(s)) == s
  {
    Fields3Split(s, '/', 2, 2, 4);
    var iso := ConverterData(s);
    Fields3Of(s[6..], s[3..5], s[..2], '-');
    assert iso == s[6..] + ['-'] + s[3..5] + ['-'] + s[..2];
    TransactionList.FormatarExibicaoIso(iso);
    assert iso[8..] == s[..2] && iso[5..7] == s[3..5] && iso[..4] == s[6..];
  }

  /** The other direction: a stored date shown in the list converts back to
      the stored text. */
  lemma ExibicaoRoundTrip(s: string)
    requires TransactionList.IsoShape(s)
    ensures ConverterData(TransactionList.FormatarExibicaoDaData(s)) == s
  {
    TransactionList.FormatarExibicaoIso(s);
    var d := TransactionList.FormatarExibicaoDaData(s);
    Fields3Split(d, '/', 2, 2, 4);
    Fields3Split(s, '-', 4, 2, 2);
    assert d == s[8..] + ['/'] + s[5..7] + ['/'] + s[..4];
    assert d[..2] == s[8..] && d[3..5] == s[5..7] && d[6..] == s[..4];
  }

  // ------------------------------------------------------------- save

  /** `handleSave`: a positive amount, then a non-blank description, then a
      chosen category; the date text is converted but never validated. */
  function HandleSave(tipo: string, valor: string, descricao: string, categoriaId: string,
                      dataInput: string, parse: string -> Option<real>): (r: Outcome<TransactionDraft>)
    ensures var v := ParseAmount(valor, parse);
      && (r == Rejected(InvalidAmount) <==> !IsPositiveAmount(v))
      && (r == Rejected(EmptyDescription) <==> IsPositiveAmount(v) && IsBlank(descricao))
      && (r == Rejected(MissingCategory) <==> IsPositiveAmount(v) && !IsBlank(descricao) && categoriaId == "")
      && (r.Saved? <==> IsPositiveAmount(v) && !IsBlank(descricao) && categoriaId != "")
      && (r.Saved? ==> r.record == TransactionDraft(tipo, v, Trim(descricao), categoriaId, Some(ConverterData(dataInput))))
  {
    var valorNumerico := ParseAmount(valor, parse);
    if !IsPositiveAmount(valorNumerico) then Rejected(InvalidAmount)
    else if IsBlank(descricao) then Rejected(EmptyDescription)
    else if categoriaId == "" then Rejected(MissingCategory)
    else Saved(TransactionDraft(tipo, valorNumerico, Trim(descricao), categoriaId, Some(ConverterData(dataInput))))
  }

  /** Whether anything is saved does not depend on the date text, and a saved
      record typed as a real `DD/MM/AAAA` date is stored as `AAAA-MM-DD` that the
      list shows as typed; the provider's normalisation leaves the record
      unchanged. */
  lemma HandleSaveDate(tipo: string, valor: string, descricao: string, categoriaId: string,
                       dataInput: string, other: string, parse: string -> Option<real>)
    ensures HandleSave(tipo, valor, descricao, categoriaId, dataInput, parse).Saved?
        == HandleSave(tipo, valor, descricao, categoriaId, other, parse).Saved?
    ensures var r := HandleSave(tipo, valor, descricao, categoriaId, dataInput, parse);
      r.Saved? ==> PrepararTransacao(r.record) == r.record && r.record.valor.value > 0.0
    ensures var r := HandleSave(tipo, valor, descricao, categoriaId, dataInput, parse);
      r.Saved? && DateShape(dataInput) ==>
        TransactionList.IsoShape(r.record.data.value) &&
        TransactionList.FormatarExibicaoDaData(r.record.data.value) == dataInput
  {
    if DateShape(dataInput) {
      ConverterDataRoundTrip(dataInput);
    }
  }
}
