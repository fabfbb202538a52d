/**
 * The input checks of `src/utils.py`: amount normalisation and validation,
 * description and category-name checks, the percentage helper and the
 * colour table. Each validator answers a flag and an optional message; the
 * flag is set exactly when there is no message.
 */
module Utils {
  import opened Wrappers
  import opened Text
  import opened Records

  const MSG_VALOR_NAO_POSITIVO: string := "O valor deve ser maior que zero"
  const MSG_VALOR_INVALIDO: string := "Valor inv\U{E1}lido. Use apenas n\U{FA}meros e v\U{ED}rgula"
  const MSG_DESCRICAO_LONGA: string := "A descri\U{E7}\U{E3}o deve ter no m\U{E1}ximo 100 caracteres"
  const MSG_CATEGORIA_VAZIA: string := "A categoria n\U{E3}o pode estar vazia"
  const MSG_CATEGORIA_LONGA: string := "A categoria deve ter no m\U{E1}ximo 50 caracteres"
  const MSG_CATEGORIA_LETRAS: string := "A categoria deve conter apenas letras e espa\U{E7}os"

  /** The answer of a validator: `(valido, mensagem)`. */
  datatype Check = Check(valido: bool, erro: Option<string>)

  /** The answer of `validar_valor`: `(valido, valor, mensagem)`. */
  datatype AmountCheck = AmountCheck(valido: bool, valor: Option<real>, erro: Option<string>)

  /**
   * The text `validar_valor` hands to `float`: `"R$"` removed, surrounding
   * whitespace stripped, thousands dots deleted, the decimal comma turned
   * into a dot.
   */
  function NormalizeAmount(s: string): string {
    Replace(Replace(Strip(Replace(s, "R$", "")), ".", ""), ",", ".")
  }

  /**
   * The normalised amount holds no comma; its dots are exactly the commas
   * of the stripped text, whose own dots are gone.
   */
  lemma NormalizeAmountShape(s: string)
    ensures var t := Strip(Replace(s, "R$", ""));
            var r := NormalizeAmount(s);
            && Count(r, ',') == 0
            && Count(r, '.') == Count(t, ',')
            && |r| == |t| - Count(t, '.')
  {
    var t := Strip(Replace(s, "R$", ""));
    var u := Replace(t, ".", "");
    RemoveCharCounts(t, '.', ',');
    ReplaceCharCounts(u, ',', '.');
  }

  /**
   * An amount typed without currency sign, surrounding whitespace, dots or
   * commas reaches `float` exactly as typed.
   */
  lemma PlainAmountUnchanged(s: string)
    requires forall i: nat :: !OccursAt(s, "R$", i)
    requires Strip(s) == s
    requires '.' !in s && ',' !in s
    ensures NormalizeAmount(s) == s
  {
    ReplaceAbsent(s, "R$", "");
    CharNowhere(s, '.');
    ReplaceAbsent(s, ".", "");
    CharNowhere(s, ',');
    ReplaceAbsent(s, ",", ".");
  }

  /**
   * `validar_valor`: `float` is the parameter `parse` (`None` where Python
   * raises ValueError). The amount is accepted exactly when it parses to a
   * positive value, and then it carries that value and no message.
   */
  function ValidarValor(s: string, parse: string -> Option<real>): (r: AmountCheck)
    ensures r.valido <==> r.erro.None?
    ensures r.valido <==> r.valor.Some?
    ensures r.valido <==> parse(NormalizeAmount(s)).Some? && parse(NormalizeAmount(s)).value > 0.0
    ensures r.valido ==> r.valor == parse(NormalizeAmount(s))
    ensures parse(NormalizeAmount(s)).None? ==> r.erro == Some(MSG_VALOR_INVALIDO)
    ensures parse(NormalizeAmount(s)).Some? && parse(NormalizeAmount(s)).value <= 0.0 ==>
              r.erro == Some(MSG_VALOR_NAO_POSITIVO)
  {
    match parse(NormalizeAmount(s))
    case None => AmountCheck(false, None, Some(MSG_VALOR_INVALIDO))
    case Some(v) =>
      if v <= 0.0 then AmountCheck(false, None, Some(MSG_VALOR_NAO_POSITIVO))
      else AmountCheck(true, Some(v), None)
  }

  /** `validar_descricao`: valid exactly when at most 100 characters remain after stripping. */
  function ValidarDescricao(s: string): (r: Check)
    ensures r.valido <==> r.erro.None?
    ensures r.valido <==> |Strip(s)| <= 100
    ensures !r.valido ==> r.erro == Some(MSG_DESCRICAO_LONGA)
  {
    if |Strip(s)| > 100 then Check(false, Some(MSG_DESCRICAO_LONGA)) else Check(true, None)
  }

  /** One character of the class `[a-zA-ZÀ-ÿ\s]`. */
  predicate CategoryChar(c: char) {
    ('a' <= c <= 'z') || ('A' <= c <= 'Z') || ('\U{C0}' <= c <= '\U{FF}') || IsSpace(c)
  }

  /**
   * `validar_categoria`: on the stripped name, empty is rejected first,
   * then more than 50 characters, then any character outside ASCII
   * letters, U+00C0..U+00FF and whitespace.
   */
  function ValidarCategoria(s: string): (r: Check)
    ensures r.valido <==> r.erro.None?
    ensures r.valido <==> var t := Strip(s);
              t != [] && |t| <= 50 && forall i :: 0 <= i < |t| ==> CategoryChar(t[i])
    ensures Strip(s) == [] ==> r.erro == Some(MSG_CATEGORIA_VAZIA)
    ensures Strip(s) != [] && |Strip(s)| > 50 ==> r.erro == Some(MSG_CATEGORIA_LONGA)
    ensures Strip(s) != [] && |Strip(s)| <= 50 && !r.valido ==> r.erro == Some(MSG_CATEGORIA_LETRAS)
  {
    var t := Strip(s);
    if t == [] then Check(false, Some(MSG_CATEGORIA_VAZIA))
    else if |t| > 50 then Check(false, Some(MSG_CATEGORIA_LONGA))
    else if !(forall i :: 0 <= i < |t| ==> CategoryChar(t[i])) then Check(false, Some(MSG_CATEGORIA_LETRAS))
    else Check(true, None)
  }

  /** A text that neither starts nor ends with whitespace is its own strip. */
  lemma StripOfTrimmed(s: string)
    requires s != [] && !IsSpace(s[0]) && !IsSpace(s[|s| - 1])
    ensures Strip(s) == s
  {
    var i, j :| 0 <= i <= j <= |s| && Strip(s) == s[i..j]
                && (forall k :: 0 <= k < i ==> IsSpace(s[k]))
                && (forall k :: j <= k < |s| ==> IsSpace(s[k]));
    assert !(0 < i);
    assert !(j < |s|);
  }

  /**
   * The class `À-ÿ` spans U+00C0..U+00FF, which holds the multiplication
   * sign U+00D7 and the division sign U+00F7: a name with either passes
   * the letters-and-spaces check.
   */
  lemma OperatorSignAccepted()
    ensures ValidarCategoria("A\U{D7}B").valido
    ensures ValidarCategoria("A\U{F7}B").valido
  {
    StripOfTrimmed("A\U{D7}B");
    StripOfTrimmed("A\U{F7}B");
  }

  /** A letter of ASCII or of Latin-1 (U+00C0..U+00FF without U+00D7 and U+00F7), or whitespace. */
  predicate CategoryLetter(c: char) {
    CategoryChar(c) && c != '\U{D7}' && c != '\U{F7}'
  }

  /**
   * `validar_categoria` with the letter class it evidently means: the
   * same checks in the same order, the last one over letters only.
   */
  function ValidarCategoriaLetras(s: string): (r: Check)
    ensures r.valido <==> r.erro.None?
    ensures r.valido <==> var t := Strip(s);
              t != [] && |t| <= 50 && forall i :: 0 <= i < |t| ==> CategoryLetter(t[i])
    ensures r.valido ==> ValidarCategoria(s).valido
  {
    var t := Strip(s);
    if t == [] then Check(false, Some(MSG_CATEGORIA_VAZIA))
    else if |t| > 50 then Check(false, Some(MSG_CATEGORIA_LONGA))
    else if !(forall i :: 0 <= i < |t| ==> CategoryLetter(t[i])) then Check(false, Some(MSG_CATEGORIA_LETRAS))
    else Check(true, None)
  }

  /**
   * The corrected check differs from the written one only on names holding
   * U+00D7 or U+00F7, which it rejects with the letters message.
   */
  lemma ValidarCategoriaLetrasAgrees(s: string)
    ensures (forall i :: 0 <= i < |Strip(s)| ==> Strip(s)[i] != '\U{D7}' && Strip(s)[i] != '\U{F7}') ==>
              ValidarCategoriaLetras(s) == ValidarCategoria(s)
    ensures (exists i :: 0 <= i < |Strip(s)| && (Strip(s)[i] == '\U{D7}' || Strip(s)[i] == '\U{F7}')) ==>
              !ValidarCategoriaLetras(s).valido
  {
  }

  /** A name of 1 to 50 letters or spaces, neither starting nor ending with whitespace. */
  predicate PlainName(c: string) {
    && c != [] && |c| <= 50 && !IsSpace(c[0]) && !IsSpace(c[|c| - 1])
    && forall k :: 0 <= k < |c| ==> CategoryLetter(c[k])
  }

  /** A plain name passes both checks. */
  lemma PlainNameValid(c: string)
    requires PlainName(c)
    ensures ValidarCategoria(c).valido && ValidarCategoriaLetras(c).valido
  {
    StripOfTrimmed(c);
  }

  lemma DefaultCategoriesPlain()
    ensures forall i :: 0 <= i < |DEFAULT_CATEGORIES| ==> PlainName(DEFAULT_CATEGORIES[i])
  {
  }

  /** Every seeded category name passes `validar_categoria`, and the corrected check too. */
  lemma DefaultCategoriesValid()
    ensures forall c :: c in DEFAULT_CATEGORIES ==> ValidarCategoria(c).valido && ValidarCategoriaLetras(c).valido
  {
    DefaultCategoriesPlain();
    forall c | c in DEFAULT_CATEGORIES
      ensures ValidarCategoria(c).valido && ValidarCategoriaLetras(c).valido
    {
      var i :| 0 <= i < |DEFAULT_CATEGORIES| && DEFAULT_CATEGORIES[i] == c;
      PlainNameValid(c);
    }
  }

  /** `calcular_percentual`: 0 against a zero total, else the share of `total` in percent. */
  function CalcularPercentual(valor: real, total: real): (r: real)
    ensures total == 0.0 ==> r == 0.0
    ensures total != 0.0 ==> r * total == valor * 100.0
  {
    if total == 0.0 then 0.0 else (valor / total) * 100.0
  }

  /** A part of a positive total is between 0 and 100 percent; the whole is 100. */
  lemma PercentualBounds(valor: real, total: real)
    requires 0.0 <= valor <= total && total > 0.0
    ensures 0.0 <= CalcularPercentual(valor, total) <= 100.0
    ensures valor == total ==> CalcularPercentual(valor, total) == 100.0
  {
    var r := CalcularPercentual(valor, total);
    assert r * total == valor * 100.0;
  }

  const COR_PADRAO: string := "#808080"

  /** The fixed colour of each default category. */
  const CORES_PADRAO: map<string, string> := map[
    "Alimenta\U{E7}\U{E3}o" := "#FF6B6B",
    "Transporte" := "#4ECDC4",
    "Moradia" := "#45B7D1",
    "Lazer" := "#96CEB4",
    "Sa\U{FA}de" := "#D4A5A5",
    "Educa\U{E7}\U{E3}o" := "#9FA8DA",
    "Sal\U{E1}rio" := "#81C784",
    "Investimentos" := "#FFD93D",
    "Outros" := "#A8A8A8"
  ]

  /** `gerar_cor_categoria`: the fixed colour of a known name, grey for any other. */
  function GerarCorCategoria(categoria: string): (cor: string)
    ensures categoria in CORES_PADRAO ==> cor == CORES_PADRAO[categoria]
    ensures categoria !in CORES_PADRAO ==> cor == COR_PADRAO
  {
    if categoria in CORES_PADRAO then CORES_PADRAO[categoria] else COR_PADRAO
  }

  /** The colour table covers exactly the seeded categories. */
  lemma ColourTableKeys()
    ensures CORES_PADRAO.Keys == set c | c in DEFAULT_CATEGORIES
  {
  }

  /** No seeded category falls back to grey. */
  lemma DefaultCategoriesColoured()
    ensures forall c :: c in DEFAULT_CATEGORIES ==> GerarCorCategoria(c) != COR_PADRAO
  {
  }

  /** The nine seeded categories get nine different colours. */
  lemma DefaultColoursDistinct()
    ensures forall i, j :: 0 <= i < j < |DEFAULT_CATEGORIES| ==>
              GerarCorCategoria(DEFAULT_CATEGORIES[i]) != GerarCorCategoria(DEFAULT_CATEGORIES[j])
  {
  }
}
