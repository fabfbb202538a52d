/**
 * The record classes of `src/models.py`: a validated transaction, its dict
 * form and back, and the financial summary read from a dict. Construction
 * either yields the record or the exception Python raises.
 */
module Models {
  import opened Wrappers
  import opened Dates
  import opened Records
  import opened Values
  import Store
  import Queries

  const MSG_TIPO: string := "Tipo deve ser 'Receita' ou 'Despesa'"
  const MSG_VALOR: string := "Valor deve ser maior que zero"
  const MSG_DATA: string := "Data deve estar no formato YYYY-MM-DD"

  /** A `Transacao` once `__post_init__` has run: `data` is a date, never text. */
  datatype Transacao = Transacao(
    tipo: string,
    valor: real,
    data: Date,
    categoria: string,
    descricao: string,
    id: Option<int>)

  /** What `__post_init__` guarantees of every constructed `Transacao`. */
  predicate WellFormed(t: Transacao) {
    (t.tipo == RECEITA || t.tipo == DESPESA) && t.valor > 0.0 && ValidDate(t.data)
  }

  /** The date a `data` argument denotes: a date as is, text through `%Y-%m-%d`. */
  function DateArgument(data: Value): Option<Date> {
    match data
    case Day(d) => Some(d)
    case Text(s) => ParseIso(s)
    case _ => None
  }

  /**
   * `Transacao(...)` followed by `__post_init__`: the kind is checked first,
   * then the amount, then a text date is parsed. `data` already a datetime
   * (a valid date) is kept.
   */
  function NewTransacao(tipo: Value, valor: real, data: Value, categoria: Value, descricao: Value, id: Value)
    : (r: Result<Transacao, PyError>)
    requires data.Day? ==> ValidDate(data.d)
    ensures r.Success? ==> WellFormed(r.value)
    ensures r.Success? <==>
              && (tipo == Text(RECEITA) || tipo == Text(DESPESA))
              && valor > 0.0
              && DateArgument(data).Some?
              && categoria.Text? && descricao.Text? && (id.Whole? || id.Null?)
    ensures r.Success? ==>
              r.value == Transacao(tipo.s, valor, DateArgument(data).value, categoria.s, descricao.s,
                                   if id.Whole? then Some(id.i) else None)
    ensures tipo != Text(RECEITA) && tipo != Text(DESPESA) ==> r == Failure(ValueError(MSG_TIPO))
    ensures (tipo == Text(RECEITA) || tipo == Text(DESPESA)) && valor <= 0.0 ==> r == Failure(ValueError(MSG_VALOR))
    ensures (tipo == Text(RECEITA) || tipo == Text(DESPESA)) && valor > 0.0 && data.Text? && ParseIso(data.s).None? ==>
              r == Failure(ValueError(MSG_DATA))
  {
    if tipo != Text(RECEITA) && tipo != Text(DESPESA) then Failure(ValueError(MSG_TIPO))
    else if valor <= 0.0 then Failure(ValueError(MSG_VALOR))
    else if data.Text? && ParseIso(data.s).None? then Failure(ValueError(MSG_DATA))
    else if !(data.Text? || data.Day?) || !categoria.Text? || !descricao.Text? || !(id.Whole? || id.Null?) then
      Failure(TypeError)
    else
      Success(Transacao(tipo.s, valor, DateArgument(data).value, categoria.s, descricao.s,
                        if id.Whole? then Some(id.i) else None))
  }

  /** `to_dict`: the fields under their column names, the date as `YYYY-MM-DD` text. */
  function ToDict(t: Transacao): (d: map<string, Value>)
    requires ValidDate(t.data) && 1000 <= t.data.year
    ensures d.Keys == {"id", "tipo", "valor", "data", "categoria", "descricao"}
    ensures d["tipo"] == Text(t.tipo) && d["valor"] == Number(t.valor)
    ensures d["categoria"] == Text(t.categoria) && d["descricao"] == Text(t.descricao)
    ensures d["data"].Text? && ParseIso(d["data"].s) == Some(t.data)
    ensures d["id"] == if t.id.Some? then Whole(t.id.value) else Null
  {
    FormatThenParse(t.data);
    map[
      "id" := if t.id.Some? then Whole(t.id.value) else Null,
      "tipo" := Text(t.tipo),
      "valor" := Number(t.valor),
      "data" := Text(FormatIso(t.data)),
      "categoria" := Text(t.categoria),
      "descricao" := Text(t.descricao)
    ]
  }

  /**
   * `from_dict`: the four required keys are read in argument order (a
   * missing one raises KeyError), `valor` goes through `float`, an absent
   * `descricao` is `""` and an absent `id` is None; then the constructor
   * validates.
   */
  function FromDict(d: map<string, Value>, parse: string -> Option<real>): (r: Result<Transacao, PyError>)
    requires "data" in d && d["data"].Day? ==> ValidDate(d["data"].d)
    ensures "tipo" !in d ==> r == Failure(KeyError("tipo"))
    ensures "tipo" in d && "valor" !in d ==> r == Failure(KeyError("valor"))
    ensures "tipo" in d && "valor" in d && ToFloat(d["valor"], parse).Failure? ==>
              r == Failure(ToFloat(d["valor"], parse).error)
    ensures r.Success? ==> WellFormed(r.value)
    ensures r.Success? ==> "tipo" in d && "valor" in d && "data" in d && "categoria" in d
    ensures "tipo" in d && "valor" in d && ToFloat(d["valor"], parse).Success? && "data" !in d ==>
              r == Failure(KeyError("data"))
    ensures "tipo" in d && "valor" in d && ToFloat(d["valor"], parse).Success? && "data" in d && "categoria" !in d ==>
              r == Failure(KeyError("categoria"))
    ensures r.Success? ==> d["tipo"] == Text(r.value.tipo) && ToFloat(d["valor"], parse) == Success(r.value.valor)
    ensures r.Success? ==> DateArgument(d["data"]) == Some(r.value.data) && d["categoria"] == Text(r.value.categoria)
    ensures r.Success? ==> if "descricao" in d then d["descricao"] == Text(r.value.descricao) else r.value.descricao == ""
    ensures r.Success? ==> if "id" in d then d["id"] == (if r.value.id.Some? then Whole(r.value.id.value) else Null)
                           else r.value.id == None
  {
    if "tipo" !in d then Failure(KeyError("tipo"))
    else if "valor" !in d then Failure(KeyError("valor"))
    else
      match ToFloat(d["valor"], parse)
      case Failure(e) => Failure(e)
      case Success(valor) =>
        if "data" !in d then Failure(KeyError("data"))
        else if "categoria" !in d then Failure(KeyError("categoria"))
        else
          NewTransacao(d["tipo"], valor, d["data"], d["categoria"],
                       if "descricao" in d then d["descricao"] else Text(""),
                       if "id" in d then d["id"] else Null)
  }

  /** `from_dict(t.to_dict())` gives back `t`, field for field. */
  lemma FromDictToDict(t: Transacao, parse: string -> Option<real>)
    requires WellFormed(t) && 1000 <= t.data.year
    ensures FromDict(ToDict(t), parse) == Success(t)
  {
  }

  /** A dict without `descricao` and `id` gives a transaction with an empty description and no id. */
  lemma FromDictDefaults(tipo: string, valor: real, data: Date, categoria: string, parse: string -> Option<real>)
    requires tipo == RECEITA || tipo == DESPESA
    requires valor > 0.0 && ValidDate(data)
    ensures var d := map["tipo" := Text(tipo), "valor" := Number(valor), "data" := Day(data),
                         "categoria" := Text(categoria)];
            FromDict(d, parse) == Success(Transacao(tipo, valor, data, categoria, "", None))
  {
  }

  /** A `ResumoFinanceiro`. */
  datatype Resumo = Resumo(receitas: real, despesas: real, saldo: real)

  /**
   * `ResumoFinanceiro.from_dict`: `float` of each of the three keys, in
   * order, each value copied as is.
   */
  function ResumoFromDict(d: map<string, Value>, parse: string -> Option<real>): (r: Result<Resumo, PyError>)
    ensures "receitas" !in d ==> r == Failure(KeyError("receitas"))
    ensures r.Success? <==>
              && "receitas" in d && "despesas" in d && "saldo" in d
              && ToFloat(d["receitas"], parse).Success?
              && ToFloat(d["despesas"], parse).Success?
              && ToFloat(d["saldo"], parse).Success?
    ensures r.Success? ==>
              r.value == Resumo(ToFloat(d["receitas"], parse).value, ToFloat(d["despesas"], parse).value,
                                ToFloat(d["saldo"], parse).value)
  {
    if "receitas" !in d then Failure(KeyError("receitas"))
    else match ToFloat(d["receitas"], parse)
    case Failure(e) => Failure(e)
    case Success(receitas) =>
      if "despesas" !in d then Failure(KeyError("despesas"))
      else match ToFloat(d["despesas"], parse)
      case Failure(e) => Failure(e)
      case Success(despesas) =>
        if "saldo" !in d then Failure(KeyError("saldo"))
        else match ToFloat(d["saldo"], parse)
        case Failure(e) => Failure(e)
        case Success(saldo) => Success(Resumo(receitas, despesas, saldo))
  }

  /**
   * The summary the database hands out always converts, and the record it
   * gives holds the ledger's income, its expense, and their difference.
   */
  lemma ResumoOfStore(st: Store.Store, parse: string -> Option<real>)
    ensures var r := ResumoFromDict(st.GetResumoFinanceiro(), parse);
            && r.Success?
            && r.value.receitas == Queries.LedgerIncome(st.transacoes)
            && r.value.despesas == Queries.LedgerExpense(st.transacoes)
            && r.value.saldo == r.value.receitas - r.value.despesas
  {
  }
}
