/**
 * The rows of the four tables: `transacoes`, `categorias` (names only),
 * `orcamentos` and `metas`. Amounts are exact `real`s; the source keeps them
 * as SQLite REAL / Python float, so the sums and differences derived from
 * them are exact only in this model.
 */
module Records {
  import opened Dates

  /** The two kinds the application writes into `transacoes.tipo`. */
  const RECEITA: string := "Receita"
  const DESPESA: string := "Despesa"

  /**
   * A `transacoes` row. `tipo` is free text in the table: the web routes
   * insert whatever the form sends.
   */
  datatype Transaction = Transaction(
    id: int,
    tipo: string,
    valor: real,
    data: Date,
    descricao: string,
    categoria: string)

  /** An `orcamentos` row: a spending limit for a category in one month of one year. */
  datatype Budget = Budget(id: int, categoria: string, valorLimite: real, mes: int, ano: int)

  /** A `metas` row: a savings goal; its status is never stored. */
  datatype Goal = Goal(
    id: int,
    descricao: string,
    valorAlvo: real,
    valorAtual: real,
    dataInicio: Date,
    dataFim: Date)

  /** The categories seeded into an empty `categorias` table, in insertion order. */
  const DEFAULT_CATEGORIES: seq<string> := [
    "Alimentação", "Transporte", "Moradia", "Lazer", "Saúde",
    "Educação", "Salário", "Investimentos", "Outros"
  ]
}
