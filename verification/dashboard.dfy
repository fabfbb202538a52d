/**
 * The parts of the web pages' handlers that compute step by step: the
 * dashboard's loop over the `GROUP BY tipo` rows, the listing's query
 * built clause by clause, and the category page's statistics loop.
 */
module Dashboard {
  import opened Wrappers
  import opened Dates
  import opened Records
  import opened Queries
  import Sorting

  /** The dashboard's `resumo` figures. */
  datatype Summary = Summary(receitas: real, despesas: real, saldo: real)

  /** What the loop keeps for income: the last 'Receita' group seen, or 0 when none was seen. */
  ghost predicate IncomeSoFar(groups: seq<(string, real)>, i: int, receitas: real)
    requires 0 <= i <= |groups|
  {
    || (exists j :: 0 <= j < i && groups[j].0 == RECEITA && receitas == groups[j].1
                   && forall k :: j < k < i ==> groups[k].0 != RECEITA)
    || (receitas == 0.0 && forall j :: 0 <= j < i ==> groups[j].0 != RECEITA)
  }

  /** What the loop keeps for expense: the last non-'Receita' group seen, or 0 when none was seen. */
  ghost predicate ExpenseSoFar(groups: seq<(string, real)>, i: int, despesas: real)
    requires 0 <= i <= |groups|
  {
    || (exists j :: 0 <= j < i && groups[j].0 != RECEITA && despesas == groups[j].1
                   && forall k :: j < k < i ==> groups[k].0 == RECEITA)
    || (despesas == 0.0 && forall j :: 0 <= j < i ==> groups[j].0 == RECEITA)
  }

  lemma IncomeOfGroups(ts: seq<Transaction>, m: int, y: int, receitas: real)
    requires var g := GroupBy(PeriodRows(ts, m, y), TipoColumn); IncomeSoFar(g, |g|, receitas)
    ensures receitas == PeriodIncome(ts, m, y)
  {
    var rows := PeriodRows(ts, m, y);
    var g := GroupBy(rows, TipoColumn);
    if j :| 0 <= j < |g| && g[j].0 == RECEITA && receitas == g[j].1
            && forall k :: j < k < |g| ==> g[k].0 != RECEITA {
      assert g[j].1 == Total(Where(rows, TipoColumn, RECEITA));
    } else {
      forall t | t in ts && InPeriod(t, m, y) ensures t.tipo != RECEITA {
        assert t in rows;
        var j := GroupForKey(rows, TipoColumn, t);
      }
      PeriodTotalNoRows(ts, RECEITA, m, y);
    }
  }

  lemma ExpenseOfGroups(ts: seq<Transaction>, m: int, y: int, despesas: real)
    requires var g := GroupBy(PeriodRows(ts, m, y), TipoColumn); ExpenseSoFar(g, |g|, despesas)
    ensures (forall t :: t in ts && InPeriod(t, m, y) ==> t.tipo == RECEITA || t.tipo == DESPESA)
            ==> despesas == PeriodExpense(ts, m, y)
    ensures (forall t :: t in ts && InPeriod(t, m, y) ==> t.tipo == RECEITA) ==> despesas == 0.0
    ensures (exists t :: t in ts && InPeriod(t, m, y) && t.tipo != RECEITA)
            ==> exists t :: t in ts && InPeriod(t, m, y) && t.tipo != RECEITA
                            && despesas == PeriodTipoTotal(ts, t.tipo, m, y)
  {
    var rows := PeriodRows(ts, m, y);
    var g := GroupBy(rows, TipoColumn);
    if j :| 0 <= j < |g| && g[j].0 != RECEITA && despesas == g[j].1
            && forall k :: j < k < |g| ==> g[k].0 == RECEITA {
      var t := GroupKeyOccurs(rows, TipoColumn, j);
      assert t in ts && InPeriod(t, m, y) && t.tipo != RECEITA;
    } else {
      forall t | t in ts && InPeriod(t, m, y) ensures t.tipo == RECEITA {
        assert t in rows;
        var j := GroupForKey(rows, TipoColumn, t);
      }
      PeriodTotalNoRows(ts, DESPESA, m, y);
    }
  }

  /**
   * The loop of the dashboard: the 'Receita' group's total becomes income
   * and any other group's total becomes expense, a later group overwriting
   * an earlier one; both start at 0.
   */
  method TotalsOfGroups(groups: seq<(string, real)>) returns (receitas: real, despesas: real)
    ensures IncomeSoFar(groups, |groups|, receitas)
    ensures ExpenseSoFar(groups, |groups|, despesas)
  {
    receitas, despesas := 0.0, 0.0;
    for i := 0 to |groups|
      invariant IncomeSoFar(groups, i, receitas)
      invariant ExpenseSoFar(groups, i, despesas)
    {
      if groups[i].0 == RECEITA {
        receitas := groups[i].1;
      } else {
        despesas := groups[i].1;
      }
    }
  }

  /**
   * The dashboard totals for month `m` of year `y`: walks the `GROUP BY tipo`
   * rows of the period, taking the 'Receita' group as income and any other
   * group as expense, then sets the balance. Income is always the period's
   * 'Receita' total; when the period holds only 'Receita' and 'Despesa'
   * rows, expense is its 'Despesa' total; otherwise expense is the total of
   * one of its non-'Receita' kinds (which one depends on the group order).
   */
  method PeriodSummary(ts: seq<Transaction>, m: int, y: int) returns (resumo: Summary)
    ensures resumo.receitas == PeriodIncome(ts, m, y)
    ensures resumo.saldo == resumo.receitas - resumo.despesas
    ensures (forall t :: t in ts && InPeriod(t, m, y) ==> t.tipo == RECEITA || t.tipo == DESPESA)
            ==> resumo.despesas == PeriodExpense(ts, m, y)
    ensures (forall t :: t in ts && InPeriod(t, m, y) ==> t.tipo == RECEITA) ==> resumo.despesas == 0.0
    ensures (exists t :: t in ts && InPeriod(t, m, y) && t.tipo != RECEITA)
            ==> exists t :: t in ts && InPeriod(t, m, y) && t.tipo != RECEITA
                            && resumo.despesas == PeriodTipoTotal(ts, t.tipo, m, y)
  {
    var groups := GroupBy(PeriodRows(ts, m, y), TipoColumn);
    var receitas, despesas := TotalsOfGroups(groups);
    resumo := Summary(receitas, despesas, receitas - despesas);
    IncomeOfGroups(ts, m, y, receitas);
    ExpenseOfGroups(ts, m, y, despesas);
  }

  /** The listing page's optional query-string filters. */
  datatype Filter = Filter(
    tipo: Option<string>,
    categoria: Option<string>,
    dataInicio: Option<Date>,
    dataFim: Option<Date>)

  /** `if tipo:` — a parameter counts only when present and non-empty. */
  predicate Supplied(o: Option<string>) {
    o.Some? && o.value != ""
  }

  /** The intended meaning of the filters: each supplied one narrows, dates inclusive. */
  predicate Matches(f: Filter, t: Transaction) {
    && (Supplied(f.tipo) ==> t.tipo == f.tipo.value)
    && (Supplied(f.categoria) ==> t.categoria == f.categoria.value)
    && (f.dataInicio.Some? ==> DateLe(f.dataInicio.value, t.data))
    && (f.dataFim.Some? ==> DateLe(t.data, f.dataFim.value))
  }

  function SuppliedCount(f: Filter): nat {
    (if Supplied(f.tipo) then 1 else 0) + (if Supplied(f.categoria) then 1 else 0)
    + (if f.dataInicio.Some? then 1 else 0) + (if f.dataFim.Some? then 1 else 0)
  }

  /**
   * Builds the listing query's `AND` clauses one supplied filter at a time:
   * one clause per supplied filter, and a row meets them all exactly when
   * it meets every supplied filter (AND semantics, absent filters impose
   * nothing).
   */
  method BuildConditions(f: Filter) returns (cs: seq<Condition>)
    ensures |cs| == SuppliedCount(f)
    ensures forall t :: HoldsAll(cs, t) <==> Matches(f, t)
  {
    cs := [];
    if Supplied(f.tipo) {
      cs := cs + [TipoIs(f.tipo.value)];
    }
    if Supplied(f.categoria) {
      cs := cs + [CategoriaIs(f.categoria.value)];
    }
    if f.dataInicio.Some? {
      cs := cs + [DataFrom(f.dataInicio.value)];
    }
    if f.dataFim.Some? {
      cs := cs + [DataTo(f.dataFim.value)];
    }
    forall t ensures HoldsAll(cs, t) <==> Matches(f, t) {
      if HoldsAll(cs, t) {
        var i := 0;
        if Supplied(f.tipo) { assert Holds(cs[i], t); i := i + 1; }
        if Supplied(f.categoria) { assert Holds(cs[i], t); i := i + 1; }
        if f.dataInicio.Some? { assert Holds(cs[i], t); i := i + 1; }
        if f.dataFim.Some? { assert Holds(cs[i], t); }
      }
    }
  }

  /**
   * The listing page: the clauses of the supplied filters, then the rows
   * meeting them, newest first and, on one date, highest id first.
   */
  method TransactionsPage(ts: seq<Transaction>, f: Filter) returns (rows: seq<Transaction>)
    ensures forall t :: t in rows <==> t in ts && Matches(f, t)
    ensures forall t :: multiset(rows)[t] == if Matches(f, t) then multiset(ts)[t] else 0
    ensures Sorting.SortedBy(rows, NewerFirst)
  {
    var cs := BuildConditions(f);
    rows := ListTransactions(ts, cs);
    ListTransactionsMeaning(ts, cs);
    forall t ensures multiset(rows)[t] == if Matches(f, t) then multiset(ts)[t] else 0 {
      MatchingCount(ts, cs, t);
    }
  }

  /**
   * The category page's statistics: for every registered category, the
   * number and the total of its rows over the whole ledger.
   */
  method CategoryStatistics(categorias: seq<string>, ts: seq<Transaction>)
    returns (stats: map<string, CategoryStat>)
    ensures stats.Keys == set c | c in categorias
    ensures forall c :: c in stats ==> stats[c] == StatOf(ts, c)
  {
    stats := map[];
    for i := 0 to |categorias|
      invariant stats.Keys == set c | c in categorias[..i]
      invariant forall c :: c in stats ==> stats[c] == StatOf(ts, c)
    {
      var nome := categorias[i];
      var rows := Where(ts, CategoriaColumn, nome);
      stats := stats[nome := CategoryStat(|rows|, Total(rows))];
      assert categorias[..i + 1] == categorias[..i] + [nome];
    }
    assert categorias[..|categorias|] == categorias;
  }
}
