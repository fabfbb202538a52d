/**
 * The read side of the ledger: the SQL aggregates (SUM, COUNT, GROUP BY,
 * correlated sub-selects, ORDER BY) of the dashboard, budget, goal,
 * category and listing pages and of the summary, as functions over the
 * table contents, with the lemmas that say what they compute.
 */
module Queries {
  import opened Dates
  import opened Records
  import Sorting

  // ---------------------------------------------------------------------------
  // Filters and sums

  /** `strftime('%m', data) = mm AND strftime('%Y', data) = yyyy`: the row falls in month `m` of year `y`. */
  predicate InPeriod(t: Transaction, m: int, y: int) {
    t.data.month == m && t.data.year == y
  }

  /** The rows of the period, in table order. */
  function PeriodRows(ts: seq<Transaction>, m: int, y: int): (r: seq<Transaction>)
    ensures |r| <= |ts|
    ensures forall t :: t in r <==> t in ts && InPeriod(t, m, y)
  {
    if ts == [] then []
    else (if InPeriod(ts[0], m, y) then [ts[0]] else []) + PeriodRows(ts[1..], m, y)
  }

  /** The two text columns the queries compare with `=` or group by. */
  datatype Column = TipoColumn | CategoriaColumn

  function Key(t: Transaction, col: Column): string {
    match col
    case TipoColumn => t.tipo
    case CategoriaColumn => t.categoria
  }

  /** `WHERE col = k`, in table order. */
  function Where(ts: seq<Transaction>, col: Column, k: string): (r: seq<Transaction>)
    ensures |r| <= |ts|
    ensures forall t :: t in r <==> t in ts && Key(t, col) == k
  {
    if ts == [] then []
    else (if Key(ts[0], col) == k then [ts[0]] else []) + Where(ts[1..], col, k)
  }

  /** `WHERE col <> k`, in table order. */
  function Without(ts: seq<Transaction>, col: Column, k: string): (r: seq<Transaction>)
    ensures |r| <= |ts|
    ensures forall t :: t in r <==> t in ts && Key(t, col) != k
  {
    if ts == [] then []
    else (if Key(ts[0], col) != k then [ts[0]] else []) + Without(ts[1..], col, k)
  }

  /** `COALESCE(SUM(valor), 0)`: the sum of the amounts, 0 for no rows. */
  function Total(ts: seq<Transaction>): real {
    if ts == [] then 0.0 else ts[0].valor + Total(ts[1..])
  }

  lemma {:induction false} TotalAppend(a: seq<Transaction>, b: seq<Transaction>)
    ensures Total(a + b) == Total(a) + Total(b)
  {
    if a == [] {
      assert a + b == b;
    } else {
      assert (a + b)[0] == a[0] && (a + b)[1..] == a[1..] + b;
      TotalAppend(a[1..], b);
    }
  }

  /** A filter that keeps nothing yields the empty sequence, hence a total of 0. */
  lemma EmptyWhere(ts: seq<Transaction>, col: Column, k: string)
    requires forall t :: t in ts ==> Key(t, col) != k
    ensures Where(ts, col, k) == [] && Total(Where(ts, col, k)) == 0.0
  {
  }

  lemma {:induction false} PeriodRowsAppend(a: seq<Transaction>, b: seq<Transaction>, m: int, y: int)
    ensures PeriodRows(a + b, m, y) == PeriodRows(a, m, y) + PeriodRows(b, m, y)
  {
    if a == [] {
      assert a + b == b;
    } else {
      assert (a + b)[0] == a[0] && (a + b)[1..] == a[1..] + b;
      PeriodRowsAppend(a[1..], b, m, y);
    }
  }

  lemma {:induction false} WhereAppend(a: seq<Transaction>, b: seq<Transaction>, col: Column, k: string)
    ensures Where(a + b, col, k) == Where(a, col, k) + Where(b, col, k)
  {
    if a == [] {
      assert a + b == b;
    } else {
      var ab := a + b;
      assert ab[0] == a[0];
      assert ab[1..] == a[1..] + b;
      WhereAppend(a[1..], b, col, k);
    }
  }

  /** Every row goes to exactly one side of `col = k`, so the two sides' totals add up. */
  lemma {:induction false} TotalSplit(ts: seq<Transaction>, col: Column, k: string)
    ensures Total(ts) == Total(Where(ts, col, k)) + Total(Without(ts, col, k))
  {
    if ts != [] {
      TotalSplit(ts[1..], col, k);
      var w, o := Where(ts[1..], col, k), Without(ts[1..], col, k);
      if Key(ts[0], col) == k {
        assert Where(ts, col, k) == [ts[0]] + w && Without(ts, col, k) == o;
      } else {
        assert Where(ts, col, k) == w && Without(ts, col, k) == [ts[0]] + o;
      }
    }
  }

  /** Removing the rows of one key does not change the rows of another. */
  lemma {:induction false} WhereOfWithout(ts: seq<Transaction>, col: Column, k: string, other: string)
    requires k != other
    ensures Where(Without(ts, col, other), col, k) == Where(ts, col, k)
  {
    if ts != [] {
      WhereOfWithout(ts[1..], col, k, other);
      var o := Without(ts[1..], col, other);
      if Key(ts[0], col) != other {
        assert Without(ts, col, other) == [ts[0]] + o;
        assert ([ts[0]] + o)[0] == ts[0] && ([ts[0]] + o)[1..] == o;
      } else {
        assert Without(ts, col, other) == o;
      }
    }
  }

  // ---------------------------------------------------------------------------
  // GROUP BY

  /** The distinct keys of `col` among the rows, in order of first appearance. */
  function GroupKeys(ts: seq<Transaction>, col: Column): seq<string>
    decreases |ts|
  {
    if ts == [] then []
    else
      var k := Key(ts[0], col);
      [k] + GroupKeys(Without(ts[1..], col, k), col)
  }

  /** `SUM(valor)` of the rows of each key, paired with the key. */
  function Aggregate(ts: seq<Transaction>, col: Column, keys: seq<string>): (g: seq<(string, real)>)
    ensures |g| == |keys|
    ensures forall i :: 0 <= i < |keys| ==> g[i] == (keys[i], Total(Where(ts, col, keys[i])))
  {
    if keys == [] then []
    else [(keys[0], Total(Where(ts, col, keys[0])))] + Aggregate(ts, col, keys[1..])
  }

  /**
   * `SELECT col, SUM(valor) ... GROUP BY col`: one (key, total) pair per
   * distinct key, in order of first appearance.
   */
  function GroupBy(ts: seq<Transaction>, col: Column): seq<(string, real)> {
    Aggregate(ts, col, GroupKeys(ts, col))
  }

  /** The sum of the totals of a grouped result. */
  function SumTotals(g: seq<(string, real)>): real {
    if g == [] then 0.0 else g[0].1 + SumTotals(g[1..])
  }

  /** Some row has key `k` in column `col`. */
  predicate KeyOccurs(ts: seq<Transaction>, col: Column, k: string) {
    exists t :: t in ts && Key(t, col) == k
  }

  /** Every group's key occurs among the rows: `t` is a row with that key. */
  lemma {:induction false} GroupKeyOccurs(ts: seq<Transaction>, col: Column, i: nat) returns (t: Transaction)
    requires i < |GroupKeys(ts, col)|
    ensures t in ts && Key(t, col) == GroupKeys(ts, col)[i]
    decreases |ts|
  {
    var k := Key(ts[0], col);
    var w := Without(ts[1..], col, k);
    if i == 0 {
      t := ts[0];
    } else {
      t := GroupKeyOccurs(w, col, i - 1);
      assert t in ts[1..];
    }
  }

  /** Every key that occurs among the rows has a group. */
  lemma {:induction false} GroupForKey(ts: seq<Transaction>, col: Column, t: Transaction) returns (i: nat)
    requires t in ts
    ensures i < |GroupKeys(ts, col)| && GroupKeys(ts, col)[i] == Key(t, col)
    decreases |ts|
  {
    var k := Key(ts[0], col);
    if Key(t, col) == k {
      i := 0;
    } else {
      var w := Without(ts[1..], col, k);
      assert t != ts[0];
      assert t in ts[1..];
      var j := GroupForKey(w, col, t);
      i := j + 1;
    }
  }

  /** No value appears twice. */
  predicate Distinct<T(==)>(s: seq<T>) {
    forall i, j :: 0 <= i < j < |s| ==> s[i] != s[j]
  }

  /** No key has two groups. */
  lemma {:induction false} GroupKeysDistinct(ts: seq<Transaction>, col: Column)
    ensures Distinct(GroupKeys(ts, col))
    decreases |ts|
  {
    if ts != [] {
      var k := Key(ts[0], col);
      var w := Without(ts[1..], col, k);
      var rest := GroupKeys(w, col);
      GroupKeysDistinct(w, col);
      forall x | x in rest ensures x != k {
        var i :| 0 <= i < |rest| && rest[i] == x;
        var t := GroupKeyOccurs(w, col, i);
      }
      ConsDistinct(k, rest);
    }
  }

  /** A value not among distinct values may go in front of them. */
  lemma ConsDistinct<T>(k: T, rest: seq<T>)
    requires Distinct(rest) && k !in rest
    ensures Distinct([k] + rest)
  {
    var s := [k] + rest;
    forall i, j | 0 <= i < j < |s| ensures s[i] != s[j] {
      assert s[j] == rest[j - 1];
      if i > 0 {
        assert s[i] == rest[i - 1];
      }
    }
  }

  /** The groups are exactly the keys that occur among the rows, each once. */
  lemma GroupByKeys(ts: seq<Transaction>, col: Column)
    ensures var g := GroupBy(ts, col);
            && (forall i :: 0 <= i < |g| ==> KeyOccurs(ts, col, g[i].0))
            && (forall t :: t in ts ==> exists i :: 0 <= i < |g| && g[i].0 == Key(t, col))
            && (forall i, j :: 0 <= i < j < |g| ==> g[i].0 != g[j].0)
  {
    var g := GroupBy(ts, col);
    forall i | 0 <= i < |g| ensures KeyOccurs(ts, col, g[i].0) {
      var t := GroupKeyOccurs(ts, col, i);
    }
    forall t | t in ts ensures exists i :: 0 <= i < |g| && g[i].0 == Key(t, col) {
      var i := GroupForKey(ts, col, t);
    }
    GroupKeysDistinct(ts, col);
  }

  /** Totals over keys that all select the same rows in `a` and in `b` agree. */
  lemma {:induction false} AggregateAgree(a: seq<Transaction>, b: seq<Transaction>, col: Column, keys: seq<string>)
    requires forall i :: 0 <= i < |keys| ==> Where(a, col, keys[i]) == Where(b, col, keys[i])
    ensures SumTotals(Aggregate(a, col, keys)) == SumTotals(Aggregate(b, col, keys))
  {
    if keys != [] {
      AggregateAgree(a, b, col, keys[1..]);
      assert Aggregate(a, col, keys)[1..] == Aggregate(a, col, keys[1..]);
      assert Aggregate(b, col, keys)[1..] == Aggregate(b, col, keys[1..]);
    }
  }

  /** The group totals add up to the total of all rows. */
  lemma {:induction false} GroupByTotal(ts: seq<Transaction>, col: Column)
    ensures SumTotals(GroupBy(ts, col)) == Total(ts)
    decreases |ts|
  {
    if ts != [] {
      var k := Key(ts[0], col);
      var w := Without(ts[1..], col, k);
      var rest := GroupKeys(w, col);
      var keys := GroupKeys(ts, col);
      assert keys == [k] + rest;
      GroupByTotal(w, col);
      forall i | 0 <= i < |rest| ensures Where(ts, col, rest[i]) == Where(w, col, rest[i]) {
        WhereAfterFirstKey(ts, col, rest[i], w);
      }
      AggregateAgree(ts, w, col, rest);
      var g := Aggregate(ts, col, keys);
      assert g[0].1 == Total(Where(ts, col, k));
      assert g[1..] == Aggregate(ts, col, rest);
      assert Without(ts, col, k) == w;
      TotalSplit(ts, col, k);
    }
  }

  /** A key found among the rows of other keys than the first row's selects the same rows there. */
  lemma WhereAfterFirstKey(ts: seq<Transaction>, col: Column, key: string, w: seq<Transaction>)
    requires ts != [] && w == Without(ts[1..], col, Key(ts[0], col))
    requires exists i :: 0 <= i < |GroupKeys(w, col)| && GroupKeys(w, col)[i] == key
    ensures Where(ts, col, key) == Where(w, col, key)
  {
    var k := Key(ts[0], col);
    var i :| 0 <= i < |GroupKeys(w, col)| && GroupKeys(w, col)[i] == key;
    var t := GroupKeyOccurs(w, col, i);
    assert key != k;
    WhereOfWithout(ts[1..], col, key, k);
    assert Where(ts, col, key) == Where(ts[1..], col, key);
  }

  // ---------------------------------------------------------------------------
  // Period aggregates of the dashboard

  /** The total of the period's rows whose `tipo` is 'Receita'. */
  function PeriodIncome(ts: seq<Transaction>, m: int, y: int): real {
    Total(Where(PeriodRows(ts, m, y), TipoColumn, RECEITA))
  }

  /** The total of the period's rows whose `tipo` is 'Despesa'. */
  function PeriodExpense(ts: seq<Transaction>, m: int, y: int): real {
    Total(Where(PeriodRows(ts, m, y), TipoColumn, DESPESA))
  }

  /** The period's total for one `tipo`: what the `GROUP BY tipo` group of that key holds. */
  function PeriodTipoTotal(ts: seq<Transaction>, tipo: string, m: int, y: int): real {
    Total(Where(PeriodRows(ts, m, y), TipoColumn, tipo))
  }

  /** With no row of that `tipo` in the period, the period total is 0. */
  lemma PeriodTotalNoRows(ts: seq<Transaction>, tipo: string, m: int, y: int)
    requires forall t :: t in ts && InPeriod(t, m, y) ==> t.tipo != tipo
    ensures PeriodTipoTotal(ts, tipo, m, y) == 0.0
  {
    EmptyWhere(PeriodRows(ts, m, y), TipoColumn, tipo);
  }

  /**
   * Appending a row moves the period income by its amount exactly when it
   * is an income row of the period, and the period expense likewise.
   */
  lemma PeriodTotalsAppend(ts: seq<Transaction>, t: Transaction, m: int, y: int)
    ensures PeriodIncome(ts + [t], m, y)
            == PeriodIncome(ts, m, y) + (if InPeriod(t, m, y) && t.tipo == RECEITA then t.valor else 0.0)
    ensures PeriodExpense(ts + [t], m, y)
            == PeriodExpense(ts, m, y) + (if InPeriod(t, m, y) && t.tipo == DESPESA then t.valor else 0.0)
  {
    PeriodRowsAppend(ts, [t], m, y);
    var p := PeriodRows(ts, m, y);
    var q := PeriodRows([t], m, y);
    assert q == if InPeriod(t, m, y) then [t] else [];
    WhereAppend(p, q, TipoColumn, RECEITA);
    WhereAppend(p, q, TipoColumn, DESPESA);
    TotalAppend(Where(p, TipoColumn, RECEITA), Where(q, TipoColumn, RECEITA));
    TotalAppend(Where(p, TipoColumn, DESPESA), Where(q, TipoColumn, DESPESA));
  }

  /** Per-category expense of the period: `GROUP BY categoria` over its 'Despesa' rows. */
  function ExpenseByCategory(ts: seq<Transaction>, m: int, y: int): seq<(string, real)> {
    GroupBy(Where(PeriodRows(ts, m, y), TipoColumn, DESPESA), CategoriaColumn)
  }

  /**
   * Consumption of category `c` in the period: the correlated sub-select of
   * the budget queries, the total of the period's 'Despesa' rows of `c`.
   */
  function Consumption(ts: seq<Transaction>, c: string, m: int, y: int): real {
    Total(Where(Where(PeriodRows(ts, m, y), TipoColumn, DESPESA), CategoriaColumn, c))
  }

  /** A 'Despesa' row of category `c` in month `m` of year `y`. */
  predicate ExpenseOf(t: Transaction, c: string, m: int, y: int) {
    InPeriod(t, m, y) && t.tipo == DESPESA && t.categoria == c
  }

  /**
   * The per-category expense lists each category with at least one expense
   * in the period, once, with that category's consumption, and its values
   * add up to the period expense.
   */
  lemma ExpenseByCategoryMeaning(ts: seq<Transaction>, m: int, y: int)
    ensures var g := ExpenseByCategory(ts, m, y);
            && (forall i :: 0 <= i < |g| ==> g[i].1 == Consumption(ts, g[i].0, m, y))
            && (forall i, j :: 0 <= i < j < |g| ==> g[i].0 != g[j].0)
            && (forall i :: 0 <= i < |g| ==> exists t :: t in ts && ExpenseOf(t, g[i].0, m, y))
            && (forall t :: t in ts && InPeriod(t, m, y) && t.tipo == DESPESA ==>
                  exists i :: 0 <= i < |g| && g[i].0 == t.categoria)
            && SumTotals(g) == PeriodExpense(ts, m, y)
  {
    var e := Where(PeriodRows(ts, m, y), TipoColumn, DESPESA);
    var g := ExpenseByCategory(ts, m, y);
    GroupByKeys(e, CategoriaColumn);
    GroupByTotal(e, CategoriaColumn);
    forall i | 0 <= i < |g| ensures g[i].1 == Consumption(ts, g[i].0, m, y) {
    }
    forall t | t in ts && InPeriod(t, m, y) && t.tipo == DESPESA
      ensures exists i :: 0 <= i < |g| && g[i].0 == t.categoria
    {
      assert t in e && Key(t, CategoriaColumn) == t.categoria;
    }
  }

  /** With no 'Despesa' row of `c` in the period, the consumption is 0. */
  lemma ConsumptionNoRows(ts: seq<Transaction>, c: string, m: int, y: int)
    requires forall t :: t in ts ==> !ExpenseOf(t, c, m, y)
    ensures Consumption(ts, c, m, y) == 0.0
  {
    EmptyWhere(Where(PeriodRows(ts, m, y), TipoColumn, DESPESA), CategoriaColumn, c);
  }

  /**
   * Appending a row moves the consumption of `c` by its amount exactly when
   * it is a 'Despesa' of `c` in the period: income never counts.
   */
  lemma ConsumptionAppend(ts: seq<Transaction>, t: Transaction, c: string, m: int, y: int)
    ensures Consumption(ts + [t], c, m, y)
            == Consumption(ts, c, m, y) + (if ExpenseOf(t, c, m, y) then t.valor else 0.0)
  {
    PeriodRowsAppend(ts, [t], m, y);
    var p := PeriodRows(ts, m, y);
    var q := PeriodRows([t], m, y);
    assert q == if InPeriod(t, m, y) then [t] else [];
    WhereAppend(p, q, TipoColumn, DESPESA);
    var pe, qe := Where(p, TipoColumn, DESPESA), Where(q, TipoColumn, DESPESA);
    assert qe == if InPeriod(t, m, y) && t.tipo == DESPESA then [t] else [];
    WhereAppend(pe, qe, CategoriaColumn, c);
    TotalAppend(Where(pe, CategoriaColumn, c), Where(qe, CategoriaColumn, c));
  }

  // ---------------------------------------------------------------------------
  // Budgets

  /** A budget row of the period with its consumption (`valor_atual`). */
  datatype BudgetStatus = BudgetStatus(id: int, categoria: string, valorLimite: real, valorAtual: real)

  function StatusOfBudget(b: Budget, ts: seq<Transaction>): BudgetStatus {
    BudgetStatus(b.id, b.categoria, b.valorLimite, Consumption(ts, b.categoria, b.mes, b.ano))
  }

  /**
   * `SELECT ... FROM orcamentos o WHERE mes = ? AND ano = ?` with the
   * consumption sub-select: exactly the budgets of the period, in table
   * order, each with its category's consumption in that period.
   */
  function BudgetsForPeriod(bs: seq<Budget>, ts: seq<Transaction>, m: int, y: int): (r: seq<BudgetStatus>)
    ensures |r| <= |bs|
    ensures forall b :: b in bs && b.mes == m && b.ano == y ==> StatusOfBudget(b, ts) in r
    ensures forall s :: s in r ==> exists b :: b in bs && b.mes == m && b.ano == y && s == StatusOfBudget(b, ts)
    ensures forall s :: s in r ==> s.valorAtual == Consumption(ts, s.categoria, m, y)
  {
    if bs == [] then []
    else
      (if bs[0].mes == m && bs[0].ano == y then [StatusOfBudget(bs[0], ts)] else [])
      + BudgetsForPeriod(bs[1..], ts, m, y)
  }

  /** With the table's ids unique, no period budget is listed twice. */
  lemma {:induction false} BudgetsForPeriodDistinct(bs: seq<Budget>, ts: seq<Transaction>, m: int, y: int)
    requires forall i, j :: 0 <= i < j < |bs| ==> bs[i].id != bs[j].id
    ensures Distinct(BudgetsForPeriod(bs, ts, m, y))
  {
    if bs != [] {
      var rest := BudgetsForPeriod(bs[1..], ts, m, y);
      forall i, j | 0 <= i < j < |bs[1..]| ensures bs[1..][i].id != bs[1..][j].id {
        assert bs[1..][i] == bs[i + 1] && bs[1..][j] == bs[j + 1];
      }
      BudgetsForPeriodDistinct(bs[1..], ts, m, y);
      if bs[0].mes == m && bs[0].ano == y {
        var s0 := StatusOfBudget(bs[0], ts);
        forall x | x in rest ensures x != s0 {
          var b :| b in bs[1..] && b.mes == m && b.ano == y && x == StatusOfBudget(b, ts);
          var k :| 0 <= k < |bs[1..]| && bs[1..][k] == b;
          assert b == bs[k + 1];
        }
        ConsDistinct(s0, rest);
      }
    }
  }

  // ---------------------------------------------------------------------------
  // Goals

  const CONCLUIDA: string := "Concluída"
  const EM_ANDAMENTO: string := "Em Andamento"

  /** `CASE WHEN valor_atual >= valor_alvo THEN 'Concluída' ELSE 'Em Andamento' END`. */
  function GoalStatusText(g: Goal): (s: string)
    ensures s == CONCLUIDA <==> g.valorAtual >= g.valorAlvo
    ensures s == CONCLUIDA || s == EM_ANDAMENTO
  {
    if g.valorAtual >= g.valorAlvo then CONCLUIDA else EM_ANDAMENTO
  }

  /** A goal as the goal pages read it: the row and its derived status. */
  datatype GoalView = GoalView(goal: Goal, status: string)

  function WithStatus(gs: seq<Goal>): (r: seq<GoalView>)
    ensures |r| == |gs|
    ensures forall i :: 0 <= i < |gs| ==> r[i] == GoalView(gs[i], GoalStatusText(gs[i]))
  {
    if gs == [] then [] else [GoalView(gs[0], GoalStatusText(gs[0]))] + WithStatus(gs[1..])
  }

  /** `ORDER BY data_fim ASC`. */
  predicate EndsNoLater(a: GoalView, b: GoalView) {
    DateLe(a.goal.dataFim, b.goal.dataFim)
  }

  /** The goal listing: every goal with its status, earliest deadline first. */
  function GoalsView(gs: seq<Goal>): seq<GoalView> {
    Sorting.Sort(WithStatus(gs), EndsNoLater)
  }

  lemma DateLeTotalPreorder()
    ensures forall a, b :: DateLe(a, b) || DateLe(b, a)
    ensures forall a, b, c :: DateLe(a, b) && DateLe(b, c) ==> DateLe(a, c)
    ensures forall a, b :: DateLe(a, b) && DateLe(b, a) ==> a == b
  {
  }

  /**
   * The goal listing holds every goal once, ordered by deadline, and a
   * goal reads as 'Concluída' exactly when its current amount reaches its
   * target.
   */
  lemma GoalsViewMeaning(gs: seq<Goal>)
    ensures var r := GoalsView(gs);
            && multiset(r) == multiset(WithStatus(gs))
            && Sorting.SortedBy(r, EndsNoLater)
            && (forall v :: v in r ==> v.goal in gs)
            && (forall g :: g in gs ==> GoalView(g, GoalStatusText(g)) in r)
            && (forall v :: v in r ==> (v.status == CONCLUIDA <==> v.goal.valorAtual >= v.goal.valorAlvo))
  {
    DateLeTotalPreorder();
    assert Sorting.TotalPreorder(EndsNoLater);
    Sorting.SortSorted(WithStatus(gs), EndsNoLater);
    var w := WithStatus(gs);
    var r := GoalsView(gs);
    forall v | v in r ensures v.goal in gs && v == GoalView(v.goal, GoalStatusText(v.goal)) {
      assert v in multiset(w);
      var i :| 0 <= i < |w| && w[i] == v;
      assert gs[i] == v.goal;
    }
    forall g | g in gs ensures GoalView(g, GoalStatusText(g)) in r {
      var i :| 0 <= i < |gs| && gs[i] == g;
      assert w[i] in multiset(r);
    }
  }

  // ---------------------------------------------------------------------------
  // Listing

  /** One `AND` clause of the listing query. */
  datatype Condition =
    | TipoIs(tipo: string)          // AND tipo = ?
    | CategoriaIs(categoria: string) // AND categoria = ?
    | DataFrom(inicio: Date)        // AND data >= ?
    | DataTo(fim: Date)             // AND data <= ?

  predicate Holds(c: Condition, t: Transaction) {
    match c
    case TipoIs(k) => t.tipo == k
    case CategoriaIs(k) => t.categoria == k
    case DataFrom(d) => DateLe(d, t.data)
    case DataTo(d) => DateLe(t.data, d)
  }

  /** `WHERE 1=1 AND ...`: every clause holds. */
  predicate HoldsAll(cs: seq<Condition>, t: Transaction) {
    forall i :: 0 <= i < |cs| ==> Holds(cs[i], t)
  }

  function Matching(ts: seq<Transaction>, cs: seq<Condition>): (r: seq<Transaction>)
    ensures |r| <= |ts|
    ensures forall t :: t in r <==> t in ts && HoldsAll(cs, t)
  {
    if ts == [] then []
    else (if HoldsAll(cs, ts[0]) then [ts[0]] else []) + Matching(ts[1..], cs)
  }

  /** A row meeting the clauses is kept as often as it is stored; any other row not at all. */
  lemma {:induction false} MatchingCount(ts: seq<Transaction>, cs: seq<Condition>, t: Transaction)
    ensures multiset(Matching(ts, cs))[t] == if HoldsAll(cs, t) then multiset(ts)[t] else 0
  {
    if ts != [] {
      MatchingCount(ts[1..], cs, t);
      var head := if HoldsAll(cs, ts[0]) then [ts[0]] else [];
      assert Matching(ts, cs) == head + Matching(ts[1..], cs);
      assert ts == [ts[0]] + ts[1..];
      assert multiset(ts) == multiset{ts[0]} + multiset(ts[1..]);
    }
  }

  /** `ORDER BY data DESC, id DESC`: `a` may come before `b`. */
  predicate NewerFirst(a: Transaction, b: Transaction) {
    DateLe(b.data, a.data) && (a.data == b.data ==> a.id >= b.id)
  }

  /** `ORDER BY data DESC` alone. */
  predicate LaterFirst(a: Transaction, b: Transaction) {
    DateLe(b.data, a.data)
  }

  lemma OrdersArePreorders()
    ensures Sorting.TotalPreorder(NewerFirst)
    ensures Sorting.TotalPreorder(LaterFirst)
  {
    DateLeTotalPreorder();
  }

  /** The `id` column is a key of the rows: two rows with one id are the same row. */
  ghost predicate IdIsKey(ts: seq<Transaction>) {
    forall a, b :: a in ts && b in ts && a.id == b.id ==> a == b
  }

  /** The listing page: the rows meeting every clause, newest first, ties by id descending. */
  function ListTransactions(ts: seq<Transaction>, cs: seq<Condition>): seq<Transaction> {
    Sorting.Sort(Matching(ts, cs), NewerFirst)
  }

  /**
   * The listing holds exactly the rows that meet every clause, each as
   * often as in the table, newest first; and when `id` is a key it is the
   * only arrangement of those rows in that order.
   */
  lemma ListTransactionsMeaning(ts: seq<Transaction>, cs: seq<Condition>)
    ensures var r := ListTransactions(ts, cs);
            && (forall t :: t in r <==> t in ts && HoldsAll(cs, t))
            && multiset(r) == multiset(Matching(ts, cs))
            && Sorting.SortedBy(r, NewerFirst)
  {
    OrdersArePreorders();
    Sorting.SortSorted(Matching(ts, cs), NewerFirst);
    var r := ListTransactions(ts, cs);
    forall t ensures t in r <==> t in Matching(ts, cs) {
      assert t in r <==> t in multiset(r);
      assert t in Matching(ts, cs) <==> t in multiset(Matching(ts, cs));
    }
  }

  lemma ListTransactionsDeterminate(ts: seq<Transaction>, cs: seq<Condition>, s: seq<Transaction>)
    requires IdIsKey(ts)
    requires multiset(s) == multiset(Matching(ts, cs)) && Sorting.SortedBy(s, NewerFirst)
    ensures s == ListTransactions(ts, cs)
  {
    var r := ListTransactions(ts, cs);
    ListTransactionsMeaning(ts, cs);
    DateLeTotalPreorder();
    forall i, j | 0 <= i < |s| && 0 <= j < |s| && NewerFirst(s[i], s[j]) && NewerFirst(s[j], s[i])
      ensures s[i] == s[j]
    {
      assert s[i] in multiset(s) && s[j] in multiset(s);
      assert s[i] in Matching(ts, cs) && s[j] in Matching(ts, cs);
    }
    Sorting.SortedUnique(s, r, NewerFirst);
  }

  /** The dashboard's "latest transactions": the first five rows of the full listing. */
  function Recent(ts: seq<Transaction>): (r: seq<Transaction>)
    ensures |r| == if |ts| < 5 then |ts| else 5
    ensures |r| <= |ListTransactions(ts, [])| && r == ListTransactions(ts, [])[..|r|]
  {
    var all := ListTransactions(ts, []);
    ListingLength(ts);
    all[..if |all| <= 5 then |all| else 5]
  }

  /** Without filters the listing has one entry per row. */
  lemma ListingLength(ts: seq<Transaction>)
    ensures |ListTransactions(ts, [])| == |ts|
  {
    var all := ListTransactions(ts, []);
    MatchingNothing(ts);
    assert |all| == |multiset(all)| == |multiset(Matching(ts, []))| == |Matching(ts, [])|;
  }

  lemma {:induction false} MatchingNothing(ts: seq<Transaction>)
    ensures Matching(ts, []) == ts
  {
    if ts != [] {
      MatchingNothing(ts[1..]);
    }
  }

  /** No row left out of the latest five is newer than one shown. */
  lemma RecentAreNewest(ts: seq<Transaction>, x: Transaction, t: Transaction)
    requires x in Recent(ts) && t in ts && t !in Recent(ts)
    ensures NewerFirst(x, t)
  {
    var all := ListTransactions(ts, []);
    ListTransactionsMeaning(ts, []);
    MatchingNothing(ts);
    var r := Recent(ts);
    assert t in all;
    var j :| 0 <= j < |all| && all[j] == t;
    var i :| 0 <= i < |r| && r[i] == x;
    assert all[i] == x;
    assert j >= |r| by {
      assert forall k :: 0 <= k < |r| ==> all[k] in r;
    }
  }

  /**
   * The latest five are rows of the table, each at most as often as it is
   * stored, newest first.
   */
  lemma RecentMeaning(ts: seq<Transaction>)
    ensures var r := Recent(ts);
            && multiset(r) <= multiset(ts)
            && Sorting.SortedBy(r, NewerFirst)
  {
    var all := ListTransactions(ts, []);
    var r := Recent(ts);
    ListTransactionsMeaning(ts, []);
    MatchingNothing(ts);
    Sorting.PrefixSorted(all, |r|, NewerFirst);
  }

  /** `get_transacoes`: every row, latest date first (ties left to the sort). */
  function AllByDate(ts: seq<Transaction>): (r: seq<Transaction>)
    ensures multiset(r) == multiset(ts)
    ensures Sorting.SortedBy(r, LaterFirst)
  {
    OrdersArePreorders();
    Sorting.SortSorted(ts, LaterFirst);
    Sorting.Sort(ts, LaterFirst)
  }

  // ---------------------------------------------------------------------------
  // Whole-ledger figures

  /** Summary income: every 'Receita' row of the ledger, whatever its date. */
  function LedgerIncome(ts: seq<Transaction>): real {
    Total(Where(ts, TipoColumn, RECEITA))
  }

  /** Summary expense: every 'Despesa' row of the ledger, whatever its date. */
  function LedgerExpense(ts: seq<Transaction>): real {
    Total(Where(ts, TipoColumn, DESPESA))
  }

  /**
   * The summary is not scoped to a period: appending a row moves the income
   * (expense) by its amount exactly when it is a 'Receita' ('Despesa'),
   * whatever its date.
   */
  lemma LedgerTotalsAppend(ts: seq<Transaction>, t: Transaction)
    ensures LedgerIncome(ts + [t]) == LedgerIncome(ts) + (if t.tipo == RECEITA then t.valor else 0.0)
    ensures LedgerExpense(ts + [t]) == LedgerExpense(ts) + (if t.tipo == DESPESA then t.valor else 0.0)
  {
    WhereAppend(ts, [t], TipoColumn, RECEITA);
    WhereAppend(ts, [t], TipoColumn, DESPESA);
    TotalAppend(Where(ts, TipoColumn, RECEITA), Where([t], TipoColumn, RECEITA));
    TotalAppend(Where(ts, TipoColumn, DESPESA), Where([t], TipoColumn, DESPESA));
  }

  /** The statistics of one category: `COUNT(*)` and `SUM(valor) or 0`. */
  datatype CategoryStat = CategoryStat(total: int, valor: real)

  function StatOf(ts: seq<Transaction>, c: string): CategoryStat {
    var rows := Where(ts, CategoriaColumn, c);
    CategoryStat(|rows|, Total(rows))
  }

  /** A category without rows gets count 0 and sum 0. */
  lemma StatOfUnused(ts: seq<Transaction>, c: string)
    requires forall t :: t in ts ==> t.categoria != c
    ensures StatOf(ts, c) == CategoryStat(0, 0.0)
  {
    EmptyWhere(ts, CategoriaColumn, c);
  }

  /**
   * Every row of the category counts, whatever its `tipo` and date:
   * appending a row changes the category's statistics exactly when it is
   * of that category.
   */
  lemma StatOfAppend(ts: seq<Transaction>, t: Transaction, c: string)
    ensures StatOf(ts + [t], c)
            == if t.categoria == c then CategoryStat(StatOf(ts, c).total + 1, StatOf(ts, c).valor + t.valor)
               else StatOf(ts, c)
  {
    WhereAppend(ts, [t], CategoriaColumn, c);
    TotalAppend(Where(ts, CategoriaColumn, c), Where([t], CategoriaColumn, c));
  }
}
