/**
 * The four tables as one object whose methods change them in place: the
 * INSERT, UPDATE and DELETE statements of `DatabaseManager` and of the web
 * routes, the seeding of the default categories, and the three-table
 * category rename. Ids are assigned from counters, as `AUTOINCREMENT` does.
 */
module Store {
  import opened Wrappers
  import opened Dates
  import opened Records
  import opened Queries
  import opened Values
  import Sorting
  import Text

  function TransactionId(t: Transaction): int { t.id }
  function BudgetId(b: Budget): int { b.id }
  function GoalId(g: Goal): int { g.id }

  /** Every id is positive, below the next one to hand out, and used once. */
  ghost predicate IdsBelow<T>(s: seq<T>, idOf: T -> int, next: int) {
    && 1 <= next
    && (forall i :: 0 <= i < |s| ==> 1 <= idOf(s[i]) < next)
    && (forall i, j :: 0 <= i < j < |s| ==> idOf(s[i]) != idOf(s[j]))
  }

  /** `DELETE FROM ... WHERE id = ?`: drops the rows with that id, keeping the order of the rest. */
  function RemoveId<T(!new)>(s: seq<T>, id: int, idOf: T -> int): (r: seq<T>)
    ensures |r| <= |s|
    ensures forall x :: x in r <==> x in s && idOf(x) != id
    ensures (forall x :: x in s ==> idOf(x) != id) ==> r == s
  {
    if s == [] then []
    else (if idOf(s[0]) != id then [s[0]] else []) + RemoveId(s[1..], id, idOf)
  }

  /** With unique ids, deleting the id of the row at `i` removes exactly that row. */
  lemma {:induction false} RemoveExisting<T(!new)>(s: seq<T>, i: nat, idOf: T -> int)
    requires i < |s|
    requires forall a, b :: 0 <= a < b < |s| ==> idOf(s[a]) != idOf(s[b])
    ensures RemoveId(s, idOf(s[i]), idOf) == s[..i] + s[i + 1..]
  {
    var id := idOf(s[i]);
    var rest := RemoveId(s[1..], id, idOf);
    if i == 0 {
      IdNotAfter(s, idOf);
      assert rest == s[1..];
      assert s[..0] + s[1..] == s[1..];
    } else {
      assert idOf(s[0]) != id;
      assert RemoveId(s, id, idOf) == [s[0]] + rest;
      RemoveExisting(s[1..], i - 1, idOf);
      assert s[1..][i - 1] == s[i];
      SliceAround(s, i);
    }
  }

  /** With unique ids, no later row has the first row's id. */
  lemma IdNotAfter<T(!new)>(s: seq<T>, idOf: T -> int)
    requires s != []
    requires forall a, b :: 0 <= a < b < |s| ==> idOf(s[a]) != idOf(s[b])
    ensures forall x :: x in s[1..] ==> idOf(x) != idOf(s[0])
  {
    forall x | x in s[1..] ensures idOf(x) != idOf(s[0]) {
      var k :| 0 <= k < |s[1..]| && s[1..][k] == x;
      assert s[k + 1] == x;
    }
  }

  /** Dropping position `i > 0` commutes with taking off the head. */
  lemma SliceAround<T>(s: seq<T>, i: nat)
    requires 0 < i < |s|
    ensures s[..i] + s[i + 1..] == [s[0]] + (s[1..][..i - 1] + s[1..][i..])
  {
    assert s[1..][..i - 1] == s[1..i];
    assert s[1..][i..] == s[i + 1..];
    assert s[..i] == [s[0]] + s[1..i];
  }

  /** `UPDATE ... SET <every column> WHERE id = ?`: rows with the id of `row` become `row`. */
  function ReplaceId<T(!new)>(s: seq<T>, row: T, idOf: T -> int): (r: seq<T>)
    ensures |r| == |s|
    ensures forall i :: 0 <= i < |s| ==> idOf(r[i]) == idOf(s[i])
    ensures forall i :: 0 <= i < |s| && idOf(s[i]) != idOf(row) ==> r[i] == s[i]
    ensures (forall x :: x in s ==> idOf(x) != idOf(row)) ==> r == s
  {
    if s == [] then []
    else [if idOf(s[0]) == idOf(row) then row else s[0]] + ReplaceId(s[1..], row, idOf)
  }

  /** `UPDATE transacoes SET categoria = to WHERE categoria = from`. */
  function RecategorizeTransactions(ts: seq<Transaction>, from: string, to: string): (r: seq<Transaction>)
    ensures |r| == |ts|
  {
    if ts == [] then []
    else [if ts[0].categoria == from then ts[0].(categoria := to) else ts[0]]
         + RecategorizeTransactions(ts[1..], from, to)
  }

  /** `UPDATE orcamentos SET categoria = to WHERE categoria = from`. */
  function RecategorizeBudgets(bs: seq<Budget>, from: string, to: string): (r: seq<Budget>)
    ensures |r| == |bs|
  {
    if bs == [] then []
    else [if bs[0].categoria == from then bs[0].(categoria := to) else bs[0]]
         + RecategorizeBudgets(bs[1..], from, to)
  }

  /** `UPDATE categorias SET nome = to WHERE nome = from`. */
  function RenameName(cs: seq<string>, from: string, to: string): (r: seq<string>)
    ensures |r| == |cs|
  {
    if cs == [] then []
    else [if cs[0] == from then to else cs[0]] + RenameName(cs[1..], from, to)
  }

  /** `DELETE FROM categorias WHERE nome = ?`. */
  function RemoveName(cs: seq<string>, nome: string): (r: seq<string>)
    ensures forall c :: c in r <==> c in cs && c != nome
  {
    if cs == [] then []
    else (if cs[0] != nome then [cs[0]] else []) + RemoveName(cs[1..], nome)
  }

  /**
   * The rename rewrites exactly the rows of the old category: the row at
   * each position keeps everything but the category, which changes only
   * where it was `from`.
   */
  lemma {:induction false} RecategorizeRows(ts: seq<Transaction>, from: string, to: string, i: nat)
    requires i < |ts|
    ensures var r := RecategorizeTransactions(ts, from, to);
            r[i] == if ts[i].categoria == from then ts[i].(categoria := to) else ts[i]
  {
    if i > 0 {
      RecategorizeRows(ts[1..], from, to, i - 1);
    }
  }

  /**
   * After renaming `from` to `to` (distinct), no row is left under `from`,
   * and the statistics of `to` are those of `from` and `to` together.
   */
  lemma RecategorizeStats(ts: seq<Transaction>, from: string, to: string)
    requires from != to
    ensures var r := RecategorizeTransactions(ts, from, to);
            && StatOf(r, from) == CategoryStat(0, 0.0)
            && StatOf(r, to) == CategoryStat(StatOf(ts, from).total + StatOf(ts, to).total,
                                             StatOf(ts, from).valor + StatOf(ts, to).valor)
  {
    var r := RecategorizeTransactions(ts, from, to);
    forall t | t in r ensures t.categoria != from {
      var i :| 0 <= i < |r| && r[i] == t;
      RecategorizeRows(ts, from, to, i);
    }
    StatOfUnused(r, from);
    RecategorizeMerges(ts, from, to);
  }

  /** Renaming `from` to `to` adds the count and sum of `from` to those of `to`. */
  lemma {:induction false} RecategorizeMerges(ts: seq<Transaction>, from: string, to: string)
    requires from != to
    ensures var r := RecategorizeTransactions(ts, from, to);
            StatOf(r, to) == CategoryStat(StatOf(ts, from).total + StatOf(ts, to).total,
                                          StatOf(ts, from).valor + StatOf(ts, to).valor)
  {
    if ts != [] {
      RecategorizeMerges(ts[1..], from, to);
      var r := RecategorizeTransactions(ts, from, to);
      assert r[1..] == RecategorizeTransactions(ts[1..], from, to);
      StatOfCons(ts, from);
      StatOfCons(ts, to);
      StatOfCons(r, to);
    }
  }

  /** The statistics of a category, one row at a time. */
  lemma StatOfCons(ts: seq<Transaction>, c: string)
    requires ts != []
    ensures StatOf(ts, c) == if ts[0].categoria == c
                             then CategoryStat(StatOf(ts[1..], c).total + 1, ts[0].valor + StatOf(ts[1..], c).valor)
                             else StatOf(ts[1..], c)
  {
    var rest := Where(ts[1..], CategoriaColumn, c);
    if ts[0].categoria == c {
      assert Where(ts, CategoriaColumn, c) == [ts[0]] + rest;
      assert ([ts[0]] + rest)[1..] == rest;
    } else {
      assert Where(ts, CategoriaColumn, c) == rest;
    }
  }

  /** The nine default names are distinct. */
  lemma DefaultCategoriesDistinct()
    ensures Distinct(DEFAULT_CATEGORIES)
  {
  }

  lemma LexLePreorder()
    ensures Sorting.TotalPreorder(Text.LexLe)
  {
    forall a, b ensures Text.LexLe(a, b) || Text.LexLe(b, a) {
      Text.LexLeTotal(a, b);
    }
    forall a, b, c | Text.LexLe(a, b) && Text.LexLe(b, c) ensures Text.LexLe(a, c) {
      Text.LexLeTransitive(a, b, c);
    }
  }

  /** `COALESCE(SUM(valor), 0)` as Python receives it: a float, or the integer 0 for no rows. */
  function SumValue(rows: seq<Transaction>): (v: Value)
    ensures v.Number? || v.Whole?
    ensures v.Whole? <==> rows == []
    ensures Numeric(v) == Total(rows)
  {
    if rows == [] then Whole(0) else Number(Total(rows))
  }

  /** Python's `a - b` on two numbers: an int only when both are ints. */
  function Minus(a: Value, b: Value): (v: Value)
    requires (a.Number? || a.Whole?) && (b.Number? || b.Whole?)
    ensures v.Number? || v.Whole?
    ensures v.Whole? <==> a.Whole? && b.Whole?
    ensures Numeric(v) == Numeric(a) - Numeric(b)
  {
    if a.Whole? && b.Whole? then Whole(a.i - b.i) else Number(Numeric(a) - Numeric(b))
  }

  class Store {
    var transacoes: seq<Transaction>
    var categorias: seq<string>
    var orcamentos: seq<Budget>
    var metas: seq<Goal>
    var nextTransacaoId: int
    var nextOrcamentoId: int
    var nextMetaId: int

    /** The constraints of the schema: unique row ids, unique category names. */
    ghost predicate Valid()
      reads this
    {
      && IdsBelow(transacoes, TransactionId, nextTransacaoId)
      && IdsBelow(orcamentos, BudgetId, nextOrcamentoId)
      && IdsBelow(metas, GoalId, nextMetaId)
      && Distinct(categorias)
    }

    /** A new database file: empty tables, then `init_database` seeds the categories. */
    constructor ()
      ensures Valid()
      ensures transacoes == [] && orcamentos == [] && metas == []
      ensures categorias == DEFAULT_CATEGORIES
    {
      transacoes, categorias, orcamentos, metas := [], [], [], [];
      nextTransacaoId, nextOrcamentoId, nextMetaId := 1, 1, 1;
      new;
      InitDatabase();
    }

    /** Seeds the nine default categories when, and only when, `categorias` is empty. */
    method InitDatabase()
      requires Valid()
      modifies this
      ensures Valid()
      ensures categorias == if old(categorias) == [] then DEFAULT_CATEGORIES else old(categorias)
      ensures transacoes == old(transacoes) && orcamentos == old(orcamentos) && metas == old(metas)
      ensures nextTransacaoId == old(nextTransacaoId) && nextOrcamentoId == old(nextOrcamentoId)
      ensures nextMetaId == old(nextMetaId)
    {
      if |categorias| == 0 {
        DefaultCategoriesDistinct();
        categorias := DEFAULT_CATEGORIES;
      }
    }

    /** `get_categorias`: the category names in ascending order. */
    function GetCategorias(): (r: seq<string>)
      reads this
      ensures multiset(r) == multiset(categorias)
      ensures Sorting.SortedBy(r, Text.LexLe)
    {
      LexLePreorder();
      Sorting.SortSorted(categorias, Text.LexLe);
      Sorting.Sort(categorias, Text.LexLe)
    }

    /** `get_transacoes`: every transaction, latest date first. */
    function GetTransacoes(): (r: seq<Transaction>)
      reads this
      ensures multiset(r) == multiset(transacoes)
      ensures Sorting.SortedBy(r, LaterFirst)
    {
      AllByDate(transacoes)
    }

    /**
     * `get_resumo_financeiro`: income and expense over the whole ledger (0
     * when there are no such rows) and their difference.
     */
    function GetResumoFinanceiro(): (d: map<string, Value>)
      reads this
      ensures d.Keys == {"receitas", "despesas", "saldo"}
      ensures d["receitas"].Number? || d["receitas"].Whole?
      ensures d["despesas"].Number? || d["despesas"].Whole?
      ensures d["saldo"].Number? || d["saldo"].Whole?
      ensures Numeric(d["receitas"]) == LedgerIncome(transacoes)
      ensures Numeric(d["despesas"]) == LedgerExpense(transacoes)
      ensures Numeric(d["saldo"]) == Numeric(d["receitas"]) - Numeric(d["despesas"])
    {
      var receitas := SumValue(Where(transacoes, TipoColumn, RECEITA));
      var despesas := SumValue(Where(transacoes, TipoColumn, DESPESA));
      map["receitas" := receitas, "despesas" := despesas, "saldo" := Minus(receitas, despesas)]
    }

    /**
     * `add_transacao` and the add-transaction route: appends one row with
     * the given fields and a fresh id, and returns that id.
     */
    method AddTransacao(tipo: string, valor: real, data: Date, descricao: string, categoria: string)
      returns (id: int)
      requires Valid()
      modifies this
      ensures Valid()
      ensures forall t :: t in old(transacoes) ==> t.id != id
      ensures transacoes == old(transacoes) + [Transaction(id, tipo, valor, data, descricao, categoria)]
      ensures categorias == old(categorias) && orcamentos == old(orcamentos) && metas == old(metas)
    {
      id := nextTransacaoId;
      transacoes := transacoes + [Transaction(id, tipo, valor, data, descricao, categoria)];
      nextTransacaoId := nextTransacaoId + 1;
    }

    /**
     * `update_transacao`: overwrites the five fields of the row with that id;
     * every other row stays, and an unknown id changes nothing.
     */
    method UpdateTransacao(id: int, tipo: string, valor: real, data: Date, descricao: string, categoria: string)
      requires Valid()
      modifies this
      ensures Valid()
      ensures transacoes == ReplaceId(old(transacoes), Transaction(id, tipo, valor, data, descricao, categoria), TransactionId)
      ensures forall i :: 0 <= i < |transacoes| && old(transacoes)[i].id == id ==>
                transacoes[i] == Transaction(id, tipo, valor, data, descricao, categoria)
      ensures categorias == old(categorias) && orcamentos == old(orcamentos) && metas == old(metas)
      ensures nextTransacaoId == old(nextTransacaoId)
    {
      var row := Transaction(id, tipo, valor, data, descricao, categoria);
      transacoes := ReplaceId(transacoes, row, TransactionId);
      forall i | 0 <= i < |transacoes| && old(transacoes)[i].id == id ensures transacoes[i] == row {
        ReplaceIdAt(old(transacoes), row, TransactionId, i);
      }
    }

    /** `delete_transacao` and the delete route: removes the row with that id, if any. */
    method DeleteTransacao(id: int)
      requires Valid()
      modifies this
      ensures Valid()
      ensures transacoes == RemoveId(old(transacoes), id, TransactionId)
      ensures categorias == old(categorias) && orcamentos == old(orcamentos) && metas == old(metas)
      ensures nextTransacaoId == old(nextTransacaoId)
    {
      transacoes := RemoveId(transacoes, id, TransactionId);
      RemoveKeepsIds(old(transacoes), id, TransactionId, nextTransacaoId);
    }

    /**
     * The add-budget route: a plain INSERT, so a second budget for the same
     * category and month is a second row.
     */
    method AddOrcamento(categoria: string, valorLimite: real, mes: int, ano: int) returns (id: int)
      requires Valid()
      modifies this
      ensures Valid()
      ensures forall b :: b in old(orcamentos) ==> b.id != id
      ensures orcamentos == old(orcamentos) + [Budget(id, categoria, valorLimite, mes, ano)]
      ensures transacoes == old(transacoes) && categorias == old(categorias) && metas == old(metas)
    {
      id := nextOrcamentoId;
      orcamentos := orcamentos + [Budget(id, categoria, valorLimite, mes, ano)];
      nextOrcamentoId := nextOrcamentoId + 1;
    }

    method DeleteOrcamento(id: int)
      requires Valid()
      modifies this
      ensures Valid()
      ensures orcamentos == RemoveId(old(orcamentos), id, BudgetId)
      ensures transacoes == old(transacoes) && categorias == old(categorias) && metas == old(metas)
      ensures nextOrcamentoId == old(nextOrcamentoId)
    {
      orcamentos := RemoveId(orcamentos, id, BudgetId);
      RemoveKeepsIds(old(orcamentos), id, BudgetId, nextOrcamentoId);
    }

    /** The add-goal route: a new goal starts with `valor_atual = 0`. */
    method AddMeta(descricao: string, valorAlvo: real, dataInicio: Date, dataFim: Date) returns (id: int)
      requires Valid()
      modifies this
      ensures Valid()
      ensures forall g :: g in old(metas) ==> g.id != id
      ensures metas == old(metas) + [Goal(id, descricao, valorAlvo, 0.0, dataInicio, dataFim)]
      ensures transacoes == old(transacoes) && categorias == old(categorias) && orcamentos == old(orcamentos)
    {
      id := nextMetaId;
      metas := metas + [Goal(id, descricao, valorAlvo, 0.0, dataInicio, dataFim)];
      nextMetaId := nextMetaId + 1;
    }

    /**
     * The update-goal route: overwrites the five editable columns of the
     * goal with that id. The submitted `status` is read and then dropped:
     * status is never stored, only derived.
     */
    method UpdateMeta(id: int, descricao: string, valorAlvo: real, valorAtual: real,
                      dataInicio: Date, dataFim: Date, status: string)
      requires Valid()
      modifies this
      ensures Valid()
      ensures metas == ReplaceId(old(metas), Goal(id, descricao, valorAlvo, valorAtual, dataInicio, dataFim), GoalId)
      ensures transacoes == old(transacoes) && categorias == old(categorias) && orcamentos == old(orcamentos)
      ensures nextMetaId == old(nextMetaId)
    {
      metas := ReplaceId(metas, Goal(id, descricao, valorAlvo, valorAtual, dataInicio, dataFim), GoalId);
    }

    method DeleteMeta(id: int)
      requires Valid()
      modifies this
      ensures Valid()
      ensures metas == RemoveId(old(metas), id, GoalId)
      ensures transacoes == old(transacoes) && categorias == old(categorias) && orcamentos == old(orcamentos)
      ensures nextMetaId == old(nextMetaId)
    {
      metas := RemoveId(metas, id, GoalId);
      RemoveKeepsIds(old(metas), id, GoalId, nextMetaId);
    }

    /** The add-category route: the UNIQUE constraint rejects a name already registered. */
    method AddCategoria(nome: string) returns (ok: bool)
      requires Valid()
      modifies this
      ensures Valid()
      ensures ok <==> nome !in old(categorias)
      ensures categorias == if ok then old(categorias) + [nome] else old(categorias)
      ensures transacoes == old(transacoes) && orcamentos == old(orcamentos) && metas == old(metas)
    {
      ok := nome !in categorias;
      if ok {
        categorias := categorias + [nome];
      }
    }

    /**
     * The rename route: three UPDATEs, then one commit. The first UPDATE
     * violates the UNIQUE constraint exactly when both names are registered
     * and differ; the route then stops before committing and nothing
     * changes. Otherwise every category, transaction and budget row named
     * `nome` is renamed `novoNome` and every other row is left as it was.
     */
    method AtualizarCategoria(nome: string, novoNome: string) returns (ok: bool)
      requires Valid()
      modifies this
      ensures Valid()
      ensures ok <==> !(nome in old(categorias) && novoNome in old(categorias) && nome != novoNome)
      ensures ok ==> && categorias == RenameName(old(categorias), nome, novoNome)
                     && transacoes == RecategorizeTransactions(old(transacoes), nome, novoNome)
                     && orcamentos == RecategorizeBudgets(old(orcamentos), nome, novoNome)
      ensures !ok ==> categorias == old(categorias) && transacoes == old(transacoes) && orcamentos == old(orcamentos)
      ensures metas == old(metas)
    {
      ok := !(nome in categorias && novoNome in categorias && nome != novoNome);
      if ok {
        RenameKeepsDistinct(categorias, nome, novoNome);
        RecategorizeKeepsIds(transacoes, nome, novoNome);
        RecategorizeBudgetsKeepsIds(orcamentos, nome, novoNome);
        categorias := RenameName(categorias, nome, novoNome);
        transacoes := RecategorizeTransactions(transacoes, nome, novoNome);
        orcamentos := RecategorizeBudgets(orcamentos, nome, novoNome);
      }
    }

    /** The delete-category route: removes the registry row only; transactions and budgets keep the name. */
    method ExcluirCategoria(nome: string)
      requires Valid()
      modifies this
      ensures Valid()
      ensures categorias == RemoveName(old(categorias), nome)
      ensures nome !in categorias
      ensures transacoes == old(transacoes) && orcamentos == old(orcamentos) && metas == old(metas)
    {
      RemoveNameKeepsDistinct(categorias, nome);
      categorias := RemoveName(categorias, nome);
    }
  }

  lemma {:induction false} ReplaceIdAt<T(!new)>(s: seq<T>, row: T, idOf: T -> int, i: nat)
    requires i < |s| && idOf(s[i]) == idOf(row)
    ensures ReplaceId(s, row, idOf)[i] == row
  {
    if i > 0 {
      ReplaceIdAt(s[1..], row, idOf, i - 1);
    }
  }

  /** Deleting rows keeps the others in their order, so ids stay unique and below the counter. */
  lemma {:induction false} RemoveKeepsIds<T(!new)>(s: seq<T>, id: int, idOf: T -> int, next: int)
    requires IdsBelow(s, idOf, next)
    ensures IdsBelow(RemoveId(s, id, idOf), idOf, next)
  {
    if s != [] {
      IdsBelowTail(s, idOf, next);
      RemoveKeepsIds(s[1..], id, idOf, next);
      var rest := RemoveId(s[1..], id, idOf);
      if idOf(s[0]) != id {
        assert RemoveId(s, id, idOf) == [s[0]] + rest;
        IdsBelowCons(s[0], rest, idOf, next);
      } else {
        assert RemoveId(s, id, idOf) == rest;
      }
    }
  }

  /** The rows after the first keep the id invariant, and none has the first row's id. */
  lemma IdsBelowTail<T(!new)>(s: seq<T>, idOf: T -> int, next: int)
    requires s != [] && IdsBelow(s, idOf, next)
    ensures IdsBelow(s[1..], idOf, next)
    ensures forall x :: x in s[1..] ==> idOf(x) != idOf(s[0])
  {
    IdNotAfter(s, idOf);
    var t := s[1..];
    forall i | 0 <= i < |t| ensures 1 <= idOf(t[i]) < next {
      assert t[i] == s[i + 1];
    }
    forall i, j | 0 <= i < j < |t| ensures idOf(t[i]) != idOf(t[j]) {
      assert t[i] == s[i + 1] && t[j] == s[j + 1];
    }
  }

  /** A row with a fresh id in range may go in front of rows that keep the id invariant. */
  lemma IdsBelowCons<T(!new)>(x: T, s: seq<T>, idOf: T -> int, next: int)
    requires IdsBelow(s, idOf, next) && 1 <= idOf(x) < next
    requires forall y :: y in s ==> idOf(y) != idOf(x)
    ensures IdsBelow([x] + s, idOf, next)
  {
    var r := [x] + s;
    forall i | 0 <= i < |r| ensures 1 <= idOf(r[i]) < next {
      if i > 0 { assert r[i] == s[i - 1]; }
    }
    forall i, j | 0 <= i < j < |r| ensures idOf(r[i]) != idOf(r[j]) {
      assert r[j] == s[j - 1];
      if i > 0 { assert r[i] == s[i - 1]; } else { assert r[j] in s; }
    }
  }

  lemma {:induction false} RenameKeepsDistinct(cs: seq<string>, from: string, to: string)
    requires Distinct(cs)
    requires !(from in cs && to in cs && from != to)
    ensures Distinct(RenameName(cs, from, to))
  {
    if cs != [] {
      RenameKeepsDistinct(cs[1..], from, to);
      var r := RenameName(cs, from, to);
      forall j | 1 <= j < |r| ensures r[0] != r[j] {
        RenameNameAt(cs, from, to, j);
        RenameNameAt(cs, from, to, 0);
        assert cs[0] != cs[j];
      }
      forall i, j | 1 <= i < j < |r| ensures r[i] != r[j] {
        assert r[i] == RenameName(cs[1..], from, to)[i - 1];
        assert r[j] == RenameName(cs[1..], from, to)[j - 1];
      }
    }
  }

  lemma {:induction false} RenameNameAt(cs: seq<string>, from: string, to: string, i: nat)
    requires i < |cs|
    ensures RenameName(cs, from, to)[i] == if cs[i] == from then to else cs[i]
  {
    if i > 0 {
      RenameNameAt(cs[1..], from, to, i - 1);
    }
  }

  lemma {:induction false} RecategorizeKeepsIds(ts: seq<Transaction>, from: string, to: string)
    ensures forall next :: IdsBelow(ts, TransactionId, next) ==>
              IdsBelow(RecategorizeTransactions(ts, from, to), TransactionId, next)
  {
    var r := RecategorizeTransactions(ts, from, to);
    forall i | 0 <= i < |ts| ensures r[i].id == ts[i].id {
      RecategorizeRows(ts, from, to, i);
    }
  }

  lemma {:induction false} RecategorizeBudgetsAt(bs: seq<Budget>, from: string, to: string, i: nat)
    requires i < |bs|
    ensures var r := RecategorizeBudgets(bs, from, to);
            r[i] == if bs[i].categoria == from then bs[i].(categoria := to) else bs[i]
  {
    if i > 0 {
      RecategorizeBudgetsAt(bs[1..], from, to, i - 1);
    }
  }

  lemma {:induction false} RecategorizeBudgetsKeepsIds(bs: seq<Budget>, from: string, to: string)
    ensures forall next :: IdsBelow(bs, BudgetId, next) ==>
              IdsBelow(RecategorizeBudgets(bs, from, to), BudgetId, next)
  {
    var r := RecategorizeBudgets(bs, from, to);
    forall i | 0 <= i < |bs| ensures r[i].id == bs[i].id {
      RecategorizeBudgetsAt(bs, from, to, i);
    }
  }

  lemma {:induction false} RemoveNameKeepsDistinct(cs: seq<string>, nome: string)
    requires Distinct(cs)
    ensures Distinct(RemoveName(cs, nome))
  {
    if cs != [] {
      RemoveNameKeepsDistinct(cs[1..], nome);
      var rest := RemoveName(cs[1..], nome);
      if cs[0] != nome {
        var r := RemoveName(cs, nome);
        assert r == [cs[0]] + rest;
        forall j | 0 <= j < |rest| ensures cs[0] != rest[j] {
          assert rest[j] in cs[1..];
          var k :| 0 <= k < |cs[1..]| && cs[1..][k] == rest[j];
          assert cs[k + 1] == rest[j];
        }
      }
    }
  }
}
