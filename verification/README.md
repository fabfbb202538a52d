# Fin Assist ledger model

A Dafny model of the ledger of Fin Assist, a personal-finance web
application. Four SQLite tables hold its state:

- `transacoes`: incomes (`'Receita'`) and expenses (`'Despesa'`), each with
  an amount, a date, a description and a category;
- `categorias`: the unique category names;
- `orcamentos`: monthly spending limits per category;
- `metas`: savings goals.

Pages and services change these tables row by row and derive figures
from them:

- the dashboard's income, expense and balance for the current month;
- per-category expense;
- budget consumption;
- goal status;
- per-category statistics;
- the filtered transaction list;
- the whole-ledger summary.

The input validators and the record classes check and convert what
users type.

Modules:

- `Wrappers`: `Option` and `Result`.
- `Text`: the Python string operations the validators use (`strip`,
  `replace`) and SQLite's BINARY text order.
- `Dates`: calendar dates, `%Y-%m-%d` formatting and `strptime`
  parsing, and the round trip between them.
- `Sorting`: a stable insertion sort under a total preorder. It stands
  for `ORDER BY`, and one lemma shows the sorted arrangement is unique
  when ties are impossible.
- `Records`: the table rows and the default categories.
- `Queries`: every SQL read (period filters, `SUM`, `GROUP BY`, the
  correlated budget sub-select, the goal `CASE`, the listing `WHERE`
  clauses and orders) as functions on the table contents, with the
  lemmas that say what they compute.
- `Dashboard`: the handler code that works step by step:
  - the loop over the `GROUP BY tipo` rows;
  - the listing query built one clause at a time;
  - the statistics loop of the category page.
- `Store`: the four tables as one object. Its methods are the INSERT,
  UPDATE and DELETE statements, the seeding of default categories and
  the three-table category rename. `Valid()` is the schema's
  uniqueness constraints.
- `Values`: Python's dynamic values, its exceptions, and `float()`.
- `Utils`: `src/utils.py`'s validators, percentage helper and colour
  table.
- `Models`: `src/models.py`'s `Transacao` (construction-time
  validation, `to_dict`, `from_dict`) and `ResumoFinanceiro.from_dict`.

Amounts are exact `real`s; the application stores SQLite `REAL` and
Python `float`. So identities such as `saldo == receitas - despesas` and
"the per-category values add up to the month's expense" hold exactly in
the model, and only up to rounding in the application.

Python's `float(text)` and the wall clock (the dashboard's current month
and year) are parameters.

## Model

| member | source | states |
|---|---|---|
| Queries.PeriodRows | app.py:47-52 | a row is kept iff it is in the table and its date falls in month `m` of year `y` |
| Queries.PeriodTotalsAppend | app.py:47-58 | a new row moves the period income by its amount exactly when it is a 'Receita' of the period, and the expense likewise for 'Despesa' |
| Queries.PeriodTotalNoRows | app.py:54-58 | with no row of a kind in the period, that kind's period total is 0 |
| Queries.GroupByKeys | app.py:47-52 | `GROUP BY` yields each key present among the rows exactly once, and no other key |
| Queries.GroupByTotal | app.py:63-70 | the group totals add up to the total of all grouped rows |
| Queries.GroupKeyOccurs | app.py:47-52 | every group key is the key of some row |
| Queries.GroupForKey | app.py:47-52 | every row's key is the key of some group |
| Queries.GroupKeysDistinct | app.py:47-52 | no two groups share a key |
| Queries.TotalSplit | app.py:63-70 | the rows of a key and the rows of every other key total the whole |
| Queries.WhereOfWithout | app.py:63-70 | removing the rows of one key leaves the rows of any other key as they were |
| Dashboard.IncomeOfGroups | app.py:54-58 | the loop's final `receitas` is the period's 'Receita' sum |
| Dashboard.ExpenseOfGroups | app.py:54-58 | the loop's final `despesas` is the period's 'Despesa' sum when only the two kinds occur, 0 when only income occurs, and some non-'Receita' kind's period total otherwise |
| Dashboard.TotalsOfGroups | app.py:54-58 | the loop leaves in `receitas` the total of the last 'Receita' group (0 if none) and in `despesas` the total of the last non-'Receita' group (0 if none), a later group overwriting an earlier one |
| Dashboard.PeriodSummary | app.py:39-60 | income is the period's 'Receita' sum; the balance is income minus expense; expense is the period's 'Despesa' sum when only the two kinds occur, 0 when only income occurs, and some non-'Receita' kind's total otherwise |
| Queries.ExpenseByCategoryMeaning | app.py:63-70 | each category with at least one period expense appears once, with its period 'Despesa' sum; no other category appears; the values add up to the period expense |
| Queries.ConsumptionNoRows | app.py:75-80 | a category without expenses in the period has consumption 0 |
| Queries.ConsumptionAppend | app.py:159-169 | a new row raises a category's consumption by its amount exactly when it is a 'Despesa' of that category in the period; income never counts |
| Queries.BudgetsForPeriod | app.py:73-83 | exactly the budgets whose month and year are the period's are listed, each with `valor_atual` equal to its category's consumption in that period |
| Queries.BudgetsForPeriodDistinct | app.py:73-83 | with the budget ids unique, no budget of the period is listed twice |
| Queries.GoalStatusText | app.py:88-91 | status is 'Concluída' iff `valor_atual >= valor_alvo`, else 'Em Andamento' |
| Queries.GoalsViewMeaning | app.py:182-190 | the goal list holds every goal once with its derived status, ordered by deadline ascending |
| Queries.Matching | app.py:126-141 | a row is listed iff every `AND` clause holds for it |
| Queries.MatchingCount | app.py:126-141 | a row meeting every clause is kept as often as it is stored, any other row not at all |
| Dashboard.BuildConditions | app.py:128-141 | one clause per supplied filter; a row meets all clauses iff it has the requested kind and category and its date lies within the inclusive bounds, absent or empty filters imposing nothing |
| Dashboard.TransactionsPage | app.py:113-145 | the listing holds exactly the rows meeting every supplied filter, each as often as stored, ordered by date descending, then id descending |
| Queries.ListTransactionsMeaning | app.py:143-145 | the listing is a permutation of the matching rows, sorted by date descending then id descending |
| Queries.ListTransactionsDeterminate | app.py:143 | with `id` a key, any arrangement of the matching rows in that order is the listing |
| Queries.OrdersArePreorders | app.py:102 | `data DESC, id DESC` and `data DESC` are total preorders |
| Queries.Recent | app.py:97-104 | the dashboard shows the first min(5, number of rows) entries of the unfiltered listing, in its order |
| Queries.RecentMeaning | app.py:97-104 | the rows shown are stored rows, each at most as often as stored, newest first |
| Queries.RecentAreNewest | app.py:102-103 | no transaction left out of the five shown is newer than one shown |
| Queries.StatOfUnused | app.py:203-211 | a category without transactions has count 0 and sum 0 |
| Queries.StatOfAppend | app.py:203-207 | a new row adds one to its category's count and its amount to the sum, whatever its kind or date |
| Dashboard.CategoryStatistics | app.py:197-212 | statistics have one entry per registered category, holding the count and sum of its transactions over the whole ledger |
| Queries.AllByDate | src/database.py:108-114 | `get_transacoes` returns every transaction, each as often as stored, latest date first |
| Queries.LedgerTotalsAppend | src/database.py:129-141 | the summary's income and expense are not scoped to a period: any new row of a kind moves that kind's total by its amount |
| Store.SumValue | src/database.py:131-141 | `COALESCE(SUM(valor), 0)` is an int exactly when there are no rows, and a float otherwise; its value is the rows' total |
| Store.Minus | src/database.py:146 | Python subtraction gives an int exactly when both operands are ints; its value is the difference |
| Store.Store.GetResumoFinanceiro | src/database.py:129-147 | the summary has keys receitas, despesas and saldo: income and expense over the whole ledger, and their difference |
| Store.Store.GetCategorias | src/database.py:96-98 | the category names, each as often as stored, in ascending BINARY order |
| Store.Store.GetTransacoes | src/database.py:108-114 | all transactions, latest date first |
| Store.Store.constructor | src/database.py:6-10 | a new database has empty tables and exactly the nine default categories |
| Store.Store.InitDatabase | src/database.py:43-59 | the nine defaults are inserted iff the category table is empty; otherwise nothing changes |
| Store.DefaultCategoriesDistinct | src/database.py:46-57 | the nine seeded names are distinct, so seeding respects `UNIQUE` |
| Store.Store.AddTransacao | src/database.py:100-106 | appends one row with the given fields and a fresh id, returns that id; nothing else changes |
| Store.Store.UpdateTransacao | src/database.py:116-123 | the row with that id gets all five new fields; other rows and the other tables are unchanged; an absent id changes nothing |
| Store.Store.DeleteTransacao | src/database.py:125-127 | removes only the rows with that id; an absent id changes nothing |
| Store.RemoveId | app.py:338 | `DELETE ... WHERE id = ?` keeps exactly the rows with another id, in order; an absent id changes nothing |
| Store.RemoveExisting | src/database.py:127 | with unique ids, deleting a present id removes exactly that one row |
| Store.RemoveKeepsIds | src/database.py:125-127 | deleting by id keeps the remaining ids unique and below the counter |
| Store.ReplaceId | src/database.py:118-123 | `UPDATE ... WHERE id = ?` keeps length and ids, and leaves every row with another id as it was |
| Store.ReplaceIdAt | app.py:305-310 | the row with the updated id holds exactly the new values |
| Store.Store.AddOrcamento | app.py:240-253 | a plain INSERT: appends a budget with a fresh id even when one for the same category and month exists |
| Store.Store.DeleteOrcamento | app.py:346-351 | removes only the budget with that id |
| Store.Store.AddMeta | app.py:260-273 | appends a goal with a fresh id and `valor_atual = 0` |
| Store.Store.UpdateMeta | app.py:294-311 | overwrites the five editable columns of the goal with that id; the submitted status is not stored |
| Store.Store.DeleteMeta | app.py:358-363 | removes only the goal with that id |
| Store.Store.AddCategoria | app.py:280-286 | inserting succeeds iff the name is not registered (the `UNIQUE` constraint), appending it |
| Store.Store.AtualizarCategoria | app.py:318-326 | fails, changing nothing, iff both names are registered and differ; otherwise every category, transaction and budget row named `nome` is renamed and nothing else changes |
| Store.RecategorizeRows | app.py:324 | the rename changes a transaction row only in its category, and only where it was the old name |
| Store.RecategorizeStats | app.py:318-326 | after renaming, the old name has count 0 and sum 0, and the new name holds both names' counts and sums |
| Store.RecategorizeMerges | app.py:324 | renaming adds the old name's count and sum to the new name's |
| Store.RecategorizeKeepsIds | app.py:324 | renaming a category in the transactions keeps their ids unique and below the counter |
| Store.RecategorizeBudgetsAt | app.py:325 | the rename changes a budget row only in its category, and only where it was the old name |
| Store.RecategorizeBudgetsKeepsIds | app.py:325 | renaming a category in the budgets keeps their ids unique and below the counter |
| Store.RenameNameAt | app.py:323 | the rename changes a registry entry only where it was the old name, to the new name |
| Store.RemoveNameKeepsDistinct | app.py:374 | deleting a category keeps the remaining names distinct |
| Store.RenameKeepsDistinct | app.py:323 | a rename that passes the `UNIQUE` check leaves the names distinct |
| Store.Store.ExcluirCategoria | app.py:370-375 | removes only the registry row; transactions and budgets keep the name |
| Store.LexLePreorder | src/database.py:98 | BINARY text order is a total preorder |
| Utils.NormalizeAmountShape | src/utils.py:18-21 | the normalised amount has no comma; its dots are the stripped text's commas, its own dots deleted |
| Utils.PlainAmountUnchanged | src/utils.py:18-21 | an amount without 'R$', surrounding whitespace, dots or commas reaches `float` as typed |
| Text.ReplaceAbsent | src/utils.py:19-21 | `replace` of a pattern that does not occur leaves the text unchanged |
| Utils.ValidarValor | src/utils.py:5-29 | valid iff the normalised text parses to a value > 0; then that value and no message, otherwise the invalid-text or non-positive message |
| Utils.ValidarDescricao | src/utils.py:95-110 | valid iff the stripped description has at most 100 characters; the message is present iff invalid |
| Utils.ValidarCategoria | src/utils.py:151-170 | on the stripped name: empty, then over 50 characters, then a character outside `[a-zA-ZÀ-ÿ\s]` are rejected with their messages, in that order; otherwise valid with no message |
| Utils.PlainNameValid | src/utils.py:151-170 | a nonempty name of at most 50 letters, spaces only inside, passes both the written and the corrected category check |
| Utils.DefaultCategoriesValid | src/utils.py:163-170 | every seeded category name passes both the written and the corrected category check |
| Utils.StripOfTrimmed | src/utils.py:163 | a name with no surrounding whitespace is its own strip |
| Utils.OperatorSignAccepted | src/utils.py:168 | names holding × or ÷ pass the letters-and-spaces check |
| Utils.ValidarCategoriaLetras | src/utils.py:163-170 | the check with letters only: it accepts a subset of what the written check accepts |
| Utils.ValidarCategoriaLetrasAgrees | src/utils.py:168-169 | the corrected check agrees with the written one except on names holding × or ÷, which it rejects |
| Utils.CalcularPercentual | src/utils.py:136-149 | 0 against a zero total; otherwise the result times the total is 100 times the value |
| Utils.PercentualBounds | src/utils.py:147-149 | for 0 <= valor <= total and total > 0 the result lies in [0, 100], and is 100 for the whole |
| Utils.GerarCorCategoria | src/utils.py:112-134 | a listed name gets its fixed colour, any other name '#808080' |
| Utils.ColourTableKeys | src/utils.py:122-132 | the colour table's names are exactly the nine seeded category names |
| Utils.DefaultCategoriesColoured | src/utils.py:112-134 | no seeded category falls back to '#808080' |
| Utils.DefaultColoursDistinct | src/utils.py:122-132 | the nine seeded categories get nine different colours |
| Values.ToFloat | src/models.py:65 | `float()` keeps ints and floats, converts text exactly when the parser accepts it (ValueError otherwise), and raises TypeError on None or a date |
| Models.NewTransacao | src/models.py:25-37 | construction succeeds iff the kind is 'Receita' or 'Despesa', the amount is > 0 and the date is a date or `YYYY-MM-DD` text; the kind, amount and date failures raise their messages, in that order |
| Models.ToDict | src/models.py:49-58 | the dict holds the six fields under their column names, the date as text that parses back to it |
| Models.FromDict | src/models.py:60-70 | missing tipo, valor, data and categoria raise KeyError in that order, a bad amount raising `float`'s error after the valor lookup; on success the fields are the dict's values (the amount through `float`, the date through `strptime`), an absent description '' and an absent id None, and the result is well formed |
| Models.FromDictToDict | src/models.py:49-70 | `from_dict(to_dict(t))` reproduces every field of a valid transaction |
| Models.FromDictDefaults | src/models.py:68-69 | a dict without description and id gives '' and None |
| Models.ResumoFromDict | src/models.py:101-108 | succeeds iff the three keys are present and convert; then it copies their values unchanged |
| Models.ResumoOfStore | src/models.py:101-108 | the database's summary always converts, with the ledger's income and expense and saldo equal to their difference |
| Dates.FormatThenParse | src/models.py:55 | formatting a date as `%Y-%m-%d` and parsing it back gives the same date |
| Dates.ParseIso | src/models.py:35 | `strptime` with `%Y-%m-%d` yields only valid calendar dates |
| Sorting.SortedUnique | app.py:102 | two sorted permutations of the same rows agree when no two distinct rows tie |
| Sorting.InsertSorted | app.py:93 | inserting into a sorted sequence under a total preorder keeps it sorted |
| Sorting.SortSorted | app.py:93 | sorting under a total preorder yields a sorted sequence |
| Sorting.Sort | app.py:93 | sorting keeps every element as often as before |
| Text.Strip | src/utils.py:19 | `strip()` yields the infix left after cutting whitespace from both ends, neither end whitespace |
| Text.ReplaceCharCounts | src/utils.py:21 | replacing one character by another leaves none of the first and keeps the length |
| Text.RemoveCharCounts | src/utils.py:21 | deleting a character shortens the text by its count and keeps other characters' counts |
| Text.LexLeTotal | src/database.py:98 | any two names are comparable in BINARY order |
| Text.LexLeTransitive | src/database.py:98 | BINARY order is transitive |
| Text.LexLeAntisymmetric | src/database.py:98 | names each at most the other are equal |

## Findings

| source | as written | input that shows it | evidently intended | confidence | as-written member | corrected member |
|---|---|---|---|---|---|---|
| src/utils.py:168 | the class `À-ÿ` is the range U+00C0..U+00FF, which holds × (U+00D7) and ÷ (U+00F7) | the category name "A×B" is accepted as "only letters and spaces" | accept Latin-1 letters only | medium, not executed | Utils.OperatorSignAccepted | Utils.ValidarCategoriaLetras |

## Left out

- SQLite plumbing is not modelled: connections, commits, `dict_factory`, `execute_query`, `init_db`, and the `schema.sql` of the web app.
  - The `orcamentos` and `metas` schemas come from that file, which is not part of this model. They are taken to have counter-assigned unique ids like `transacoes`.
  - `orcamentos` is also taken to have no uniqueness constraint on (categoria, mes, ano).
  - A foreign key from rows to `categorias` is not assumed.
- Flask plumbing is not modelled: `flash`, `redirect`, `render_template` and the generic `except Exception` handlers. A failed statement is modelled as "nothing changes"; the flashed message is not.
- Amounts are not parsed in the routes. The add and update routes run `float(text.replace('.', '').replace(',', '.'))` and `int(...)` on form fields before any SQL. A parse failure raises before the table is touched. The `Store` methods take the already parsed numbers.
- Floating point is not modelled. Amounts are exact reals, so rounding in `SUM` and in `receitas - despesas` is not captured.
  - NaN and infinities are not captured either. `float('nan')` passes `validar_valor`'s `<= 0` test in Python, and no real does.
  - `float()` on text is the parameter `parse`.
- Dates are stored as TEXT in the tables. The model keeps calendar dates in the rows and the filters.
  - `strftime('%m', data)`, `data >= ?` and `ORDER BY data` are modelled as comparisons of dates. This matches text comparison for well-formed `YYYY-MM-DD` text.
  - Malformed date text stored by the routes is not modelled.
- Dates.FormatThenParse: years before 1000 are excluded. `%Y` output below 1000 depends on the platform, so `Models.ToDict` and `Models.FromDictToDict` require a year of at least 1000.
- Models.FromDictToDict: a `datetime` holding a time of day is not modelled. `to_dict` drops the time and `from_dict` gives back midnight, so the source round-trips only dates at midnight; the model's `Date` holds no time, and the lemma covers exactly those.
- Dates.ParseIso: Python's `\d` in `strptime` also accepts non-ASCII decimal digits. Only ASCII digits are modelled.
- Models.NewTransacao: the dataclass stores a `categoria` or `descricao` that is not text, or an `id` that is not an int or None, without complaint. Its `data` may be any non-text object. The model rejects all of these with TypeError, after the three checks the source makes.
- `data_formatada`, `valor_formatado` and the other `*_formatado` properties are not modelled, nor is any `"%.2f"` formatting. They are display formatting.
- `validar_data`, `formatar_data` and `formatar_valor_monetario` in `src/utils.py` are not modelled. They depend on the wall clock or on currency formatting.
- Queries.GroupBy: SQLite leaves the order of groups unspecified. The model lists groups in order of first appearance; the dashboard loop's choice among several non-'Receita' groups depends on it.
- Queries.AllByDate: ties on the date are left in the order the sort gives. SQLite does not specify it either.
- Queries.GoalsView: ties on the deadline are left in the order the sort gives. SQLite does not specify it either.
- Store.Store.AtualizarCategoria: a failure of the second or third UPDATE is not modelled. Without a foreign key or other constraint on those columns, they cannot fail.
- Budget upsert is not modelled, because `adicionar_orcamento` is a plain INSERT. Under the schema assumption above, a second budget for the same category and month is a second row, and the budget pages list both.
- src/fin_assist_ui.py, src/main.py, simple_app.py and web_app.py are not part of this model. They are desktop and web user interfaces that call into the modelled code.
