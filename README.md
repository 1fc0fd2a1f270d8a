# Personal-finance chat bot: transaction store and command decisions

This project models the core of a chat bot that tracks personal income and
expenses. Users send commands. Each command registers the caller. It then
validates the arguments, reads or writes the transaction store, and answers.
Two scheduled jobs push a weekly summary to every registered user with a row
in the last seven days, and a month-start balance to every registered user.

Modules, one per component:

- `Database` (`database.dfy`) models the two tables. `transacoes` holds rows
  `(id, user, tipo, valor, categoria, data)` and `usuarios` holds the registered
  user ids. A `Store` class keeps both tables as sequence fields. Its methods
  `AddTransaction` and `RegisterUser` are the two writes. The read-only queries
  are pure functions over the rows:
  - `Summary`: the seven-day window, grouped by `(tipo, categoria)`.
  - `Balance`: all-time income minus expense.
  - `MonthTotals`: this month's income and expense.
  - `Export`: the user's rows, newest first, or nothing.
  
  The grouped SQL queries are modelled by one `GroupBy` function. `Balance`
  follows the source literally: it groups by `tipo`, then sums the groups whose
  key is `"receita"` or `"gasto"`. `MonthTotals` takes the first group of each
  kind, or 0. Lemmas tie both to plain sums of rows.
- `Bot` (`bot.dfy`) models the command handlers as methods over a `Store`.
  Each returns the list of reply kinds that it sends (usage hint, confirmation,
  budget alert, report, …), not the text. The two broadcast jobs are read-only
  methods. Each returns the messages it sends, one `(chat, reply)` pair per
  recipient.
- `Dates` holds proleptic Gregorian `(year, month, day)` days.
  `MinusDays(d, n)` is `d - timedelta(days = n)`.
- `Text` holds lower-casing.
- `Wrappers` holds `Option`.

Modelling choices:

- The current date is a parameter `today`. One command or job uses one `today`
  throughout.
- Amounts are exact `real`s.
- Parsing the amount is a parameter `parse: string -> Option<real>`. It stands
  for Python's `float()`: `None` is the `ValueError` case.
- The users table is a sequence with no duplicates, kept in registration
  order. `listar_usuarios` queries without `ORDER BY`, so the source fixes no
  order; the model returns the table's sequence.
- Row ids come from a `nextId` counter. Rows are never deleted, so the ids
  increase with insertion order.
- Every stored row belongs to a registered user (`Store.Owned`). Every command
  keeps this: each registers its caller first, and only `/registrar` inserts,
  always with the caller's id.

Checks the code does not make, which the model therefore does not make either:

- The amount is not checked. Any value `float()` returns is stored, including
  zero and negative numbers (for `nan` and `inf` see "## Left out").
- The `tipo` is not checked. A row whose lower-cased `tipo` is neither
  `gasto` nor `receita` is stored. Balance and month totals ignore it. The
  summary still lists it, with the income symbol.
- The broadcast loops do not catch failed sends (see "## Left out" for what
  the model does not capture about that).
- There is no delete or recent-list operation.

## Model

| member | source | states |
|---|---|---|
| `Dates.PrevDay` | database.py:48 | the day before a valid day is valid and earlier, and no valid day lies strictly between the two |
| `Dates.MinusDays` | database.py:48 | `today - timedelta(days=n)` is a valid day, strictly earlier than `today` when `n > 0` |
| `Dates.MinusDaysOnOrAfter` | database.py:48-55 | the day `k` days back satisfies `data >= today - w days` exactly when `k <= w` |
| `Text.Lower` | bot.py:47 | lower-casing keeps the length and lower-cases each character |
| `Text.LowerIsLowerCase` | bot.py:47 | a lower-cased word has no upper-case ASCII letter, and lower-casing it again changes nothing |
| `Database.GroupBy` | database.py:49-56 | no contract of its own: the shared model of the three `GROUP BY` queries (also database.py:62-67, 97-103); `GroupBySpec` and `AddTo` state its properties |
| `Database.Lookup` | database.py:106-107 | no contract of its own: `next((v for k, v in gs if k == key), 0)`, the first group of a key or 0; `SumWhereIsLookup` and `MonthTotalsAreSums` state its properties |
| `Database.SumWhere` | database.py:70-71 | no contract of its own: `sum(v for k, v in gs if k == key)`; `SumWhereIsLookup` and `BalanceIsKindTotals` state its properties |
| `Database.Summary` | database.py:46-58 | no contract of its own: `obter_resumo`; `SummarySpec` and `SummaryWindowBoundary` state its properties |
| `Database.Balance` | database.py:60-72 | no contract of its own: `obter_saldo`; `BalanceIsKindTotals`, `BalanceWithoutRows` and `BalanceAfterInsert` state its properties |
| `Database.MonthTotals` | database.py:94-108 | no contract of its own: `obter_totais_mes_atual`; `MonthTotalsAreSums`, `MonthTotalsWithoutRows` and `MonthTotalsAfterInsert` state its properties |
| `Database.AddTo` | database.py:49-56 | adding a row's value to its group keeps one group per key and raises only that key's total, by exactly the value |
| `Database.GroupBySpec` | database.py:49-56 | a GROUP BY has one group per distinct key of the rows and no other, each equal to the sum of exactly the rows with that key; it is empty exactly when there are no rows |
| `Database.SumWhereIsLookup` | database.py:70-71 | with one group per key, summing the groups of a key (`sum(...)`) equals taking its first group or 0 (`next(..., 0)`) |
| `Database.Store.AddTransaction` | database.py:33-44 | appends exactly one row with the given user, tipo, valor and categoria, dated today, with an id no earlier row has; earlier rows and users are unchanged |
| `Database.BalanceIsKindTotals` | database.py:60-72 | the balance is the sum of the user's `receita` rows minus the sum of the user's `gasto` rows |
| `Database.BalanceWithoutRows` | database.py:62-72 | a user with no rows has balance 0 |
| `Database.BalanceAfterInsert` | database.py:60-72 | one more row changes its owner's balance by `+valor` for `receita` and `-valor` for `gasto`. A row of any other tipo changes nothing, and neither does a row of another user |
| `Database.MonthTotalsAreSums` | database.py:94-108 | this month's income and expense are the sums of the user's rows of that tipo dated in today's year and month |
| `Database.MonthTotalsWithoutRows` | database.py:106-107 | a tipo with no row of the user this month totals 0 |
| `Database.MonthTotalsAfterInsert` | database.py:94-108 | a row of this month adds its valor to its owner's total of its tipo only; other totals and other users are unchanged |
| `Database.SummarySpec` | database.py:46-58 | the summary has one entry per distinct `(tipo, categoria)` of the user's rows dated on or after today−7, each the sum of those rows; it is empty exactly when no such row exists |
| `Database.SummaryWindowBoundary` | database.py:48-55 | a row of the user dated `k` days ago shows in the summary exactly when `k <= 7`; a row dated 8 or more days ago leaves the summary unchanged |
| `Database.ExpenseThenIncomeBalance` | database.py:60-72 | worked run: an expense of 25, then an income of 100, take the balance from 0 to -25 to 75 |
| `Database.BalanceOneMore` | database.py:60-72 | one more row of the user raises the balance by its value when it is income and lowers it by its value when it is an expense |
| `Database.ExpenseThenIncomeGroups` | database.py:46-58 | the same run gives a summary of exactly two groups, in row order: `(gasto, mercado)` with 25, then `(receita, salario)` with 100 |
| `Database.ExpenseThenIncomeSummary` | database.py:46-58 | so the summary has groups for exactly the keys `(gasto, mercado)` and `(receita, salario)`, holding 25 and 100 |
| `Database.SortByDateDesc` | database.py:76 | `ORDER BY data DESC` returns a permutation of the rows, each dated on or after the next |
| `Database.NewestFirstOrdersAllPairs` | database.py:76 | in that order every row is dated on or after every later row |
| `Database.Export` | database.py:74-81 | nothing exactly when the user has no rows; otherwise all and only the user's rows, as many as stored, newest first |
| `Database.WithUser` | database.py:110-115 | registration adds the id only when absent: the table then holds it, keeps no duplicates, and is unchanged if the id was there |
| `Database.WithUserIdempotent` | database.py:110-115 | registering twice equals registering once |
| `Database.Store.RegisterUser` | database.py:110-115 | the users table becomes `WithUser` of the old one; rows are unchanged |
| `Database.Store.ListUsers` | database.py:117-121 | every registered id, each exactly once |
| `Bot.AlertFires` | bot.py:52-53 | the alert fires only with positive monthly income, and then exactly when expense is at least 80% of income |
| `Bot.IndicatorFor` | bot.py:82 | the balance colour is green exactly when the balance is at least 0 (also bot.py:121) |
| `Bot.EmojiFor` | bot.py:73 | a summary line gets the expense symbol exactly when tipo is `"gasto"` (also bot.py:113) |
| `Bot.LineFor` | bot.py:73-74 | no contract of its own: one summary line from one group; `Report` states what each line carries |
| `Bot.Report` | bot.py:71-74 | one summary line per group, in order, carrying the group's tipo, categoria, total and symbol |
| `Bot.SummaryLines` | bot.py:72-74 | the `for` loop that builds the message produces exactly `Report` of the groups |
| `Bot.MonthTotalsWithNewRow` | database.py:94-108 | this month's totals after storing a row of the user dated today are the old totals with the row's value added to its own tipo (as read back at bot.py:52) |
| `Bot.Start` | bot.py:18-29 | registers the caller and sends the welcome text; rows and the next id unchanged, every row still owned by a registered user |
| `Bot.Register` | bot.py:31-60 | registers the caller first. Without exactly 3 arguments it sends the usage hint and inserts nothing. If the amount does not parse, it sends the invalid-value reply and inserts nothing. Otherwise it inserts one row with lower-cased tipo and categoria, confirms, and adds the budget alert exactly when the month totals with this row fire it; the next id rises by one only on that path, and every row stays owned by a registered user |
| `Bot.Record` | bot.py:47-60 | the insert path: exactly one row with lower-cased tipo and categoria, dated today, with the next id; the confirmation with the words as typed; the alert exactly when the old month totals plus this row fire it; users unchanged |
| `Bot.Summarize` | bot.py:62-76 | registers the caller; answers "no transactions" exactly when the caller has no row in the seven-day window, else the report of the summary |
| `Bot.ShowBalance` | bot.py:78-83 | registers the caller; answers the balance with its colour |
| `Bot.ExportSheet` | bot.py:85-95 | registers the caller; answers the exported rows, or "nothing to export" when the export is empty |
| `Bot.Dashboard` | bot.py:97-104 | registers the caller; answers the dashboard link for the caller's id |
| `Bot.WeeklyMessages` | bot.py:107-115 | no contract of its own: the messages of the weekly job; `WeeklyMessagesSpec` and `WeeklyDigestRecipient` state its properties |
| `Bot.WeeklyMessagesSpec` | bot.py:107-115 | every weekly digest goes to a registered user with a non-empty summary and carries that summary's lines; every such user gets one |
| `Bot.WeeklyDigestRecipient` | bot.py:107-115 | a user gets a weekly digest exactly when registered and holding a row in the seven-day window |
| `Bot.WeeklyDigestForActiveUser` | bot.py:107-115 | when every row belongs to a registered user, as the commands keep it, a user gets a weekly digest exactly when holding a row in the seven-day window |
| `Bot.SendWeeklySummaries` | bot.py:107-115 | the loop over `listar_usuarios()` sends exactly the weekly digests, in the order of the users table |
| `Bot.MonthlyMessages` | bot.py:118-122 | one month-start message per registered user, in the order of the users table, with that user's balance and colour |
| `Bot.SendMonthlyBalances` | bot.py:118-122 | the loop over `listar_usuarios()` sends exactly those messages |

## Left out

- The chat transport and async/await: `reply_text`, `reply_document`, `send_message` and `run_polling`. Handlers return reply kinds instead of sending them.
- Message wording: emoji strings, `capitalize()`, `%.2f` formatting, the displayed percentage (bot.py:54) and the dashboard URL string.
- The cron wiring of the two jobs (bot.py:128-130) and `app.add_handler` (bot.py:133-140). Only who each job targets is modelled.
- SQLAlchemy sessions, engine creation, `create_all` and the environment configuration (database.py:7-13, 30; bot.py:12-13).
- CSV writing, the file path and opening the file (database.py:83-92; bot.py:94-95). `Export` returns the ordered rows.
- Floating point. Amounts are exact reals, so `receita_mes * 0.8` and the sums do not round.
- `float()` itself, which is a parameter. Which strings it accepts (`"1e3"`, surrounding spaces) is whatever that parameter returns.
- `Bot.Register`, `Database.Store.AddTransaction`, `Database.Balance`, `Database.MonthTotals`: amounts are `real`s, so `nan` and `inf` cannot occur. What the database does with a `nan` amount is outside the model. SQLite stores it as NULL, and `SUM` then skips it. A group whose only rows are such NULLs sums to NULL, which makes `sum(...)` (database.py:70-71) and the `%.2f` formatting (bot.py:74) raise, and makes the alert test (bot.py:53) raise inside its `try`.
- `Bot.SendWeeklySummaries`, `Bot.SendMonthlyBalances`: every send is assumed to succeed. In the source a `send_message` that raises (for example, to a user who blocked the bot) ends the `for` loop (bot.py:108, bot.py:119), and no later user gets a message. The model does not capture that cut-off.
- `Bot.SendWeeklySummaries`, `Bot.SendMonthlyBalances`, `Bot.MonthlyMessages`, `Bot.WeeklyMessages`, `Database.Store.ListUsers`: `listar_usuarios()` has no `ORDER BY`, so the source gives no order (SQLite would typically scan by ascending `user_id`). The model sends in registration order.
- `Bot.Register`, `Bot.Record`: the `try`/`except` around the alert (bot.py:59-60) is not modelled. It swallows failures of the month-totals query, including storage failures and a month total that reads back as NULL (see the `nan` line above). In both cases the source sends no alert after the confirmation. Both are outside the model.
- `Text.Lower`: lower-cases only the ASCII letters A-Z. Python's `str.lower()` also lower-cases other Unicode letters.
- `Database.Summary` and `Database.GroupBy`: SQL leaves the order of grouped rows unspecified. The model lists groups in order of first appearance.
- `Database.SortByDateDesc`: among rows of the same date, the model's order is one of the orders SQL may return.
- Dates before year 1. Python raises `OverflowError` there, and the model's calendar simply continues backwards.
- Clock reads. The source calls `datetime.now()` separately in each query. The model uses one `today` per command or job, so a command running across midnight is not modelled.
- `func.strftime('%Y-%m', data)` is modelled as "same year and month". It is an SQLite function, and how other databases evaluate it is outside the model.
- Deleting a transaction by id, the recent-transactions list and the button-driven entry flow. None of them appears in this code.
