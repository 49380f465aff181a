# Laundry point-of-sale data layer and sale transaction, in Dafny

This project models two parts of the laundry shop's Node.js server.

- **The data layer** (`server/config/database.js`):
  - Start-up picks PostgreSQL, MySQL or SQLite and repairs the admin password hash (`bootstrap.dfy`).
  - The PostgreSQL adapter numbers placeholders (`positional.dfy`).
  - The two SQL dialect translators: a chain of global, case-insensitive regex replacements (`regex.dfy`, `dialect.dfy`), plus the parenthesis scanner `extractArg`/`replaceFn` that SQLite uses for `MONTH`/`YEAR`/`WEEK` (`scanner.dfy`).
  - What both translators make of the MySQL date idioms the controllers write: `DATE_SUB(CURDATE(), INTERVAL n DAY)` and `MONTH`/`YEAR`/`WEEK` of a column or of `CURDATE()`; and, for PostgreSQL, `DATE(x)`, backtick-quoted columns and `INSERT IGNORE INTO` (`idioms.dfy`).
  - The result normaliser, which gives every backend mysql2's result shape (`executor.dfy`).
  - The transaction session objects that `getConnection` hands out (`sessions.dfy`).
- **The sales controller** (`server/controllers/salesController.js`):
  - `createSale` runs a sequence of queries on a session, inside one transaction, over an abstract table store (`store.dfy`).
  - The `updatePaymentStatus` validation.
  - The `getUnpaidSales` query builder (`sales.dfy`).

Modelling choices:

- **Pure code becomes functions.** The source's pure expression chains (`toPositional`, `toPostgres`, the result shaping) are functions over strings.
- **Loops become methods.** `extractArg`, `replaceFn`, `toSQLite`, `runQuery`, the `createSale` procedure and the `getUnpaidSales` builder are methods. Each is proved against a specification function.
- **Mutable objects become classes.**
  - A session is a class. Its `inTx` flag, query counter and log of calls change in place.
  - All SQLite sessions share one database handle, which is a class of its own (`Sessions.Engine`).
  - `Bootstrap.Db` records the backend that start-up chose.
- **The database engine is a transition function.** BEGIN, COMMIT and ROLLBACK are functions over an explicit `Handle` (data, data at BEGIN, transaction open):
  - SQLite refuses a nested BEGIN and a COMMIT or ROLLBACK with no transaction open.
  - PostgreSQL only warns in both cases.
  - MySQL commits implicitly on a nested BEGIN.
- **Driver errors come from a fault index.** A session's `fault` is the number of the query the driver throws on, if any.

The SQLite `beginTransaction` (server/config/database.js:284) sets `inTx` only after `exec('BEGIN')` has returned. A BEGIN that throws leaves the flag clear, and the model follows this.

## Model

| member | source | states |
|---|---|---|
| Positional.ToPositional | server/config/database.js:71-75 | the parameters pass unchanged, no `?` is left, and each `?` becomes one `$` |
| Positional.NumberCounts | server/config/database.js:73 | numbering removes every `?` and adds one `$` per `?` |
| Positional.NumberRoundTrip | server/config/database.js:73 | on text without `$`, reading `$k` back as `?` gives the original text |
| Positional.PositionalRoundTrip | server/config/database.js:71-75 | `toPositional` loses nothing: its text decodes back to the application's statement |
| Regex.Rewrite | server/config/database.js:100-118 | one `.replace(/…/g)` pass: scan left to right, put each match's replacement in and go on after it, copy every other character |
| Regex.MatchAt | server/config/database.js:102-118 | a match is non-empty and ends inside the text, and a DATE_SUB match contains one of its anchors |
| Regex.RewriteCaseOnly | server/config/database.js:105 | a replacement that only changes letter case leaves the upper-cased text unchanged |
| Regex.LiteralLeavesAbsent | server/config/database.js:104 | a global literal replacement whose replacement cannot build the pattern leaves no occurrence of it, in any case |
| Regex.CaseOnlyKeepsAbsent | server/config/database.js:105 | a case-only pass cannot create an occurrence of a pattern |
| Regex.RewriteSame | server/config/database.js:100-118 | two rules that match alike at every position rewrite alike |
| Regex.DateSubNoAnchor | server/config/database.js:107-110 | a DATE_SUB pass whose anchors never occur changes nothing |
| Regex.DateSubDropAnchor | server/config/database.js:107-110 | an anchor that does not occur can be dropped from the DATE_SUB alternatives |
| Regex.RewriteFixed | server/config/database.js:100-118 | a pass whose every match is replaced by itself is the identity |
| Regex.RewriteNone | server/config/database.js:100-118 | a pass that matches nowhere returns the text as it is |
| Regex.RewriteOnce | server/config/database.js:100-118 | a pass with a single match puts that match's replacement between the untouched text before and after it |
| Regex.SeparatedCheckSound | server/config/database.js:104 | the executable separation check implies that the replacement can neither contain nor complete the pattern |
| Scanner.ExtractArg | server/config/database.js:213-221 | the loop returns exactly `ArgAt`: the text up to the parenthesis that closes the one at `pos`, or the rest of the text |
| Scanner.CloseFromZero | server/config/database.js:215-218 | where the scan stops at a `)`, the nesting depth counted from the opening `(` has returned to zero |
| Scanner.CloseFromAbove | server/config/database.js:215-218 | up to where the scan stops, the nesting depth counted from the opening `(` never drops below one |
| Scanner.ArgAtSpec | server/config/database.js:213-221 | the argument is a slice after `pos` that never goes below depth zero, and it is followed by a `)` that balances it, or it runs to the end |
| Scanner.ArgAtBalanced | server/config/database.js:213-221 | a balanced argument followed by `)` is exactly what `extractArg` returns |
| Scanner.CallBalanced | server/config/database.js:231-232 | a call `f(x)` with parenthesis-free parts is balanced |
| Scanner.ExpandPlain | server/config/database.js:233 | a replacement string without `$` is inserted verbatim by `String.prototype.replace` |
| Scanner.InstantiatePlain | server/config/database.js:233 | `template.replace('$1', arg)` puts `arg` in place of the first `$1` when neither contains `$` |
| Scanner.ReplaceOccurrence | server/config/database.js:231-234 | one step of the loop gives the instantiated template and the index after `fnName(arg)` |
| Scanner.ReplaceFn | server/config/database.js:223-237 | the loop's result is `ReplaceFnSpec`: the text with every upper-cased `FN(` occurrence, left to right, replaced by the template |
| Scanner.ReplaceFnAbsent | server/config/database.js:229 | with no occurrence of `FN(` the text comes back unchanged |
| Scanner.ReplaceFnOne | server/config/database.js:227-236 | with exactly one occurrence, only the call is replaced and the text around it is kept |
| Scanner.ReplaceFnWhole | server/config/database.js:223-237 | a whole balanced call `FN(x)` becomes the template instantiated with `x` |
| Dialect.ToPostgres | server/config/database.js:99-119 | `toPostgres`: the nine passes in source order, each a global case-insensitive replacement |
| Dialect.PgDatesNoCurdate | server/config/database.js:100-105 | after the first three PostgreSQL passes no `CURDATE()` is left, in any case |
| Dialect.PgCurdateAlternativeDead | server/config/database.js:104-110 | the `CURDATE()` alternative of the PostgreSQL DATE_SUB pattern can never match |
| Dialect.PgDateFirstParen | server/config/database.js:112 | `DATE(x)` takes its argument only up to the first `)` |
| Dialect.SqlitePasses | server/config/database.js:240-252 | the five regex passes of `toSQLite`, in source order |
| Dialect.SqliteText | server/config/database.js:240-256 | what `toSQLite` returns: the regex passes, then `replaceFn` for MONTH, YEAR and WEEK in that order |
| Dialect.ToSQLite | server/config/database.js:239-257 | the method is the chain of SQLite passes in source order |
| Dialect.SqliteDatesNoCurdate | server/config/database.js:241-242 | after the first two SQLite passes no `CURDATE()` is left, in any case |
| Dialect.NowTextSeparated | server/config/database.js:242 | `datetime('now')` can neither contain `CURDATE()` nor complete one |
| Dialect.SqliteCurdateIntervalDead | server/config/database.js:244-247 | the `DATE_SUB(CURDATE(), …)` pass never changes anything |
| Dialect.SqliteDateCaseOnly | server/config/database.js:252 | the SQLite `DATE(x)` pass only changes letter case |
| Dialect.SqliteDateIdentity | server/config/database.js:252 | where every `DATE(` is already lower case, the pass is the identity |
| Dialect.MonthTemplateOn | server/config/database.js:253 | the MONTH template puts an argument without `$` in verbatim |
| Dialect.NestedMonth | server/config/database.js:253 | a call nested in `MONTH(…)` is kept whole, unlike the first-`)` regex |
| Dialect.Translate | server/config/database.js:121-283 | PostgreSQL runs `toPostgres` (line 121), MySQL runs the text untranslated (`pool.query`, line 176), and SQLite runs `toSQLite` (`runQuery`, lines 277 and 283) |
| Idioms.PgDaysAgo | server/config/database.js:104-110 | `toPostgres` turns `DATE_SUB(CURDATE(), INTERVAL n DAY)` and `DATE_SUB(CURRENT_DATE, INTERVAL n DAY)` into `CURRENT_DATE - INTERVAL 'n days'` |
| Idioms.PgExtract | server/config/database.js:112-116 | `toPostgres` turns `MONTH(x)`, `YEAR(x)` and `WEEK(x)` of a column `x` into `EXTRACT(MONTH FROM x)`, `EXTRACT(YEAR  FROM x)`, `EXTRACT(WEEK  FROM x)` |
| Idioms.PgDateCast | server/config/database.js:112 | `toPostgres` turns `DATE(x)` of a column `x` into `(x)::date`, and no other pass touches the call or its result |
| Idioms.PgQuoted | server/config/database.js:102 | `toPostgres` turns a backtick-quoted column `` `x` `` into the double-quoted identifier `"x"` |
| Idioms.PgInsertIgnore | server/config/database.js:118 | `toPostgres` turns `INSERT IGNORE INTO x` into `INSERT INTO x` |
| Idioms.PgExtractToday | server/config/database.js:104-116 | `MONTH(CURDATE())` and its YEAR and WEEK forms become `EXTRACT(… FROM CURRENT_DATE)` |
| Idioms.SqliteDaysAgo | server/config/database.js:240-252 | `toSQLite` turns `DATE_SUB(CURDATE(), INTERVAL n DAY)` into `date('now','-n days')`: `CURDATE()` is replaced first, so the pattern anchored on `date('now')` (line 249) does the work |
| Idioms.SqliteField | server/config/database.js:252-255 | `toSQLite` turns `MONTH(x)`, `YEAR(x)` and `WEEK(x)` of a column into `CAST(strftime('%m',x) AS INTEGER)` with `%m`, `%Y` or `%W` |
| Idioms.SqliteFieldToday | server/config/database.js:240-255 | `MONTH(CURDATE())` becomes `CAST(strftime('%m',date('now')) AS INTEGER)`, and likewise for YEAR and WEEK: the nested call is kept whole |
| Executor.PgFinal | server/config/database.js:79-85 | the text `pgQuery` sends: ` RETURNING id` appended to an INSERT that does not mention RETURNING |
| Executor.PgShape | server/config/database.js:90-95 | a SELECT gives its rows; anything else gives the row count, and the first row's `id` exactly when there is a first row with an `id`, null otherwise |
| Executor.PgQuery | server/config/database.js:78-96 | the shape is rows exactly for a SELECT, and the call fails exactly when the driver does |
| Executor.PgDbQuery | server/config/database.js:121 | `db.query` on PostgreSQL: rows exactly when the translated text is a SELECT, and it fails exactly when the pool does on the translated, numbered text |
| Executor.PgSessionText | server/config/database.js:129-133 | the text a session sends: translated, with ` RETURNING id` appended when the original text is a bare INSERT |
| Executor.PgSessionQuery | server/config/database.js:127-139 | a session query is classified on the original text: rows exactly for a SELECT |
| Executor.SessionReturningOnce | server/config/database.js:129-133 | a session appends ` RETURNING id` to a bare INSERT once, and the text it sends no longer needs it |
| Executor.SessionAgreesWithDbQuery | server/config/database.js:121-139 | where translating does not change how a statement is classified, a session sends and returns exactly what `db.query` does |
| Executor.SqliteShape | server/config/database.js:261-269 | rows exactly for a SELECT, and then the rows `all` returned; otherwise `lastInsertRowid` and `changes` from `run`; it fails exactly when the call it makes fails |
| Executor.RunQuery | server/config/database.js:259-275 | `runQuery` translates first and then classifies the translated text |
| Executor.ReturningOnce | server/config/database.js:82-85 | a bare INSERT gets ` RETURNING id` appended once, and the result no longer needs it |
| Executor.PgFinalIdempotent | server/config/database.js:82-85 | appending RETURNING is idempotent |
| Executor.AppendedMentionsReturning | server/config/database.js:82-85 | text with ` RETURNING id` appended mentions RETURNING, so the append is never repeated |
| Store.WithPhone | server/controllers/salesController.js:18-21 | the lookup returns exactly the ids of the customers with that phone |
| Store.Rename | server/controllers/salesController.js:27-30 | only rows with the id change: the name, and the address unless it is null (COALESCE) |
| Store.Repay | server/controllers/salesController.js:148-151 | only rows with the id get the new status and payment date |
| Sessions.BeginOn | server/config/database.js:284 | BEGIN fails exactly on SQLite with a transaction open, and otherwise opens one on the same data |
| Sessions.CommitOn | server/config/database.js:285 | COMMIT fails exactly on SQLite with no transaction, and always leaves the data and no open transaction |
| Sessions.RollbackOn | server/config/database.js:286 | ROLLBACK goes back to the data as of BEGIN |
| Sessions.SqliteKeepsTracks | server/config/database.js:284-286 | the SQLite session keeps `inTx ==> transaction open`, so a guarded commit or rollback always succeeds |
| Sessions.SqliteSecondCallNoop | server/config/database.js:285-286 | a second commit or rollback on SQLite does nothing |
| Sessions.PostgresUnguarded | server/config/database.js:140-142 | PostgreSQL commit and rollback always reach the server and close the transaction |
| Sessions.DurableSteps | server/config/database.js:140-142 | commit makes the data permanent, rollback keeps the permanent data, and BEGIN changes nothing permanent except MySQL's implicit commit |
| Sessions.AbandonedTransactionSticks | server/config/database.js:284-286 | on a SQLite handle left open, a new session's BEGIN fails and its rollback sends nothing |
| Sessions.Engine.Begin | server/config/database.js:140 | the handle steps by `BeginOn` |
| Sessions.Engine.Commit | server/config/database.js:141 | the handle steps by `CommitOn` |
| Sessions.Engine.Rollback | server/config/database.js:142 | the handle steps by `RollbackOn` |
| Sessions.Engine.Run | server/config/database.js:135 | a data statement changes only the data |
| Sessions.Session.constructor | server/config/database.js:280-282 | a new session starts with `inTx` clear and an empty log |
| Sessions.Session.BeginTransaction | server/config/database.js:284 | the session steps by `SessionBegin`, and `inTx` is set only when BEGIN succeeds |
| Sessions.Session.Commit | server/config/database.js:285 | the session steps by `SessionCommit`, guarded by `inTx` on SQLite |
| Sessions.Session.Rollback | server/config/database.js:286 | the session steps by `SessionRollback`, guarded by `inTx` on SQLite |
| Sessions.Session.Query | server/config/database.js:283 | the statement runs on the shared handle unless the driver throws, which leaves the handle as it was |
| Sessions.Session.Release | server/config/database.js:287 | release returns a PostgreSQL client to the pool and does nothing on SQLite |
| Bootstrap.Choose | server/config/database.js:16-190 | PostgreSQL iff asked for and reachable; fatal iff `DATABASE_URL` is set and PostgreSQL fails; then MySQL, then SQLite |
| Bootstrap.FallbackAlwaysEnds | server/config/database.js:147-155 | without `DATABASE_URL` start-up always settles on a backend, and PostgreSQL's state matters only when it is asked for |
| Bootstrap.DbTypeIgnoresCase | server/config/database.js:15 | `DB_TYPE` is compared without regard to letter case |
| Bootstrap.PostgresInAnyCase | server/config/database.js:15-16 | `PostgreSQL` and `POSTGRES` select PostgreSQL, and an empty `DATABASE_URL` counts as unset |
| Bootstrap.Db.Initialize | server/config/database.js:14-190 | the recorded `type` is the backend `Choose` picks, and on the fatal path nothing is recorded |
| Bootstrap.RepairAdmin | server/config/database.js:200-207 | the admin hash is rewritten only when it fails to verify against `admin123`, and only to the fresh hash |
| Bootstrap.AdminCanLogIn | server/config/database.js:56-66 | after the repair, `admin123` verifies against the stored hash |
| Bootstrap.RepairIdempotent | server/config/database.js:200-207 | a second start-up leaves the repaired hash alone, whatever hash it draws |
| Sales.Missing | server/controllers/salesController.js:13 | a request is refused when the name or phone is falsy, or `items` is absent or empty |
| Sales.AddressParam | server/controllers/salesController.js:29 | the address is passed exactly when it is truthy, and null otherwise |
| Sales.PaymentDate | server/controllers/salesController.js:46 | a payment date is set exactly when the status is `paid` |
| Sales.TotalAppend | server/controllers/salesController.js:40-43 | the total of a concatenation is the sum of the totals |
| Sales.SumSubtotals | server/controllers/salesController.js:40-43 | the loop computes `Total`, the sum of the subtotals |
| Sales.CustomerFoundOrInserted | server/controllers/salesController.js:18-37 | a known phone renames that customer and keeps the others; an unknown phone appends a new customer with the next id |
| Sales.ItemsInserted | server/controllers/salesController.js:55-60 | the item loop appends one sale-item row per item, in order, with consecutive ids |
| Sales.SaleWrites | server/controllers/salesController.js:18-60 | the committed statements leave the customer update, one new sale with the total and a payment date iff paid, and its items |
| Sales.RunAllAppend | server/controllers/salesController.js:18-60 | running two statement lists in turn is running their concatenation |
| Sales.FindOrCreateCustomer | server/controllers/salesController.js:18-37 | the customer step issues its two statements and returns the customer id unless the driver throws |
| Sales.InsertItems | server/controllers/salesController.js:55-60 | the item loop issues one INSERT per item, stops at the first driver error, and leaves the data of the statements run |
| Sales.InsertSaleAndItems | server/controllers/salesController.js:46-60 | the sale INSERT and the items are issued in order, and the sale id is the insert id |
| Sales.WriteSale | server/controllers/salesController.js:17-60 | every statement of the sale is issued in order until the first driver error |
| Sales.WriteAndCommit | server/controllers/salesController.js:17-72 | after the writes, commit and answer with the sale id; after a driver error, roll back to the data as of BEGIN and answer 500 |
| Sales.Transaction | server/controllers/salesController.js:4-76 | per exit path: the calls made on the session, the handle afterwards, and that release runs once |
| Sales.CreateSale | server/controllers/salesController.js:4-76 | a valid sale is created iff no statement fails, with exactly its writes committed; a failed one leaves the data unchanged; an invalid request leaves the transaction open |
| Sales.CreateSaleFixed | server/controllers/salesController.js:4-76 | with a rollback before the 400, every path that began a transaction ends with none open |
| Sales.StuckAfterBadRequest | server/controllers/salesController.js:8-15 | on SQLite a 400 makes the next valid sale fail with 500 |
| Sales.RecoversAfterBadRequest | server/controllers/salesController.js:8-15 | with the rollback, the next valid sale after a 400 is created |
| Sales.PaymentUpdate | server/controllers/salesController.js:142-151 | the request is rejected iff the status is neither `paid` nor `unpaid`; otherwise it sets that status, with a date iff paid |
| Sales.PaymentApplied | server/controllers/salesController.js:145-151 | the matching sale becomes itself with the new status and a payment date that is `now` exactly when paid; every other field, every other sale and the other tables are unchanged, and applying it twice is applying it once |
| Sales.UnpaidSalesQuery | server/controllers/salesController.js:164-179 | the statement has exactly one `?` per parameter, and the filter and two `%q%` patterns appear iff the trimmed search is non-empty |
| Sales.PlaceholderCounts | server/controllers/salesController.js:164-179 | the statement with the filter has two `?` and the one without has none |
| Sales.FilterHasTwo | server/controllers/salesController.js:176 | the name/phone filter holds exactly two placeholders |

## Left out

- Drivers and I/O are left out: connecting, running the schema file, logging, HTTP responses, `dotenv`. Each connection attempt's success is an input of `Bootstrap.Choose`. The drivers' query calls are function parameters in `Executor`. In `Sessions`, a driver error is a fault index.
- Bootstrap.Choose: SQLite is taken to always open. A failure of better-sqlite3 to open the file is not modelled.
- Bootstrap.RepairAdmin: bcrypt's `compare` and `hash` are parameters. The salt drawing is not modelled.
- Bootstrap.Db.Initialize records only `type`. Installing `query` and `getConnection` is what `Dialect.Translate`, `Executor` and `Sessions` model.
- MySQL sessions are mysql2's own `getConnection`. Only their transaction semantics are modelled (`Sessions.BeginOn`).
- Sessions.Session.Commit and Sessions.Session.Rollback: COMMIT and ROLLBACK throwing for driver reasons (for example, a lost connection) is not modelled. Only the engine-state failures are.
- The PostgreSQL client pool is left out. `returned` counts the clients given back.
- Idioms.PgExtract, Idioms.SqliteField, Idioms.PgDateCast, Idioms.PgQuoted and Idioms.PgInsertIgnore: proved for a column name (letters, digits, `_`, `.`) as the argument. Other arguments are covered only by the general lemmas `Dialect.PgDateFirstParen` and `Dialect.NestedMonth`, and by `Scanner.ReplaceFnWhole`.
- Idioms.PgDaysAgo and Idioms.SqliteDaysAgo: proved for the idiom written as the controllers write it, with single spaces. The patterns' tolerance of other spacing is in `Regex.MatchAt`, but it is not restated for the whole pipeline.
- Sales.Missing: the body fields are strings or absent, and `items` is an array or absent. JSON numbers and booleans are not modelled (a numeric phone of 0 is falsy). A string `items` is not modelled; the loops at salesController.js:41-43 and 55-60 would walk it character by character. A non-numeric subtotal is not modelled either.
- Store.Apply: one id counter, `nextId`, serves customers, sales and sale_items alike, so the exact ids in `Sales.SaleWrites` and `Sales.ItemsInserted` (the sale id after a new customer, item ids from the sale id plus one) are those of that shared counter. A database gives each table its own sequence; the model's ids are fresh and distinct, but not the values a real database would hand out.
- Sales.PaymentUpdate: the sale id is a number. `req.params.id` is an unparsed string; a non-numeric id matches no row on SQLite and MySQL, where the handler still answers success, and makes the query throw on PostgreSQL, where the handler answers 500. That path is not modelled.
- Sales.SumSubtotals: item subtotals are integers. `parseFloat` and floating-point addition are not modelled.
- `new Date().toISOString()` becomes the `now` parameter. `req.user.id` becomes `staffId`.
- Sales.UnpaidSalesQuery: `q` is a string or absent. An array-valued query parameter is not modelled.
- The second, totals query of `getUnpaidSales`, and the other handlers of the controller, are not part of this model.
- Text.Upper and Text.Lower change ASCII letters only. JavaScript's full Unicode case mapping is not modelled. Whitespace for `trim` and `\s` is JavaScript's full set.
- Scanner.InstantiatePlain: `template.replace('$1', arg)` is modelled with all of its `$` patterns (`Scanner.Expand`). The clean statement is proved only for arguments without `$`.
- Asynchrony is left out. The model runs each request's steps in order, and two requests do not interleave.

## Findings

| source | as written | input that shows it | evidently intended | confidence | as-written member | corrected member |
|---|---|---|---|---|---|---|
| server/controllers/salesController.js:8-15 | the 400 for missing fields returns after `beginTransaction` with neither commit nor rollback; on SQLite all sessions share one handle, so its transaction stays open | on SQLite, a request without `items`, then any valid sale: the second BEGIN fails, its rollback is skipped because its `inTx` is clear, and it answers 500; this repeats for every later sale | validate before BEGIN, or roll back before answering 400, so that no path leaves a transaction open | not executed | Sales.StuckAfterBadRequest | Sales.RecoversAfterBadRequest |
