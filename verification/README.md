# Mishka GDI inventory: stock movements, products and their logs

This project models the stock-movement core of the Mishka GDI inventory back end, a Go service
over PostgreSQL. It covers:

- the **products table** (`productos`): lookups by id and by code, the name-ordered listing, the
  low-stock listing, the text search, and the insert, update and delete statements;
- the two **movement logs**, which only ever grow: stock receipts (`entradas_productos`) and stock
  withdrawals (`salidas_productos`);
- the **services** on top of them:
  - a receipt is checked, appended to its log, and the product is then written back with its
    stock raised;
  - a withdrawal is checked (including stock sufficiency), appended, and the product is written
    back with its stock lowered;
  - product create, update and delete are guarded by the code, name, category and id checks.

## Modules

| File | Module | Contents |
|---|---|---|
| `wrappers.dfy` | `Wrappers` | `Option` and `Result` |
| `text.dfy` | `Text` | Go's `strings.TrimSpace` and `strings.ToLower`, substring containment, string order |
| `dates.dfy` | `Dates` | Go's `time.Parse` / `Format` with layout `2006-01-02`, calendar dates, instants |
| `sorting.dfy` | `Sorting` | a stable insertion sort and a filter, with their order and permutation facts |
| `domain.dfy` | `Domain` | the row types and the error types |
| `productos.dfy` | `Productos` | the product queries and the `ProductoRepository` class |
| `entradas.dfy` | `Entradas` | the receipt queries and the `EntradaRepository` class |
| `salidas.dfy` | `Salidas` | the withdrawal queries and the `SalidaRepository` class |
| `entrada_service.dfy` | `EntradaService` | receipt registration and guarded receipt queries |
| `salida_service.dfy` | `SalidaService` | withdrawal registration and guarded withdrawal queries |
| `producto_service.dfy` | `ProductoService` | product create, update, delete, lookup and the low-stock default |
| `ledger.dfy` | `Ledger` | the balance kept by fully applied movements, and how it drifts on a half-applied one |

## How it is modelled

**Repositories as classes.** Each Go repository becomes a class.
- The class holds its table as a field (`map<int, Producto>` for products, `seq<...>` for each
  log) and the table's id sequence.
- The write methods change only that object.
- Each write method takes a `fails` flag for the database refusing the statement (a connection
  failure, a constraint, an aborted statement).
- The database clock (`now()` for the creation and modification stamps) is a `now` parameter.

**Queries as functions.** Reads are pure functions over the table value.
- The products map is scanned in ascending id order.
- Ordered results are produced by a stable sort.
- Contracts state membership, multiplicities and sortedness, not the order of ties.

**Movement registration.** `Create` is a method over the log repository and the products
repository.
1. It makes the source's checks in the source's order. `Rejection` names the first check that
   fails.
2. It appends the movement (`Record`).
3. It writes the product back with its stock changed by exactly the quantity.

The append and the stock write are two separate statements: `appendFails` and `updateFails`
stand for the database refusing either one. A refused stock write leaves the movement in the log
with no stock effect (`LoggedOnly`). This is what the source does: it has no transaction and no
version column.

**No transaction around a movement.**
- The code has no transaction and no version column. The log append and the stock write are two
  independent statements, and the rollback is left as a TODO (service/salida_service.go:193,
  service/entrada_service.go:195).
- So the ledger equality `stock = Σ receipts − Σ withdrawals (+ initial)` is not an invariant of
  the system. The product update overwrites `stock_actual` directly, and product create takes
  `stock_actual` and `stock_inicial` independently.
- What does hold is `Ledger.RunKeepsBooks`. Along any run of fully applied receipts and
  withdrawals, each product's `stockActual − Σ receipts + Σ withdrawals` is unchanged, and stock
  that starts non-negative stays non-negative.
- `Ledger.SalidaLoggedOnlyDrifts` / `EntradaLoggedOnlyDrifts` and the two `...WithRefusedStockWrite`
  methods show that a half-applied movement moves that figure by exactly its quantity.

**Dates.** Dates follow Go's layout `"2006-01-02"`, which is the full-date form of section 5.6 of
RFC 3339:
- exactly four year digits, then two month digits and two day digits, separated by `-`;
- the month is 01–12, and the day exists in that month (leap years as in section 5.7 of
  RFC 3339);
- formatting writes a '-' for a negative year, and at least four year digits.

The receipt and withdrawal repositories reduce the date to its calendar day by formatting it and
parsing it back. That round trip is exact for years 0..9999 and fails (a time-parse error) for
any other year.

## Model

| member | source | states |
|---|---|---|
| Text.TrimSpace | service/salida_service.go:141 | the result is a middle slice of the input, the parts cut off at both ends are white space (Go's unicode.IsSpace set), and the result neither starts nor ends with white space |
| Text.IsSpaceAscii | service/salida_service.go:141 | the white space of `unicode.IsSpace` below U+0080 is exactly tab, newline, vertical tab, form feed, carriage return and space, and no letter or digit is white space |
| Text.BlankIffAllSpace | service/salida_service.go:141 | a user name is refused as blank exactly when every character of it is white space |
| Text.TrimSpaceIdempotent | service/producto_service.go:112-113 | trimming an already trimmed code or name changes nothing |
| Text.ToLower | repository/producto_repository.go:225 | same length, each character lowered, and no upper-case ASCII letter left |
| Text.StrLeTotal | repository/producto_repository.go:28 | the name order used by `ORDER BY nombre` relates any two names |
| Dates.DaysIn | service/salida_service.go:165 | every month has 28 to 31 days, and February has 29 exactly in leap years |
| Dates.PaddedDigitsLength | repository/entrada_repository.go:159 | formatting a number to a width gives at least that many digits, and exactly that many iff it fits |
| Dates.NumPaddedDigits | repository/entrada_repository.go:159 | reading formatted digits back gives the number |
| Dates.PaddedDigitsNum | service/entrada_service.go:158 | re-padding the value of a digit string to its own length gives the string back |
| Dates.FormatYear | repository/entrada_repository.go:159 | the year field has at least four characters, exactly four (all digits) iff the year is in 0..9999, and starts with '-' exactly for a negative year |
| Dates.FormatDate | repository/entrada_repository.go:159 | the formatted date is at least 10 characters, exactly 10 iff the year is in 0..9999, and ends with '-', two digits that read as the month, '-', two digits that read as the day |
| Dates.ParseDate | service/entrada_service.go:158 | an accepted date string has length 10 and a year in 0..9999 |
| Dates.FormatParseDate | service/entrada_service.go:158 | every accepted date string is exactly the formatting of the date it parses to |
| Dates.ParseFormatDate | repository/entrada_repository.go:159 | formatting a date and parsing it back returns the date iff its year is in 0..9999, and fails otherwise |
| Dates.InstantLeTotal | repository/entrada_repository.go:26 | the receipt-date order relates any two instants |
| Productos.Rows | repository/producto_repository.go:36-55 | the scan yields one row per product, and exactly the stored rows |
| Productos.RowsOnce | repository/producto_repository.go:36-55 | when every row sits under its own id, the scan yields each product exactly once |
| Productos.GetAll | repository/producto_repository.go:24-58 | every product exactly once (a permutation of the scan, as many rows as products), sorted by name |
| Productos.GetByID | repository/producto_repository.go:60-88 | a row is found iff the id is a key, and it is that key's row; otherwise "producto no encontrado" |
| Productos.GetByCodigo | repository/producto_repository.go:90-118 | a row is found iff some product has that code, and the row found has it; otherwise "producto no encontrado" |
| Productos.GetByCodigoUnique | repository/producto_repository.go:90-118 | with unique codes, the code lookup returns the one product holding the code |
| Productos.PutKeepsCodesUnique | repository/producto_repository.go:120-169 | writing a row whose code no other product holds keeps codes unique |
| Productos.GetStockBajo | repository/producto_repository.go:186-222 | exactly the products with stock at or below the limit, each as often as the scan yields it, ascending by stock |
| Productos.Search | repository/producto_repository.go:224-267 | with the term trimmed and lowered: all products if it is empty, otherwise exactly those whose lowered code or name contains it, each as often as the scan yields it; sorted by name |
| Productos.BlankSearchIsGetAll | repository/producto_repository.go:225-228 | a term made only of white space returns exactly the full listing |
| Productos.Assign | repository/producto_repository.go:143-147 | the updated row is the caller's record with the row's own id and stamps: the SET list covers every other column |
| Productos.ProductoRepository.constructor | repository/producto_repository.go:18-22 | an empty table whose id sequence starts at 1 |
| Productos.ProductoRepository.Create | repository/producto_repository.go:120-141 | succeeds iff the database accepts; then one row is added under a fresh positive id with both stamps `now`, and nothing else changes; on failure nothing changes |
| Productos.ProductoRepository.Update | repository/producto_repository.go:143-169 | succeeds iff the database accepts and the id exists; then exactly the seven data columns of that row are overwritten and the caller gets the row's modification stamp; otherwise "producto no encontrado" or a database error, with nothing changed |
| Productos.ProductoRepository.Delete | repository/producto_repository.go:171-184 | succeeds iff the database accepts and the id exists; then exactly that row is removed; otherwise "producto no encontrado" or a database error, with nothing changed |
| Entradas.GetAll | repository/entrada_repository.go:23-55 | a permutation of the log, latest receipt date first |
| Entradas.GetByID | repository/entrada_repository.go:57-83 | found iff some receipt has that id, and the one found has it; otherwise "entrada no encontrada" |
| Entradas.GetByProductoID | repository/entrada_repository.go:85-119 | exactly the product's receipts, with their multiplicities, latest receipt date first |
| Entradas.GetByFecha | repository/entrada_repository.go:121-155 | exactly the receipts of that day, with their multiplicities, most recently registered first |
| Entradas.EntradaRepository.constructor | repository/entrada_repository.go:17-21 | an empty log whose id sequence starts at 1 |
| Entradas.EntradaRepository.Create | repository/entrada_repository.go:157-188 | the log only grows; the append succeeds iff the date's year is in 0..9999 (otherwise a time-parse error) and the database accepts; the row appended is the receipt with a fresh increasing id, its date at midnight and both stamps `now`; on failure nothing changes |
| Salidas.GetAll | repository/salida_repository.go:23-54 | a permutation of the log, latest withdrawal date first |
| Salidas.GetByID | repository/salida_repository.go:56-81 | found iff some withdrawal has that id, and the one found has it; otherwise "salida no encontrada" |
| Salidas.GetByProductoID | repository/salida_repository.go:83-116 | exactly the product's withdrawals, with their multiplicities, latest withdrawal date first |
| Salidas.GetByFecha | repository/salida_repository.go:118-151 | exactly the withdrawals of that day, with their multiplicities, most recently registered first |
| Salidas.SalidaRepository.constructor | repository/salida_repository.go:17-21 | an empty log whose id sequence starts at 1 |
| Salidas.SalidaRepository.Create | repository/salida_repository.go:153-183 | the log only grows; the append succeeds iff the date's year is in 0..9999 and the database accepts; the row appended is the withdrawal with a fresh increasing id, its date at midnight and both stamps `now`; on failure nothing changes |
| SalidaService.Rejection | service/salida_service.go:127-171 | the first failing check in the source's order: product id ≤ 0, quantity ≤ 0, blank user, unknown product, stock below the quantity, malformed date; none fails iff the request is admissible |
| SalidaService.Stored | service/salida_service.go:173-179 | the withdrawal built from a request carries its product and quantity, a date that formats back to the request's date string, at midnight, notes and user stored trimmed (so a non-blank user is stored non-empty), and both stamps `now` |
| SalidaService.Create | service/salida_service.go:125-205 | a refused request returns that check's error and changes neither table; a refused append returns "Error al crear la salida" and changes nothing; a refused stock write returns "Error al actualizar el stock del producto" with the withdrawal logged and the stock untouched; otherwise exactly one withdrawal is appended (request's product, parsed date, quantity, trimmed notes and user) and that product's stock drops by exactly the quantity, staying ≥ 0, with every other field and product unchanged |
| SalidaService.Record | service/salida_service.go:173-198 | the two writes of an admitted withdrawal and their three outcomes, as in Create |
| SalidaService.GetByID | service/salida_service.go:46-67 | ids ≤ 0 are refused; otherwise found iff some withdrawal has that id, else the repository's "salida no encontrada" |
| SalidaService.GetByProductoID | service/salida_service.go:69-99 | ids ≤ 0 and unknown products are refused; otherwise exactly that product's withdrawals, each as often as in the log, latest date first |
| SalidaService.GetByFecha | service/salida_service.go:101-123 | refused iff the date string does not parse; otherwise exactly the withdrawals of that day, each as often as in the log, most recently registered first |
| EntradaService.Rejection | service/entrada_service.go:127-172 | the first failing check in the source's order: product id ≤ 0, quantity ≤ 0, blank user, unknown product, malformed date, negative price; none fails iff the request is admissible (an absent price is accepted) |
| EntradaService.Stored | service/entrada_service.go:174-181 | the receipt built from a request carries its product, quantity and price, a date that formats back to the request's date string, at midnight, notes and user stored trimmed (so a non-blank user is stored non-empty), and both stamps `now` |
| EntradaService.Create | service/entrada_service.go:125-207 | a refused request returns that check's error and changes neither table; a refused append returns "Error al crear la entrada" and changes nothing; a refused stock write returns "Error al actualizar el stock del producto" with the receipt logged and the stock untouched; otherwise exactly one receipt is appended (request's product, parsed date, quantity and price, trimmed notes and user) and that product's stock rises by exactly the quantity, with every other field and product unchanged |
| EntradaService.Record | service/entrada_service.go:174-200 | the two writes of an admitted receipt and their three outcomes, as in Create |
| EntradaService.GetByID | service/entrada_service.go:46-67 | ids ≤ 0 are refused; otherwise found iff some receipt has that id, else the repository's "entrada no encontrada" |
| EntradaService.GetByProductoID | service/entrada_service.go:69-99 | ids ≤ 0 and unknown products are refused; otherwise exactly that product's receipts, each as often as in the log, latest date first |
| EntradaService.GetByFecha | service/entrada_service.go:101-123 | refused iff the date string does not parse; otherwise exactly the receipts of that day, each as often as in the log, most recently registered first |
| ProductoService.Apply | service/producto_service.go:187-199 | the row gets the trimmed code and name, the request's category and price, the unit ("UNIDAD" for an empty one, otherwise the request's, so never empty) and the request's two stock figures; id and stamps stay the row's |
| ProductoService.Unidad | service/producto_service.go:106-109 | the unit stored is never empty: an empty one becomes "UNIDAD", any other is kept |
| ProductoService.CreateRejection | service/producto_service.go:72-104 | the first failing check in the source's order: blank code, blank name, a given positive category that does not exist, trimmed code already in use; none fails iff all pass |
| ProductoService.Create | service/producto_service.go:70-134 | a refused request returns that check's error and changes nothing; a refused insert returns "Error al crear el producto" and changes nothing; otherwise one row is added under a fresh id with trimmed code and name, the unit default, and stock figures taken from the request as given; unique codes stay unique |
| ProductoService.UpdateRejection | service/producto_service.go:137-185 | the first failing check in the source's order: id ≤ 0, blank code, blank name, unknown product, a given positive category that does not exist (then a code held by another product) |
| ProductoService.UpdateDuplicateMeansOther | service/producto_service.go:179-185 | with unique codes, an update is refused as duplicate iff another product holds the trimmed code, and its own current code is accepted |
| ProductoService.Update | service/producto_service.go:136-214 | a refused request returns that check's error and changes nothing; a refused write returns "Error al actualizar el producto" and changes nothing; otherwise only that product's row changes, to the request's trimmed code and name, category, unit default, price and both stock figures; unique codes stay unique |
| ProductoService.Delete | service/producto_service.go:216-245 | refused for id ≤ 0, for an unknown product ("Producto no encontrado") and for a refused delete, each iff its condition holds and with nothing changed; otherwise exactly that product is removed |
| ProductoService.GetByID | service/producto_service.go:47-68 | ids ≤ 0 are refused; otherwise found iff the product exists, else the repository's "producto no encontrado" |
| ProductoService.EffectiveLimite | service/producto_service.go:248-250 | a negative limit becomes 5; a non-negative one is kept; the result is never negative |
| ProductoService.GetStockBajo | service/producto_service.go:247-263 | exactly the products with stock at or below the effective limit (5 for a negative limit), each as often as the scan yields it, and each exactly once when every row sits under its own id; ascending by stock |
| Domain.ServiceError.Message | service/salida_service.go:127-198 | every failure of a service's own has a non-empty response text, and a repository's not-found error passes its own message through; the same holds for the texts of service/entrada_service.go:127-200 and service/producto_service.go:72-245 |
| Ledger.EntradasTotalAppend | service/entrada_service.go:183 | appending a receipt adds its quantity to its own product's total only |
| Ledger.SalidasTotalAppend | service/salida_service.go:181 | appending a withdrawal adds its quantity to its own product's total only |
| Ledger.StepKeepsBooks | service/salida_service.go:181-191 | one fully applied movement keeps the product set, every product's stock − receipts + withdrawals, and keeps each product's stock non-negative if it was |
| Ledger.RunKeepsBooks | service/entrada_service.go:183-193 | any run of fully applied receipts and withdrawals keeps every product's stock − receipts + withdrawals and never makes a non-negative stock negative, product by product (and so keeps a table with no negative stock free of it) |
| Ledger.SalidaLoggedOnlyDrifts | service/salida_service.go:191-198 | a withdrawal logged without its stock write raises that product's stock − receipts + withdrawals by its quantity, so the books no longer hold |
| Ledger.EntradaLoggedOnlyDrifts | service/entrada_service.go:193-200 | a receipt logged without its stock write lowers that figure by its quantity |
| Ledger.WithdrawalWithRefusedStockWrite | service/salida_service.go:181-198 | running the withdrawal service with the stock write refused returns the stock-update error, leaves the products table as it was, grows the log by one and shifts the product's balance by the quantity |
| Ledger.ReceiptWithRefusedStockWrite | service/entrada_service.go:183-200 | the same for the receipt service, with the balance shifted down |

## Left out

- The HTTP layer (Gin handlers, routing, response envelopes and their success messages), configuration, the database pool and start-up are not part of this model. DTO binding tags (`binding:"required"`, `min=1`) are not modelled; the services' own checks are.
- The category repository is not part of this model. The existing category ids are a `set<int>` parameter of product create and update.
- The service `GetAll` and `Search` wrappers only pass the repository's result through in a response, so they have no model of their own. The listings are `Productos.GetAll`, `Productos.Search`, `Entradas.GetAll` and `Salidas.GetAll`.
- Failures of the read queries (a lost connection during a lookup or a listing) are not modelled; only writes take a failure flag. In particular the services ignore the error of the code lookup, so a failing lookup would let a duplicate code through; the model's lookup always answers.
- Concurrency is not modelled: each operation runs alone, and two movements cannot interleave between check and write.
- `stock_actual` and `cantidad` are unbounded integers. Go's `int` overflow on `StockActual += Cantidad` is not modelled.
- Prices are `real`, not IEEE doubles.
- Timestamps are natural numbers from the `now` parameter. Time zones and the time of day of movement dates are not modelled: every stored movement date is a calendar day at midnight.
- Text.ToLower: lowers ASCII letters only, where Go's `strings.ToLower` and SQL `LOWER` lower every Unicode letter.
- Productos.Search: the term is matched as a plain substring. `%` and `_` inside the term, which SQL `LIKE` treats as wildcards, are taken literally.
- Productos.GetAll: names are ordered by code point, not by the database collation; equal names (and, in the other listings, equal sort keys) come out in an unspecified order.
- Productos.GetByCodigo: when several products share a code (the table has no unique constraint in the model), which one the database returns is not specified; the model returns the lowest id.
- Productos.ProductoRepository.Update: the modification stamp returned is the row's stored one. A database trigger that refreshes `fecha_actualizacion` on update is not part of this model.
- Entradas.GetByFecha, Salidas.GetByFecha: they take the parsed calendar date. The source passes the date string to the database, which compares it with the stored date column; the services only call them after the same string parsed.
- The repositories' `Create` methods take the whole record and ignore its id and stamps, as the source's INSERT does.
