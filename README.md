# Stock tracking service: a verified model of its write handlers

The service keeps two SQLite tables: the product table `urunler` (id, name `ad`,
quantity `miktar`, unit `birim`, price `fiyat`, soft-delete flag `silindi`) and the
append-only stock-movement table `stok_hareketleri` (product id, kind `hareket_tipi`,
amount `miktar`, timestamp, note `aciklama`). Five HTTP handlers change them: create a
product, edit its name and price, soft-delete it, restore it, and record a stock
movement. Each one reads the tables, checks its rules, and either answers with an error
or updates a product row; creation, edits and movements also append to the movement log,
while soft delete and restore only flip the row's deletion flag.

The model keeps that shape:

- `wrappers.dfy` (`Wrappers`): `Option`, for JSON fields that may be absent. For the
  edit handler's name and price, `None` also covers an explicit null, which the code
  treats like an absent field. For the creation handler's quantity and unit, `None`
  means absent only; an explicit null there is not modelled (see "## Left out").
- `catalog.dfy` (`Catalog`): the product row, the active and trash listings, the
  duplicate-name `COUNT(*)` query, and the "no two active products share a name" property.
- `ledger.dfy` (`Ledger`): the movement row, the signed effect of a movement ("giris" adds,
  every other kind subtracts), and the per-product signed sum of the log.
- `edit_summary.dfy` (`EditSummary`): Python's `str.strip`, `str.join`, and the note
  written with every edit.
- `inventory.dfy` (`Inventory`): class `Store`, which holds both tables and the next id
  and has one method per handler. Each method returns a `Response` in place of an HTTP
  status. The class invariant `Valid()` holds the two structural invariants:
  - a product's stored quantity equals the part of its creation quantity that was never
    logged, plus the signed sum of its movements;
  - a quantity is negative only while it is still a negative creation quantity.
  These two hold after any sequence of calls. The invariant is stated on plain values
  (`Consistent`), with one lemma for each kind of state change.
- `scenarios.dfy` (`Scenarios`): client code that replays the documented behaviour using
  only the handlers' contracts. This includes the case where restoring a product leaves
  two active products with the same name.

Outcomes in place of HTTP codes: `Created(id)` (201), `Ok` (200), `Recorded(q)` (201 with
`yeni_miktar`), `Invalid(field)` (400, missing name or price), `Conflict` (400, duplicate
active name), `NotFound` (404), `InsufficientStock` (400, "Stok yetersiz").

The model keeps these behaviours of the code as they are:

- An absent price defaults to 0. Only an explicit null or `""` is rejected.
- Any movement kind other than `"giris"` subtracts, including unknown strings.
- Amounts are never checked for sign, at creation or in movements.
- A negative creation quantity is stored but not logged. The ghost field
  `Store.opening` records that unlogged part, so the ledger invariant holds for every
  product. For a product created with quantity >= 0, `opening` is 0 and the stored
  quantity is exactly the ledger sum (`Inventory.Store.QuantityIsLedgerSum`).
- Restore does not check names, so unique active names hold for create, update, delete
  and movements, but not for restore.
- Update accepts an empty new name.
- The edit handler's remark and the movement handler's amount and note are plain
  parameters: when the request leaves them out, the caller passes the code's defaults,
  `""` for the remark and note (app.py:107, app.py:200) and 0 for the amount (app.py:199).

## Model

| member | source | states |
|---|---|---|
| `Catalog.Active` | app.py:50-61 | the active listing holds exactly the rows with `silindi = 0`, no more rows than the table |
| `Catalog.Deleted` | app.py:63-68 | the trash listing holds exactly the rows with `silindi = 1` |
| `Catalog.ActiveDeletedPartition` | app.py:54-66 | every row is in exactly one of the two listings, and their sizes add up to the table's |
| `Catalog.CountNamed` | app.py:84-86 | the duplicate-name `COUNT(*)` (also at app.py:116, with the edited id excluded); its contract is `Catalog.CountNamedPositive`: positive iff an active row other than the excluded one has exactly that name |
| `Catalog.CountNamedPositive` | app.py:84-86 | the duplicate-name count is positive iff some active row (other than the edited one) has exactly that name |
| `Catalog.AddKeepsUniqueNames` | app.py:84-91 | inserting a row whose name no active row holds keeps active names unique |
| `Catalog.ChangeKeepsUniqueNames` | app.py:115-118 | changing a row keeps active names unique when it keeps its name, takes a name no other active row holds, or is deleted |
| `Ledger.EffectDirection` | app.py:208 | "giris" adds the amount; every other kind, known or not, subtracts it; a positive amount raises stock only for "giris"; amount 0 changes nothing |
| `Ledger.LedgerSumAppend` | app.py:212-216 | appending a movement changes one product's signed sum by that movement's effect, and only for its own product |
| `Ledger.LedgerSumUnreferenced` | app.py:88-93 | a product that no movement mentions (a fresh id) has signed sum 0 |
| `Ledger.Effect` | app.py:208 | the signed change a movement makes to the quantity; its contract is `Ledger.EffectDirection`: "giris" adds the amount, every other kind subtracts it |
| `Ledger.LedgerSum` | app.py:212-216 | the sum of the signed effects of one product's logged movements; its contracts are `Ledger.LedgerSumAppend` (an append changes only its own product's sum, by its effect) and `Ledger.LedgerSumUnreferenced` (0 for a fresh id), and `Inventory.Store.QuantityIsLedgerSum` ties it to the stored quantity |
| `EditSummary.TrimStart` | app.py:132 | result is a suffix of the input, everything cut is whitespace, and it does not start with whitespace |
| `EditSummary.TrimEnd` | app.py:132 | result is a prefix of the input, everything cut is whitespace, and it does not end with whitespace |
| `EditSummary.Trim` | app.py:132-133 | the stripped remark is empty iff the remark is blank; otherwise it starts and ends with non-whitespace |
| `EditSummary.TrimIsSlice` | app.py:133 | the stripped remark is the slice of the remark between its leading and trailing whitespace |
| `EditSummary.Changes` | app.py:123-127 | the change list holds a name change iff a new name is given and differs, a price change iff a new price is given and differs, and the name change first |
| `EditSummary.SummaryFormat` | app.py:128-131 | no changes give "Değişiklik yapılmadı."; one change gives its line; two give both lines joined by "; " |
| `EditSummary.EditSummaryFormat` | app.py:123-131 | the summary is the no-change marker, the rename line, the reprice line, or rename then "; " then reprice, according to what actually differs |
| `EditSummary.EditNoteRemark` | app.py:131-133 | the note is the summary, followed by "\nAçıklama: " and the stripped remark exactly when the remark is not blank |
| `EditSummary.ChangeText` | app.py:124-127 | the rename line and the reprice line; `EditSummary.EditSummaryFormat` states which of them appear in the note |
| `EditSummary.Join` | app.py:131 | Python's `"; ".join`; `EditSummary.SummaryFormat` states its result for the zero, one and two lines an edit can produce |
| `EditSummary.ChangeTexts` | app.py:123-127 | the lines appended to `degisimler`: one per change, in the change list's order, each that change's line |
| `EditSummary.Summary` | app.py:128-131 | the change lines joined by "; ", or the no-change marker; its contracts are `EditSummary.SummaryFormat` and `EditSummary.EditSummaryFormat` |
| `EditSummary.EditNote` | app.py:123-133 | the note of an edit movement, which `Inventory.Store.Update` logs; its contracts are `EditSummary.EditSummaryFormat` (the summary part, four cases) and `EditSummary.EditNoteRemark` (the stripped remark appended iff not blank) |
| `Inventory.CreationKeepsConsistent` | app.py:88-99 | a new row with the next id, plus an inbound "İlk ekleme" entry when its quantity is positive, keeps quantity = unlogged part + ledger sum and the non-negativity invariant |
| `Inventory.RowChangeKeepsConsistent` | app.py:135-147 | a row change that keeps id and quantity, with at most one amount-0 edit entry for that row, keeps both invariants |
| `Inventory.MovementKeepsConsistent` | app.py:207-216 | setting the quantity to current + effect, when that is >= 0, and appending the movement keeps both invariants |
| `Inventory.Store.constructor` | app.py:24-45 | empty tables, ids starting at 1, invariant established |
| `Inventory.Store.Lookup` | app.py:110 | finds a row by id only when its deletion flag is the one asked for |
| `Inventory.Store.Create` | app.py:70-100 | missing or empty name, then null or empty price, are rejected; an active row with the same name gives Conflict; all three change nothing. Otherwise one active row is appended with id = next id, quantity default 0, unit default "adet", price default 0. One "giris" entry "İlk ekleme" is logged iff quantity > 0. Invariants and unique active names are kept |
| `Inventory.Store.Update` | app.py:102-149 | a non-active id gives NotFound. Conflict iff the new name differs from the current one and another active row holds it. Both change nothing. Otherwise only the supplied name and price are applied (quantity, unit and flag untouched) and exactly one "duzenleme" entry with amount 0 and the edit note is appended |
| `Inventory.Store.WriteEdit` | app.py:135-148 | the row takes its new name and price and one amount-0 "duzenleme" entry with the given note is appended; invariants and unique active names are kept |
| `Inventory.Store.SoftDelete` | app.py:151-160 | only an active product is flagged deleted, nothing else changes and nothing is logged; otherwise NotFound and nothing changes |
| `Inventory.Store.Restore` | app.py:162-171 | only a deleted product is flagged active again, nothing else changes, nothing is logged and names are not checked; otherwise NotFound and nothing changes |
| `Inventory.Store.RecordMovement` | app.py:194-218 | an absent or deleted product gives NotFound. A new quantity current + effect below 0 gives InsufficientStock. Both change nothing. Otherwise the quantity is set to the new value (so it is >= 0) and exactly one entry with the given kind, amount and note is appended |
| `Inventory.Store.QuantityIsLedgerSum` | app.py:94-99 | for a product created with quantity >= 0, the stored quantity equals the signed sum of its movements and is not negative |
| `Scenarios.DeleteThenRestore` | app.py:151-171 | soft delete followed by restore leaves both tables exactly as they were |
| `Scenarios.PriceOnlyEdit` | app.py:123-147 | a price-only edit with a blank remark is logged with the price line alone and changes only the price |
| `Scenarios.NoChangeEdit` | app.py:123-147 | an edit that changes nothing leaves the products as they were and logs the no-change marker, plus the stripped remark if not blank |

## Left out

- Flask routing, JSON parsing, `jsonify`, HTTP status codes and CORS (app.py:1-10): handlers take typed arguments and return a `Response`.
- Request fields of other JSON types than the model's parameters are not modelled. The code accepts and stores some of them:
  - a non-zero number as the name at creation passes `if not ad` (app.py:77) and is stored as text by the TEXT column (app.py:88-91), answering 201;
  - a string price such as `"12"` passes the check at app.py:79 and is converted by the REAL column (app.py:32, app.py:88-91), answering 201;
  - a fractional quantity or amount such as 2.5 is accepted at creation (app.py:74, app.py:94) and in movements (app.py:199, app.py:208, app.py:212) and stored as a REAL in the INTEGER column; the model's quantities and amounts are integers;
  - an explicit null movement note (app.py:200) is stored as NULL, since `aciklama` allows NULL (app.py:41); the model's note is a string;
  - a number as the unit at creation (app.py:75) is stored as text by the TEXT column (app.py:31), answering 201;
  - a number as a movement's kind or note (app.py:198, app.py:200) is stored as text (app.py:38, app.py:41), answering 201; a numeric kind is not "giris" and subtracts (app.py:208);
  - a string product id such as `"1"` in a movement matches the lookup at app.py:203, since the INTEGER id column converts it, and the movement is recorded with 201.
- Some other such inputs end in a server error, which the model has no outcome for:
  - a string quantity such as `"5"` at creation is inserted and committed (app.py:88-92) before `miktar > 0` raises a TypeError (app.py:94): the answer is a server error, but the product exists with its quantity and without an "İlk ekleme" entry, so in the code itself that product's quantity is no longer its ledger sum;
  - an explicit null quantity or unit at creation survives `data.get` with a default (app.py:74-75) and fails the NOT NULL columns (app.py:88-91);
  - a null remark in an edit makes `strip()` raise (app.py:132);
  - a movement whose kind is absent or null (both give `None`, app.py:198) subtracts; if that leaves the stock below 0 the code still answers "Stok yetersiz" (app.py:209-210), otherwise the entry fails the NOT NULL kind column (app.py:213-216). The model's kind is always a string.
- Connection lifecycle (`get_db`, `close_db`), schema creation and the file-existence check (app.py:12-48), and `app.run` (app.py:220-222): this is I/O plumbing. Only the column defaults are kept.
- Commit boundaries and concurrency are outside a sequential model. Creation commits the product before its initial movement (app.py:92, app.py:99), and the read-check-write in the movement handler is not locked.
- Timestamps (`datetime.now()`) and row ids of movements are not modelled: the log is a sequence in insertion order.
- The movement listing `hareket_liste` (app.py:173-192) is not modelled. It joins each movement with the product's current name and orders by timestamp, newest first.
- The case-insensitive `LIKE` search of the active listing (app.py:56-58) is not modelled: it depends on SQLite collation. Only the active/trash partition is modelled.
- Prices are Dafny reals. Float rounding and NaN are not modelled. Both prices in an edit note's price line come from the one `priceText` function given to the store. In the code the old price (`{eski_fiyat}₺`) is the stored REAL, while the new price (`{yeni_fiyat}₺`, app.py:127) is the raw request value: JSON 15 prints as "15", but the same price read back from the table prints as "15.0". One function cannot give both texts.
- Inventory.Store.Create: integers are unbounded, while SQLite INTEGER is 64-bit and Python's `sqlite3` raises `OverflowError` when binding an int outside [-2^63, 2^63-1]. A creation quantity outside that range, or a JSON integer price outside it, fails at app.py:88-91 with a server error and nothing written; the model returns `Created` (its price is a real).
- Inventory.Store.RecordMovement: the same 64-bit bound is not modelled. A product id outside [-2^63, 2^63-1] makes the lookup at app.py:203 fail with a server error; the model returns `NotFound`. When the new quantity is >= 0, a new quantity or amount outside that range makes the code fail when binding it (app.py:212-216) with a server error and nothing committed; the model returns `Recorded`. A new quantity below 0 is never bound: the code answers "Stok yetersiz" (app.py:209-210), and so does the model.
- Inventory.Store.Update: a product id outside the 64-bit range makes the lookup at app.py:110 fail with a server error, and a JSON integer price outside that range fails when bound at app.py:136-142; the model returns `NotFound` for the id and `Ok` for the price (its price is a real).
- Inventory.Store.SoftDelete: likewise for the lookup at app.py:154.
- Inventory.Store.Restore: likewise for the lookup at app.py:165.
