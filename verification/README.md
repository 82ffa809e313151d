# Product catalogue service: handler model

This project models the request-handling layer of a small product-catalogue
REST service written in Go. The service keeps one table, `products`. Each
row is a `Product` record with four text fields: id, name, price and
quantity. The id is the primary key. Five handlers serve the table:

- list, with `page`/`limit` pagination;
- get one by id;
- create;
- partial update by id;
- delete by id.

Each handler is modelled as a Dafny method that runs atomically against a
`Database` object. That object holds the table as a `seq<Product>` in
storage order. The SQL statements the handlers issue are modelled as pure
functions over that sequence:

- `Lookup` for `SELECT … WHERE id = $1`;
- `Insert` for `INSERT`;
- `Replace` for `UPDATE … WHERE id = $4`;
- `Remove` for `DELETE … WHERE id = $1`;
- `Window` for `LIMIT $1 OFFSET $2`.

Lemmas about those functions state what each statement does to the rest of
the table.

Modules:

- `Wrappers`: `Option`. It stands for a query parameter that did not parse,
  a body that did not decode, and a row that is not there.
- `Products`: the record and the update merge rule.
- `Table`: the table invariant (distinct ids, no empty field) and the
  abstract SQL statements.
- `Paging`: parameter defaulting, the offset, and how successive pages
  cover the table.
- `Server`: status codes, response payloads, the `Database` class and the
  five handlers.
- `Scenarios`: the create and list cases of the integration tests
  (main_test.go:16-60, 226-243), and one create/get/update/delete sequence
  composed from the handler contracts.

The handlers keep the service's unusual status codes. A page past the end
gives 404. An absent id in get-one, update and delete gives 500. A failed
insert gives 409. The update response echoes the id from the request
body, not the id from the query. A body without an id therefore comes
back with an empty id, while the stored row keeps the query id.
`Scenarios.CatalogScenario` shows this. This follows main.go:160,
which returns the merged body record.

The text of errors produced by the JSON binder or the database driver is
passed through to the client verbatim. The model keeps only where such a
text comes from (`Reported(Decoder)` or `Reported(Driver)`), not its
wording. The messages the handlers write themselves are kept word for
word.

## Model

| member | source | states |
|---|---|---|
| `Products.Merge` | main.go:142-152 | the merged record carries the body's id; each of name, price and quantity is the stored value exactly when the body's value is empty, and the body's value otherwise |
| `Products.MergeEmptyBodyKeepsStored` | main.go:142-152 | a body with name, price and quantity all empty yields the stored record, apart from the id |
| `Products.MergeCompleteBodyWins` | main.go:142-152 | a body with every field set is returned unchanged |
| `Products.MergeKeepsComplete` | main.go:142-152 | merging over a stored row without empty fields never produces an empty field |
| `Products.MergeIdempotent` | main.go:142-152 | merging the merged record again over the same stored row changes nothing |
| `Products.MergeReplay` | main.go:142-154 | replaying a PUT with the same body over the row the first PUT wrote gives the same record again |
| `Products.MergeSuccessive` | main.go:142-152 | two successive updates equal one update whose body is the second body merged over the first |
| `Table.LookupFirst` | main.go:85 | when some row has the id, the lookup returns the first such row in storage order |
| `Table.Lookup` | main.go:85-88 | the lookup finds a row exactly when some row has the id; a found row has that id and is in the table |
| `Table.LookupAt` | main.go:85 | in a table with distinct ids, looking up any row's id finds that very row |
| `Table.Insert` | main.go:109 | an insert adds exactly the new row after the existing rows, which are kept |
| `Table.InsertDistinct` | main.go:109-112 | inserting under a fresh id keeps the primary key distinct |
| `Table.LookupAfterInsert` | main.go:109-115 | after an insert under a fresh id, that id finds the inserted record field for field, and every other id finds what it found before |
| `Table.Remove` | main.go:182 | after a delete no row has the id, and the table has not grown |
| `Table.RemoveKeeps` | main.go:182 | a row survives a delete exactly when it was in the table and its id differs from the deleted one |
| `Table.RemoveAbsent` | main.go:182 | deleting an id that no row has leaves the table unchanged |
| `Table.RemoveAt` | main.go:176-188 | with distinct ids, deleting the id of row k removes exactly that one row and keeps the others in order |
| `Table.RemoveWellFormed` | main.go:182 | a delete keeps the ids distinct and the rows complete |
| `Table.LookupAfterRemove` | main.go:182 | after a delete, the deleted id finds nothing and every other id finds what it found before |
| `Table.Replace` | main.go:154 | an update rewrites exactly the rows with the query id and keeps every other row and the order |
| `Table.ReplaceWellFormed` | main.go:142-154 | writing back a complete record under the query id keeps the ids distinct and the rows complete |
| `Table.LookupAfterReplace` | main.go:154 | after an update of a present id, that id finds the new record and every other id finds what it found before |
| `Table.Window` | main.go:56-72 | the query returns min(limit, rows - offset) rows, the rows at positions offset, offset+1, … in table order, and nothing past the end |
| `Paging.ParamOr` | main.go:31-39 | a parameter is at least 1; a parsed value of at least 1 is kept; anything else becomes the default |
| `Paging.OffsetNext` | main.go:41 | page p + 1 starts exactly where page p ends |
| `Paging.InRangeIff` | main.go:41-54 | the offset is inside the table exactly when the page number is at most the number of pages |
| `Paging.PagesCoverRest` | main.go:41-74 | over one table seen unchanged and in one storage order by every request, the pages from p onward together hold exactly the rows from p's offset to the end, in order |
| `Paging.AllPagesListTable` | main.go:41-74 | over one table seen unchanged and in one storage order by every request, asking for pages 1, 2, … until the 404 returns every row exactly once, in that order |
| `Server.Database.constructor` | main.go:213-215 | the service starts with an empty, well-formed table |
| `Server.GetProducts` | main.go:26-77 | 404 "Page out of range" exactly when the defaulted offset is at or past the row count; otherwise 200 with exactly the window of rows at that offset; the table is never changed |
| `Server.GetProduct` | main.go:80-93 | 200 exactly when a row has the id, with a stored row of that id; otherwise 500 with a driver error |
| `Server.AddProduct` | main.go:96-117 | undecodable body gives 400, an empty field gives 400 "Empty field", a taken id gives 409, each leaving the table unchanged; otherwise 201 echoing the body, with the row inserted; the table stays well-formed |
| `Server.UpdateProduct` | main.go:120-162 | an empty query id gives 400 before the body is looked at; an undecodable body gives 400; an absent id gives 500, each leaving the table unchanged; otherwise 200 with the merged record, and only the rows with the query id are rewritten, keeping that id; the table stays well-formed |
| `Server.DeleteProduct` | main.go:165-191 | an empty id gives 400 and an absent id gives 500, each leaving the table unchanged; otherwise 204 with no body, and exactly the one row with that id is gone, the others kept in order |
| `Scenarios.CreateScenario` | main_test.go:226-243 | from an empty table: create 201, create without id 400, duplicate create 409, all-empty body 400; only the first record is stored |
| `Scenarios.CatalogScenario` | main.go:80-191 | from an empty table, the handlers composed: create 201, get 200, partial update 200 keeping unset fields and answering with the body's empty id, get 200 with the merged row under the query id, delete 204, get 500, delete without id 400, delete again 500 |
| `Scenarios.PagingScenario` | main_test.go:16-60 | over 30 rows, (page, limit) = (1, 5), (2, 10), (1, 30) return 5, 10 and 30 rows, and (3, 15) gives 404 |

## Left out

- Database failures that the table state does not decide are not modelled: a lost connection, a failing `COUNT(*)`, a failed query or row scan, a failing write-back in update or delete. In the service each gives 500 with the driver's text, or 409 in create, where any failed INSERT answers 409 (main.go:110-111). The list handler is the exception for a query that fails while its rows are being read: main.go:64-74 never checks `rows.Err()`, so such a failure answers 200 with the rows read so far, or JSON `null` if none were read. A failed lookup in get-one, update or delete (main.go:85-88, 136-139, 176-179) also answers 500 when the row does exist; the model answers 500 there only when the row is really absent.
- JSON decoding and `strconv.Atoi` are not re-implemented. A request body is an `Option<Product>`, and `page`/`limit` are an `Option<int>` that is `None` when parsing fails.
- Go's 64-bit `int` is not modelled. `(page-1)*limit` at main.go:41 can overflow for huge parameters; the model's integers are unbounded.
- The schema declares the id column `SERIAL` (db/db.go:32). The handlers, and this model, treat ids as arbitrary text. A create whose id the database cannot convert would fail with 409; that case is not modelled. Texts that name the same number (such as "01" and "1") are one key in the database but distinct keys in the model, so the model answers 201 where the database would answer 409, and 500 where a get would find the row. The database also reads ids back in their canonical text, so creating "031" and then getting "031" answers with id "31"; the field-for-field round trip of `Table.LookupAfterInsert` holds in the service only for ids already in canonical form.
- Row order is fixed as an abstraction. The list query has no `ORDER BY`, so the service does not promise any order. The model keeps one storage order, and a created row goes last.
- Paging.AllPagesListTable and Paging.PagesCoverRest hold only under that fixed storage order and for a table that no other request changes between the page requests; the service promises neither, since each page is a separate request and other clients may insert or delete rows in between.
- Each handler is treated as atomic. The window between the read and the write in update is not modelled, and neither is the seeding goroutine racing with requests.
- The content of passed-through error texts is not modelled. Only the origin is kept: binder or driver.
- `main()` is not part of this model. That covers the unbounded connect-retry loop with its one-second sleep, the destructive schema creation, route registration and the delayed seeding from `data.json`. These are timing, concurrency and I/O.
- The database access layer, the command-line clients, the bootstrap scripts and the fixture loader are not part of this model. They only issue SQL or HTTP calls.
