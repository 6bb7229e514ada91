# Product/user REST API: persistence gateway and request handlers in Dafny

This project models the decision logic of a small Go CRUD service for products
and users with JWT login. It covers two layers:

- **The persistence gateway.** `ProductDB` and `UserDB` run over abstract
  tables. The product table is a sequence of rows in insertion order, and `id`
  is the primary key. The model covers listing with sort normalisation and
  offset/limit paging, lookup by id, probe-then-write `Update` and `Delete`,
  and lookup of a user by e-mail.
- **The request handlers.** Each handler is a pure function from the table
  and the request's observable outcomes to `(status, body, table')`. The
  handlers are `CreateProduct`, `GetProducts`, `GetProduct`, `UpdateProduct`,
  `DeleteProduct`, `GetJwt` and `CreateUser`.

internal/entity/product.go is outside this model. The contract of the
product constructor `NewProduct` and of `Validate` is the one their unit tests
pin down. The tests never combine an empty name with a bad price, so the order
of the two checks is an explicit `Precedence` parameter. The contract promises
neither order.

Inputs are modelled in three ways:

- Pure library functions are function-typed parameters: `strconv.Atoi`,
  `ParseID`, bcrypt's `CompareHashAndPassword` (`validatePassword`) and the JWT
  signer (`encode`).
- Values drawn from the outside world are plain inputs: the UUID (`FreshId`),
  the clock (`now`: a nanosecond timestamp when it becomes a product's
  `createdAt`, whole Unix seconds for the token expiry), the salted bcrypt hash (`HashOutcome`)
  and a storage-engine failure of a write or listing statement (`fault`).
- A request body is represented by the outcome of decoding it (`Decoded<T>`).

Go's 64-bit `int` wrap-around is modelled explicitly (`GoInt.Wrap`). It
appears in the paging offset `(page - 1) * limit` and in the token expiry
`time.Second * Duration(JwtExpiresIn)`.

Files: `wrappers.dfy`, `goint.dfy`, `id.dfy`, `database.dfy` (shared helpers);
`product.dfy`, `user.dfy` (entities); `creation_order.dfy` (`ORDER BY
created_at`); `product_db.dfy`, `product_db_properties.dfy`, `user_db.dfy`,
`user_db_properties.dfy` (gateways); `http.dfy`, `product_handler.dfy`,
`user_handler.dfy` (handlers).

### Behaviour worth noting

- `NewUser` performs no field validation (internal/entity/user.go:15-27). Its
  only failure is the hashing error. An empty name, e-mail or password is
  therefore accepted, and `CreateUser` returns 201.
- An empty `sort` is passed through unchanged
  (internal/infra/database/product_db.go:48-50), so the query orders by
  `created_at` in SQL's default ascending direction.
- Only `UpdateProduct` parses the path id. `GetProduct` and `DeleteProduct`
  pass the raw text to `FindByID`, so a malformed id gets 404, not 400.
- Only `CreateProduct` writes `{message}` error bodies. Every other failure
  status has an empty body.

## Model

| member | source | states |
|---|---|---|
| ProductEntity.NewProduct | internal/entity/product_test.go:9-38 | Fails exactly when the name is empty or the price is not positive. An empty name with a valid price gives NameIsRequired, a zero price gives PriceIsRequired, and a negative price gives InvalidPrice. Any failure is one of the pair's own violations. Success carries a non-empty id, the given name and price, and the creation time. |
| ProductEntity.Validate | internal/entity/product_test.go:40-44 | Returns no error exactly for a valid product (non-empty name, positive price). Otherwise it returns one of the product's violations, fixed by the test cases when only one rule is broken. |
| ProductEntity.NewProductValidates | internal/entity/product_test.go:40-44 | A freshly constructed product passes `Validate`, whichever check runs first. |
| ProductEntity.CombinedErrorsDependOnPrecedence | internal/entity/product_test.go:19-38 | With an empty name and a non-positive price, either error can win. The model does not fix which. |
| UserEntity.NewUser | internal/entity/user.go:15-27 | Fails exactly when hashing fails, passing the hashing error on. Otherwise the user has the fresh id, the given name and e-mail, and the hash in place of the password. |
| CreationOrder.SortAscending | internal/infra/database/product_db.go:52-54 | The rows ordered by creation time: ascending and a permutation of the table. |
| CreationOrder.SortAscendingKeepsSorted | internal/infra/database/product_db.go:52-54 | Rows already in creation order come back unchanged. |
| ProductDB.Create | internal/infra/database/product_db.go:16-18 | Succeeds exactly when the engine does not fail and the id is not yet stored. On success the row is appended and ids stay unique. A taken id is a DuplicateKey error. |
| ProductDB.FindByID | internal/infra/database/product_db.go:20-27 | Succeeds exactly when a row has the id, returning a stored row with that id. Under unique ids it is that row. An absent id gives RecordNotFound. |
| ProductDB.Save | internal/infra/database/product_db.go:34 | Writes every column of the row with the product's id, createdAt included. Without such a row it inserts. An engine failure changes nothing. |
| ProductDB.Update | internal/infra/database/product_db.go:29-35 | An absent id fails with the probe's RecordNotFound. A present id is overwritten by the new record and every other row is unchanged, unless the engine fails. |
| ProductDB.Delete | internal/infra/database/product_db.go:37-43 | An absent id fails with RecordNotFound. Otherwise, unless the engine fails, the id is no longer stored and exactly the rows with other ids remain. |
| ProductDB.NormalizeSort | internal/infra/database/product_db.go:48-50 | The result is always "", "asc" or "desc". Those three pass through unchanged, and anything else becomes "asc". |
| ProductDB.InCreationOrder | internal/infra/database/product_db.go:52-54 | A permutation of the table: descending by creation time for "desc", ascending otherwise (including ""). |
| ProductDB.Window | internal/infra/database/product_db.go:52 | A run of the ordered rows starting at the offset (a non-positive offset is dropped), at most `limit` long. A negative limit means no limit. |
| ProductDB.PageOffset | internal/infra/database/product_db.go:52 | Equals `(page - 1) * limit` whenever that fits in 64 bits, negative pages included. In every case it agrees with `(page - 1) * limit` modulo 2^64, as Go's wrapping multiplication does. |
| ProductDB.FindAll | internal/infra/database/product_db.go:45-57 | Fails exactly on an engine failure. With page or limit zero it returns the whole ordered table. With a non-zero page and a positive limit it returns `min(limit, rows left)` rows of the ordered table, starting at the 64-bit offset (a negative offset counts as 0). With a non-zero page and a negative limit no LIMIT applies, and it returns every ordered row from that offset on. |
| ProductDB.FindAllIsOrdered | internal/infra/database/product_db.go:45-57 | The listing only holds stored products. It is descending for "desc" and ascending for any other sort. |
| ProductDB.WindowOfOrdered | internal/infra/database/product_db.go:52 | A page keeps the order of the ordered table and shows only its rows. |
| ProductDBProperties.CreateThenFind | internal/infra/database/product_db_test.go:14-50 | After a successful create, looking the id up returns the created product itself. |
| ProductDBProperties.UpdateThenFind | internal/infra/database/product_db_test.go:70-80 | After a successful update, the id finds the new record and every other id finds what it found before. |
| ProductDBProperties.DeleteThenFind | internal/infra/database/product_db_test.go:101-105 | After a successful delete, the id is not found and every other id finds what it found before. |
| ProductDBProperties.DeleteRemovesFoundRow | internal/infra/database/product_db.go:38-42 | Under unique ids, deleting removes exactly the row the probe found. The others keep their order and the table shrinks by one. |
| ProductDBProperties.WithoutKeepsUniqueIds | internal/infra/database/product_db.go:42 | Deleting rows keeps the primary-key constraint. |
| ProductDBProperties.UpdateKeepsUniqueIds | internal/infra/database/product_db.go:29-35 | A successful update keeps the primary-key constraint. |
| ProductDBProperties.DeleteKeepsUniqueIds | internal/infra/database/product_db.go:37-43 | A successful delete keeps the primary-key constraint. |
| ProductDBProperties.UpdateIsNotAnUpsert | internal/infra/database/product_db.go:29-34 | For an absent id, `Save` alone would insert the row, but `Update` fails with RecordNotFound. |
| ProductDBProperties.NormalizeSortIsIdempotent | internal/infra/database/product_db.go:48-50 | Normalising twice is normalising once. The result is "desc" exactly for "desc". |
| ProductDBProperties.FindAllWithoutPaging | internal/infra/database/product_db.go:53-54 | With page or limit zero, the listing holds every stored product as often as it is stored. |
| ProductDBProperties.FindAllPage | internal/infra/database/product_db.go:51-52 | With page >= 1 and limit >= 1 and no overflow, the listing is the `min(limit, rows left)` rows of the ordered table from offset `(page - 1) * limit`. |
| ProductDBProperties.NegativePageIsFirstPage | internal/infra/database/product_db.go:51-52 | A negative page with a positive limit lists the same rows as page 1, when `(page - 1) * limit` does not overflow 64 bits. |
| ProductDBProperties.HugePageWrapsToFirstPage | internal/infra/database/product_db.go:52 | Page 2^32 + 1 of size 2^32 wraps the offset to 0 and lists page 1. |
| ProductDBProperties.InCreationOrderOfSortedTable | internal/infra/database/product_db.go:52-54 | A table filled in creation order lists as stored for "asc" and "" and reversed for "desc". |
| ProductDBProperties.TwentyThreeProductsAscending | internal/infra/database/product_db_test.go:108-130 | For 23 products created one after another, asc pages 1 and 2 of size 10 are products 1..10 and 11..20. |
| ProductDBProperties.TwentyThreeProductsDescending | internal/infra/database/product_db_test.go:132-142 | For the same products, desc pages 1 and 2 of size 10 are products 23..14 and 13..4. |
| ProductDBProperties.CreateLaterKeepsOrder | internal/infra/database/product_db_test.go:112-117 | Creating a product later than all stored ones keeps the table in creation order. |
| ProductDBProperties.UpdateCanReorder | internal/infra/database/product_db.go:34 | Because `Save` overwrites createdAt, an update can move a product ahead of an older one in the listing. |
| UserDB.Create | internal/infra/database/user_db.go:16-18 | Succeeds exactly when the engine does not fail and the id is not yet stored. On success the row is appended and ids stay unique. |
| UserDB.FindByEmail | internal/infra/database/user_db.go:20-28 | Succeeds exactly when some user has the e-mail. It returns a stored user with that e-mail whose key no other match precedes. Otherwise it gives RecordNotFound. |
| UserDBProperties.CreateStoresUnderId | internal/infra/database/user_db_test.go:24-34 | After a successful create, the row under the new id is the created user, with its name and e-mail. |
| UserDBProperties.CreateThenFindByEmail | internal/infra/database/user_db_test.go:51-59 | After a successful create, the e-mail lookup succeeds with that e-mail. If the e-mail was new, it returns the created user. |
| UserDBProperties.FindByEmailIsLeastKey | internal/infra/database/user_db.go:23 | The e-mail lookup returns the matching user whose key precedes all other matches, whatever the row order. |
| ProductHandler.CreateProduct | internal/infra/webserver/handlers/product_handler.go:37-60 | An undecodable body gives 400 with the decode error and no write. An invalid name or price gives 400 with `NewProduct`'s error, one of the input's violations, and no write. An engine failure or a taken id gives 500 with no write. Otherwise 201, the product is stored and found under its id. |
| ProductHandler.QueryInt | internal/infra/webserver/handlers/product_handler.go:80-88 | A parameter that fails integer parsing becomes 0. Otherwise it is the parsed value. |
| ProductHandler.GetProducts | internal/infra/webserver/handlers/product_handler.go:75-99 | Never writes. An engine failure gives 500. Otherwise 200 with the listing for the parsed page and limit and the unchanged sort. An unparseable page or limit lists the whole ordered table. |
| ProductHandler.GetProduct | internal/infra/webserver/handlers/product_handler.go:113-128 | Never writes. An empty id gives 400 and an absent id 404. 200 comes exactly for a stored id, with a stored product of that id as the body. |
| ProductHandler.UpdateProduct | internal/infra/webserver/handlers/product_handler.go:143-176 | An empty id, an undecodable body or an unparseable id gives 400. An absent id gives 404 without an update. An engine failure gives 500. Otherwise 200, and the decoded record with the path id in place of its own overwrites the row. Only 200 writes, and ids stay unique. |
| ProductHandler.DeleteProduct | internal/infra/webserver/handlers/product_handler.go:190-210 | An empty id gives 400 and an absent id 404, with no deletion. An engine failure gives 500. Otherwise 200: the id is gone, all other rows remain, and under unique ids exactly one row is removed. |
| ProductHandler.UpdateStoresInvalidProduct | internal/infra/webserver/handlers/product_handler.go:150-169 | The update is not re-validated, so a product with an empty name and a negative price replaces a valid one with status 200. |
| ProductHandler.CreateThenGet | internal/infra/webserver/handlers/product_handler.go:37-60 | A product created with 201 is then served by `GET /products/{id}` with 200 and exactly the created name, price and timestamp. |
| ProductHandler.UpdateThenGet | internal/infra/webserver/handlers/product_handler.go:143-176 | After an update with 200, `GET` on the parsed id serves the decoded record under that id. Every other id gets the same status and body as before. |
| ProductHandler.DeleteThenGet | internal/infra/webserver/handlers/product_handler.go:190-210 | After a delete with 200, `GET` on the same id answers 404. |
| UserHandler.ExpiresAt | internal/infra/webserver/handlers/user_handler.go:49 | The expiry claim is `now + JwtExpiresIn` whenever the window in nanoseconds fits in 64 bits. |
| UserHandler.TokenText | internal/infra/webserver/handlers/user_handler.go:47-56 | The access token is the signer's output. A signing error, which the handler ignores, leaves the empty token. |
| UserHandler.GetJwt | internal/infra/webserver/handlers/user_handler.go:28-61 | Never writes. An undecodable body gives 400. An unknown e-mail, or a password the found user's hash rejects, gives 401 with no token. Otherwise 200 with `{access_token}` signed over `sub` = that user's id and `exp` = the expiry. Any 200 belongs to a stored user whose hash accepts the password. |
| UserHandler.CreateUser | internal/infra/webserver/handlers/user_handler.go:63-84 | A decode or hashing failure gives 400 with no write. An engine failure or a taken id gives 500 with no write. Otherwise 201 and the new user is appended. Ids stay unique. |
| UserHandler.RegisterThenLogIn | internal/infra/webserver/handlers/user_handler.go:28-84 | When the e-mail is new and bcrypt accepts the password against its own hash, registering and then logging in yields 200 with a token for the new user's id. |
| UserHandler.HugeExpiryWrapsIntoThePast | internal/infra/webserver/handlers/user_handler.go:49 | A window of ten billion seconds overflows the nanosecond duration, and the token expires before it is issued. |

## Left out

- JSON decoding and encoding, chi routing, `strconv.Atoi`, `uuid.Parse`, bcrypt and JWT signing are abstract. Each is represented by its outcome or by a function parameter. The wire format, including JSON field names, is not modelled.
- The bearer-token middleware that guards the product routes is an external collaborator and is not modelled.
- Configuration loading, `main`, the validator singleton and the `Content-Type` header are left out as I/O or wiring with no decision logic.
- `GetJwt` writes the token body before calling `WriteHeader(200)`. Writing the body already sends status 200, so the later call has no effect, and the model returns 200.
- ProductDB.FindByID: a lookup fails only when no row matches. A storage-engine failure during a read is not modelled, and in the source it would also map to 404 in the handlers.
- UserDB.FindByEmail: as for `FindByID`, read-side engine failures are not modelled (the source maps them to 401). Keys are compared byte by byte, which agrees with any collation on lower-case UUID text.
- ProductDB.InCreationOrder: rows with equal creation times have no order promised, as in SQL. The model's stable sort is one admissible choice.
- ProductDB.Window: the `LIMIT`/`OFFSET` rendering (a negative limit and a non-positive offset are omitted) is taken from the query builder, which is not part of this model.
- The race between the existence probe and the write in `Update` and `Delete` is out of scope, because requests are modelled one at a time.
- UserHandler.ExpiresAt: the clock is read in whole seconds, so the sub-second part of `time.Now()` is not modelled.
- Float prices are modelled as `real`, because only comparisons with zero matter. Float rounding is not modelled.
- The snapshot does not type-check. `NewUser` declares an unused leading `id` parameter but is called with three arguments, and draws the id from `uuid.New()`, and `user.ID` is a string on which `.String()` is called. The model uses the three-argument call and the string id.
- Error message texts are not modelled. An error body carries the error itself (`Cause`).
