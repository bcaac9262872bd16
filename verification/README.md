# Request gates of the food-truck marketplace API

This project models the request gates of the food-truck marketplace API in
Dafny. The gates are the Express middleware that runs before a route
handler. Each gate looks at the request's body fields, path parameters,
method, url and Authorization header. Some gates also read one database
table. Each gate then either calls `next()` or sends one JSON
`{ message }` response with a fixed status code.

Two source files are modelled:

- `api/middleware/index.js` holds the payload and store gates:
  - required-field validators for user edits, trucks, items, photos, truck
    ratings, item ratings and favorites;
  - primary-key existence checks for trucks, items and photos;
  - body-id/path-id match checks;
  - the rating/favorite uniqueness gate. On POST it rejects a (target, user)
    pair that is already stored. On PUT it requires the row named in the
    path to exist.
- `api/auth/auth-middleware.js` holds the authentication gates:
  - register/login body shape;
  - username availability;
  - the token payload;
  - token gating (`restricted`);
  - the self-only check (`restrictedId`).

Modules:

- `JsValues` (`js_values.dfy`) defines the JSON values a gate can see
  (`JsVal`), JavaScript truthiness (`Truthy`) and strict equality against
  the result of `parseInt`, where NaN is `None`.
- `JsParseInt` (`parse_int.dfy`) defines `parseInt(s)` with no radix. It
  skips leading white space, reads an optional sign, handles the `0x`
  prefix and reads the longest run of digits. The module also gives the
  decimal text of an integer and proves that `parseInt` reads it back.
- `Express` (`express.dfy`) defines the request and the four ways a gate
  can end:
  - `Next`: `next()` is called;
  - `Respond(status, message)`: one JSON response is sent;
  - `Fail`: an exception escapes the gate;
  - `Idle`: the gate returns having done neither.
- `Store` (`store.dfy`) holds the tables as immutable sequences of rows. It
  also models the one query shape the gates issue,
  `where(...).first()`:
  - the database reads a text binding as an integer key when the text is
    an optional sign followed by decimal digits;
  - the query builder refuses an `undefined` binding.
- `Middleware` (`middleware.dfy`) and `AuthMiddleware`
  (`auth_middleware.dfy`) hold the gates. A gate takes the tables as a
  value and returns no table, so no gate can change the store.

Notes on the code, which the model follows:

- The rating validators test the score only for truthiness, not for being a number (`api/middleware/index.js:123` and `:173`).
- Each validator sends one fixed message per entity, not one message per missing field.
- The existence gates call `next()` without handing the row on (`api/middleware/index.js:69-73`).
- The item id-match gate answers "item id in body must match params in path" (`api/middleware/index.js:190`), while `api/items/items.test.js:661` expects "item rating body must match params in path".

## Model

| member | source | states |
|---|---|---|
| `JsValues.FalsyValues` | api/middleware/index.js:50-57 | a presence check fails exactly on `undefined`, `null`, `false`, `0` and `""` |
| `JsParseInt.ParseIntWithoutDigits` | api/middleware/index.js:135 | a path text with no decimal digit is NaN, whatever white space or sign it holds |
| `JsParseInt.ParseIntLeadingDigit` | api/middleware/index.js:135 | text that starts with a digit and has no `0x` prefix gives a non-negative number |
| `JsParseInt.ParseIntDecimalPrefix` | api/middleware/index.js:184 | `parseInt` reads the decimal text of `n` back as `n` even when non-digit text follows it (`"12abc"` is 12) |
| `JsParseInt.ParseIntRoundTrip` | api/auth/auth-middleware.js:68 | `parseInt` inverts the decimal text of every integer |
| `Store.Where` | api/middleware/index.js:68 | `.first()` finds a row exactly when some row satisfies the condition and no binding is `undefined`; an `undefined` binding makes the query raise |
| `Store.DecimalTextSelectsKey` | api/middleware/index.js:66-74 | a path id written as the decimal text of `k` selects exactly the rows whose key is `k` |
| `Store.SqlIntegerAgreesWithParseInt` | api/middleware/index.js:133-144 | a path id that selects a row by its integer key is read by `parseInt` as that same key |
| `Middleware.RequireAll` | api/middleware/index.js:50-63 | a chain of `&&` tests passes iff every listed field is truthy; otherwise it answers 422 with the given message |
| `Middleware.CheckValidUserEdit` | api/middleware/index.js:22-38 | passes iff one of email, user_lat and user_long is truthy; on pass `req.userEdits` holds exactly those three fields and nothing else changes; otherwise 422 and the request is unchanged |
| `Middleware.ZeroLatitudeEditRejected` | api/middleware/index.js:25 | a body whose only field is `user_lat: 0` is refused with 422 |
| `Middleware.CheckSuppliedUserEdit` | api/middleware/index.js:22-38 | the corrected gate passes iff one of the three fields is supplied (not `undefined` or `null`), attaching the same edits |
| `Middleware.SuppliedUserEditExtendsOriginal` | api/middleware/index.js:22-38 | the corrected gate agrees with the original wherever the original passes, and also passes a zero latitude |
| `Middleware.CheckValidTruck` | api/middleware/index.js:40-64 | passes iff truck_name, truck_description, open_time, close_time, cuisine and user_id are all truthy; otherwise 422 "truck creation failed due to invalid truck object" |
| `Middleware.CheckValidItem` | api/middleware/index.js:76-86 | passes iff item_name, item_description, item_price and truck_id are all truthy; otherwise 422 with the item message |
| `Middleware.CheckValidPhoto` | api/middleware/index.js:98-108 | passes iff photo_url, item_id and user_id are all truthy; otherwise 422 with the photo message |
| `Middleware.CheckValidTruckRating` | api/middleware/index.js:120-131 | passes iff user_id, truck_id and truck_rating are all truthy; otherwise 422 with the truck rating message |
| `Middleware.CheckValidItemRating` | api/middleware/index.js:170-180 | passes iff user_id, item_id and item_rating are all truthy; otherwise 422 with the item rating message |
| `Middleware.CheckValidFavorite` | api/middleware/index.js:219-229 | passes iff user_id and truck_id are both truthy; otherwise 422 with the favorite message |
| `Middleware.ExistsGate` | api/middleware/index.js:66-74 | calls next iff some row's key is selected by the path parameter; otherwise 404 "could not find <noun> with id <param>"; a missing parameter makes the query raise |
| `Middleware.CheckTruckExists` | api/middleware/index.js:66-74 | calls next iff a truck row is selected by `truck_id`; otherwise 404 echoing the id |
| `Middleware.CheckItemExists` | api/middleware/index.js:88-96 | calls next iff an item row is selected by `item_id`; otherwise 404 echoing the id |
| `Middleware.CheckPhotoExists` | api/middleware/index.js:110-118 | calls next iff a photo row is selected by `photo_id`; otherwise 404 echoing the id |
| `Middleware.DecimalKeyFoundIffPresent` | api/middleware/index.js:66-118 | for a path id written as the decimal text of `k`, each existence gate (truck, item, photo) passes iff some row has key `k`, and otherwise echoes `k` in the 404 |
| `Middleware.IdsMatchGate` | api/middleware/index.js:133-144 | passes iff the body id is strictly equal to `parseInt` of the path parameter; otherwise 422 with the given message |
| `Middleware.CheckTruckIdsMatch` | api/middleware/index.js:133-144 | passes iff the body's truck_id is the number `parseInt` reads from the path; a string body id is always refused with 422 |
| `Middleware.CheckItemIdsMatch` | api/middleware/index.js:182-193 | passes iff the body's item_id is the number `parseInt` reads from the path; a string body id is always refused with 422 |
| `Middleware.TruckIdsMatchDecimalPath` | api/middleware/index.js:133-144 | against a path holding the decimal text of `n`, possibly followed by non-digits, the gate passes iff the body's truck_id is the number `n` |
| `Middleware.ItemIdsMatchDecimalPath` | api/middleware/index.js:182-193 | against a path holding the decimal text of `n`, possibly followed by non-digits, the gate passes iff the body's item_id is the number `n` |
| `Middleware.NonNumericPathRejected` | api/middleware/index.js:133-144 | a path id without digits parses to NaN, and the id-match gate (truck or item) refuses with 422 whatever the body holds |
| `Middleware.PairGate` | api/middleware/index.js:146-167 | on POST it answers 422 "already exists" iff a row holds the body's (target, user) pair and passes otherwise; on PUT it passes iff a row has the path's key and otherwise answers 404; on any other method it does neither |
| `Middleware.CheckTruckRatingExists` | api/middleware/index.js:146-168 | the POST/PUT polarity for truck ratings, with the truck rating messages |
| `Middleware.CheckTruckRatingExistsAsMigrated` | api/middleware/index.js:146-168 | against `truck_ratings` as migrated (no `user_id` column), a POST with both bindings defined raises; an undefined binding raises as before; other methods behave as on the full table |
| `Middleware.MigratedTruckRatingPostRaises` | api/middleware/index.js:150-157 | for a stored truck rating, re-POSTing its pair raises on the migrated table, while the gate on a table with `user_id` answers 422 "truck rating already exists" |
| `Middleware.CheckItemRatingExists` | api/middleware/index.js:195-217 | the POST/PUT polarity for item ratings, with the item rating messages |
| `Middleware.CheckFavoriteExists` | api/middleware/index.js:231-253 | the POST/PUT polarity for favorites, with the favorite messages |
| `Middleware.RepeatedPostRejected` | api/middleware/index.js:150-157 | once a row is stored, POSTing its (target, user) pair again is refused with 422 "already exists" |
| `Middleware.PutIgnoresBody` | api/middleware/index.js:158-167 | two PUT requests with the same path parameters get the same outcome, whatever their bodies |
| `Middleware.PostPutPolarity` | api/middleware/index.js:150-166 | for a stored row, a POST naming its pair is refused while a PUT naming its key passes |
| `Middleware.ValidatedRatingNeverFaults` | api/middleware/index.js:120-157 | after `checkValidTruckRating` passes, the POST query of the truck rating gate always answers and never raises |
| `Middleware.ValidatedFavoriteNeverFaults` | api/middleware/index.js:219-242 | after `checkValidFavorite` passes, the POST query of the favorite gate always answers and never raises |
| `AuthMiddleware.CheckValidBody` | api/auth/auth-middleware.js:13-26 | on "/register" it answers 422 "username, email and password required" iff one of the three is falsy; on "/login" it answers 422 "username and password required" iff username or password is falsy; after those checks, or on any other url, a non-string password gets 422 "password must be a string"; otherwise next |
| `AuthMiddleware.AcceptedPasswordIsNonEmptyString` | api/auth/auth-middleware.js:17-25 | a body accepted on "/register" or "/login" carries a non-empty string password |
| `AuthMiddleware.LoginIgnoresEmail` | api/auth/auth-middleware.js:19-20 | on "/login" the email field never changes the outcome |
| `AuthMiddleware.CheckUsernameAvailable` | api/auth/auth-middleware.js:28-36 | answers 422 "username taken" iff a user row has the body's username; otherwise next |
| `AuthMiddleware.RegisteredUsernameTaken` | api/auth/auth-middleware.js:28-36 | once a user row is stored, a second registration with its username is refused |
| `AuthMiddleware.NumericUsernameTaken` | api/auth/auth-middleware.js:28-36 | a username stored as the decimal text of `k` is also taken for a body naming the number `k` |
| `AuthMiddleware.ValidRegisterBodyNeverFaults` | api/auth/auth-middleware.js:13-36 | after `checkValidBody` passes on "/register", the username query always answers and never raises |
| `AuthMiddleware.BuildToken` | api/auth/auth-middleware.js:38-47 | the payload's subject is strictly equal to exactly one integer, the user's key; its username is the user's username; the token is valid for 86400 seconds |
| `AuthMiddleware.Restricted` | api/auth/auth-middleware.js:49-64 | a missing or empty header gets 401 "token required"; a token the verifier rejects gets 401 "token invalid"; otherwise the decoded claims are attached and next is called |
| `AuthMiddleware.MissingTokenSkipsVerify` | api/auth/auth-middleware.js:52-53 | without a token the verifier is never consulted: any two verifiers give the same outcome |
| `AuthMiddleware.RestrictedId` | api/auth/auth-middleware.js:66-73 | calls next iff the token subject is strictly equal to `parseInt(req.params.id)`; otherwise 401 "invalid credentials"; with no decoded token the subject read raises |
| `AuthMiddleware.RestrictedIdDecimalPath` | api/auth/auth-middleware.js:66-73 | a decoded subject `k` passes against a path id holding the decimal text of `j` (then non-digits) iff `j == k`; any other `j` gets 401 |
| `AuthMiddleware.SignVerifyAxiomSatisfiable` | api/auth/auth-middleware.js:38-64 | the assumption made of `jwt.sign` and `jwt.verify` can be met: a reference signer and verifier satisfy it for every built token |
| `AuthMiddleware.OwnTokenOpensOnlyOwnPath` | api/auth/auth-middleware.js:38-73 | a token built for a user passes `restricted` within its day, then passes `restrictedId` iff the path id parses to the user's key; the user's own decimal id passes and every other decimal id gets 401 |

## Left out

- Express routing, `api/server.js` and `index.js` are left out. They are HTTP plumbing. The routers as shown also do not wire these gates consistently:
  - `api/items/items-router.js` uses `restrictedUserId`, which `api/auth/auth-middleware.js` does not export, and rating gates it never imports, one of which (`checkItemRatingIdsMatch`) exists nowhere;
  - `api/auth/auth-router.js` imports `checkValidUser`, which does not exist.
- The transitive ownership checks (item to truck to owner, photo to item to truck to owner) are left out. The item tests expect them, but no gate in these files implements them.
- Signing and verifying tokens are left out; they are done by the jsonwebtoken library. `sign` and `verify` are function parameters. `AuthMiddleware.SignVerifyAxiom` states what is assumed of them, for the tokens `buildToken` produces only: a token is never empty, and it verifies to its claims within its day of validity. `AuthMiddleware.SignVerifyAxiomSatisfiable` shows a pair meeting it. The clock is a parameter too.
- Password hashing and comparison with bcrypt are left out, because they belong to the routers, not to the gates.
- `decimalize` and price normalisation are left out. They depend on `parseFloat` and `toFixed` floating-point behaviour.
- The knex model files, the migrations and cascading deletes are left out. The tables are plain sequences holding only the columns the gates read: the keys, the rating/favorite pair columns and a user's username. The migration for `truck_ratings` declares no `user_id` column, although the gate queries one (see Findings). The main model gives every rating row a user id, as `item_ratings` has; `Middleware.CheckTruckRatingExistsAsMigrated` models the table as migrated.
- async/await and concurrency are left out. Each gate reads the tables once, as a value.
- `JsParseInt.ParseInt`: its result is the exact integer. A double would round values beyond 2^53, and the model does not.
- `JsParseInt.IntToDecimal`: it matches JavaScript's text of an integer only below 10^21 in magnitude. Larger numbers switch to exponent notation, which is not modelled.
- `Store.IntKeyMatches`: this is the model's choice of the database's comparison of a binding with an integer column. A number matches when it is equal to the key. Text matches when it is a signed decimal integer equal to the key. Booleans, `null` and objects match no row. White space around numeric text and engine-specific errors on malformed text are not modelled.
- `Store.TextKeyMatches`: a username matches a string binding holding the same text, or an integer-valued number binding whose decimal text is the username. The text the database gives a number with a fraction is not modelled; such a binding matches no row.
- `Express.Request`: the body is assumed to be a parsed object, as the JSON body parser provides. The Authorization header is a single string or absent. NaN never appears in a body. An overflowing literal such as `1e999`, which `JSON.parse` reads as `Infinity`, stands for a huge real: it is truthy and matches no key, as `Infinity` does, so no outcome changes.

## Findings

| source | as written | input that shows it | evidently intended | confidence | as-written member | corrected member |
|---|---|---|---|---|---|---|
| api/middleware/index.js:25 | the user-edit gate tests `email \|\| user_lat \|\| user_long` for truthiness | body `{ "user_lat": 0 }` (a user on the equator) gets 422 "user edits require a change to email, user_lat and/or user_long" | a coordinate of 0 counts as a change; only absent fields are missing | medium; not executed | `Middleware.ZeroLatitudeEditRejected` | `Middleware.CheckSuppliedUserEdit` |
| api/middleware/index.js:151-154 | the truck-rating POST looks rows up by `truck_id` and `user_id`, but the `truck_ratings` migration (`api/data/migrations/20210327094920_create-other-tables.js:68-79`) creates no `user_id` column | POST a truck rating `{ "truck_id": 1, "user_id": 1, "truck_rating": 5 }` on the migrated schema: the query raises, so no 422 and no `next()` | `truck_ratings` carries a `user_id` column, as `item_ratings` does, and the gate answers 422 or `next()` | high; not executed | `Middleware.MigratedTruckRatingPostRaises` | `Middleware.CheckTruckRatingExists` |
