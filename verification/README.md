# tinyapp helpers: a Dafny model

This project models the helper layer of tinyapp, a small URL-shortening web
application written for Node.js and Express. The helper layer is `helpers.js`.
It holds six helpers. This project models four of them; the other two,
`isValidURL` and `renderError`, are under "## Left out". The four are:

- `generateRandomString`: the short-id allocator. It tries up to `maxRetries`
  times (10 by default). Each try spells 6 characters from the 62-symbol
  alphabet `A–Z a–z 0–9`. It returns the first id that is not yet a key of the
  URL database, and it throws once every try has collided.
- `getUserByEmail`: a `for...in` scan of the users database. It returns the
  first user whose email is strictly equal to the query, or `null`.
- `getUserFromCookie`: reads `users[req.session.user_id]`, falling back to `null`.
- `urlsForUser`: builds a fresh object that holds the URL-database entries
  whose `userID` matches.

Modelling choices:

- A JavaScript object used as a dictionary is a `Tables.Table<V>`: the
  sequence of (key, value) pairs its `for...in` loop enumerates, in that order.
  A property read `t[k]` is `Tables.Get`. A stored record is always an object,
  so "truthy" means "key present".
- `Math.random` becomes an explicit input. This input is a sequence of
  `ShortIds.Draw`s, and each draw is 6 indices in `[0, 62)`. This makes the
  allocator a deterministic function. The sequence must hold at least
  `maxRetries` draws, which says the random source never runs dry.
- Each loop helper is modelled twice:
  - a recursive reference function with a declarative contract
    (`Generate`, `FirstUserWithEmail`, `OwnedBy`);
  - a method that follows the source's loops and is proved equal to it
    (`GenerateRandomString`, `GetUserByEmail`, `UrlsForUser`).
- The session's `user_id` is a `Users.SessionUserId`: unset, `null`, or a
  string.
- Values are immutable. So "the input database is not modified" holds by
  construction, and the filter's result is a new table.

Where the design description and the code differ, the model follows the code:

- The allocator's collision domain is the URL database object, not a set of
  keys.
- The id length is fixed at 6.
- Failure is an error carrying the message "Unable to generate a unique
  string after maximum retries.".
- `getUserByEmail` returns the first match in enumeration order and does not
  assume that emails are unique. `Users.FirstUserWithEmailUnique` covers the
  unique case.

## Model

| member | source | states |
|---|---|---|
| `Tables.Get` | helpers.js:15 | A property read gives nothing exactly when the key is absent. Otherwise it gives a value stored under that key, and with distinct keys it gives the value of that key's entry. |
| `ShortIds.CharactersAreRuns` | helpers.js:3-4 | The alphabet is the 26 upper-case letters, then the 26 lower-case letters, then the 10 digits, each run in code-point order. |
| `ShortIds.Symbol` | helpers.js:10-11 | Every index in [0, 62) selects an alphanumeric character: `A`+k below 26, `a`+(k-26) below 52, and `0`+(k-52) above that. |
| `ShortIds.IndexOf` | helpers.js:3-4 | Every alphanumeric character sits in the alphabet at some index. |
| `ShortIds.Spell` | helpers.js:8-12 | One attempt spells a string of exactly 6 alphanumeric characters. |
| `ShortIds.UnspellSpell` | helpers.js:8-12 | Different draws spell different ids, because the alphabet repeats no symbol. |
| `ShortIds.SpellUnspell` | helpers.js:8-12 | Every 6-character alphanumeric string is the id of some draw. |
| `ShortIds.Generate` | helpers.js:2-21 | A successful result is a 6-character alphanumeric id that is not a key of the URL database. Failure carries the "maximum retries" message. A budget of 0 or less always fails. |
| `ShortIds.GenerateFailsIffAllCollide` | helpers.js:7-20 | The allocator fails if and only if each of the first `maxRetries` draws spells an id already in the database. |
| `ShortIds.GenerateReturnsFirstFresh` | helpers.js:7-18 | If attempt k is within the budget and is the first attempt that does not collide, the allocator returns exactly that attempt's id. |
| `ShortIds.GenerateReadsOnlyBudget` | helpers.js:7-12 | The result depends only on the first `maxRetries` draws, so at most `maxRetries` draws are consumed. |
| `ShortIds.GenerateMoreRetries` | helpers.js:7-18 | Raising the retry budget never changes an allocation that already succeeded. |
| `ShortIds.GenerateRandomString` | helpers.js:2-21 | The nested attempt/character loops compute the reference allocator. A returned id is a fresh 6-character alphanumeric string. |
| `Users.FirstUserWithEmail` | helpers.js:24-32 | The result is absent exactly when no user has the email. Otherwise it is the first user in enumeration order whose email is exactly equal to the query. |
| `Users.FirstUserWithEmailUnique` | helpers.js:24-32 | When emails are unique, the lookup returns the one user that holds the email. |
| `Users.GetUserByEmail` | helpers.js:24-32 | The `for...in` scan returns what the reference lookup returns. |
| `Users.GetUserFromCookieAsWritten` | helpers.js:35-38 | The code as written finds a user exactly when the converted session value (`"undefined"`, `"null"` or the id) is a key, and returns a user stored under that key. |
| `Users.GetUserFromCookie` | helpers.js:35-38 | A user is found exactly when the session carries an id that is a key of the database. That user is the entry under the id. An unset or `null` id, or an unknown id, gives nothing. |
| `Users.NullSessionReadsNullKey` | helpers.js:36-37 | With a `null` session id, the code as written returns a user stored under the key "null"; with an unset one, a user stored under "undefined". In both cases the intended lookup returns nothing. |
| `Users.CookieLookupAgreesOnShortIds` | helpers.js:35-38 | When every user key is a 6-character id, the code as written and the intended lookup agree for every session. |
| `Urls.OwnedBy` | helpers.js:61-69 | Every result entry is an entry of the database, with key and value unchanged, and is owned by the user. Every database entry the user owns is in the result. The order is the database's enumeration order (see `Urls.OwnedByAppend`). |
| `Urls.OwnedByAppend` | helpers.js:63-65 | Filtering a database split into two parts gives the filtered first part followed by the filtered second part, so the result keeps the database's enumeration order. |
| `Urls.UrlsForUser` | helpers.js:61-69 | The `for...in` loop that copies owned entries into a fresh object computes the reference filter. |
| `Urls.OwnedByEmpty` | helpers.js:62-68 | The result is empty exactly when the user owns no entry, which includes an empty database and an unknown user. |
| `Urls.OwnedByKeys` | helpers.js:63-66 | A key is in the result if and only if it is a database key whose entry the user owns. |
| `Urls.OwnedByDistinct` | helpers.js:62-68 | A database with distinct keys yields a result with distinct keys. |
| `Urls.OwnedByGet` | helpers.js:65 | Reading a key of the result gives the database's entry when the user owns it, and nothing otherwise. |
| `Urls.OwnedByIdempotent` | helpers.js:61-69 | Filtering the result again for the same user changes nothing. |
| `Scenarios.EmailLookupScenarios` | test/helpersTest.js:103-119 | "user@example.com" finds userRandomID's record. An unknown email finds nobody. |
| `Scenarios.DefaultBudgetScenario` | test/helpersTest.js:122-127 | With the default budget, a first draw that misses the mock database is returned, and it has 6 characters. |
| `Scenarios.ZeroRetriesScenario` | test/helpersTest.js:139-144 | A budget of zero throws the "maximum retries" error whatever the draws. |
| `Scenarios.UrlsForUserScenarios` | test/helpersTest.js:191-213 | The owner gets both mock entries. An unknown user gets nothing, and so does a query on an empty database. |
| `Scenarios.CookieScenarios` | test/helpersTest.js:229-249 | A stored session id finds its user. A `null` session id or an unknown id finds nobody. |

## Left out

- `isValidURL` (helpers.js:41-48) is not modelled. It only reports whether `new URL(url)` throws, and that parser (the WHATWG URL Standard) is not part of this model.
- `renderError` (helpers.js:51-58) is not modelled. It only calls the Express response methods `status` and `render`.
- express_server.js is not part of this model. That covers its routing, view rendering, in-memory stores and its older `generateRandomString`, which has no collision check.
- The other components of the wider design are not modelled: registration and password hashing, the URL store's create/update/delete, ownership checks and visit tracking. None of them lives in `helpers.js`.
- `Math.random` and `Math.floor` on floating point are replaced by the draw sequence, whose indices lie in [0, 62) by type.
- `ShortIds.Generate`: the retry budget is an integer. A fractional `maxRetries` (which in JavaScript runs up to its ceiling) and non-numeric values are not modelled.
- `Users.GetUserFromCookie`: a session value that is neither unset, `null` nor a string (a number, say) is not modelled.
- `Tables.Get` models own keys only. Keys inherited from `Object.prototype` (`constructor`, `toString`, ...) are not modelled. None of them has the 6-character shape of an allocated id.
- Enumeration order is taken as given by the table. JavaScript's rule (integer-like keys first, ascending) is not modelled.
- The source returns the stored user or entry object by reference. The model returns the value.

## Findings

| source | as written | input that shows it | evidently intended | confidence | as-written member | corrected member |
|---|---|---|---|---|---|---|
| helpers.js:36-37 | `users[userId]` with `userId` unset or `null` reads the key "undefined" or "null" | a session whose `user_id` is `null`, with a user stored under the key "null" (or an unset one, with a user under "undefined") | a session without a user id finds no user (the inline comment and test/helpersTest.js:238-242) | low: ids the allocator hands out never have those keys' shape; not executed | `Users.GetUserFromCookieAsWritten`, shown by `Users.NullSessionReadsNullKey` | `Users.GetUserFromCookie`, with `Users.CookieLookupAgreesOnShortIds` |
