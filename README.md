# User record service — a Dafny model

The service keeps one collection of user records (name, age, email, optional
address) in a document store and exposes four handlers: a paginated,
searchable list, and create, update and delete by identifier. This project
models the part of `server.js` that carries logic:

- `schema.dfy` (module `Schema`): the Mongoose schema. A request body is four
  optional fields; `Violations` gives, field by field, the first constraint
  that fails (required, then minimum length or minimum age, then whole-number
  age or the email pattern `^\S+@\S+\.\S+$`). The pattern is stated by
  indices (`IsEmail`) and proved equal to its literal reading as three
  non-empty whitespace-free runs joined by `@` and `.`.
- `search.dfy` (module `Search`): the list filter. An empty search matches
  every record; otherwise a record matches when its name, email or address
  contains the search text after case folding. The folding function is a
  parameter.
- `paging.dfy` (module `Paging`): `parseInt(q) || default` for `page` and
  `limit`, `skip = (page - 1) * limit`, the window of filtered records one page
  shows, the total, and `totalPages = ceil(total / limit)`, with the pages
  proved adjacent, non-overlapping and together equal to all matches.
- `store.dfy` (module `Store`): the collection as a class holding a map from
  identifier to record and the next identifier to hand out. `Create`,
  `Update` and `Delete` change the map and state the whole new map;
  `Valid()` says every stored record satisfies the schema, sits under its own
  identifier and has an email no other record has. `List` reads a snapshot in
  ascending identifier order.

Outcomes are abstract: `Invalid` and `DuplicateEmail` are the handlers' 400
answers, `NotFound` the 404, `Paging.NegativeSkip` the list handler's 500.

Two behaviours of the code that a reader may not expect:

- `page` and `limit` are not forced positive. Only 0 and NaN fall back to the
  defaults, so a negative value is used as it is. A negative skip is refused
  by MongoDB (the list answers 500). A negative limit is sent by the MongoDB
  driver as its absolute value, and `totalPages` is then zero or negative.
- Update runs with `runValidators: true`. Mongoose runs the update
  validators before the query reaches the store. So an invalid body is
  answered with a validation error (400) even when the identifier does not
  exist; only a valid body on a missing identifier gives 404.

## Model

| member | source | states |
|---|---|---|
| `Schema.EmailShapeIff` | server.js:40 | the index characterisation of the email pattern holds exactly when the string splits as non-empty, whitespace-free local part, `@`, domain, `.`, suffix |
| `Schema.NameViolations` | server.js:22-26 | exactly one violation or none: NameRequired exactly when the name is absent or empty, NameTooShort exactly when it is present but shorter than 2, none exactly when it has length at least 2 |
| `Schema.AgeViolations` | server.js:27-35 | exactly one violation or none: AgeRequired exactly when absent, AgeBelowMin exactly when below 0, AgeNotInteger exactly when at least 0 but not whole, none exactly when a whole number at least 0 |
| `Schema.EmailViolations` | server.js:36-41 | exactly one violation or none: EmailRequired exactly when absent or empty, EmailMalformed exactly when present but not matching the pattern, none exactly when it matches |
| `Schema.Violations` | server.js:21-45 | no violation exactly when name has length at least 2, age is a whole number at least 0 and email matches the pattern; address is unconstrained; at most three violations, and each of the seven kinds is reported exactly when its condition holds |
| `Schema.ToUser` | server.js:89-90 | the record stored for a valid body has the given identifier, the body's four fields unchanged, and satisfies the schema |
| `Schema.NegativeAgeRejected` | server.js:30 | age -1 is refused with the minimum-age violation |
| `Schema.FractionalAgeRejected` | server.js:31-34 | age 2.5 is refused with the whole-number violation |
| `Schema.BadEmailRejected` | server.js:40 | email "bad" is refused with the pattern violation |
| `Schema.SmallestValidBodyAccepted` | server.js:21-45 | name "Al", age 20 and email "a@b.com" pass every check, whatever the address |
| `Search.Filter` | server.js:55-63 | the selected records are exactly the listed records that match the filter, never more than the input, and all of them when the search is empty |
| `Search.FilterSingle` | server.js:55-63 | a single record is kept exactly when it matches the filter |
| `Search.FilterConcat` | server.js:55-63 | the filter of two concatenated listings is the concatenation of their filters, so the selection keeps the listing order and each record's multiplicity |
| `Search.VerbatimOccurrenceMatches` | server.js:58-60 | a field that contains the search text verbatim also contains it case-insensitively, under any folding |
| `Search.SearchIgnoresCase` | server.js:58-60 | two search texts that fold to the same string select the same records |
| `Search.AbsentAddressNeverMatches` | server.js:55-63 | for a non-empty search a record without an address matches only through its name or email |
| `Paging.OrDefault` | server.js:51-52 | NaN and 0 give the default, any other parsed integer (negative included) is kept, and the result is never 0 |
| `Paging.CeilDiv` | server.js:73 | for a positive limit, (totalPages - 1) * limit < total <= totalPages * limit, mirrored for a negative limit; 0 when total is 0 |
| `Paging.Window` | server.js:65-68 | the page holds the filtered records from position skip on, at most `limit` of them, and none when skip is past the end |
| `Paging.List` | server.js:49-85 | refused exactly when skip is negative; otherwise echoes page and limit, total is the number of matching records (all records for an empty search) and does not depend on page or limit, data holds at most abs(limit) matching records, and totalPages is CeilDiv(total, limit) for either sign of the limit |
| `Paging.PageIsWindowOfMatches` | server.js:65-68 | for page >= 1 and limit >= 1 the data is exactly the matching records at positions [skip, skip + limit) |
| `Paging.FirstPageIsPrefix` | server.js:65 | page 1 skips nothing: it is the first `limit` matching records |
| `Paging.ConsecutivePagesAdjacent` | server.js:65-68 | page p + 1 starts where page p ends; the two together are one window of twice the limit |
| `Paging.PagesDoNotOverlap` | server.js:65 | for pages p < q, page p ends no later than page q starts |
| `Paging.PagesArePrefix` | server.js:65-68 | pages 1..n together are the first n * limit matching records |
| `Paging.AllPagesCoverMatches` | server.js:65-73 | pages 1..totalPages together list every matching record once, in order |
| `Paging.PastLastPageIsEmpty` | server.js:65-73 | a page after totalPages is empty |
| `Store.InIdOrder` | server.js:68 | the listing contains every stored record below the bound and nothing else |
| `Store.InIdOrderLength` | server.js:69 | the listing has one entry per stored identifier below the bound, so the count of an unfiltered list is the number of stored records |
| `Store.InIdOrderAscending` | server.js:68 | the listing is in strictly ascending identifier order, a fixed order with no record twice |
| `Store.UserCollection.Create` | server.js:87-97 | succeeds exactly when the body is valid and its email is not stored; an invalid body gives its violations and a duplicate email a duplicate error, both leaving the collection unchanged; on success exactly one record is added, under a fresh identifier, with the body's fields, and it is listed |
| `Store.UserCollection.Update` | server.js:100-119 | succeeds exactly when the body is valid, the identifier is stored and no other record holds the email; an invalid body gives its violations, a missing identifier NotFound, another record's email a duplicate error, all leaving the collection unchanged; on success only that identifier's record is replaced by the body's four fields |
| `Store.UserCollection.Delete` | server.js:121-132 | a missing identifier gives NotFound and changes nothing; otherwise exactly that record is removed and returned, and no longer listed |
| `Store.UserCollection.List` | server.js:49-85 | the list handler applied to the current collection in identifier order; an unfiltered total is the number of stored records |

## Left out

- Process setup: dotenv, the Express app, CORS and JSON middleware, the MongoDB connection and `app.listen` with its port fallback (server.js:1-18, 134-138). These are I/O and library calls.
- The concurrency of `Promise.all` (server.js:67). The page and the count are two reads of one snapshot.
- Regex semantics of `$regex`. The search text is treated as a literal substring, so the model agrees with the service only for search texts without regex metacharacters. An invalid pattern, which the store rejects with a 500, is not modelled.
- Case folding is a parameter `fold: char -> char`. MongoDB's case-insensitive matching of Unicode (Vietnamese) text is not modelled.
- Mongoose type casting (such as `"20"` to 20), the `CastError` for a malformed identifier (a 400 in the service), and store failures on writes (also 400) are not modelled. Identifiers are natural numbers handed out by a counter; ObjectId generation is not part of this model.
- Update validators skip fields that are absent from an update. Here an absent field in an update body is validated as in create, and an absent address replaces the stored one with none.
- Lengths count Unicode scalar values. JavaScript counts UTF-16 code units, which differ for characters outside the Basic Multilingual Plane.
- `parseInt` producing Infinity for a very long digit string, and floating-point rounding in `total / limit`, are not modelled; all arithmetic is exact.
- The order of `find` without a sort is taken to be ascending identifier order.
- Error message texts, the order of messages in a validation error, JSON response shapes and HTTP plumbing beyond the outcomes above.
- A query parameter given more than once (an array in Express) is not modelled; the search is a string, absent meaning empty.
