# Shopping-list store, modelled in Dafny

This project models the core of a small HTTP service for named shopping lists:
the in-memory store in `routes/list.js` and its five handlers.

- **State.** The store holds an ordered array `lists` of records
  `{id, listName, items}`, which starts as a seed array. It also holds a
  counter `nextId`, which starts at 1 whatever the seed holds.
- **Handlers.** POST `/` validates the body and appends a record whose id is
  `nextId++`. GET `/` returns the whole array. GET `/:id` returns the first
  record whose id equals `parseInt(id)`. PUT `/:id` replaces that record with
  exactly `{id, listName, items}`. DELETE `/:id` splices it out.
- **Order of checks.** Every refusal comes before any change to the state,
  and the checks run in a fixed order. The id must have a parseable integer
  prefix. Then `listName` must be truthy and not blank after `trim`, and
  `items` must be an array. Then the array must be non-empty. Then every item
  needs a truthy `name` and a `quantity` of type number. Last, the id must
  exist.

Layout:

- `wrappers.dfy` (`Wrappers`): `Option`, which stands for `undefined` and `NaN`.
- `json.dfy` (`Json`): parsed JSON values, property access, truthiness and
  `typeof === 'number'`.
- `js_string.dfy` (`JsString`): `String.prototype.trim`, the global `parseInt`
  with no radix (white space, sign, a `0x` prefix, the longest digit prefix),
  and decimal printing of integers for `${listId}`.
- `validation.dfy` (`Validation`): the payload checks in their fixed order,
  and an independent statement of which bodies are well formed.
- `list_store.dfy` (`ListStore`): the record type and the responses, plus
  `findIndex`, `find` and `splice` as functions. It also holds the class
  `Store`, whose methods are the five handlers and update `lists` and
  `nextId` in place, and lemmas that relate the operations to one another.
- `scenarios.dfy` (`Scenarios`): request sequences from the route tests,
  replayed on a fresh store.

Where what the code promises and what it does differ, the model follows
the code:

- The comment on `nextId` at routes/list.js:7 says that ids are unique. The
  code restarts `nextId` at 1 even when the seed already holds records. So
  uniqueness is proved only as an invariant (`Store.Valid`): the handlers
  preserve it, and it holds from the start exactly when the seed's ids are
  unique and below 1 (in particular for an empty seed).
- A deleted list is not always gone. `DeleteThenFind` shows that, after
  the DELETE of test/listRoutes.test.js:216-224, a GET of the same id is a
  404 exactly when no other record had that id. With duplicate ids, which
  the seed can hold, the next duplicate is found.
- Some tests expect archived lists to be hidden from GET and DELETE. The code
  never looks at `archived`, and its comment at routes/list.js:63 says
  archived lists are included, so the model does not hide them. Those tests
  also push into a local array of their own (test/listRoutes.test.js:4), not
  into the store.

## Model

| member | source | states |
|---|---|---|
| `Json.FalsyValues` | routes/list.js:25 | `Truthy`, the `item.name &&` test, is false exactly for undefined, null, false, 0 and the empty string |
| `Json.NumberTestIsNotTruthiness` | routes/list.js:96 | `IsNumber`, the `typeof item.quantity === 'number'` test, accepts a zero quantity though it is falsy, and refuses a numeric string such as `'5'`, `null` and a missing quantity |
| `JsString.TrimStart` | routes/list.js:15 | the result is the suffix of the input that starts at its first non-white character; everything dropped is white space |
| `JsString.TrimEnd` | routes/list.js:15 | the result is the prefix of the input that ends at its last non-white character; everything dropped is white space |
| `JsString.TrimEmptyIff` | routes/list.js:15 | for `Trim`, the `listName.trim()` call, `s.trim() === ''` holds exactly when every character of `s` is white space |
| `JsString.TrimHasNoOuterWhite` | routes/list.js:86 | a non-empty trimmed string neither starts nor ends with white space |
| `JsString.ParseIntNaNIff` | routes/list.js:56-61 | `ParseInt`, the `parseInt(req.params.id)` call, gives NaN exactly when, after leading white space and an optional sign, no decimal digit follows, or a `0x` prefix has no hexadecimal digit after it |
| `JsString.ParseIntRoundTrip` | routes/list.js:56 | `parseInt(String(n) + rest)` is `n` whenever `rest` cannot continue the number, so an id string is read back as the id it prints |
| `JsString.ParseIntOfIntToString` | routes/list.js:77 | `parseInt(String(n))` is `n` for every integer `n` |
| `JsString.ParseIntSkipsWhite` | routes/list.js:116 | leading white space does not change what `parseInt` returns |
| `JsString.ParseIntNonDigit` | routes/list.js:59 | when the first character after the white space and the sign is not a decimal digit, the result is NaN |
| `JsString.ParseIntInvalidId` | test/listRoutes.test.js:160-165 | `parseInt('invalidId')` is NaN |
| `JsString.ParseIntTrailingText` | routes/list.js:56 | `'1.5'` and `'1abc'` both parse to 1 |
| `JsString.ParseIntHex` | routes/list.js:56 | for every input that starts with `0x` or `0X`, `parseInt` reads the longest run of hexadecimal digits after the prefix in base 16 and ignores what follows |
| `JsString.ParseIntBareHexPrefix` | routes/list.js:59 | `'0x'` with no digit after it is NaN |
| `JsString.NatToStringValue` | routes/list.js:107 | the decimal digits printed for `${listId}` denote exactly that number |
| `JsString.IntToStringInjective` | routes/list.js:129 | `IntToString`, the `${listId}` in a message, prints different integers differently |
| `Validation.ValidatePayload` | routes/list.js:14-28 | the first failing check decides the refusal: a missing or blank name, or a non-array `items`, before an empty array, before a bad item; it accepts exactly the well-formed bodies, and yields the name and items as sent |
| `Validation.HasNameAndItemsIff` | routes/list.js:15 | `HasNameAndItems`, the first check, passes exactly when `listName` is present with a character that is not white space and `items` is an array |
| `Validation.ItemPassesIff` | routes/list.js:25 | `ItemPasses`, the `every` callback, accepts exactly an object whose `name` is present and not falsy and whose `quantity` is a number |
| `Validation.ReachesNoNullIff` | routes/list.js:25 | `ReachesNoNull`, the condition under which `items.every` returns instead of throwing on `null.name`, holds exactly when no null item is reached before the first failing item |
| `Validation.MessagesDistinct` | routes/list.js:16-27 | `Invalid.Message`, the `error` text of a 400, is different for each of the three refusals |
| `Validation.WellFormedIff` | routes/list.js:86-99 | the three checks together accept exactly a name with a non-white character and a non-empty array of well-formed items |
| `Validation.EmptyItemsRefused` | routes/list.js:20-22 | a body with `items: []` is always refused, with the empty-array error whenever the name is acceptable |
| `Validation.BadQuantityRefused` | routes/list.js:96-99 | one item with a missing or string `quantity` makes an otherwise acceptable body fail with the item-format error |
| `ListStore.FindIndex` | routes/list.js:102 | the result is the first position whose id equals the parsed id, or none when no record has that id |
| `ListStore.Find` | routes/list.js:64 | the result is the record stored at the first position with that id, or none when there is no such record |
| `ListStore.RemoveAt` | routes/list.js:128 | the array is one shorter, with the records before the index unchanged and the records after it moved down by one, in order |
| `ListStore.Store.constructor` | routes/list.js:6-7 | the store starts as the seed with `nextId` equal to 1; `Valid`, the unique-id promise of the comment at line 7, holds exactly when the seed's ids are unique and all below 1 |
| `ListStore.Store.Create` | routes/list.js:11-33 | a refused body leaves `lists` and `nextId` unchanged; an accepted one appends exactly one record whose id is the old `nextId` and bumps `nextId` by one, with earlier records unchanged and in order; it preserves `Valid`, and under `Valid` a GET of the printed new id finds the new record |
| `ListStore.Store.GetAll` | routes/list.js:36-45 | the result is the whole stored array, archived records included, and is empty for an empty store |
| `ListStore.Store.GetById` | routes/list.js:55-73 | a format error exactly when `parseInt` gives NaN; not found exactly when no record has the parsed id; otherwise the first such record as stored |
| `ListStore.Store.Update` | routes/list.js:76-112 | the id check comes first, then payload validation, then existence, with no change on any refusal; on success only the first matching index changes, to exactly `{id, listName, items}`, and the length is unchanged; `nextId` never changes; it preserves `Valid` |
| `ListStore.Store.Delete` | routes/list.js:115-134 | a format error or not found leaves the store unchanged; otherwise the first matching record is spliced out and the rest keep their order; it preserves `Valid` |
| `ListStore.FirstMatchUnique` | routes/list.js:124 | there is only one first match for an id |
| `ListStore.FreshIdNotFound` | routes/list.js:7 | while every stored id is below the counter, a lookup of the counter's value finds nothing, so the next id handed out is new |
| `ListStore.CreateThenFind` | routes/list.js:30-31 | after an append, a lookup of the new id finds the new record exactly when no older record has that id; otherwise it finds the same older record as before |
| `ListStore.UpdateThenFind` | routes/list.js:106 | after an update, a lookup of the id finds the replacement record at the same position |
| `ListStore.DeleteThenFind` | routes/list.js:124-128 | after a delete, a lookup of the id fails exactly when no other record had that id |
| `ListStore.DeleteUniqueThenNotFound` | routes/list.js:128 | with unique ids, a deleted id is never found again |
| `ListStore.CreateKeepsIds` | routes/list.js:30 | appending with the counter's id keeps ids unique and below the advanced counter |
| `ListStore.UpdateKeepsIds` | routes/list.js:106 | replacing a record with one that has the same id keeps ids unique and below the counter |
| `ListStore.DeleteKeepsIds` | routes/list.js:128 | removing a record keeps ids unique and below the counter |
| `ListStore.FreshIdFoundAfterCreate` | routes/list.js:30-31 | while ids are unique and below the counter, the id a create hands out reads back through `parseInt`, a lookup of it finds the new record, and ids stay unique |
| `ListStore.AddedMessageInjective` | routes/list.js:32 | `AddedMessage` names the list: different names give different messages |
| `ListStore.UpdatedMessageInjective` | routes/list.js:107 | `UpdatedMessage` names the id: different ids give different messages |
| `ListStore.DeletedMessageInjective` | routes/list.js:129 | `DeletedMessage` names the id: different ids give different messages |
| `Scenarios.GroceryBodyAccepted` | test/listRoutes.test.js:19-33 | the grocery body from the create test passes every check and is safe to validate |
| `Scenarios.CreateReadDelete` | test/listRoutes.test.js:19-33 | on an empty store, the create of this test is answered with the added message; then, as in the tests at test/listRoutes.test.js:141-151 and 216-224, a GET of id 1 returns that list and a DELETE of id 1 succeeds; a second GET is a 404 |
| `Scenarios.InvalidIdRefused` | test/listRoutes.test.js:201-238 | PUT and DELETE with the id `invalidId` give a format error, whatever the seed and the body |
| `Scenarios.EmptyItemsBodyRefused` | test/listRoutes.test.js:80-92 | the body named `Empty List` with `items: []` is refused with the empty-array error |
| `Scenarios.BadQuantityBodyRefused` | test/listRoutes.test.js:94-110 | the body whose first item has the quantity `'five'` is refused with the item-format error |
| `Scenarios.RefusedCreates` | test/listRoutes.test.js:35-110 | a body with no fields, no listName, an empty `items` or a quantity of `'five'` is refused with the matching error, and the store stays empty |

## Left out

- HTTP: Express routing and body parsing, the mount path, the port, status
  codes and the choice of `error` or `message` key. Each outcome is one case
  of `Response`, and the refusal texts are `Invalid.Message`.
- The `try`/`catch` around GET `/` and its 500 response. Nothing in that
  synchronous body can throw, and the branch only logs to the console.
- JavaScript exceptions. A truthy `listName` that is not a string makes
  `.trim()` throw, so `Body.listName` is a string or absent. A null, false or
  zero `listName` behaves exactly like an absent one.
- ListStore.Store.Create: requires `ItemsReadable`, because a null item that
  `items.every` reaches makes `item.name` throw. The predicate excludes
  exactly the bodies on which the checks would reach such an item.
- ListStore.Store.Update: requires `ItemsReadable` when the id parses, for
  the same reason. An id that does not parse is refused before the body is
  read, so it needs no such condition.
- The seed file's contents. The seed is any sequence of records. Each record
  has an integer id, a string name and an items array. Any other fields go in
  `extra`. Seed records whose id is not a number are not modelled; `===`
  would never match them anyway.
- JsString.ParseInt: ids and parsed values are unbounded integers. The model
  does not capture the loss of precision that `parseInt` and `===` suffer
  above 2^53.
- JsString.IntToString: JavaScript prints integers of 10^21 and more in
  exponent form; the model always prints plain digits.
- Strings are sequences of Unicode scalar values, not UTF-16 code units. No
  white-space character or digit lies outside the Basic Multilingual Plane,
  so the checks are unaffected.
- Concurrency. The handlers are synchronous and each one runs to completion.
- server.js, the application bootstrap, is not part of this model.
