# Todo store and `/todos` handlers, modelled in Dafny

This project models the core of a small todo web application: the in-memory
`TodoStore` and the four request handlers of the `/todos` router.

The store is a class with three fields:

- `todos`, the records by id;
- `order`, the ids in insertion order, which stands for the insertion order a
  JavaScript `Map` keeps;
- `lastId`, the counter whose decimal rendering mints each new id.

Its methods `Create`, `Update` and `Delete` change those fields in place. The
reads `GetAll`, `GetById` and `GetByStatus` are functions of the state.

A record is a map from field name to string value. `update` merges whatever
fields the caller sends, so a record is an open object, not a fixed tuple.

Each handler is a method that takes the store and the values it reads from the
request. It returns a `Response` made of a status code and a body.

Files, one module each:

- `optional.dfy`: `Option`, which stands for `undefined` and `null`.
- `decimal.dfy`: `Show`, the `String(n)` of a counter value. It also holds the
  inverse `Parse`, and the proofs that `Show` is injective and that the two are
  inverse bijections onto the canonical decimal strings.
- `todo.dfy`: records, `NewRecord`, the shallow merge `Merge`, the status
  filter, the three-bucket grouping, and the insertion-ordered listing
  (`Values`, `Without`, `DropId`).
- `store.dfy`: the invariant `Consistent`, the lemmas that each operation keeps
  it, and the class `TodoStore`.
- `routes.dfy`: the handlers `List`, `Post`, `Put` and `Delete`.
- `scenarios.dfy`: request sequences from the repository's tests, stated and
  proved for every valid store.

The invariant (`Store.Consistent`) has three parts:

- `order` lists every key exactly once.
- Every record carries its own key in its `id` field, plus `title`, `status`
  and `createdAt`.
- Every key is in `Issued(lastId)`, the set `{String(1), ..., String(lastId)}`.

Because of the last part, the id minted next is never already a key
(`Store.FreshId`). Since `lastId` never decreases, an id is never reused after
deletion (`Scenarios.DeleteThenCreate`).

A record is an open map. `update` merges every field the caller sends
(models/todoStore.js:52-56), so a record can carry fields beyond the four
`create` sets. A patch is an open map of fields, not a typed
`{title?, status?}`.

## Model

| member | source | states |
|---|---|---|
| Decimal.ShowCanonical | models/todoStore.js:14 | `String(n)` of a counter is non-empty, has only digits and has no leading zero; it has more than one digit exactly when n >= 10 |
| Decimal.ParseShow | models/todoStore.js:14 | reading back the decimal rendering of n gives n |
| Decimal.ShowParse | models/todoStore.js:14 | every canonical decimal string is the rendering of the number it spells |
| Decimal.ParseIffShow | models/todoStore.js:14 | `Parse(s) == Some(n)` exactly when `s == String(n)`, both directions |
| Decimal.ShowInjective | models/todoStore.js:14 | two counter values render to the same id exactly when they are equal |
| Store.IssuedMembers | models/todoStore.js:14 | `Issued(n)` holds exactly the strings `String(j)` for 1 <= j <= n |
| Store.NotIssued | models/todoStore.js:14 | a counter value above n renders to an id outside `Issued(n)` |
| Store.FreshId | models/todoStore.js:14 | in a consistent store, any id minted from a value above `lastId` is neither a key nor in the insertion order |
| Store.CreateConsistent | models/todoStore.js:13-22 | appending the fresh key `String(lastId + 1)` with a well-formed record, and bumping the counter, keeps the invariant |
| Store.UpdateConsistent | models/todoStore.js:48-60 | replacing an existing key's record by its merge with any patch keeps the invariant |
| Store.DeleteConsistent | models/todoStore.js:67-69 | removing a key keeps the invariant; the listing afterwards is the old listing without that id's record, with the others in their relative order |
| Store.ListingCovers | models/todoStore.js:29-31 | the listing has one entry per key and holds exactly the stored records |
| Store.GroupExcludesAbsent | routes/todos.js:9-13 | once an id is not a key, none of the three buckets holds a record with that id |
| Store.TodoStore.constructor | models/todoStore.js:2-5 | a new store is empty, its counter is 0, and it satisfies the invariant |
| Store.TodoStore.GetAll | models/todoStore.js:29-31 | `getAll` returns one record per key, and exactly the stored records |
| Store.TodoStore.GetById | models/todoStore.js:38-40 | `getById` finds a record exactly when the id is a key; a found record carries that id and is among `getAll` |
| Store.TodoStore.GetByStatus | models/todoStore.js:76-78 | `getByStatus(s)` holds exactly the records of `getAll` whose status is s, and no more records than the store has |
| Store.TodoStore.Create | models/todoStore.js:13-23 | `lastId` grows by one; the record is stored under the fresh key `String(lastId)` with the given title, status `Todo` and the given creation time; the key is appended to the order; `getAll` gains it at the end; `getById` of its id returns it |
| Store.TodoStore.Update | models/todoStore.js:48-60 | a missing id gives null and no change; otherwise the stored and returned record is the old record merged with the patch and the `id` pinned; other keys, the order and `lastId` are unchanged, so each `getAll` slot keeps its position |
| Store.TodoStore.Delete | models/todoStore.js:67-69 | returns true exactly when the id was a key; the id is then absent, every other entry is unchanged, and `getAll` is the old listing without that record, in the same relative order; `lastId` is unchanged |
| Todo.NewRecord | models/todoStore.js:15-20 | a created record has exactly the fields id, title, status and createdAt, with status `Todo` |
| Todo.Merge | models/todoStore.js:52-56 | every patch field except `id` wins; every old field the patch lacks is kept; `id` is pinned to the stored key even if the patch carries one; the four created fields survive |
| Todo.FilterStatus | models/todoStore.js:77 | the filter keeps exactly the records whose status equals the given one, never more than its input; an unknown status gives an empty result |
| Todo.FilterStatusAppend | models/todoStore.js:77 | the filter keeps relative order: filtering a concatenation concatenates the filtered parts |
| Todo.FilterStatusAll | models/todoStore.js:77 | a sequence whose records all have the status comes through the filter unchanged |
| Todo.Values | models/todoStore.js:30 | the listing has one entry per key, in key order, each being that key's record |
| Store.ValuesAppend | models/todoStore.js:21 | setting a new key appends its record at the end of the listing |
| Todo.Without | models/todoStore.js:68 | after `Map.delete`, the order holds every other key and not the deleted one; it stays duplicate-free and shrinks by one when the key was present |
| Todo.ValuesWithout | models/todoStore.js:67-69 | deleting a key from a store of well-formed records removes exactly the record with that id from the listing and keeps the others in order |
| Todo.Group | routes/todos.js:9-13 | each bucket holds exactly the records of its status (`Todo`, `Doing`, `Completed`), in both directions; a record of any other status is in no bucket |
| Todo.GroupSizes | routes/todos.js:9-13 | the buckets together hold at most all records, and all of them exactly when every status is one of the three names |
| Routes.Includes | routes/todos.js:15 | the `includes` scan can succeed only when the needle is no longer than the header |
| Routes.IncludesIff | routes/todos.js:15 | the `includes` scan finds the needle exactly when it occurs at some position of the header |
| Routes.List | routes/todos.js:7-20 | GET answers 200 with JSON `{todos: grouped}` exactly when the Accept header contains `application/json`, and otherwise the `index` view; each bucket is `getByStatus` of its name, and the whole is the grouping of `getAll`; the store is not modified |
| Routes.Post | routes/todos.js:23-34 | a missing or empty title gives 400 `Title is required` and leaves the store, including `lastId`, unchanged; otherwise one create and 201 with the new record, status `Todo` |
| Routes.Put | routes/todos.js:37-49 | 404 `Todo not found` with the store unchanged exactly when the id is not a key; otherwise 200 with the merged record, which is stored under the same key |
| Routes.Delete | routes/todos.js:52-63 | 404 `Todo not found` exactly when the id was not a key, otherwise 204 with an empty body; afterwards `getById` of the id finds nothing |
| Scenarios.CreateTwice | test/todoStore.test.js:23-28 | two successive creates return different ids, neither of them a key before |
| Scenarios.DeleteThenCreate | models/todoStore.js:14 | after deleting an existing record, the next create hands out an id different from the deleted one, so ids are not reused |
| Scenarios.Lifecycle | test/todos.test.js:49-123 | POST then PUT `{status: "Doing"}` then DELETE give 201 with status `Todo`, then 200 with the same id, title and creation time and status `Doing`, then 204, after which the id is not found |
| Scenarios.UnknownId | test/todos.test.js:98-131 | PUT and DELETE on an id that is not a key both answer 404 with an error body and leave the store's records and order unchanged |

## Left out

- The clock: `createdAt` (models/todoStore.js:19) is a string parameter of `Create` and `Post`. No ISO-8601 format is checked.
- The Express machinery is not modelled: the router, JSON body parsing, `req.params` extraction, `res.render` of the EJS view and the JSON serialisation. A request is reduced to the values a handler reads. A response is a status code and a body value.
- The `getAll()` call at routes/todos.js:8 stores a result that is never used, so the model leaves it out.
- Server bootstrap, static files, the root redirect and the 404/500 error pages in app.js are framework glue. The model raises no faults, so no 500 path exists.
- The browser script public/js/app.js is DOM and `fetch` plumbing.
- The module-level singleton (models/todoStore.js:82) and any concurrency are not modelled. One store object is passed to the handlers and used sequentially.
- Routes.Post: `!title` is modelled only for a missing title and the empty string. JavaScript's other falsy values (`0`, `false`, `null`) and non-string titles are not modelled.
- Store.TodoStore.Update: patch values are strings. Nested objects, numbers and other JSON values in an update body are not modelled.
- Record field order, which decides the key order of the serialised JSON object, is not modelled: a record is a map.
- Aliasing is not modelled. `getAll`, `getById`, `create` and `update` return the stored object itself, so a caller that mutated it would mutate the store. The model returns values.
- Store.TodoStore.Create: `lastId` is an unbounded natural. The model does not capture JavaScript number precision past 2^53, where `++this.lastId` stops producing new values.
- Routes.List: the Accept header is matched only by the substring test the code performs. No media-type parsing or quality values are modelled.
