# Todo collection handler, modelled in Dafny

The system is a small HTTP resource server over one in-memory, ordered
collection of todo records. A todo has an `id` (a string; create computes it
from the last id, and an update may overwrite it), a `title`, a `completed` flag and a `createdAt` timestamp. Five
route handlers act on the collection, which they change in place:

- `GET /` answers the whole collection with 200.
- `GET /:id` answers the first record whose id equals the path parameter with 200, or 404.
- `POST /` computes the next id as "the last record's id, read by `parseInt`, plus one, or 1 when
  the collection is empty", builds a record from the body's `title` and `completed` and the current
  instant, appends it and answers it with 201.
- `PUT /:id` finds the first matching record, replaces it by the shallow merge `{ ...stored, ...body }`
  and answers the merged record with 200, or 404.
- `DELETE /:id` finds the first matching record, splices it out and answers 204, or 404.

The model has four modules:

- `Wrappers` (`wrappers.dfy`): the `Option` type for JSON keys that may be absent.
- `NumberText` (`number_text.dfy`): JavaScript's `parseInt` without a radix (leading white space skipped, an
  optional sign, base 16 after `0x` or `0X` and base 10 otherwise, then the longest run of digits of
  that base, NaN when there is none) and `Number.prototype.toString` on integers, with the round trip
  between them.
- `Todos` (`todos.dfy`): the `Todo` record, the request `Body` (the four keys of a Todo, each optional),
  the first-match search `IndexOf`, the shallow `Merge`, `RemoveAt` (`splice(k, 1)`), the id rule
  `NextId` and the record `NewRecord` that create appends, with the lemmas about them.
- `TodoRoutes` (`todo_store.dfy`): the class `TodoStore`, whose field `todos` is the shared collection,
  with one method per handler. Each method returns a `Response` (`Ok`, `Created`, `NoContent`,
  `NotFound`, with `Status()` giving 200, 201, 204, 404). The methods that change the collection
  state the new collection in terms of the old one. `Walkthrough` is a client that calls the
  handlers in the sequence create A, create B, get 2, update 1, delete 1, get 1, get 999 and proves
  each answer; `ReadUpdateDelete` holds its second half.

Ids stay strings, because the handlers compare them with `===` on strings. Only create reads them as
numbers. The model proves that ids stay unique under a condition: every id reads as a number and the numbers rise
strictly along the collection (`AscendingIds`). In the model, whose numbers are unbounded integers,
create under that condition hands out a fresh id and keeps the condition. In the source this holds as
long as every id value and the incremented value stay below 2^53 in magnitude, where JavaScript
numbers are exact. A delete keeps the condition too, and so does an update whose body has no `id`.
Without the condition the rule can repeat an id. `DescendingIdsCollide` shows an example.
`NonNumericLastIdRepeats` shows that when the last id is not numeric, the next create answers the id
`"NaN"`, and so does the create after it when no update or delete comes between.

The doc comment of the delete route announces 200 (routes/todos.js:136). The code sends 204
(routes/todos.js:175), and the model follows the code.

## Model

| member | source | states |
|---|---|---|
| `NumberText.LeadingSpaces` | routes/todos.js:154 | the white space `parseInt` skips: every character it counts is white space, and the character after them, if any, is not |
| `NumberText.DigitPrefix` | routes/todos.js:154 | the digits `parseInt` reads: a prefix of the string, all digits of the base, and followed by a non-digit or the end |
| `NumberText.NatDigits` | routes/todos.js:155 | `toString` of a non-negative integer is a non-empty digit string with no leading zero |
| `NumberText.ToDecimal` | routes/todos.js:155 | `toString` of an integer starts with a minus sign exactly when the integer is negative and is otherwise made of decimal digits |
| `NumberText.ParseInt` | routes/todos.js:154 | `parseInt` with no radix; its meaning is stated by `ParseIntSkipsSpace`, `ParseIntOfToDecimal`, `ParseIntRoundTrip`, `ZeroThenHexText` and `ParseIntOfNaN` |
| `NumberText.ParseIntSkipsSpace` | routes/todos.js:154 | a leading white-space character does not change what `parseInt` reads |
| `NumberText.ParseIntOfToDecimal` | routes/todos.js:154-155 | `parseInt` of a printed integer gives back that integer when the text after it does not continue the number: no digit next, and no `x` or `X` after a lone `0` |
| `NumberText.ZeroThenHexText` | routes/todos.js:154 | the exception to the previous row: `"0"` followed by `"x10"` reads as the hexadecimal number 16 |
| `NumberText.ParseIntOfNaN` | routes/todos.js:154-155 | the string `"NaN"` that NaN prints as reads back as NaN |
| `NumberText.ParseIntRoundTrip` | routes/todos.js:154-155 | `parseInt(n.toString()) == n` for every integer `n` |
| `NumberText.ToDecimalInjective` | routes/todos.js:155 | two integers print as the same string exactly when they are equal |
| `Todos.Merge` | routes/todos.js:163 | in `{ ...stored, ...body }` each key present in the body takes the body's value and each absent key keeps the stored one; `id` and `createdAt` are not protected |
| `Todos.MergeIdentityAndIdempotence` | routes/todos.js:163 | an empty body leaves the record unchanged, and merging a body twice equals merging it once |
| `Todos.MergeOverlay` | routes/todos.js:163 | two updates in a row equal one update with the overlaid body |
| `Todos.MergeCompletedOnly` | routes/todos.js:163 | a body holding only `completed` changes only `completed` |
| `Todos.IndexOf` | routes/todos.js:161 | the first position whose id equals the key, in sequence order; -1 exactly when no element has that id |
| `Todos.RemoveAt` | routes/todos.js:174 | `splice(k, 1)`: one element shorter, the elements before `k` stay in place and the ones after move down by one |
| `Todos.NextIdValue` | routes/todos.js:154 | `parseInt(last.id) + 1`, or 1 on an empty collection; its properties are stated by `NextIdValueExceeds`, `NextIdReadsBack` and `FirstTwoIds` |
| `Todos.NextId` | routes/todos.js:154-155 | the new id string is `"NaN"` exactly when the computed number is NaN |
| `Todos.NewRecord` | routes/todos.js:153-155 | the record create builds; its properties are stated by `NewRecordIgnoresIdAndCreatedAt` and `NextIdIsFresh` |
| `Todos.NewRecordIgnoresIdAndCreatedAt` | routes/todos.js:153-155 | the new record holds the computed id and the creation instant; the body's `id` and `createdAt` never reach it |
| `Todos.AscendingIdsAreUnique` | routes/todos.js:30 | strictly ascending numeric ids are pairwise distinct |
| `Todos.NextIdValueExceeds` | routes/todos.js:154 | under strictly ascending numeric ids the computed number is not NaN and exceeds the value of every existing id |
| `Todos.NextIdReadsBack` | routes/todos.js:154-155 | the new id string reads back under `parseInt` as the number computed for it, and as NaN when that number is NaN |
| `Todos.AppendKeepsAscending` | routes/todos.js:156 | pushing a record whose id value exceeds all others keeps the ids strictly ascending |
| `Todos.NextIdNotTaken` | routes/todos.js:30 | under strictly ascending numeric ids no existing record holds the computed id |
| `Todos.NextIdIsFresh` | routes/todos.js:154-156 | under strictly ascending numeric ids, the computed id differs from every existing id, and appending the new record keeps the ids ascending and unique |
| `Todos.FindAppended` | routes/todos.js:148 | a record pushed with an id nobody else holds is found at the last position |
| `Todos.CreateThenFind` | routes/todos.js:148-156 | under ascending ids, looking up the id of a record just created finds that record at the end |
| `Todos.SameIdsAgree` | routes/todos.js:161 | two collections with the same ids at every position give the same search results and the same uniqueness and ascent |
| `Todos.UpdateKeepsIds` | routes/todos.js:160-165 | an update whose body has no `id` keeps every lookup result, ascent and uniqueness |
| `Todos.RemoveAtKeepsIds` | routes/todos.js:174 | deleting an element keeps the remaining ids ascending and unique |
| `Todos.DeleteThenNotFound` | routes/todos.js:171-175 | with unique ids, the id of the deleted record is no longer found |
| `Todos.DescendingIdsCollide` | routes/todos.js:154-156 | without ascending ids the rule repeats an id: ids `"1"`, `"0"` give the next id `"1"` and a duplicate |
| `Todos.NonNumericLastIdRepeats` | routes/todos.js:154-155 | when the last id is not numeric, the next id is `"NaN"`, and so is the one after it |
| `TodoRoutes.Response.Status` | routes/todos.js:144-177 | the status sent is 404 exactly for a miss and a 2xx code otherwise; a created record is answered with 201 |
| `TodoRoutes.FirstTwoIds` | routes/todos.js:154-155 | on an empty collection the first id is `"1"`, and after a record with id `"1"` the next is `"2"` |
| `TodoRoutes.TodoStore.constructor` | routes/todos.js:4 | the collection starts as the sequence the data provider supplies |
| `TodoRoutes.TodoStore.List` | routes/todos.js:143-145 | answers 200 with the whole collection as stored; changes nothing |
| `TodoRoutes.TodoStore.FindIndex` | routes/todos.js:161 | the `findIndex` loop returns exactly `IndexOf` of the collection |
| `TodoRoutes.TodoStore.Get` | routes/todos.js:147-150 | 200 with the first record whose id matches, or 404 with no JSON body when none does; changes nothing |
| `TodoRoutes.TodoStore.Create` | routes/todos.js:152-158 | the collection becomes the old one plus the new record at the end; the record carries the computed id, the body's `title` and `completed` and `now`; 201 with that record; under ascending ids the id is fresh and ascent and uniqueness are kept |
| `TodoRoutes.TodoStore.Update` | routes/todos.js:160-169 | on a match, only the first matching position changes, to the merge of the stored record and the body, and the merged record is answered with 200; the length is kept; with no match, 404 and the collection is unchanged |
| `TodoRoutes.TodoStore.Delete` | routes/todos.js:171-179 | on a match, the collection becomes the part before the first matching position followed by the part after it, and the answer is 204 with no JSON body; with no match, 404 and the collection is unchanged |

## Left out

- Express plumbing: router construction, route registration and `module.exports` (routes/todos.js:1-2, 181).
- JSON serialization through `res.status(...).json(...)` and `res.sendStatus(...)`. A `Response` holds only the status and the JSON body. `sendStatus(404)` also sends the status text "Not Found" as a plain-text body, and `NotFound` does not model that text.
- The Swagger doc comments (routes/todos.js:5-140). They are used only to fix the fields of a record.
- The data provider `../util/todosData` is not part of this model. The initial collection is the constructor's argument.
- `new Date().toISOString()` reads the wall clock. The creation instant is the parameter `now` of `Create`, an opaque string.
- Request bodies hold only the four keys of a Todo, each present or absent. Extra keys that an update would copy into the record are not modelled. Neither are JSON `null` and values of the wrong JSON type (a numeric `id`, a string `completed`).
- NumberText.ParseInt: JavaScript numbers are doubles, and the model reads digits into unbounded integers. A numeral whose value is beyond 2^53 in magnitude may be rounded by the source and not by the model. A numeral beyond about 1.8e308 reads as `Infinity` in the source, and create then hands out the id `"Infinity"`; the model reads its exact value.
- NumberText.ToDecimal: the model prints unbounded integers in plain decimal. From 10^21 on the source uses exponent notation; the source cannot reach such values exactly through `+ 1`.
- Todos.NextIdValue: the source adds 1 in double arithmetic, which is exact only below 2^53 in magnitude. The model adds exactly.
- Todos.NextIdIsFresh: proved for unbounded integers. It carries over to the source only while every id value and the incremented value stay below 2^53 in magnitude. The same holds for `NextIdNotTaken`, `CreateThenFind` and the freshness clause of `TodoStore.Create`.
- Get is modelled with the same first-match scan as update and delete (`FindIndex`). The source calls `find` there instead of `findIndex`, which has the same first-match semantics.
- Concurrency: the handlers run one at a time, each to completion, so every method is one atomic step.
