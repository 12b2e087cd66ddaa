# In-memory tweet and user store of clone-x-twitter

The backend of clone-x-twitter (`backend/server.js`) keeps one process-wide
`database` object that holds two sequences: `users` and `tweets`. Its route
handlers read that object and change it in place. After each successful
mutation they call `saveDatabase`, which writes the whole object back to
`db.json`. This project models that store in Dafny and proves what the
handlers promise about it.

- `records.dfy` (module `Records`): the records. `User`, `Tweet`, the
  `Snapshot` `{users, tweets}`, and `LikedByValue`, which is the `likedBy`
  field of a PATCH body: either an array of user ids or some other value.
- `js_array.dfy` (module `JsArray`): the JavaScript array operations the
  handlers call, written as functions over sequences: `find`, `findIndex`,
  `filter`, `unshift` and `splice(i, 1)`.
- `handlers.dfy` (module `Handlers`): the read-only handlers
  (`GET /api/users`, `GET /api/users/:id`, `GET /api/tweets`,
  `GET /api/tweets/:id`) as functions of the stored sequences. Because they
  are functions, they cannot change the store. The listing's sort is a
  stable insertion sort, newest first. It is proved sorted, a permutation of
  the selected tweets, and stable. It is also proved to be the only sequence
  with those properties, so any stable sort with the same comparator gives
  the same answer.
- `database.dfy` (module `Server`): class `Database`. Its fields `users` and
  `tweets` hold the two collections. Two ghost fields model the flush:
  `flushes` records every snapshot `saveDatabase` was asked to write, and
  `disk` is the document on disk. The mutating handlers
  (`POST /api/tweets`, `PATCH /api/tweets/:id`, `DELETE /api/tweets/:id`)
  are methods. POST puts the body at the head of `tweets`. PATCH and DELETE
  find the tweet with a `findIndex` loop (`FindTweetIndex`) and then update
  `tweets`. Lemmas at the end relate each mutation to the read handlers.

What is abstracted:

- **Identifiers.** Ids are canonical strings. String equality stands in for
  the loose `==` the handlers use, so `5` and `"5"` are assumed to be
  normalised to the same string before they reach the store.
- **Timestamps.** `createdAt` is an integer timestamp. The comparator
  `new Date(b.createdAt) - new Date(a.createdAt)` is modelled as comparing
  those integers.
- **The `userId` query parameter.** It is `Option<string>`. It is truthy
  when it is present and not the empty string.
- **The flush.** The outcome of the file write is a parameter of each
  mutating method (`writeOk`). A failed write is only logged. It never
  changes the in-memory state or the handler's answer. After a successful
  write the `disk` copy equals the current snapshot. After a failed write
  the model leaves `disk` unknown. `writeFileSync` truncates the file before
  writing it, so a failure can leave the old document, an empty file or part
  of the new one.

A new tweet is stored at index 0 (`backend/server.js:85`), but the listing
sorts every answer by `createdAt` (`backend/server.js:69`). So a new tweet
heads the listing only when no stored tweet is newer than it.
`CreatedListedFirst` proves that it comes first in that case, and
`CreatedNotListedFirst` proves that it does not come first when some stored
tweet is newer.

## Model

| member | source | states |
|---|---|---|
| JsArray.FindIndex | backend/server.js:93 | the answer is -1 exactly when no element satisfies the callback; otherwise it is the index of an element that satisfies it, and no earlier element does |
| JsArray.Find | backend/server.js:48 | `find` gives the element at the index `findIndex` gives, or nothing when that index is -1 |
| JsArray.Filter | backend/server.js:65 | every kept element satisfies the callback, and the result is no longer than the input |
| JsArray.FilterContents | backend/server.js:65 | `filter` keeps exactly the elements that satisfy the callback, each as many times as it occurs in the input |
| JsArray.FilterAppend | backend/server.js:65 | `filter` keeps the input order: filtering a concatenation gives the filtered parts, concatenated |
| JsArray.FilterFilter | backend/server.js:65 | filtering by one test and then another equals filtering once by both |
| JsArray.Unshift | backend/server.js:85 | the new element is at index 0, the length grows by one, each old element moves up one place unchanged, and the multiset of elements gains just the new one |
| JsArray.Splice | backend/server.js:109 | removing index i lowers the length by one, keeps the elements before i in place, moves the ones after i down one place, and removes exactly that one element from the multiset |
| Handlers.ListUsers | backend/server.js:42-44 | the user listing returns every stored user, unfiltered and in stored order |
| Handlers.GetUser | backend/server.js:46-52 | not found exactly when no stored user has the id; otherwise the first stored user whose id equals it |
| Handlers.GetTweet | backend/server.js:75-81 | not found exactly when no stored tweet has the id; otherwise the first stored tweet whose id equals it |
| Handlers.Insert | backend/server.js:69 | one insertion step of the sort adds exactly the inserted tweet to the multiset |
| Handlers.InsertSorted | backend/server.js:69 | inserting into a newest-first sequence keeps it newest first |
| Handlers.SortByDate | backend/server.js:69 | the descending sort by `createdAt` returns a permutation of its input that is sorted newest first |
| Handlers.ListTweets | backend/server.js:56-72 | the listing is sorted newest first; it is a permutation of the selected tweets; it contains a tweet exactly when the tweet is stored and, for a truthy `userId`, has that `userId`; for an absent or empty `userId` it is a permutation of all stored tweets |
| Handlers.SortStable | backend/server.js:69 | for every timestamp, the sort keeps the tweets that carry it in their input order |
| Handlers.ListTweetsStable | backend/server.js:60-69 | for every timestamp, the listing keeps the selected tweets that carry it in their stored order |
| Handlers.ListTweetsStableInStore | backend/server.js:60-69 | for every timestamp, the listing's tweets with it are the stored tweets with it, in stored order, restricted to the requested user when `userId` is truthy |
| Handlers.StableSortUnique | backend/server.js:69 | two newest-first sequences that agree, timestamp by timestamp, on which tweets they hold and in what order are equal |
| Handlers.ListTweetsIsStableSort | backend/server.js:60-69 | any newest-first sequence that keeps the stored order within each timestamp of the selected tweets is the listing, so the listing is the stable sort's unique answer |
| Handlers.ListTweetsByUserExample | backend/server.js:60-69 | with two tweets of user "5" and one of user "6", filtering on "5" gives only that user's tweets, the later one first |
| Server.Database.constructor | backend/server.js:17-26 | the store starts from the loaded document, with no flush yet and the disk copy equal to it |
| Server.Database.SaveDatabase | backend/server.js:29-37 | a flush records the current snapshot; after a successful write the disk copy is that snapshot, after a failed one it is unknown; the users and tweets are not touched |
| Server.Database.FindTweetIndex | backend/server.js:106 | the search loop gives the index `findIndex` gives: -1 exactly when no stored tweet has the id |
| Server.Database.CreateTweet | backend/server.js:83-88 | the tweet is put at the head of the stored tweets, users are unchanged, exactly one flush of the new state is requested, the disk holds it if the write succeeds, and the body is answered |
| Server.Database.PatchTweet | backend/server.js:90-102 | for a known id and an array `likedBy`: only the first matching tweet's `likedBy` is replaced, wholesale; all other tweets and that tweet's other fields are unchanged, as are the length and the order; one flush is requested and the updated tweet is answered. Otherwise: nothing changes, nothing is flushed, and the answer is not found |
| Server.Database.DeleteTweet | backend/server.js:104-115 | success exactly when some tweet has the id; then only the first matching tweet is removed and one flush is requested; otherwise nothing changes and nothing is flushed |
| Server.CreatedIsFound | backend/server.js:75-88 | after a creation, looking up the new tweet's id finds the new tweet, even when an older tweet has the same id |
| Server.CreatedListedFirst | backend/server.js:56-88 | when no stored tweet is newer, a created tweet heads the unfiltered listing, followed by the earlier listing |
| Server.CreatedNotListedFirst | backend/server.js:56-88 | when some stored tweet is newer than a created tweet, the created tweet is not first in the unfiltered listing |
| Server.CreatedNotAlwaysListedFirst | backend/server.js:69-85 | for the store holding one tweet at 20, a tweet created at 10 is listed second, after the stored one |
| Server.PatchedIsFound | backend/server.js:90-98 | after a successful patch, looking up the id finds the patched tweet |
| Server.DeletedNotFound | backend/server.js:104-110 | when tweet ids are unique, after a deletion looking up the id finds nothing |

## Left out

- Loading `db.json` at startup (`readFileSync`, `JSON.parse`, `process.exit`). This is file I/O and process control. The constructor takes an already-parsed, well-formed snapshot.
- Writing and serialising the file inside `saveDatabase` (`JSON.stringify`, `writeFileSync`). This is I/O. The model keeps only the ghost flush log and the ghost disk copy, and the result of the write is a parameter.
- Server.Database.SaveDatabase: says nothing about the file after a failed write (old document, empty or partial), because `writeFileSync` truncates before writing and where it fails is not modelled; CreateTweet, PatchTweet and DeleteTweet inherit this.
- Express set-up, CORS and JSON middleware, mapping results to HTTP status codes and bodies, and `app.listen`. This is framework glue. Results are `Option`/`bool` values that stand for the 200/201/204 and 404 answers.
- Parsing `createdAt` with `new Date` and subtracting floats in the comparator, including the `NaN` an unparsable date gives. Timestamps are integers. A `NaN` comparison makes the comparator inconsistent, and no order can be stated for it.
- The full semantics of JavaScript loose equality (`==`). Ids are assumed normalised to strings at the boundary.
- A repeated `userId` query parameter, which the query parser turns into an array. The model only has an absent parameter or a single string.
- Server.Database.CreateTweet: a created tweet is assumed to carry a string `id` and `userId`, an integer `createdAt` and an array `likedBy`, because the record type has these fields. The source stores the POST body unchecked. So the model does not cover two cases: a body without an `id` is stored but can never be found, patched or deleted, and a non-array `likedBy` is stored as it came.
- The extra tweet fields of a POST body. They are one opaque `payload` string. The elements of a `likedBy` array are modelled as id strings.
- Console output: the messages at startup, on each save and when the listing filters by user. It has no effect on the store or on any answer.
- Concurrency. Requests run one at a time on a single event loop, so each method runs to completion.
