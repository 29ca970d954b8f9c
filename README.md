# Forum message store

A Dafny model of the in-memory message store of a small forum server
(`server/index.js`). The server keeps one global array `allMsgs` of records
`{id, msg, pseudo, date}`, seeded with three messages, and exposes every
operation as a GET route: read one record by position (`/msg/get/:id`), list
all records (`/msg/getAll`), count them (`/msg/nber`), post one
(`/msg/post/:message`), delete one (`/msg/del/:id`) and echo part of the URL
(`/test/` catch-all route).

Files:

- `wrappers.dfy`: module `Wrappers`, an `Option` type. `None` stands for a
  `parseInt` that gave NaN and for a JSON `undefined`.
- `messages.dfy`: module `Messages`. It holds the record datatype and the pure
  operations the routes apply to the array: renumbering (`Renumber`),
  filtering by id (`WithoutId`) and posting with eviction (`Posted`). It also
  holds `Step` and `Run`, which apply a sequence of requests, and the lemmas
  about all of these.
- `server.dfy`: module `Server`. Class `Board` owns `allMsgs` and the
  `MAX_MESSAGES` bound. Its methods are the mutating routes, each proved
  against the functions of `Messages`. Its functions are the reading routes.
  The module also holds the `/test/` URL split.

The model does not assume that ids equal positions. That holds after `getAll`
and after a valid `del`, and it is kept by a post that does not evict. An
evicting post shifts without renumbering. The survivors keep their old ids,
and the new record's id is the same as its predecessor's. After that, `del` of
the last position removes two records, and `del(0)` passes the bounds check but
removes nothing (`EvictionSharesId`, `EvictionBreaksDel`).

`getAll` keeps insertion order, oldest first, and does not sort by date.
Ids are positions renumbered on `getAll` and `del`, not a monotonic counter.
`post` and `del` are GET routes that always answer `{code: 1}` or `{code: 0}`.

## Model

| member | source | states |
|---|---|---|
| `Server.Board.constructor` | server/index.js:23-42 | the store starts with the three seeded records, ids 0 to 2, in that order, with ids equal to positions; the maximum defaults to 100 when none is given |
| `Server.Board.GetById` | server/index.js:45-51 | code 1 exactly when the parsed id is a number in 0 to length-1; the record returned is the one at that position, whatever its id field; nothing changes |
| `Server.Board.Count` | server/index.js:64-66 | the answer is the number of stored records; nothing changes |
| `Server.Board.GetAll` | server/index.js:54-61 | the store becomes its renumbering (`Step` of a `getAll` request) and is returned: same length, ids equal positions, text, author and date of every record kept in order |
| `Server.Board.Post` | server/index.js:69-87 | answers code 1; the store becomes `Posted` of the old store, which is `Step` of the post request, so the count grows by one unless the store was full and nonempty, in which case it is unchanged |
| `Server.Board.Del` | server/index.js:90-106 | code 0 and the store unchanged when the id is NaN, negative or at least the length; in both cases the store is `Step` of the del request; otherwise code 1 and the store is the old one without every record whose id field equals the id, renumbered; if ids equalled positions, exactly the record at that position is removed |
| `Messages.Renumber` | server/index.js:56-59 | same length, every id equals its position, every record keeps its text, author and date |
| `Messages.WithoutId` | server/index.js:97 | no record of the result carries the id; the result is never longer |
| `Messages.WithoutIdMembers` | server/index.js:97 | a record carrying the id occurs zero times in the result and any other record as many times as in the array; so a record is in the result exactly when it was in the array with another id |
| `Messages.ValidIndex` | server/index.js:47 | the bounds check of `get` and `del` (lines 47 and 92) passes exactly when the parsed id is a number in 0 to length-1 |
| `Messages.PseudoOrDefault` | server/index.js:71 | the author is the given pseudo when it is nonempty and "Anonyme" otherwise, so never empty |
| `Messages.Step` | server/index.js:54-106 | one request grows the store by at most one record, and only a post on a store below the maximum or empty grows it; `getAll` keeps the length and makes ids positions; a valid `del` makes ids positions and never grows the store; an invalid `del` changes nothing |
| `Messages.Run` | server/index.js:54-106 | requests served one at a time add at most one record each |
| `Messages.Posted` | server/index.js:71-85 | the new record is last, with the given text, the pseudo or "Anonyme" when it is empty, the date, and an id equal to its own index; the records before it are the old ones in order, minus the first when the length was at least the maximum and the array nonempty |
| `Messages.RenumberIdempotent` | server/index.js:56-60 | a second `getAll` gives the same array as the first |
| `Messages.RenumberOfPositions` | server/index.js:56-59 | `getAll` leaves an array whose ids equal positions unchanged |
| `Messages.WithoutIdAppend` | server/index.js:97 | filtering distributes over concatenation, so relative order is preserved |
| `Messages.WithoutIdAbsent` | server/index.js:97 | filtering on an id no record carries removes nothing |
| `Messages.WithoutIdConsecutive` | server/index.js:97 | when ids run consecutively from a base, filtering on base+j removes exactly position j |
| `Messages.DelRemovesExactlyOne` | server/index.js:97-103 | when ids equal positions, filtering on a valid id leaves exactly the records before and after position id, and after renumbering the length is one less |
| `Messages.PostKeepsPositions` | server/index.js:74-85 | a post below the maximum keeps ids equal to positions |
| `Messages.EvictionSharesId` | server/index.js:74-85 | an evicting post on an array of at least two records whose ids equal positions leaves the length unchanged, the survivors with ids one above their positions, and the last two records with the same id |
| `Messages.EvictionBreaksDel` | server/index.js:74-97 | after such a post, `del` of the last position removes the last two records and `del(0)` removes nothing |
| `Messages.ThreePostsWithMaximumTwo` | server/index.js:74-85 | with a maximum of 2, posting "A", "B", "C" on an empty store leaves "B" then "C", both with id 1 |
| `Messages.RunStaysBounded` | server/index.js:74-85 | with a maximum of at least 1, a store that starts within the maximum stays within it after any sequence of `getAll`, `post` and `del` |
| `Messages.RunNeverGrowsPastStart` | server/index.js:74-85 | with a maximum of at least 1, any sequence of requests leaves at most the larger of the maximum and the starting length |
| `Server.IndexOf` | server/index.js:110 | the first position at or after the start where the separator occurs, or none when it occurs nowhere there |
| `Server.TestPath` | server/index.js:109-112 | none exactly when the URL holds no "/test/"; otherwise the text that starts right after the first "/test/" and ends at the next "/test/" of that rest, or at the end |
| `Server.TestPathExamples` | server/index.js:110-111 | "/test/hi" gives "hi", "/test/a/test/b" gives "a", "/TEST/a" gives none |
| `Server.GetByIdMatchesIdField` | server/index.js:45-51 | while ids equal positions, `get(i)` returns the record whose id is i |

## Left out

- The Express, CORS and dotenv setup, the logging middleware and `app.listen` (server/index.js:1-20, 115-117): framework and I/O plumbing.
- `parseInt`, `decodeURIComponent` and `new Date().toISOString()` are foreign calls. Their results are parameters. A parsed id is an `Option<int>`, the message and pseudo are the decoded texts, and the date is opaque text. The pseudo parameter is "" when the query parameter is absent or empty. That matches `req.query.pseudo || 'Anonyme'`, because decoding a nonempty text never gives "".
- Server.Board.Post: does not model a `decodeURIComponent` that throws on a malformed escape (Express answers 500 and the store is unchanged), nor a repeated `pseudo` query parameter, which Express turns into an array.
- `MAX_MESSAGES` is a `nat` (default 100, `Server.DefaultMaxMessages`). When the environment sets it, the source compares the length against a string. That string coercion, including a non-numeric value that would never evict, is not modelled.
- The JSON encoding of responses. `GetReply` and the integer codes stand for `{code: 0}`, `{code: 1, msg}` and `{code: 1, message: "Message ajouté"}`.
- Express's case-insensitive route matching is noted only in `TestPathExamples`: a URL that matches the route without containing "/test/" gives `None`.
- The client (`client/script.js`): DOM construction, `fetch` calls, timers, theme persistence, locale date formatting and its date sort are not part of this model.
- Spam filtering, rate limiting, sanitisation and the POST/DELETE verbs do not appear in this revision of the server and are not modelled.
