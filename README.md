# A fishing-spot map, modelled in Dafny

The application is a Next.js fishing map. Users record catches as "spots": a
position plus fish type, bait, environment and rod. They see other users who
are close by, and they can pull the spots of a user who shares them into their
own list. This project models its logic:

- **The store** (`Db`): the three SQLite tables `fishing_spots`, `users` and
  `exchange_requests`, held in memory as sequences in rowid order.
  - The two AUTOINCREMENT counters.
  - How node-sqlite3 binds JavaScript values (`undefined` becomes NULL,
    booleans become 1 and 0).
  - The queries of `db.ts`: per-owner listing newest first, the upsert,
    nearby users, the request join, the sharing update and the owner-checked
    delete.
  - The cached connection handle.
- **The route handlers** (`SpotsRoute`, `UsersRoute`, `ExchangeRoute`,
  `ChatRoute`).
  - Each one checks the request body or query with JavaScript truthiness and
    `=== undefined`.
  - It answers with the status codes and messages of the source, and calls
    the store.
  - The chat route takes the language model's answer as an input. It plans
    either an error response or one insert, then performs the insert and
    reads the row back.
- **The map component** (`MapView`): the click handler that copies a
  sharing peer's spots into one's own list.
  - A peer spot is copied only when its template-literal key is absent from
    the key set of one's own spots.
  - The popup's split into lines.
- **The home page** (`HomePage`):
  - adding and deleting spots in the client list;
  - the optimistic sharing toggle and its rollback;
  - the markers and their popup text.
- **The search box** (`SearchBox`): the handling of the geocoding service's
  answer.
  - Status gating.
  - De-duplication by address, keeping the first occurrence; the method keeps
    the source's `reduce`/`find` loops.
  - The split of the `"lng,lat"` location.
  - The guard before the map flies to a result.
- **The local identity** (`UserIdentity`): localStorage as a map in a class.
  - The id derived from a browser fingerprint.
  - The default name.
  - The get-or-create and location-update operations.

Shared modules:

- `Js`: JavaScript values, truthiness, `||`, template rendering, `Number()`;
- `Seqs`: `filter` and a stable sort;
- `Text`: `split` and `join`;
- `Api`: request bodies and responses.

Several steps use floating point or a browser and are parameters of the model:
number-to-text, `parseFloat` and StringToNumber, `btoa`, the haversine
distance, `JSON.parse` of the model's answer, and the clock (`now`).

Two behaviours of the code are easy to miss:

- When the chat route's model call throws, returns empty content, or returns
  content that is not JSON, the route answers 500 and inserts nothing
  (`ChatRoute.PlanFor`).
- A peer spot listed twice, whose key the caller lacks, is copied twice. The key
  set is built once and never updated (`MapView.RepeatedKeyCopiedTwice`).

## Model

| member | source | states |
|---|---|---|
| Js.IntToString | app/src/app/page.tsx:158 | the decimal text of an integer is non-empty and, for a non-negative integer, all digits |
| Seqs.Filter | app/src/lib/db.ts:106-109 | `filter` keeps exactly the elements the callback accepts; no longer than its input |
| Seqs.FilterCount | app/src/lib/db.ts:106-109 | per-element counts: a filter keeps every occurrence of an accepted element and none of a rejected one |
| Seqs.FilterConcat | app/src/lib/db.ts:106-109 | filtering a concatenation concatenates the filtered parts, so the filter keeps the elements in order |
| Seqs.FilterKeepsLength | app/src/app/page.tsx:162 | a filter keeps the length exactly when it accepts every element, and then it returns the sequence unchanged |
| Seqs.SortByKeyDesc | app/src/lib/db.ts:72 | `ORDER BY ... DESC` yields a permutation (same multiset) whose keys never increase |
| Text.Split | app/src/components/Map.tsx:198 | `split` on a non-empty separator yields at least one piece |
| Text.SplitLeftmost | app/src/components/Map.tsx:198 | when the leftmost occurrence of the separator starts at `i`, the first piece is the text before `i` and the other pieces are the split of the text after the separator |
| Text.SplitJoin | app/src/components/Map.tsx:198 | splitting the join of pieces that all lack one character of the separator gives back the pieces |
| Text.SplitNone | app/src/components/Map.tsx:198 | a text without the separator splits into itself alone |
| Text.JoinSplit | app/src/components/Map.tsx:198 | joining the pieces of `split` with the separator gives the text back |
| Text.SplitPiecesFree | app/src/components/Map.tsx:198 | no piece of `split` contains the separator |
| Db.Bind | app/src/lib/db.ts:62-65 | the stored value: `undefined` becomes NULL, booleans become numbers, numbers, texts and `null` are kept; NULL exactly for `null` and `undefined` |
| Db.DecimalInteger | app/src/app/api/spots/route.ts:47 | a text id names an integer key exactly when it is a non-empty run of digits |
| Db.DecimalIntegerRoundTrip | app/src/app/page.tsx:158 | the id written into the query string with `${id}` reads back as the same integer |
| Db.SpotsOf | app/src/lib/db.ts:70-73 | exactly the rows owned by the user, each as often as in the table, newest `created_at` first |
| Db.SpotById | app/src/app/api/chat/route.ts:78 | the row found has the id; none is found only when no row has it |
| Db.NearbyOf | app/src/lib/db.ts:85-110 | never the requester, only online users, only distance at most `maxDistance` (inclusive), every such user kept, nothing outside the table |
| Db.NearbyKeepsOrder | app/src/lib/db.ts:106-109 | the nearby users of a split table are those of the first part followed by those of the second, so the query order is kept |
| Db.NameOf | app/src/lib/db.ts:126-128 | the join finds a name exactly when some user has the id, and with unique ids it is that user's name |
| Db.Joined | app/src/lib/db.ts:125-131 | the join has only requests addressed to the user, with both names found; every such request appears |
| Db.RequestsFor | app/src/lib/db.ts:123-132 | `getExchangeRequests`: the join's rows, all addressed to the user, every matching request present, each join row exactly as often as in the join, newest first |
| Db.WithSharing | app/src/lib/db.ts:135-138 | same length and ids; the rows with that id get `is_sharing` 1 or 0, all others are unchanged |
| Db.FilterKeepsUniqueIds | app/src/lib/db.ts:76-82 | removing rows keeps the user ids unique |
| Db.Store.constructor | app/src/lib/db.ts:16-54 | a fresh database: three empty tables, counters at zero |
| Db.Store.AddSpot | app/src/lib/db.ts:60-67 | one row appended with the bound values and the next counter value as its id, fresh among all ids; a NULL in a NOT NULL column inserts nothing; other tables unchanged |
| Db.Store.GetSpotsByUser | app/src/lib/db.ts:70-73 | the caller's rows, newest first |
| Db.Store.UpdateUserLocation | app/src/lib/db.ts:76-82 | INSERT OR REPLACE: the old row with that id removed, the new online row last, the other users kept in order, ids stay unique |
| Db.Store.GetNearbyUsers | app/src/lib/db.ts:85-110 | the result is `NearbyOf` the users table |
| Db.Store.SendExchangeRequest | app/src/lib/db.ts:113-120 | one request appended with status `pending` and a fresh id, which is returned |
| Db.Store.GetExchangeRequests | app/src/lib/db.ts:123-132 | only requests addressed to the user, newest first |
| Db.Store.SetUserSharing | app/src/lib/db.ts:135-138 | only `is_sharing` of the rows with that id changes |
| Db.Store.DeleteSpot | app/src/app/api/spots/route.ts:46-47 | exactly the rows matching both id and owner are removed; `changes` counts them and is zero exactly when none matched |
| Db.Connection.constructor | app/src/lib/db.ts:4 | no handle is open yet |
| Db.Connection.GetDb | app/src/lib/db.ts:6-14 | the first call opens a fresh, empty database with both AUTOINCREMENT counters at 0 and keeps it; later calls return that same handle |
| SpotsRoute.Get | app/src/app/api/spots/route.ts:7-22 | 400 without `userId`, otherwise the caller's spots newest first |
| SpotsRoute.OrEmpty | app/src/app/api/spots/route.ts:30 | `value \|\| ''`: truthy values kept, falsy ones become the empty string |
| SpotsRoute.CheckPost | app/src/app/api/spots/route.ts:24-35 | refused exactly when `userId` is falsy or a coordinate is `undefined` (400); a bad body gives 500; accepted fields passed on, text fields through `\|\| ''` |
| SpotsRoute.ZeroCoordinateAccepted | app/src/app/api/spots/route.ts:27-29 | a latitude and longitude of 0 pass the check |
| SpotsRoute.Post | app/src/app/api/spots/route.ts:24-36 | refused bodies change nothing; accepted ones append one row with id `spotSeq + 1`, advance `spotSeq` by one and answer `{success, id}`; a failing insert answers 500 and changes nothing, counters included; `requestSeq` never changes |
| SpotsRoute.Delete | app/src/app/api/spots/route.ts:38-57 | 400 without `id` or `userId`; only rows matching both are removed; success exactly when one existed, otherwise 404 with the table unchanged; neither counter changes |
| SpotsRoute.DeleteSparesOthers | app/src/app/api/spots/route.ts:47 | another user's spot survives a caller's DELETE |
| UsersRoute.CheckPost | app/src/app/api/users/route.ts:4-18 | refused exactly when `userId` or `name` is falsy or a coordinate is `undefined` (400); a bad body gives 500 |
| UsersRoute.Post | app/src/app/api/users/route.ts:4-19 | refused bodies change nothing; accepted ones upsert the user (online, seen now) and answer success; the spots, requests and both counters never change |
| UsersRoute.Coordinate | app/src/app/api/users/route.ts:25-26 | an absent or empty coordinate parameter is parsed as `'0'` |
| UsersRoute.Get | app/src/app/api/users/route.ts:21-35 | 400 without `userId`, otherwise the nearby users within the default 50 m |
| UsersRoute.CheckPatch | app/src/app/api/users/route.ts:41-51 | accepted exactly when `userId` is truthy and `isSharing` is a boolean, `false` included; otherwise 400; a bad body gives 500 |
| UsersRoute.Patch | app/src/app/api/users/route.ts:41-53 | accepted requests set the sharing flag of that user only; refused ones change nothing; the spots, requests and both counters never change |
| ExchangeRoute.CheckPost | app/src/app/api/exchange/route.ts:4-18 | accepted exactly when `fromUserId`, `toUserId` and `message` are all truthy; otherwise 400; a bad body gives 500 |
| ExchangeRoute.Post | app/src/app/api/exchange/route.ts:4-19 | accepted requests append one pending request with id `requestSeq + 1`, advance `requestSeq` by one and return that id; refused ones change nothing; `spotSeq` never changes |
| ExchangeRoute.Get | app/src/app/api/exchange/route.ts:21-37 | 400 without `userId`, otherwise the requests addressed to the user, newest first |
| ChatRoute.ErrorText | app/src/app/api/chat/route.ts:84 | the error's message, or the fixed text when it is empty |
| ChatRoute.PlanFor | app/src/app/api/chat/route.ts:11-87 | a bad body gives 500 with the prefix; missing fields give 400; a coordinate that is NaN after `Number()` gives 400; an insert happens exactly when all checks pass and the answer parses to a non-null value; the insert carries the caller, the coerced coordinates and the four parsed fields; after the checks pass, a throwing call gives 500 with its message, empty content gives 500 "AI returned empty content", non-JSON content gives 500 "AI response is not valid JSON", and `null` gives 500 with the destructuring error |
| ChatRoute.RefusedBeforeModel | app/src/app/api/chat/route.ts:18-53 | a request failing its own checks gets the same answer whatever the model says |
| ChatRoute.PlannedInsertSucceeds | app/src/app/api/chat/route.ts:66-73 | a planned insert always meets the NOT NULL columns |
| ChatRoute.SpotByIdAppended | app/src/app/api/chat/route.ts:75-78 | reading back by the fresh id finds the row just inserted |
| ChatRoute.Post | app/src/app/api/chat/route.ts:11-87 | an answer plan changes nothing, counters included, and returns that answer; an insert plan appends exactly one row with id `spotSeq + 1`, advances `spotSeq` by one and returns the row; `requestSeq` never changes |
| MapView.KeySet | app/src/components/Map.tsx:243 | the set holds exactly the keys of one's own spots |
| MapView.CopyOf | app/src/components/Map.tsx:248-260 | the post is attributed to the caller and copies latitude, longitude, fish type, bait, environment and rod unchanged |
| MapView.PostsOf | app/src/components/Map.tsx:245-263 | one post per spot, in list order |
| MapView.PostsOfConcat | app/src/components/Map.tsx:245-263 | the posts of a concatenation are the posts of its parts, in order |
| MapView.CopiesAreFiltered | app/src/components/Map.tsx:244-263 | the loop's posts are the copies of the peer spots that pass the absence test, in peer-list order |
| MapView.CopyAbsent | app/src/components/Map.tsx:244-263 | the loop issues one post per peer spot whose key is absent, in order, and `newCount` counts them |
| MapView.PullSharedSpots | app/src/components/Map.tsx:222-267 | nothing is posted unless the peer shares, the caller is logged in and is not the peer, and the peer fetch succeeds; otherwise the posts are the copies of exactly the peer spots whose key is absent from one's own set, once per occurrence; `newCount` is their number; a refresh happens exactly when it is positive; a failed fetch of one's own spots copies everything |
| MapView.ExactDuplicateNeverCopied | app/src/components/Map.tsx:243-247 | a peer spot equal to one of one's own on the six key fields is never copied |
| MapView.RepeatedKeyCopiedTwice | app/src/components/Map.tsx:243-263 | with the set never updated, a spot listed twice whose key is absent is copied twice, and one whose key is present is not copied |
| MapView.KeyNotInjective | app/src/components/Map.tsx:246 | two spots with different fields can share a key when a field contains `_` |
| MapView.KeyLength | app/src/components/Map.tsx:246 | a key's length is that of its six rendered fields plus five separators |
| MapView.StoredText | app/src/app/api/spots/route.ts:30 | a copied text field is stored unchanged, except `null`, whose stored `''` renders four characters shorter |
| MapView.CopyAccepted | app/src/components/Map.tsx:248-260 | the spots route accepts a copy's body, with the caller as owner, the coordinates as they were and falsy text fields as `''` |
| MapView.NullFieldCopyKeyShorter | app/src/components/Map.tsx:246-247 | the stored copy of a spot with a `null` text field has a shorter key than the original |
| MapView.NullFieldCopyStaysAbsent | app/src/components/Map.tsx:243-247 | the stored copy of a spot with a `null` text field does not hide the original from the next pull's key test |
| MapView.RepullCopiesNullFieldAgain | app/src/components/Map.tsx:243-261 | when none of the caller's rows has the key of a peer spot with a `null` text field, its copy is accepted and, once stored beside those rows, still leaves the key absent, so the next pull copies the spot again |
| MapView.NullTextTwinSameKey | app/src/components/Map.tsx:243-246 | a spot with a `null` fish type and its twin holding the text `"null"` have the same key, so a stored copy of the twin hides the original |
| MapView.PopupLines | app/src/components/Map.tsx:198 | at least one line; the lines joined with `' \| '` give the popup text back; no line contains `' \| '` |
| MapView.PopupLinesCut | app/src/components/Map.tsx:198 | the first line ends at the leftmost `' \| '`; the other lines are the lines of the text after it |
| MapView.PopupLinesSingle | app/src/components/Map.tsx:198 | a popup text without `' \| '` is one line |
| HomePage.AddSpot | app/src/app/page.tsx:148-150 | the new spot first, then the previous spots in order |
| HomePage.HandleDelete | app/src/app/page.tsx:156-166 | nothing without a current user; with a current user and an ok response the result is `Deleted` of exactly the spots with other ids, in order; otherwise the list is kept |
| HomePage.DeleteUndoesAdd | app/src/app/page.tsx:148-166 | deleting a spot just added, whose id was new, gives the previous list back |
| HomePage.DeleteKeepsOrder | app/src/app/page.tsx:162 | the spots before and after the deleted one keep their order |
| HomePage.DeleteQueryTargetsSpot | app/src/app/page.tsx:158 | the DELETE query carries the id, and on the server it removes exactly the user's row with that id |
| HomePage.ToggleSharing | app/src/app/page.tsx:169-183 | nothing without a current user; first the requested value; after a thrown request, the negated value; no other field changes |
| HomePage.ToggleFinalState | app/src/app/page.tsx:171-181 | the final sharing value is the requested one unless the request threw, and then the negation |
| HomePage.RollbackIsNotRestore | app/src/app/page.tsx:178-181 | the rollback writes the negation of the request, not the value before, so a user who asked to stop sharing when not sharing ends up sharing |
| HomePage.TogglePatchAccepted | app/src/app/page.tsx:173-177 | the users route accepts the toggle's PATCH body for a user with an id, with the requested value |
| HomePage.Shown | app/src/app/page.tsx:188 | `${v \|\| '未知'}`: `未知` for a falsy field, the field's text otherwise |
| HomePage.Markers | app/src/app/page.tsx:186-189 | one marker per spot, in order, with position `[latitude, longitude]` and the spot's popup text |
| HomePage.PopupIgnoresRod | app/src/app/page.tsx:188 | the popup does not depend on the rod |
| HomePage.PopupThreeLines | app/src/app/page.tsx:188 | with no `\|` in the shown fields the popup splits into exactly its three labelled lines |
| HomePage.PopupExtraLine | app/src/app/page.tsx:188 | a fish type `'\| x'` yields four lines, although it does not contain `' \| '` |
| SearchBox.FirstOccurrences | app/src/components/SearchBox.tsx:38-44 | what the `reduce` keeps is no longer than its input |
| SearchBox.DistinctAddresses | app/src/components/SearchBox.tsx:38-44 | the kept geocodes have pairwise distinct addresses |
| SearchBox.EveryAddressKept | app/src/components/SearchBox.tsx:38-44 | every input address appears among the kept geocodes |
| SearchBox.FirstsKept | app/src/components/SearchBox.tsx:38-44 | the first occurrence of each address is kept |
| SearchBox.KeptAreFirsts | app/src/components/SearchBox.tsx:38-44 | only first occurrences are kept |
| SearchBox.FirstOccurrencesGrow | app/src/components/SearchBox.tsx:38-44 | more input only adds at the end of what is kept, so input order is kept |
| SearchBox.Find | app/src/components/SearchBox.tsx:39 | `find` returns nothing exactly when no element has the address, and otherwise the first that has it |
| SearchBox.DedupByAddress | app/src/components/SearchBox.tsx:38-44 | the loop computes the first occurrences of each address, in input order |
| SearchBox.ToResult | app/src/components/SearchBox.tsx:46-52 | the label is the address, `bounds` is null, `raw` is the geocode; x comes from the part before the first comma, y from the part after it, and y comes from `undefined` when there is no comma |
| SearchBox.LocationParts | app/src/components/SearchBox.tsx:47-48 | a location `"lng,lat"` yields x from lng and y from lat |
| SearchBox.ToResults | app/src/components/SearchBox.tsx:46-52 | one result per kept geocode, in order |
| SearchBox.Search | app/src/components/SearchBox.tsx:14-60 | no results for a non-ok reply, a thrown error, a status other than `'1'` or infocode other than `'10000'`, or no geocodes; otherwise one result per distinct address; labels pairwise distinct |
| SearchBox.OnSearch | app/src/components/SearchBox.tsx:143-149 | the map flies to `[y, x]` at zoom 15 exactly when both are truthy |
| SearchBox.ZeroCoordinateNotFlown | app/src/components/SearchBox.tsx:146 | a result with a zero coordinate is not flown to |
| UserIdentity.GenerateUserId | app/src/lib/user.ts:13-25 | `user_` followed by at most 16 ASCII letters and digits: exactly the first `min(16, n)` of the `n` ASCII letters and digits of the Base64 text of the fingerprint; a function of the fingerprint alone |
| UserIdentity.LastFour | app/src/lib/user.ts:30 | `slice(-4)`: the last four characters, or all of a shorter text |
| UserIdentity.DefaultName | app/src/lib/user.ts:30 | `钓友` followed by the last four characters of the id |
| UserIdentity.ItemOr | app/src/lib/user.ts:29-30 | `getItem(key) \|\| fallback`: the stored text when non-empty, the fallback otherwise |
| UserIdentity.UserFor | app/src/lib/user.ts:28-45 | the stored id when one is stored, the generated one otherwise; the stored name or the default name of that id; latitude 0, longitude 0, online |
| UserIdentity.StorageAfter | app/src/lib/user.ts:32-35 | storage is unchanged when an id is stored; otherwise exactly `userId` and `userName` are written, and no other key changes |
| UserIdentity.SecondCallSameUser | app/src/lib/user.ts:28-45 | a second call leaves storage as the first left it and returns the same id and name |
| UserIdentity.JsonNumber | app/src/lib/user.ts:57-61 | a NaN coordinate is written as `null` in the stored JSON |
| UserIdentity.UpdatedUser | app/src/lib/user.ts:48-55 | the stored identity's id and name with the given coordinates, online |
| UserIdentity.LocationKeepsIdentity | app/src/lib/user.ts:48-63 | writing the location entry does not change the id and name a later call returns |
| UserIdentity.LocalStorage.GetItem | app/src/lib/user.ts:29 | `getItem` returns the stored text, or null when the key is absent |
| UserIdentity.LocalStorage.GetOrCreateUser | app/src/lib/user.ts:28-45 | returns `UserFor` the old storage and leaves `StorageAfter` it |
| UserIdentity.LocalStorage.UpdateUserLocation | app/src/lib/user.ts:48-63 | returns the updated user; storage is as after `getOrCreateUser`, plus the `userLocation` entry with the coordinates and the date |

## Left out

- The haversine arithmetic of `getNearbyUsers` is floating-point trigonometry. The distance is a function parameter, and only the `<=` comparison with it is modelled.
- The OpenAI client, its configuration, the prompt and the call are a foreign service. Their outcome (throws, empty, or content) is an input of `ChatRoute.PlanFor`. `JSON.parse` of the content is a parameter, and so is the TypeError message for destructuring `null`.
- SQLite is modelled only as far as the queries use it: tables in memory, `Bind` for values, NOT NULL checks and AUTOINCREMENT. Type affinity and constraint errors other than NOT NULL are not modelled. Disk, locking and I/O errors, and the 500 answers they cause in the handlers, are not modelled either.
- The `CREATE TABLE` statements are reduced to three empty tables. The first `getDb` opens an empty database; what an existing database file holds is not modelled.
- `setUserSharing` writes an `is_sharing` column that the `CREATE TABLE` of `users` lacks. The model treats it as an extra attribute instead of an SQL error. INSERT OR REPLACE resets it to NULL.
- `CURRENT_TIMESTAMP` is the parameter `now`. Rows with equal `created_at` keep their table order under `ORDER BY ... DESC`; SQLite does not promise any tie order.
- Db.Bind: node-sqlite3 binds an object or an array as its string conversion (`[object Object]`, or the elements joined by commas), but `Bind` keeps such a value as `Obj`, which carries no contents. So a chat completion whose `environment` is an array is stored as `Obj` instead of its joined text, and a spots `POST` whose `userId` is an object stores a row that `SpotsOf` never finds, where the source finds it under `userId=[object Object]`.
- Db.Bind: SQLite stores a NaN number as NULL, but `Bind` keeps it as a number. No route can bind NaN: request bodies are JSON, which has no NaN, and the chat route answers 400 before it binds a coordinate that `Number()` turns into NaN.
- Query strings are modelled as already decoded. `page.tsx` and `Map.tsx` build them with `${…}` and no URL encoding, so `HomePage.DeleteQuery` and the pull's `GET`s match the source only for ids without `&`, `#`, `+` or `%`. Generated ids are letters and digits after `user_`, but a `userId` already in local storage is used as it is.
- Db.Store.UpdateUserLocation: when the id binds to NULL, the model's INSERT OR REPLACE removes every row with a NULL id. SQLite keeps them, because a TEXT PRIMARY KEY admits several NULLs and NULL conflicts with nothing. No route binds a NULL id: the users route refuses a falsy `userId`.
- Db.DecimalInteger: only the plain decimal form of an id is read as an integer. SQLite also converts forms such as `+2`, ` 2` or `2.0`, which the model treats as matching no row.
- `fetch`, `await` ordering, the Amap HTTP request and concurrent requests are left out. Each handler runs to completion against one store. The pull's `POST`s are modelled as the list of request bodies it sends, with the spots route's treatment of one body proved separately (`MapView.CopyAccepted`). A `POST` answered with an error status changes nothing in the pull, because the handler does not look at its answer.
- MapView.PullSharedSpots and MapView.Pull model only the pulls in which every request resolves. The handler has no `try`/`catch`, so a rejected request ends the pull early: a rejected peer or own-spots `fetch`, or a rejected `res.json()`, posts nothing; a rejected copy `POST` sends no further `POST`s; in both cases there is no refresh.
- `parseFloat`, StringToNumber, Number::toString, `btoa`, `navigator`, `screen`, `Intl` and `Date.prototype.toJSON` are parameters or inputs. Infinities are not modelled. `Number()` of an array is taken as NaN. `btoa` throwing on characters outside Latin-1 is not modelled.
- UserIdentity.LocalStorage.UpdateUserLocation: the two clock readings (`new Date()` in `getOrCreateUser` and in `updateUserLocation`) are one value, `now`.
- Strings are sequences of characters. `slice(-4)` and `substring(0, 16)` count UTF-16 code units in the source, which differs for characters outside the Basic Multilingual Plane.
- SearchBox.ToResult: a geocode's `location` is taken to be a string. A missing or non-string location, which makes the source throw and return `[]`, is not modelled.
- All JSX, Leaflet and React rendering is left out. So are alerts and the z-index effect, and the components that only render (spot list, user centre, exchange modal, icons, AI button, AI assistant modal with its coordinate conversion).
- The seeding and maintenance scripts under `app/scripts` and the ESLint configuration are not part of this model.
