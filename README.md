# INBOTIQ token lifecycle and authorization, modelled in Dafny

This project models the backend core of INBOTIQ, a small item manager with
accounts:

- the revocation blacklist of tokens;
- the refresh-token store, together with the signup, login, refresh and
  logout handlers;
- the request gate that checks the bearer token;
- the item handlers and the item document, with their owner-or-Admin rule,
  their listing arithmetic and their update merge;
- the router that puts the gate in front of every item route;
- the socket presence map.

On the client side it models the item form's tag codec, the signup form's
schema and the axios interceptors. Dafny proves properties of all of these.

There is one module per source file:

| module | file | form |
|---|---|---|
| `TokenBlacklist` | backend/utils/tokenBlacklist.js | class `Blacklist` over `map<string,int>` |
| `AuthController` | backend/controllers/authController.js | class with `refreshTokens: seq<string>` and a user table by e-mail |
| `AuthMiddleware` | backend/middleware/authMiddleware.js | pure decision `Decide`, plus a method that writes the request object |
| `ItemModel` | backend/models/Item.js | class `ItemDocument` whose `Save` runs the `pre('save')` hook |
| `ItemController` | backend/controllers/itemController.js | pure schema, filter, sort and paging functions, plus class `ItemStore` |
| `ItemRoutes` | backend/routes/itemRoutes.js | a static table with gate-then-dispatch |
| `Presence` | backend/server.js (the `onlineUsers` handlers) | class `OnlineUsers` |
| `ItemForm` | frontend/src/components/ItemForm.jsx | pure tag codec and submit conversion |
| `ApiClient` | frontend/src/services/api.js | header function, plus class `Session` for the retry state |
| `SignupForm` | frontend/src/pages/Signup.jsx | pure schema |

Four modules sit beside them:

- `Wrappers` holds `Option`.
- `Text` holds JavaScript's `split`, `join`, `trim`, `startsWith`, ASCII
  `toLowerCase` and substring search on `seq<char>`.
- `Jwt` holds the decoded claims and the verifier type.
- `EndToEnd` holds the properties that span the client and the server, and
  some client methods that walk through the account, blacklist, presence and
  item flows.

Some collaborators become parameters or inputs:

- `Date.now()` becomes the parameter `now`.
- `jwt.verify` becomes a function parameter `string -> Option<Claims>`.
- `bcrypt.compare` becomes a function parameter.
- The minted tokens and the bcrypt hash are inputs of the handlers.
- The outcome of decoding a token's payload (`split`, base64, JSON, `exp`)
  is the input `payloadExp: Option<int>`.
- zod's e-mail pattern is a predicate parameter.
- The `/auth/refresh` call of the client is a function parameter.

JavaScript falsiness is modelled explicitly:

- `""` stands for the falsy strings in the account handlers.
- A stored expiry of `0` reads as no entry under `!exp`.
- `value.description || item.description` keeps the old description for `""`.
- `value.tags || item.tags` replaces the tags with an empty array, because
  an array is truthy.

Two behaviours one might expect are not what the code does, and the model
follows the code:

- The gate is meant to reject revoked tokens, but it never consults the
  revocation blacklist. `authMiddleware.js` imports nothing from it, and
  `Decide` has only the header and the verifier as inputs.
- One might expect `refresh` to rotate the refresh token, replacing it with
  a new one. It does not: it only reads the store, so a refresh token stays
  usable until logout.

Lengths are JavaScript's: the zod and Joi length rules count UTF-16 code
units (`Text.Utf16Length`), so a character outside the Basic Multilingual
Plane counts twice.

## Model

| member | source | states |
|---|---|---|
| `Text.Trim` | frontend/src/components/ItemForm.jsx:32 | the result is the infix of the input left after removing leading and trailing whitespace and nothing else; it has no whitespace at either end |
| `Text.TrimmedTrimIsIdentity` | frontend/src/components/ItemForm.jsx:32 | trimming a string with no outer whitespace returns it unchanged |
| `Text.TrimSkipsLeadingSpace` | frontend/src/components/ItemForm.jsx:32 | a leading whitespace character never changes the trim |
| `Text.Split` | backend/middleware/authMiddleware.js:9 | `split` on one character yields at least one piece, and no piece contains the separator |
| `Text.SplitPrefix` | frontend/src/components/ItemForm.jsx:32 | a separator-free prefix is glued onto the first piece, and the other pieces are untouched |
| `Text.SplitAtSeparator` | backend/middleware/authMiddleware.js:9 | splitting `a + sep + b` with `a` separator-free gives `a` followed by the pieces of `b` |
| `Text.SplitWithoutSeparator` | frontend/src/components/ItemForm.jsx:32 | a separator-free string splits into itself alone |
| `Text.SplitFirstPiece` | backend/middleware/authMiddleware.js:9 | the first piece is a prefix that ends at the first separator or at the end of the string |
| `Text.SplitLength` | frontend/src/components/ItemForm.jsx:32 | the number of pieces is the number of separators plus one |
| `Text.Join` | frontend/src/components/ItemForm.jsx:21 | `join` of no parts is `""`; otherwise the result starts with the first part |
| `Text.CountConcat` | frontend/src/components/ItemForm.jsx:21 | counting a character distributes over concatenation |
| `Text.JoinCount` | frontend/src/components/ItemForm.jsx:21 | joining parts free of a character adds the glue's copies of it once per boundary between parts |
| `Text.SplitJoin` | frontend/src/components/ItemForm.jsx:21-32 | splitting on a character undoes joining with that character, for a non-empty list of parts free of it |
| `Text.ContainsIffOccurs` | backend/controllers/itemController.js:34-38 | substring search succeeds exactly when the term occurs at some offset |
| `Text.ToLower` | backend/controllers/itemController.js:35-37 | each upper-case ASCII letter becomes its lower-case letter, every other character is kept, and no upper-case ASCII letter remains |
| `Text.ToLowerIdempotent` | backend/controllers/itemController.js:35-37 | lowercasing twice is lowercasing once |
| `Text.Utf16Length` | backend/controllers/itemController.js:5 | `length` lies between the number of characters and twice it, and is zero only for `""`; with the two lemmas below it is the sum of each character's UTF-16 code units |
| `Text.Utf16LengthSingle` | backend/controllers/itemController.js:5 | one character counts 2 code units outside the Basic Multilingual Plane and 1 inside it |
| `Text.Utf16LengthConcat` | backend/controllers/itemController.js:5 | `length` adds up over concatenation |
| `Text.Utf16LengthOfBmp` | backend/controllers/itemController.js:5 | on text inside the Basic Multilingual Plane, `length` is the number of characters |
| `Text.Utf16LengthOfAstral` | frontend/src/pages/Signup.jsx:11 | example: one character outside the Basic Multilingual Plane, such as an emoji, has `length` 2 |
| `ItemForm.Clean` | frontend/src/components/ItemForm.jsx:32 | `map(trim).filter(Boolean)` keeps only non-empty, trimmed pieces, each the trim of some input piece, never more than the input |
| `ItemForm.CleanSingle` | frontend/src/components/ItemForm.jsx:32 | one piece survives as its trim exactly when that trim is not empty |
| `ItemForm.CleanConcat` | frontend/src/components/ItemForm.jsx:32 | cleaning works piece by piece, so every non-empty trimmed piece is kept, in input order |
| `ItemForm.ParseTags` | frontend/src/components/ItemForm.jsx:32 | an absent or empty string gives `[]`; any other string gives the cleaned pieces of its split at commas; every tag is non-empty, trimmed and comma-free; there are at most commas + 1 tags |
| `ItemForm.JoinTags` | frontend/src/components/ItemForm.jsx:21 | no tags give `""`; otherwise the result starts with the first tag, and comma-free tags give one comma fewer than there are tags (`ItemForm.ParseJoinRoundTrip` shows parsing undoes it) |
| `ItemForm.CleanSplitJoin` | frontend/src/components/ItemForm.jsx:21-32 | cleaning the pieces of a non-empty `", "`-join of well-formed tags gives those tags |
| `ItemForm.CleanIgnoresLeadingSpace` | frontend/src/components/ItemForm.jsx:21-32 | the space the join puts after each comma does not change the parsed tags |
| `ItemForm.ParseJoinRoundTrip` | frontend/src/components/ItemForm.jsx:21-32 | parsing the `", "`-join of well-formed tags returns exactly those tags |
| `ItemForm.ParseIdempotentThroughJoin` | frontend/src/components/ItemForm.jsx:21-32 | parse, then join, then parse again gives the first parse |
| `ItemForm.TitleValid` | frontend/src/components/ItemForm.jsx:9 | zod's `min(1)` on the title's `length` holds exactly when the title is not empty |
| `ItemForm.Defaults` | frontend/src/components/ItemForm.jsx:18-22 | the prefilled title and description are the initial ones or `""`, and the tag string is the `", "`-join of the initial tags (`""` without tags) |
| `ItemForm.Submit` | frontend/src/components/ItemForm.jsx:9-33 | a payload is produced exactly when the title is not empty (zod `min(1)`); title and description pass through unchanged; the tags are the parse of the tag string, hence well formed |
| `ItemForm.EditUnchangedKeepsTags` | frontend/src/components/ItemForm.jsx:18-34 | reopening an item with well-formed tags and submitting it unchanged sends the same tags back |
| `TokenBlacklist.Blacklisted` | backend/utils/tokenBlacklist.js:17-23 | the lookup answers true only for a truthy stored expiry: a missing entry or a stored 0 answers false |
| `TokenBlacklist.Stale` | backend/utils/tokenBlacklist.js:17-20 | eviction happens only to a truthy stored expiry: a missing entry or a stored 0 is never deleted |
| `TokenBlacklist.LookupCases` | backend/utils/tokenBlacklist.js:17-23 | each lookup finds exactly one of: no truthy entry, a live one, a stale one; a live entry was live at every earlier instant and a stale one stays stale |
| `TokenBlacklist.AfterLookup` | backend/utils/tokenBlacklist.js:16-24 | a lookup removes exactly the looked-up entry when it is stale, and otherwise leaves the map alone |
| `TokenBlacklist.Swept` | backend/utils/tokenBlacklist.js:26-31 | after a sweep, an entry remains exactly when its expiry has not passed; remaining expiries are unchanged and at least `now` |
| `TokenBlacklist.Retention` | backend/utils/tokenBlacklist.js:9 | `expSeconds \|\| 604800000` is never 0: the caller's value when present and non-zero, the default otherwise |
| `TokenBlacklist.ExpiryFor` | backend/utils/tokenBlacklist.js:9-12 | the stored expiry is the payload's non-zero `exp` in milliseconds (never 0), otherwise `now` plus the retention |
| `TokenBlacklist.FallbackEntryIsLive` | backend/utils/tokenBlacklist.js:9-23 | a token revoked without a usable `exp` claim, with a non-negative retention, is blacklisted from `now` until `now` plus the retention |
| `TokenBlacklist.ExpiredClaimIsNotBlacklisted` | backend/utils/tokenBlacklist.js:9-22 | a token whose own `exp` has already passed is never reported as blacklisted, and the first lookup evicts it |
| `TokenBlacklist.AddThenLookup` | backend/utils/tokenBlacklist.js:3-23 | right after an add, the token is blacklisted exactly while the stored non-zero expiry has not passed; such a lookup changes nothing |
| `TokenBlacklist.SweepKeepsAnswers` | backend/utils/tokenBlacklist.js:16-31 | a sweep never changes a lookup's answer at the same instant |
| `TokenBlacklist.LookupThenSweep` | backend/utils/tokenBlacklist.js:16-31 | lazy eviction followed by a sweep leaves the same table as the sweep alone |
| `TokenBlacklist.SweepTwice` | backend/utils/tokenBlacklist.js:26-31 | sweeping at an earlier and then a later instant equals one sweep at the later instant |
| `TokenBlacklist.Blacklist.constructor` | backend/utils/tokenBlacklist.js:1 | the blacklist starts empty |
| `TokenBlacklist.Blacklist.AddTokenToBlacklist` | backend/utils/tokenBlacklist.js:3-14 | sets, overwriting, the token's expiry to `exp * 1000` when the payload's `exp` is present and non-zero, otherwise to `now` plus `expSeconds`, or 604800000 when that is absent or zero; no other entry changes |
| `TokenBlacklist.Blacklist.IsTokenBlacklisted` | backend/utils/tokenBlacklist.js:16-24 | a missing entry gives false with no change; an expired entry gives false and only that entry is removed; a live entry, including one at its expiry instant, gives true with no change |
| `TokenBlacklist.Blacklist.CleanupExpiredTokens` | backend/utils/tokenBlacklist.js:26-31 | the loop deletes exactly the entries with `now > exp` and leaves the others unchanged |
| `AuthMiddleware.TokenField` | backend/middleware/authMiddleware.js:9 | `split(" ")[1]` of a bearer header is the space-free text after the prefix, up to the next space or the end |
| `AuthMiddleware.Decide` | backend/middleware/authMiddleware.js:3-18 | 401 "Unauthorized" without a bearer header; 403 "Access token expired or invalid" for a bearer header whose token fails verification; `next` exactly when the token verifies, carrying its id and role |
| `AuthMiddleware.TokenFieldExample` | backend/middleware/authMiddleware.js:9 | example: the token of `"Bearer abc"` is `"abc"` (the general case is `EndToEnd.BearerRoundTrip`) |
| `AuthMiddleware.Request.constructor` | backend/middleware/authMiddleware.js:4 | a request starts with its header and no identity |
| `AuthMiddleware.Authenticate` | backend/middleware/authMiddleware.js:3-18 | decides as `Decide`; on `next` it sets `req.userId` and `req.userRole` from the token; a rejection leaves the request untouched |
| `AuthController.Without` | backend/controllers/authController.js:91 | the filter removes every copy of the token, keeps every other token, and shrinks by exactly the number of copies |
| `AuthController.WithoutConcat` | backend/controllers/authController.js:91 | the filter distributes over concatenation, so the survivors keep their order |
| `AuthController.WithoutAbsent` | backend/controllers/authController.js:91 | removing an absent token changes nothing, so a repeated logout is a no-op |
| `AuthController.AllFieldsPresent` | backend/controllers/authController.js:15 | the signup guard passes exactly when none of name, e-mail, password and role is the empty (falsy) string |
| `AuthController.Public` | backend/controllers/authController.js:39-44 | the user object of a response carries the account's id, name, e-mail and role |
| `AuthController.PublicHidesPassword` | backend/controllers/authController.js:68 | the user object of a response never depends on the stored password hash |
| `AuthController.AuthController.constructor` | backend/controllers/authController.js:9 | the token store starts empty |
| `AuthController.AuthController.Signup` | backend/controllers/authController.js:11-50 | 400 when a field is falsy and 409 when the e-mail is taken, each with no change; otherwise the account is stored, exactly the returned refresh token is appended, and 201 is returned |
| `AuthController.AuthController.Login` | backend/controllers/authController.js:52-70 | the same 401 "Invalid credentials" for an unknown e-mail and a wrong password, with no change; otherwise exactly the returned refresh token is appended |
| `AuthController.AuthController.Refresh` | backend/controllers/authController.js:72-87 | 401 without a token; 403 for a token not in the store whatever its signature; 403 when verification fails; 200 exactly when the token is stored and verifies; the store is never written |
| `AuthController.AuthController.Logout` | backend/controllers/authController.js:89-93 | every copy of the token leaves the store, the rest stay in order, and the reply is always "Logged out" |
| `ItemModel.Conforms` | backend/models/Item.js:4-6 | a document that passes the required checks has a non-empty title and owner |
| `ItemModel.ConformsIgnoresOptionalFields` | backend/models/Item.js:3-10 | only `title` and `owner` are required: description, tags and timestamps never decide whether a document saves |
| `ItemModel.ItemDocument.New` | backend/models/Item.js:3-10 | a new document has tags defaulting to `[]` and both timestamps set to the current time |
| `ItemModel.ItemDocument.Load` | backend/models/Item.js:3-10 | a loaded document holds exactly the stored record |
| `ItemModel.ItemDocument.Save` | backend/models/Item.js:12-15 | a save succeeds exactly when title and owner are set, and then changes only `updatedAt`, to the save time |
| `ItemController.Acceptable` | backend/controllers/itemController.js:4-8 | an accepted body has a non-empty title of at most 200 characters; a body with an unknown key or an empty tag string is refused |
| `ItemController.Validate` | backend/controllers/itemController.js:4-8 | the schema accepts exactly a title whose UTF-16 `length` is 1 to 200, any description string or null, absent tags or an array of non-empty strings, and no other keys; accepted fields pass through |
| `ItemController.MergedDescription` | backend/controllers/itemController.js:84 | the new description wins unless it is empty, null or absent |
| `ItemController.MergedTags` | backend/controllers/itemController.js:85 | the sent tags, even an empty array, replace the old ones; the old tags stay only when none were sent |
| `ItemController.MayAccess` | backend/controllers/itemController.js:60 | an Admin may open, update and delete any item; any other caller only the items they own (the same test is at lines 76 and 99) |
| `ItemController.PageOf` | backend/controllers/itemController.js:25 | the page defaults to 1, keeps any value of at least 1, and becomes 1 for any value below 1 |
| `ItemController.LimitOf` | backend/controllers/itemController.js:26 | the limit defaults to 10, keeps values in 1..100, caps larger ones at 100, and raises smaller ones to 1 |
| `ItemController.Skip` | backend/controllers/itemController.js:44 | `(page - 1) * limit` is a whole number of pages, `page - 1` of them; it is 0 exactly for page 1 |
| `ItemController.PageCount` | backend/controllers/itemController.js:48 | `pages` is the ceiling of `total / limit`: `pages * limit >= total` and `(pages - 1) * limit < total` |
| `ItemController.BuildFilter` | backend/controllers/itemController.js:27-39 | an owner filter exactly for non-Admin callers; a search filter exactly when the trimmed term is non-empty |
| `ItemController.SomeTagMatches` | backend/controllers/itemController.js:37 | the `$regex` on the tags array matches only when there is some tag |
| `ItemController.SomeTagMatchesConcat` | backend/controllers/itemController.js:37 | the tags of two lists together match exactly when the tags of one of them do |
| `ItemController.MatchesSearch` | backend/controllers/itemController.js:33-39 | an empty term matches every item |
| `ItemController.SearchIgnoresCase` | backend/controllers/itemController.js:35-37 | with option `"i"`, lowercasing the term never changes which items match |
| `ItemController.MatchesFilter` | backend/controllers/itemController.js:29-39 | the empty filter `{}` matches every item; an owner filter never matches another user's item |
| `ItemController.ListingShowsAccessible` | backend/controllers/itemController.js:30-32 | without a search term, a listing shows a caller exactly the items `getItem` would let them open |
| `ItemController.Select` | backend/controllers/itemController.js:41-42 | `find(filter)` keeps exactly the collection's items that match the filter |
| `ItemController.SelectConcat` | backend/controllers/itemController.js:41-42 | `find` keeps the matches segment by segment, so they keep collection order and multiplicity, which fixes the `countDocuments` count |
| `ItemController.NewestFirst` | backend/controllers/itemController.js:43 | in `createdAt` descending order every item is no older than the next; zero or one item is always in order |
| `ItemController.NewestFirstFromNeighbours` | backend/controllers/itemController.js:43 | neighbours in order put every pair in order |
| `ItemController.Insert` | backend/controllers/itemController.js:43 | inserting into a newest-first sequence keeps it newest first and adds exactly the new item |
| `ItemController.SortNewestFirst` | backend/controllers/itemController.js:43 | the sorted matches are newest first and a permutation of the matches |
| `ItemController.Slice` | backend/controllers/itemController.js:44-45 | `skip(n).limit(l)` holds at most `l` items, namely those from index `n` on |
| `ItemController.PagesAreTheNonEmptyPages` | backend/controllers/itemController.js:44-48 | a page starts at or past the end of the matches exactly when it lies beyond `pages` |
| `ItemController.SortedMembers` | backend/controllers/itemController.js:43 | sorting keeps the length and the members |
| `ItemController.SliceOfSorted` | backend/controllers/itemController.js:43-45 | a page of a sorted sequence is sorted, is drawn from it, and is non-empty exactly when it starts inside it |
| `ItemController.PageOfMatches` | backend/controllers/itemController.js:41-48 | the page returned is sorted, drawn from the matches, and non-empty exactly up to page `pages` |
| `ItemController.FindIndex` | backend/controllers/itemController.js:73 | the lookup finds the first item with the id, or reports that none has it |
| `ItemController.AdminSelectsAll` | backend/controllers/itemController.js:30-32 | an Admin listing without a search term matches the whole collection |
| `ItemController.NonAdminSelectsOwn` | backend/controllers/itemController.js:30-32 | a non-Admin filter without a search term keeps exactly the caller's own items |
| `ItemController.ItemStore.constructor` | backend/models/Item.js:3-10 | the collection starts empty and valid |
| `ItemController.ItemStore.CreateItem` | backend/controllers/itemController.js:10-21 | 400 with no change on a refused body; 500 with nothing stored when the requester id is empty; otherwise an item with a fresh id, owned by the requester, with both timestamps `now`, is appended and returned with 201; ids stay unique |
| `ItemController.ItemStore.ListItems` | backend/controllers/itemController.js:23-53 | reports the clamped page and limit, the match count, `ceil(total / limit)`, and the requested page of the matches sorted newest first; a non-Admin sees only their own items; the page is non-empty exactly up to `pages` |
| `ItemController.ItemStore.GetItem` | backend/controllers/itemController.js:55-69 | 404 for an unknown id, 403 unless Admin or owner, otherwise the item |
| `ItemController.ItemStore.UpdateItem` | backend/controllers/itemController.js:71-92 | 404, then 403, then 400, each with no change; otherwise the title is replaced, then the description and tags are merged, `updatedAt` is stamped, and no other item changes |
| `ItemController.ItemStore.DeleteItem` | backend/controllers/itemController.js:94-110 | 404, then 403, each with no change; otherwise exactly that item is removed and the others keep their order |
| `ItemRoutes.RouteMatches` | backend/routes/itemRoutes.js:15-19 | a route matches only `/` or `/:id`; a GET route answers HEAD exactly on its own path |
| `ItemRoutes.FirstMatch` | backend/routes/itemRoutes.js:15-19 | a route is found exactly when some table entry matches, and its handler is that entry's |
| `ItemRoutes.Dispatch` | backend/routes/itemRoutes.js:15-19 | PATCH and paths deeper than `/:id` reach no handler; POST reaches one exactly at `/` |
| `ItemRoutes.HeadIsServedByGet` | backend/routes/itemRoutes.js:16-17 | HEAD reaches the handler GET reaches, on every path |
| `ItemRoutes.RoutesAreDisjoint` | backend/routes/itemRoutes.js:15-19 | no request matches two routes of the table |
| `ItemRoutes.DispatchTable` | backend/routes/itemRoutes.js:15-19 | POST `/` creates, GET `/` lists, GET, PUT and DELETE `/:id` get, update and delete; PATCH, POST `/:id` and deeper paths match nothing |
| `ItemRoutes.HandleRequest` | backend/routes/itemRoutes.js:13-19 | a request the gate rejects reaches no handler; a request it passes reaches exactly the handler the table routes it to, with the verified token's id and role |
| `Presence.OnlineUsers.constructor` | backend/server.js:43 | no user starts online |
| `Presence.OnlineUsers.Register` | backend/server.js:47-49 | the user now maps to the socket, replacing any older one; nothing else changes |
| `Presence.OnlineUsers.SendNotification` | backend/server.js:51-54 | emits to exactly the socket the target user maps to when there is one, and to none otherwise |
| `Presence.OnlineUsers.Disconnect` | backend/server.js:56-59 | exactly the users mapped to the closing socket are removed, the other entries are unchanged, and no user maps to that socket afterwards |
| `ApiClient.WithAuthorization` | frontend/src/services/api.js:13-17 | `Authorization: Bearer <token>` is added exactly when a non-empty token is stored; the other headers are kept |
| `ApiClient.ShouldRefresh` | frontend/src/services/api.js:24 | a refresh is attempted only after a 403, and never for a request already retried or while a refresh is in flight |
| `ApiClient.RetriedNeverQualifies` | frontend/src/services/api.js:24-25 | a request already marked `_retry` is never refreshed again |
| `ApiClient.RequestConfig.constructor` | frontend/src/services/api.js:23-25 | a request starts unmarked |
| `ApiClient.Session.constructor` | frontend/src/services/api.js:19 | the client starts with no refresh in flight |
| `ApiClient.Session.OnError` | frontend/src/services/api.js:20-43 | a non-qualifying error is rejected with no change; otherwise `_retry` is set and `refreshing` ends false; success replaces only the access token and retries; failure clears both tokens, goes to the login page, and rejects |
| `SignupForm.Initial` | frontend/src/pages/Signup.jsx:23 | the role defaults to "User" |
| `SignupForm.Validate` | frontend/src/pages/Signup.jsx:10-15 | a field fails exactly when: the name's UTF-16 `length` is under 2, the e-mail fails the pattern, the password's `length` is under 6, or the role is neither "User" nor "Admin" |
| `EndToEnd.SignupFormPassesServerGuard` | frontend/src/pages/Signup.jsx:10-15 | every form the schema accepts passes the server's all-fields-present check |
| `EndToEnd.BearerRoundTrip` | backend/middleware/authMiddleware.js:9 | the gate reads back exactly the space-free token the client put after `"Bearer "` |
| `EndToEnd.ClientHeaderPassesGate` | frontend/src/services/api.js:13-17 | a request carrying the client's stored token passes the gate exactly when the server verifies that token, and then carries its identity |
| `EndToEnd.NoTokenIsUnauthorized` | backend/middleware/authMiddleware.js:5-7 | without a stored token no header is sent, and the gate answers 401 |
| `EndToEnd.FormSubmissionAccepted` | backend/controllers/itemController.js:4-8 | the item form's payload passes the server schema exactly when the title's `length` is at most 200 |
| `EndToEnd.LogoutThenRefresh` | backend/controllers/authController.js:72-93 | after logout, a refresh with the same token answers 403 "Invalid refresh token" |

## Left out

- Token signing and verification (`jsonwebtoken`, `generateToken.js`) are
  abstract. No token lifetimes are modelled.
- bcrypt hashing and comparison are abstract.
- The base64 and JSON decoding of a token's payload is not modelled; its
  outcome is an input.
- zod's e-mail pattern and Joi's validation machinery are not modelled. Joi's
  error message text becomes a reason code.
- A Joi validation that fails several rules may report a different first
  rule than `ItemController.Validate` does.
- `Text.Trim` knows ASCII whitespace, NBSP, BOM, LS and PS, but not the other
  Unicode space separators that `trim` strips.
- `Text.ToLower` lowercases ASCII only.
- `Text.Utf16Length` counts code units of well-formed text only. A Dafny
  `char` is a Unicode scalar value, so the lone surrogates a JavaScript
  string may hold are not modelled.
- `ItemController.MatchesSearch` reads the search term as a literal,
  case-insensitive substring; `$regex` metacharacters are not modelled.
- `ItemController.PageOf` and `ItemController.LimitOf` take an already
  parsed integer or `None`. The `NaN` that `parseInt` yields on
  non-numeric text is not modelled.
- `ItemController.SortNewestFirst`: Mongo leaves the order of items with
  equal `createdAt` unspecified. The model fixes one order, and its contract
  states only newest-first and permutation.
- `populate("owner", ...)` is not modelled. The owner is compared by id
  only, and a listing returns items with owner ids.
- A `null` and an absent description both become `None`.
- Every 500 path from a failing database operation and every unhandled
  exception is left out. Examples are `login`, which has no try/catch, and
  `getItem` with an owner whose account was deleted. The one 500 that is
  modelled is `CreateItem` refusing to store an item whose requester id is
  empty.
- `ItemController.ItemStore.CreateItem` takes the new item's id as an input
  that no stored item has. Mongo generates a unique `_id`, and the id
  generator is not modelled.
- The database of users is a map keyed by e-mail; Mongo queries with an
  undefined e-mail are not modelled.
- `TokenBlacklist.Blacklist.AddTokenToBlacklist` adds `expSeconds` to a
  millisecond clock as it is, just as written, without scaling.
- The `setInterval` timer that runs the sweep, its interval parsing, and
  the SIGINT handler are left out: they are timers and process signals.
- The Express, helmet, cors, morgan and rate-limit setup and the `/` health
  route are left out: they are transport configuration.
- The actual socket.io delivery is left out. `SendNotification` returns
  the emit it would perform.
- OPTIONS requests and Express's other automatic responses are left out.
- Concurrency is left out. Each handler and interceptor call is one atomic
  step, so interleavings around `refreshing` or the shared arrays are not
  modelled.
- Rendering, theming, animation and navigation in the client pages are
  left out, and so are `Dashboard.jsx`, `Login.jsx`, `App.jsx`,
  `Navbar.jsx` and `authContext.jsx`.
- The retried request itself (`api(original)`) is left out; `OnError`
  answers `Retry`.
