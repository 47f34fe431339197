# Account lifecycle of the auth MVP, in Dafny

This project models the backend of a small authentication service
(`backend/index.js` over the `User` schema of `backend/models/User.js`)
and three pure pieces of its admin dashboard (`frontend/app/dashboard/page.tsx`).

The backend keeps one collection of users. Its handlers do the following:

- register an account, refusing a taken email or username;
- log in by email or username, refusing unknown identities, blocked accounts
  and wrong passwords, then stamp `lastLoginAt` and issue a JWT;
- answer `/me` for the bearer of a token;
- let an administrator list, block or unblock, edit and delete accounts.

The model keeps that shape:

- `UserModel` (user_model.dfy): the schema. It has the `Account` record, the
  `Status` enum (`active`/`blocked`) and the uniqueness predicates
  (`Consistent`) that stand for the two unique indexes.
- `Crypto` (crypto.dfy): bcrypt and jsonwebtoken, reduced to four supplied
  functions. `hash(password, salt)`, `verify`, `sign(id)` and `decode(token)`
  obey `Primitives.Sound()`:
  - `verify(p, hash(p, salt))` holds;
  - `hash(p, salt) != p`;
  - `decode(sign(id)) == Some(id)`;
  - a signed token contains no space.
- `Auth` (auth.dfy): `authMiddleware`. It reads the `Authorization` header,
  takes `split(" ")[1]` and decodes that token.
- `Lifecycle` (lifecycle.dfy): each handler as a transition from the table
  before a request to the table after it, plus the reply. The lemmas relate
  operations to each other: uniqueness is kept, idempotence, register then
  login, login then `/me`, block then login, delete then `/me`.
- `Listing` (listing.dfy): `find().sort({ createdAt: -1 })`. It scans the
  table and sorts the scan newest first with an insertion sort.
- `Service` (service.dfy): the class `AccountService`. It owns the collection
  (`accounts`, `nextId`) and has one method per handler. Each method performs
  the handler's steps in place. Each is proved to keep the schema invariant
  and to leave the table and reply that the `Lifecycle` function gives. Login
  takes the account `findOne` returns as an unspecified choice among all
  matching accounts, and records it in a ghost out-parameter.
- `Scenario` (scenario.dfy): a client that takes one account from
  registration to deletion, using the class contracts only.
- `Dashboard` (dashboard.dfy): the search filter `filteredUsers`, the status
  the block/unblock button sends, and the status badge text.

Behaviour of the code worth knowing:

- Set-status and delete on an id that is not stored answer success and change
  nothing. Edit on such an id still runs the duplicate check, in which every
  stored account counts as "another" account; when that check passes it
  answers success and changes nothing. None of the three reports "not found".
- `/me`'s `select("fullName username email status")` keeps `_id`, so the
  profile carries the id as well.
- The admin routes have no authentication middleware. `GET /admin/users`
  returns whole documents, password hashes included. `List` does the same.

## Model

| member | source | states |
|---|---|---|
| UserModel.ParseStatus | backend/models/User.js:10-14 | the enum accepts exactly the two status names, and each accepted name reads back as the status written with it |
| UserModel.StatusNameRoundTrip | backend/models/User.js:10-14 | every status is stored as a string the enum accepts, and it parses back to the same status |
| Auth.SpaceIndex | backend/index.js:25 | finds the first space of the header: the character there is a space and none comes before it; None only when there is no space |
| Auth.SecondField | backend/index.js:25 | `split(" ")[1]` is undefined exactly when the header has no space; otherwise it is the text right after the first space, up to the next space or the end of the header, and so never contains a space |
| Auth.SecondFieldOfBearer | backend/index.js:25 | for the header "scheme token", with no space in either part, the second field is exactly the token |
| Auth.Authenticate | backend/index.js:20-31 | a missing or empty header is NoToken, and that is the only NoToken case; every other failure is InvalidToken; success means the second field decodes to the id returned, and conversely a non-empty header whose second field decodes to an id always yields that id |
| Auth.AuthenticateSigned | backend/index.js:26-27 | a header carrying `sign(id)` authenticates as `id` (sign/verify round trip) |
| Lifecycle.Register | backend/index.js:51-75 | fails DuplicateIdentity exactly when some account has the same email or the same username, and then changes nothing; on success it adds exactly one account under the new id with the given profile fields, `hash(password, salt)` as password, status active, `lastLoginAt` null and both timestamps set to now; every other account is unchanged |
| Lifecycle.RegisterKeepsConsistent | backend/models/User.js:5-6 | a register keeps usernames and emails unique and every account under its own id |
| Lifecycle.RegisterStoresHash | backend/index.js:64-71 | the stored password is not the plain text, and the plain text verifies against it |
| Lifecycle.RegisterTwiceSameUsername | backend/index.js:54-62 | right after a successful register, a second register with the same username is refused and the table stays as it is |
| Lifecycle.LoginAt | backend/index.js:78-106 | no matching account gives InvalidCredentials; a blocked account gives AccountBlocked whatever the password; an active account with a wrong password gives InvalidCredentials; failures change nothing; success holds exactly when the account is active and the password verifies, returns `sign(id)` and changes only that account's `lastLoginAt` and `updatedAt`, both set to now |
| Lifecycle.LoginKeepsConsistent | backend/index.js:100-101 | the stamping save keeps usernames and emails unique |
| Lifecycle.LoginThenMe | backend/index.js:36-45 | the token a login returns authenticates as the logged-in account, and `/me` then shows that account's profile as it was before the login |
| Lifecycle.RegisterThenLogin | backend/index.js:81-105 | a newly registered account matches the login filter by its username and by its email; logging in as it with the registered password returns its token; its username matches it alone unless an older account has that string as its email |
| Lifecycle.LoginMayMatchTwo | backend/index.js:81-83 | a table whose usernames and emails are unique can still have two accounts matched by one login string, one by email and one by username |
| Lifecycle.Lookup | backend/index.js:37-43 | NotFound exactly when the id is not stored; otherwise the id, fullName, username, email and status of that account |
| Lifecycle.SetStatus | backend/index.js:116-121 | always answers success; only the target account changes, and only its status and `updatedAt`; an absent id leaves the table unchanged |
| Lifecycle.SetStatusIdempotent | backend/index.js:119 | a second identical status request has the effect of one request at its own time (same table, same reply) |
| Lifecycle.SetStatusKeepsConsistent | backend/index.js:119 | a status change keeps usernames and emails unique |
| Lifecycle.BlockThenLogin | backend/index.js:89-93 | after an account is blocked, a login that finds it is refused AccountBlocked with any password, and nothing changes |
| Lifecycle.Delete | backend/index.js:124-127 | always answers success; exactly the target id leaves the table, and every other account is unchanged |
| Lifecycle.DeleteKeepsConsistent | backend/index.js:125 | a delete keeps usernames and emails unique |
| Lifecycle.DeleteThenMe | backend/index.js:36-45 | after a delete, a token for the deleted id still authenticates, but `/me` answers NotFound |
| Lifecycle.Edit | backend/index.js:132-155 | fails DuplicateIdentity exactly when an account other than the edited one has the new email or username, and then changes nothing; otherwise only the edited account changes: fullName, username, email and phone take the new values and `updatedAt` becomes now, while id, password, status, `lastLoginAt` and `createdAt` stay; an absent id changes nothing |
| Lifecycle.EditKeepsConsistent | backend/index.js:136-152 | an edit keeps usernames and emails unique |
| Lifecycle.EditKeepingIdentity | backend/index.js:136-139 | in a consistent table, keeping an account's own username and email is never a duplicate |
| Listing.ScanBelow | backend/index.js:111 | the scan lists only stored accounts, each under its own id, with no id twice, and lists every stored account |
| Listing.Insert | backend/index.js:111 | insertion adds exactly the one account (as a multiset) |
| Listing.SameElements | backend/index.js:111 | lists with the same multiset hold the same accounts |
| Listing.InsertedFrom | backend/index.js:111 | every account of an insertion is the inserted one or an old one |
| Listing.InsertKeepsOrder | backend/index.js:111 | insertion keeps a newest-first list newest first |
| Listing.SortNewestFirst | backend/index.js:111 | the sort is a permutation of its input |
| Listing.SortIsNewestFirst | backend/index.js:111 | the sort's result is ordered by `createdAt`, descending |
| Listing.InsertKeepsDistinct | backend/index.js:111 | inserting an account whose id is not yet listed lists no id twice |
| Listing.SortKeepsDistinct | backend/index.js:111 | sorting lists no id twice |
| Listing.ListAll | backend/index.js:110-113 | every stored account exactly once (each row is the stored account under its id, each stored account appears, no id twice), newest first |
| Service.AccountService.constructor | backend/models/User.js:20-22 | an empty collection satisfies the schema invariant under primitives that keep their contract |
| Service.AccountService.Register | backend/index.js:51-75 | keeps the invariant; the new table and reply are those of Lifecycle.Register at the next id |
| Service.AccountService.Login | backend/index.js:78-106 | keeps the invariant; the account chosen is one the `$or` filter matches, and none only when nothing matches; the new table and reply are those of Lifecycle.LoginAt for that choice |
| Service.AccountService.Me | backend/index.js:36-46 | middleware errors are passed through; for an authenticated id the reply is Lifecycle.Lookup on the current table |
| Service.AccountService.List | backend/index.js:110-113 | returns every stored account exactly once, newest first |
| Service.AccountService.SetStatus | backend/index.js:116-121 | keeps the invariant; the new table and reply are those of Lifecycle.SetStatus |
| Service.AccountService.Delete | backend/index.js:124-127 | keeps the invariant; the new table and reply are those of Lifecycle.Delete |
| Service.AccountService.Edit | backend/index.js:132-155 | keeps the invariant; the new table and reply are those of Lifecycle.Edit |
| Dashboard.LowerChar | frontend/app/dashboard/page.tsx:111-113 | an ASCII capital goes to its small letter, any other character is unchanged, and the result is never a capital |
| Dashboard.UpperChar | frontend/app/dashboard/page.tsx:232 | an ASCII small letter goes to its capital, any other character is unchanged, and the result is never a small letter |
| Dashboard.Lower | frontend/app/dashboard/page.tsx:111-113 | `toLowerCase` keeps the length and lower-cases each character |
| Dashboard.IncludesAt | frontend/app/dashboard/page.tsx:111-113 | `includes` holds exactly when the needle starts at some position of the string |
| Dashboard.IncludesEmpty | frontend/app/dashboard/page.tsx:110-114 | the empty string is included in every string |
| Dashboard.FilterUsers | frontend/app/dashboard/page.tsx:110-114 | the result is a subsequence of the users, in the same order; a user is in it exactly when the lower-cased term occurs in its lower-cased fullName, email or username, and each matching user appears as often as in the input |
| Dashboard.FilterEmptyTerm | frontend/app/dashboard/page.tsx:110-114 | an empty search term keeps every user |
| Dashboard.FilterIdempotent | frontend/app/dashboard/page.tsx:110-114 | filtering the filtered list again with the same term gives the same list |
| Dashboard.ToggleTarget | frontend/app/dashboard/page.tsx:258-274 | the button asks for `blocked` exactly when the user is `active`, always sends a status the schema accepts, and never sends the current status |
| Dashboard.ToggleFlips | frontend/app/dashboard/page.tsx:258-274 | for a stored status the button requests the other status, and pressing it again comes back to the original |
| Dashboard.Label | frontend/app/dashboard/page.tsx:232 | the badge has the length of the status, its first character upper-cased and the rest unchanged |
| Dashboard.LabelRoundTrip | frontend/app/dashboard/page.tsx:232 | when the status does not start with a capital, lower-casing the badge's first character gives the status back |
| Dashboard.StatusLabels | frontend/app/dashboard/page.tsx:232 | the badges of the two stored statuses are "Active" and "Blocked" |

## Left out

- Express routing, CORS, JSON parsing, HTTP status codes and `app.listen`. Each response becomes a `Result` value, with one `Error` per distinct failure branch.
- The MongoDB connection and driver. The collection is an in-memory `map` keyed by `_id`, and new ids come from a counter. Malformed ids and the driver's cast errors do not arise, because ids are naturals.
- Concurrency. Requests are modelled one at a time. The race between two registrations, and the unique indexes that settle it, are outside the model. The unique indexes appear only as the invariant the handlers keep.
- The internals of bcrypt and JWT (salt rounds, constant-time comparison, HMAC, the secret). Only the four facts in `Primitives.Sound()` are assumed. Different salts are not assumed to give different hashes.
- Time. `new Date()` becomes a `now` parameter. The model does not assume that successive calls get increasing times, so "lastLoginAt only moves forward" is not stated.
- Login's save sets `lastLoginAt` and `updatedAt` to the same `now`. The source reads the clock twice.
- Lifecycle.SetStatus and Service.AccountService.SetStatus: these take a typed `Status`. The handler forwards whatever string the request carries, and `findByIdAndUpdate` does not run schema validators by default. So the `active`/`blocked` enum holds in the model by typing. In the source it holds only for values like the ones the dashboard sends (see Dashboard.ToggleTarget).
- The token's `iat` claim: `jwt.sign` also embeds the issue time, so two logins of one account get different tokens. `sign` takes only the id and gives the same token each time.
- Request bodies are typed records. A missing field (JavaScript `undefined`) is not modelled.
- A token that verifies but whose payload has no `id` is folded into `decode` giving a value or None.
- The order of accounts with equal `createdAt` in the admin list. The store leaves it unspecified, so the contract states only newest-first order and that each account appears exactly once.
- `toLowerCase` and `toUpperCase` act on ASCII letters only. Unicode case mapping is not modelled.
- The rest of the dashboard (React state, `fetch` calls, confirmation dialogs, markup, date formatting) and the other frontend pages. They are rendering and transport only.
