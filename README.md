# Community issue board: accounts, moderation and the feed

This project models the core of a community issue-reporting board. Citizens register,
log in and post local issues. Administrators change roles and ban or unban users. The
home page filters, sorts and ranks the posts it has fetched.

The model covers four parts:

- **Schemas** (`UserModel`, `PostModel`, `BannedModel`):
  - the field constraints and defaults of the user, post and ban-record documents;
  - the `lowercase` setter on emails;
  - the user pre-save hook, which hashes a password only when it was modified. It is
    modelled as the class `UserDocument`, whose `passwordModified` flag the hook reads
    and `save()` clears.
- **Accounts** (`AuthController`):
  - `register`;
  - `login`, with its token claims and session cookie;
  - the `auth` middleware: four checks in the source's order, with five distinct refusals;
  - `logout`.
- **Moderation** (`AdminController`):
  - the `isAdmin` guard and the `auth`-then-`isAdmin` chain every admin route runs;
  - `getUsers`;
  - `changeRole`;
  - `banUser`, a toggle that writes a ban record to a ledger on every ban.
- **Feed** (`Feed`), from the home page:
  - the category toggle;
  - the status-button mapping;
  - the category, status and search filters;
  - the four sort orders, proved stable;
  - the top-ten trending list of unresolved posts.

## How the model is built

- `Store.Database` is a class holding the users table (`map<UserId, User>`), the
  ban ledger (`seq<BanRecord>`) and the next fresh id.
  - Each handler that writes to it is a method with early returns, as in the source.
  - Each such method is proved equal to a pure `...Step` function on the state value
    `DbState`. The properties of the handler are proved on that function.
  - Every handler preserves `ValidState`: stored users meet the schema, emails and
    usernames are unique, and every ban record is valid and names a stored user.
- The server is modelled under Express 5's semantics throughout.
  - A rejected async handler reaches the default error handler.
  - `res.json` with two arguments sends only the first.
  - Under Express 4 neither holds, and those outcomes are not modelled.
- A save error that the handler does not catch is the response `Unhandled`.
  - Examples are a validation error or a duplicate username hitting the unique index.
  - Under Express 5 it reaches the default error handler, not a JSON answer. Under
    Express 4 the request would get no answer, and the unhandled rejection would end a
    Node 15+ process.
- Middleware outcomes are `Gate` values: `Next` (call the next handler) or `Halt`
  (answer now).
- Bcrypt, the JWT library and the clock are function or value parameters:
  - `hash` for hashing;
  - `matches` for `bcrypt.compare`;
  - `sign` and `verify` for `jsonwebtoken`;
  - `now` for timestamps.
- JavaScript string behaviour is written out in `JsText`:
  - `trim` uses the ECMAScript white-space and line-terminator set;
  - `includes` is substring search;
  - `toLowerCase` is modelled on ASCII letters.

Code behaviours worth knowing, all modelled as written:

- `register` answers 400 for an existing email.
- `changeRole` refuses "moderator", although the schema's role enum allows it.
- `getUsers` returns whole user documents, password hashes included.
- `getUsers`' 404 branch can never be taken, because `User.find()` returns a list and
  never null.
- The `minlength`/`maxlength` validators count UTF-16 code units, so a character outside
  the Basic Multilingual Plane (an emoji, say) counts twice.

## Model

| member | source | states |
|---|---|---|
| UserModel.ParseRole | server/src/models/user.model.js:30-34 | a string is accepted as a role only when it is the stored name of that role |
| UserModel.ParseRoleName | server/src/models/user.model.js:30-34 | each of the three roles round-trips through its stored name |
| UserModel.NewUser | server/src/models/user.model.js:7-38 | a new document keeps username and password, stores the email lower-cased, and takes role "user", active, and the default picture |
| UserModel.NewUserValid | server/src/models/user.model.js:7-29 | a new document passes validation exactly when username is 3-20 UTF-16 code units, password 8-100 and email non-empty |
| UserModel.AstralUsernameTooLong | server/src/models/user.model.js:11-12 | a username of eleven emoji is eleven characters long and still fails validation, being 22 code units |
| UserModel.ValidUserStorable | server/src/models/user.model.js:44-56 | replacing a valid document's password by its hash keeps the stored-user constraints |
| UserModel.UserDocument.constructor | server/src/models/user.model.js:44-47 | a newly built document carries its password and counts it as modified |
| UserModel.UserDocument.PreSave | server/src/models/user.model.js:44-56 | a modified password is replaced by its hash, an unmodified one is left as it is |
| UserModel.UserDocument.Save | server/src/models/user.model.js:44-56 | saving runs the hook and clears the modified flag |
| UserModel.SaveTwiceHashesOnce | server/src/models/user.model.js:44-56 | saving a new document twice stores the hash of the plaintext, not a hash of the hash |
| PostModel.PointAt | server/src/models/post.model.js:44-52 | a point location has kind "Point" and two coordinates |
| PostModel.PointAtRoundTrip | server/src/models/post.model.js:49-51 | a point gives back its longitude first and its latitude second |
| PostModel.NewPost | server/src/models/post.model.js:3-55 | a new post keeps title, content and owner, and takes the defaults: no image, "general", unresolved, not deleted, created now, no location |
| PostModel.NewPostValid | server/src/models/post.model.js:5-14 | a new post passes validation exactly when the title is 5-50 UTF-16 code units and the content is non-empty |
| BannedModel.NewBanRecord | server/src/models/banned.users.model.js:3-16 | a record keeps the user and a given reason, falls back to "community guidelines" only when no reason is given, and is stamped now |
| BannedModel.NewBanRecordValid | server/src/models/banned.users.model.js:9-13 | a new record fails validation exactly when the given reason is the empty string |
| Store.UpdateKeepsValid | server/src/models/user.model.js:7-29 | rewriting one user without touching username or email keeps the store invariant, unique indexes included |
| AuthController.RegisterStep | server/src/controllers/controller.auth.js:10-27 | 400 for an existing email; 201 exactly when the email is new, the document validates and the username is free, and then only the new user (hashed password, fresh id) is added; for a new email every other outcome is an uncaught error; any answer but 201 leaves the store unchanged; the invariant is kept |
| AuthController.InsertKeepsValid | server/src/models/user.model.js:7-29 | adding a user with a fresh email and username under a fresh id keeps both unique indexes and the invariant |
| AuthController.Register | server/src/controllers/controller.auth.js:10-27 | the handler on the live database yields the response and new state `RegisterStep` specifies, and keeps the invariant |
| AuthController.RegisterSameEmailTwice | server/src/controllers/controller.auth.js:13-17 | once an email is registered, registering it again in any letter case is refused with 400 and changes nothing |
| AuthController.SessionCookie | server/src/controllers/controller.auth.js:41-46 | the cookie is named "token", http-only, not secure-only, same-site strict, and lasts one hour |
| AuthController.Login | server/src/controllers/controller.auth.js:29-49 | an unknown email gets 401; for the user with that email, a matching password yields a token signed for that id with a 24-hour expiry, set in the session cookie, otherwise 401 with the same message |
| AuthController.LoginIgnoresIsActive | server/src/controllers/controller.auth.js:29-49 | the login answer does not depend on whether the user is banned |
| AuthController.Authenticate | server/src/controllers/controller.auth.js:54-84 | each refusal is a 401 with its own message, in order: token missing, expired, invalid, user not found, banned; the request passes exactly for a decodable token of an existing active user, and carries exactly the id the token decodes to and that user's record |
| AuthController.Logout | server/src/controllers/controller.auth.js:88-92 | answers 200 and removes the token cookie, keeping every other cookie with its value |
| AuthController.LogoutIdempotent | server/src/controllers/controller.auth.js:88-92 | logging out twice is the same as logging out once |
| AuthController.LogoutEndsSession | server/src/controllers/controller.auth.js:54-59 | after logout every request is refused as "token missing" |
| AuthController.LoginCookieAuthenticates | server/src/controllers/controller.auth.js:40-75 | the cookie set by a successful login passes `auth` exactly when the user is active, and then carries that user; a banned user's cookie is refused as banned |
| AdminController.IsAdmin | server/src/controllers/controller.admin.js:7-15 | passes the user on exactly when the role is "admin", otherwise 401 "Unauthorised" |
| AdminController.AdminGate | server/src/routes/admin.routes.js:11-13 | an admin handler is reached exactly by a valid token of an existing, active admin, and receives the principal `auth` attached; a refusal by `auth` passes through with its own message, and an authenticated non-admin gets 401 "Unauthorised" |
| AdminController.GetUsers | server/src/controllers/controller.admin.js:17-27 | answers 200 with every stored user, banned or not |
| AdminController.ChangeRoleStep | server/src/controllers/controller.admin.js:29-49 | 404 "user does not exist or is banned" exactly for a missing or banned user; then 400 "invalid input" exactly for a role other than "admin" or "user"; 200 "User role updated successfully" otherwise; on 200 only that user's role changes, to the requested one, cast through the role enum; the invariant is kept |
| AdminController.ChangeRole | server/src/controllers/controller.admin.js:29-49 | the handler on the live database yields what `ChangeRoleStep` specifies and keeps the invariant |
| AdminController.BanUserStep | server/src/controllers/controller.admin.js:51-85 | 404 for a missing user and 400 for an admin, both changing nothing; otherwise only that user's active flag flips; an unban adds no record; a ban appends exactly one record; an empty reason leaves the user deactivated, the ledger unchanged and the error uncaught; the ledger only grows; the invariant is kept |
| AdminController.BanUser | server/src/controllers/controller.admin.js:51-85 | the handler on the live database yields what `BanUserStep` specifies and keeps the invariant |
| AdminController.BanActiveUser | server/src/controllers/controller.admin.js:75-84 | the ban branch deactivates the user first; a non-empty reason then appends exactly one record and answers "User banned successfully"; an empty reason leaves the ledger unchanged and the error uncaught; the invariant is kept |
| AdminController.BanDeactivates | server/src/controllers/controller.admin.js:75-84 | for an active non-admin and a non-empty reason, `banUser` answers 200, deactivates exactly that user and appends exactly its record |
| AdminController.UnbanReactivates | server/src/controllers/controller.admin.js:65-73 | for a deactivated non-admin, `banUser` answers 200 "User unbanned successfully", reactivates exactly that user and writes no record |
| AdminController.BanThenUnban | server/src/controllers/controller.admin.js:65-84 | banning then unbanning an active user restores the users table exactly and leaves one ban record in the ledger |
| AdminController.BanEndsSession | server/src/controllers/controller.auth.js:70-72 | after an active user is banned, whatever the outcome of the ledger write, a valid token for that user is refused as banned |
| AdminController.PromotionProtectsFromBan | server/src/controllers/controller.admin.js:39-63 | after a successful role change, a ban is refused as "Cannot ban an admin" exactly when the new role is "admin" |
| JsText.Utf16Length | server/src/models/user.model.js:11-22 | `.length` lies between the number of characters and twice that number |
| JsText.Utf16LengthCountsAstral | server/src/models/user.model.js:11-12 | `.length` equals the character count exactly when no character is astral, and twice it exactly when all are |
| JsText.Lower | client/src/pages/Home.jsx:119-125 | lower-casing keeps the length, maps each character, and yields a lower-case string |
| JsText.LowerOfLower | server/src/models/user.model.js:28 | lower-casing an already lower-case string changes nothing |
| JsText.TrimEmptyIffBlank | client/src/pages/Home.jsx:118 | a trimmed string is empty exactly when every character is white space |
| JsText.TrimStartShape | client/src/pages/Home.jsx:118 | after trimming at the start, a non-empty result begins with a non-space character |
| JsText.IncludesIffOccurs | client/src/pages/Home.jsx:122-125 | `includes` holds exactly when the needle occurs at some position of the string |
| Feed.Filter | client/src/pages/Home.jsx:107-126 | filtering keeps the passing elements in order, each as often as in the input, and nothing else |
| Feed.SubsequenceTrans | client/src/pages/Home.jsx:103-126 | a filter of a filter is still an ordered selection from the original list |
| Feed.ToggleCategory | client/src/pages/Home.jsx:57-63 | a selected category is removed in every copy: the result is the selection filtered by `cat !== value`, shorter and an ordered selection of it; an unselected one is appended; no other category's membership changes |
| Feed.ToggleTwice | client/src/pages/Home.jsx:57-63 | toggling the same category twice gives back the original selection as a set |
| Feed.ToggleKeepsNoRepeats | client/src/pages/Home.jsx:57-63 | a selection without repeats stays without repeats |
| Feed.StatusFilterOf | client/src/pages/Home.jsx:65-73 | "Pending" selects unresolved posts, "Resolved" resolved ones, anything else clears the filter |
| Feed.StatusButtonRoundTrip | client/src/pages/Home.jsx:255 | pressing a status button sets exactly the filter value that button stands for |
| Feed.FilterPosts | client/src/pages/Home.jsx:102-127 | the result is an ordered selection of the posts holding each post as often as the input exactly when it meets the category, status and search conditions; with no filters it is the input itself |
| Feed.InsertBy | client/src/pages/Home.jsx:83-96 | inserting into a sorted list keeps it sorted and adds exactly the new element |
| Feed.SortedByPairwise | client/src/pages/Home.jsx:83-96 | in a list sorted on adjacent pairs every earlier key is at most every later one |
| Feed.InsertByGroups | client/src/pages/Home.jsx:83-96 | an inserted element goes ahead of every element with the same key and leaves their order alone |
| Feed.SortBy | client/src/pages/Home.jsx:83-96 | the comparator sort yields a sorted permutation of its input |
| Feed.SortByStable | client/src/pages/Home.jsx:83-96 | the sort is stable: elements sharing a key keep their relative order |
| Feed.ApplySort | client/src/pages/Home.jsx:83-96 | each option yields a permutation ordered newest first, oldest first, most upvoted first or most commented first; any other option returns the list itself |
| Feed.ApplySortStable | client/src/pages/Home.jsx:83-96 | under each of the four options, posts that tie on the key keep their order |
| Feed.Trending | client/src/pages/Home.jsx:134-141 | at most ten posts, as many as there are unresolved posts up to ten, all unresolved, drawn from the input |
| Feed.RankedStable | client/src/pages/Home.jsx:134-140 | unresolved posts that tie on score keep their fetched order in the ranking, so which tied posts make the top ten and their order are fixed |
| Feed.TrendingRanksByScore | client/src/pages/Home.jsx:134-141 | the trending list has non-increasing weighted score, and no unresolved post left out scores higher than one kept |
| Feed.PrefixOfSortedIsTop | client/src/pages/Home.jsx:140-141 | an element left out of a sorted list's prefix has a key no smaller than any element of the prefix |
| Feed.RankedDrawsFromOpen | client/src/pages/Home.jsx:134-140 | the ranking holds each unresolved post as often as the input and no resolved post |

## Left out

- The upvote schema, the post and profile controllers and the client pages other than
  the home feed are not part of this model.
- Route and server wiring are not modelled beyond the `auth`-then-`isAdmin` chain of the
  admin routes. This includes `authController.check`, which the auth routes reference
  but the controller does not export.
- The users' `createdAt`/`updatedAt` timestamps and the posts' `updatedAt` play no part
  in the handlers and are not modelled. Posts' `createdAt` and the ban ledger's
  timestamps are modelled.
- `toLowerCase`: modelled on ASCII letters only, because Dafny has no Unicode case tables.
- Bcrypt and JWT are function parameters, with no model of salts, signatures or secrets.
  The hook's error path (a bcrypt failure passed to `next`) is not modelled.
- Request bodies are strings or absent reasons. A missing field sent as `undefined`
  (which Mongoose drops from a query filter) and a `null` reason are not distinguished
  from the cases modelled.
- User ids are natural numbers. The cast error a malformed ObjectId raises in
  `findById` is not modelled.
- Feed.Score: uses `2 * upvotes + comments`, which orders posts exactly as the source's
  `(2 * upvotes + comments) / 3`. Floating-point rounding for huge counts, and
  non-numeric counts, are not modelled.
- Date formatting with `date-fns` and the loading and toast state of the page are
  presentation only.
- The newest-first sort that `fetchPosts` applies, in place, to the fetched list is not
  modelled separately. It is the same order `ApplySort("newest", ...)` gives.
- AuthController.Login: the success answer is modelled as 200 with the token and the
  cookie. This follows the Express 5 assumption stated above: the two-argument `res.json` at
  controller.auth.js:47 sends only its first argument. Under Express 4 the first
  argument would be taken as the status code; the response would fail on that invalid
  status and the cookie would never reach the client. That outcome is not modelled.
- AuthController.SessionCookie: the cookie lasts one hour while the token it carries
  lasts 24 hours. The model states both constants and does not reconcile them.
- Concurrency between requests: each handler runs atomically on the store.
