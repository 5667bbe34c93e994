# Car management system — a Dafny model of its request handlers and client logic

The application stores "car" records (title, description, up to ten image
URLs, tags) owned by registered users. Users sign up and log in with an
e-mail and password. Login returns a seven-day bearer token. Each car request
must carry that token in an `Authorization: Bearer <token>` header.

This project models the core of that application:

- The authentication guard shared by the car routes (`AuthGate`).
- `POST /api/cars` and `GET /api/cars` (`CarsRoute`).
- `POST /api/auth/signup` (`SignupRoute`) and `POST /api/auth/login` (`LoginRoute`).
- The store they work on (`Database`). It is an in-memory class holding the
  user and car tables, with its constraints: unique e-mails, unique ids, and
  every car's owner is a registered user.
- The pure decisions of the client pages:
  - the token tri-state of the two list pages (`Session`);
  - their search filter (`CarSearch`);
  - the create page's submit guards and text-area parsing (`CreateForm`).

Request bodies are JavaScript values (`JsValues`). Falsiness checks such as
`!title` follow JavaScript truthiness. Destructuring a `null` body throws,
and the handler turns that into 500. The string helpers the code uses
(`split`, `startsWith`, `includes`, ASCII `toLowerCase`) are in `Text`.

Things the code reaches outside itself for are parameters:

- `jwt.verify` is a function from token to optional claims.
- `jwt.sign` is a function from payload and expiry to token.
- `bcrypt.hash` and `bcrypt.compare` are functions.
- Whether the database answers is a boolean `up`.
- The clock is an integer `now`.

Store calls that throw are modelled as failures, and each handler answers
them with 500 "Something went wrong". This covers a database that is down,
a field of the wrong type for its column, and an owner id that is not a user.

Two places where the pages and the route do not agree:

- The car route rejects an empty description (`!description`,
  `src/app/api/cars/route.ts:23`); the create page does not mark it as
  required, so it lets through a submission the route refuses.
- The create page's tag field is labelled "space separated", but
  `handleSubmit` splits it on newlines.

## Model

| member | source | states |
|---|---|---|
| `Text.Split` | src/app/cars/create/page.tsx:24 | `split("\n")` yields at least one piece and no piece contains the separator |
| `Text.JoinSplit` | src/app/cars/create/page.tsx:24-25 | joining the pieces of a split with the separator restores the input |
| `Text.SplitJoin` | src/app/cars/create/page.tsx:24-25 | splitting a join of separator-free pieces restores the pieces |
| `Text.SplitFirstPiece` | src/app/api/cars/route.ts:13 | the first piece of a split is the longest separator-free prefix of the string |
| `Text.LowerIdempotent` | src/app/cars/page.tsx:66 | lower-casing an already lower-cased term changes nothing |
| `Text.IncludesIffOccurs` | src/app/cars/page.tsx:70-72 | `includes` holds iff the term occurs at some position |
| `JsValues.Truthy` | src/app/api/cars/route.ts:23 | JavaScript truthiness, the meaning of `!x` here and at `src/app/api/auth/signup/route.ts:8` and `src/app/api/auth/login/route.ts:11`: every truthy value can be destructured, and every array and object is truthy, even an empty one |
| `JsValues.AsStrings` | src/app/api/cars/route.ts:34-35 | a value fits a text-list column iff it is an array of strings, and it is then exactly the array of the strings read |
| `JsValues.AsStringsStrs` | src/app/api/cars/route.ts:34-35 | a list of strings written as an array reads back unchanged |
| `Database.FindUserByEmail` | src/app/api/auth/signup/route.ts:13 | a user is found only with the e-mail asked for, and nothing is found only when no user has that e-mail |
| `Database.FindUserByEmailUnique` | src/app/api/auth/login/route.ts:16 | with unique e-mails the lookup returns the one user holding that e-mail |
| `Database.Db.CreateUser` | src/app/api/auth/signup/route.ts:22-27 | inserts exactly one user with a fresh id iff the database answers and the e-mail is free; otherwise nothing changes; the store's constraints are kept |
| `Database.Db.CreateCar` | src/app/api/cars/route.ts:30-38 | inserts exactly one car with the draft's fields, a fresh id and the current time iff the database answers and the owner is a user; users never change |
| `AuthGate.BearerToken` | src/app/api/cars/route.ts:8-13 | a token is taken iff the header is present and starts with `Bearer `; it is the first space-delimited field after that prefix |
| `AuthGate.BearerRoundTrip` | src/app/api/cars/route.ts:13 | a header `Bearer <token>` with a space-free token yields that token back |
| `AuthGate.Authenticate` | src/app/api/cars/route.ts:8-19 | 401 "Unauthorized" iff the header is bad; else 401 "Invalid token" iff verification fails; else the verified claims |
| `CarsRoute.ReadCarFields` | src/app/api/cars/route.ts:21 | destructuring the body fails exactly for a null body |
| `CarsRoute.BadCarInput` | src/app/api/cars/route.ts:23 | the route's input check: it passes iff title and description are truthy and images is an array of at most 10 elements (the separate `!images` test adds nothing, since every array is truthy); tags are not checked |
| `CarsRoute.ToDraft` | src/app/api/cars/route.ts:30-38 | the draft holds the input's title, description, images and tags unchanged (no tags when the field is absent), owned by the token's user |
| `CarsRoute.PlanPost` | src/app/api/cars/route.ts:8-38 | failure precedence: 401 iff the guard rejects; 400 iff authenticated, the body is read and the input check fails; 500 iff the body cannot be read or a field does not fit its column; otherwise the car to create equals the input (an absent tag list becomes empty), belongs to the token's user, and has a non-empty title and description and at most 10 images |
| `CarsRoute.AuthenticationPrecedesBody` | src/app/api/cars/route.ts:8-21 | a request the guard rejects gets the same 401 whatever its body |
| `CarsRoute.Post` | src/app/api/cars/route.ts:6-44 | 201 iff the plan creates a car and the store accepts it; on 201 exactly that car is appended; on any other status the store is unchanged, and when the plan was to create, that status is 500 "Something went wrong"; the users never change; "every stored car passes the input check" is preserved |
| `CarsRoute.OwnedBy` | src/app/api/cars/route.ts:61-62 | keeps exactly the cars of the given user, in store order, each as often as it is stored |
| `CarsRoute.InsertNewestFirst` | src/app/api/cars/route.ts:63 | inserting into a newest-first list keeps it newest-first and adds exactly that car |
| `CarsRoute.SortNewestFirst` | src/app/api/cars/route.ts:63 | the result is ordered by `createdAt` descending and is a permutation of the input |
| `CarsRoute.ListOwned` | src/app/api/cars/route.ts:61-64 | the listing is newest first and holds exactly the user's cars, with multiplicity |
| `CarsRoute.List` | src/app/api/cars/route.ts:46-70 | 401 as the guard says; 500 when the database is down; otherwise 200 with exactly the token user's cars, newest first; reads only |
| `Credentials.ReadCredentials` | src/app/api/auth/signup/route.ts:6 | destructuring `{ email, password }` fails exactly for a null body |
| `SignupRoute.PlanSignup` | src/app/api/auth/signup/route.ts:6-19 | 400 "Email and password are required" iff a field is falsy; 400 "User already exists" iff the e-mail is taken; a registration is made only for a free e-mail; every well-formed request with a free e-mail registers that e-mail with the bcrypt hash of its password |
| `SignupRoute.DuplicateEmailRefused` | src/app/api/auth/signup/route.ts:13-16 | an e-mail that is already registered is refused with 400 "User already exists" |
| `SignupRoute.RegisterKeepsEmailsUnique` | src/app/api/auth/signup/route.ts:13-27 | adding the registered user keeps e-mails pairwise distinct |
| `SignupRoute.RepeatSignupRefused` | src/app/api/auth/signup/route.ts:13-16 | after a successful signup the same request is refused with 400 |
| `SignupRoute.Signup` | src/app/api/auth/signup/route.ts:4-36 | 201 with the new user's fresh id and exactly one user appended when the plan registers and the insert is accepted; 500 "Something went wrong" and no change when the insert fails; otherwise the planned error and no change; cars never change; store constraints kept |
| `LoginRoute.Login` | src/app/api/auth/login/route.ts:7-36 | statuses are 200/400/401/500; 400 iff a field is falsy, and every 400 is "Email and password are required"; every 401 is "Invalid credentials"; 500 iff the body or its fields cannot be read or the store is down, and every 500 is "Something went wrong"; 200 only when the body carries a registered user's e-mail and a password `compare` matches to that user's hash, with a token signed over that user's id and e-mail and a 7-day expiry |
| `LoginRoute.RejectionHidesCause` | src/app/api/auth/login/route.ts:16-25 | an unknown e-mail and a wrong password get the identical 401 response |
| `LoginRoute.AcceptsRegisteredUser` | src/app/api/auth/login/route.ts:22-32 | a registered user's matching password gets 200 and a token for that user |
| `LoginRoute.SignupThenLogin` | src/app/api/auth/login/route.ts:16-32 | once bcrypt matches a password to its own hash, a login that follows a successful signup with the same body succeeds, and its token names the new user |
| `Session.TokenEffect` | src/app/cars/page.tsx:20-30 | undefined token: no action; null token: redirect to `/auth/login`; a stored token: fetch the cars. `src/app/page.tsx:20-25` makes the same decision |
| `Session.FetchSendsStoredToken` | src/app/cars/page.tsx:35-39 | the header the page sends gives the server's guard exactly the stored token |
| `CarSearch.Matches` | src/app/cars/page.tsx:66-72 | the filter's predicate: the lower-cased term is included in the lower-cased title, description or some tag (the same test as `src/app/page.tsx:64-71`); an empty term matches every car |
| `CarSearch.FilterCars` | src/app/cars/page.tsx:65-75 | the result is an order-preserving subsequence of the full list, no longer than it, holding exactly the cars that match, each as often as it occurs in the list. `src/app/page.tsx:63-75` has the same filter |
| `CarSearch.EmptySearchKeepsAll` | src/app/page.tsx:64-74 | an empty search term keeps every car |
| `CarSearch.SearchIgnoresCase` | src/app/cars/page.tsx:66 | a term and its lower-case form show the same cars |
| `CarSearch.KeptIffOccurs` | src/app/page.tsx:66-72 | a car is kept iff the lower-cased term occurs in its lower-cased title, description or some tag |
| `CreateForm.DropEmpty` | src/app/cars/create/page.tsx:24 | `filter(Boolean)` keeps exactly the non-empty strings, in order, each as often as it occurs |
| `CreateForm.ParseList` | src/app/cars/create/page.tsx:24-25 | a missing or empty field parses to `[]`; every entry is non-empty and newline-free; the entries are the input's non-empty lines, in order, each as often as it occurs |
| `CreateForm.ParseListOfLines` | src/app/cars/create/page.tsx:24-25 | non-empty, newline-free lines typed one per line parse back to exactly those lines |
| `CreateForm.HasToken` | src/app/cars/create/page.tsx:14 | `!token` is false exactly when the stored token is one the list pages fetch with and it is not empty |
| `CreateForm.HandleSubmit` | src/app/cars/create/page.tsx:13-25 | no token gives "Unauthorized!" before the title is looked at; an empty title gives "Title is required"; only otherwise is a request sent, carrying the token, title and description, and the images and tags parsed one per line |
| `CreateForm.RequestBody` | src/app/cars/create/page.tsx:28-35 | the JSON object the page posts: an object, so the server can destructure it, with title, images and tags, and description only when the form had one (JSON drops an undefined member) |
| `CreateForm.ServerReadsRequest` | src/app/cars/create/page.tsx:28-35 | the server reads back exactly the title, description, images and tags the page posted |
| `CreateForm.ServerCreatesSubmittedCar` | src/app/cars/create/page.tsx:28-41 | a submission with a description and at most ten image lines makes the server create exactly the typed car for the token's user |
| `CreateForm.ServerRefusesWhatPageLetsThrough` | src/app/cars/create/page.tsx:18-35 | the page checks neither the description nor the image count; the server answers 400 to a missing or empty description or to more than ten images |

## Left out

- The per-id routes (`src/app/api/cars/[id]/route.ts`: read, update, delete with the ownership check) and the detail pages are not part of this model.
- Token cryptography: `jwt.sign` and `jwt.verify` are parameters. Signature checking and expiry live inside `verify`. The model only passes the `"7d"` expiry to `sign`.
- Password hashing: `bcrypt.hash` and `bcrypt.compare` are parameters. `hash` is deterministic in the model: equal passwords always get equal hashes, and bcrypt's random salt is not represented. The store keeps whatever `hash` returns.
- SignupRoute.PlanSignup: states that the stored password is the bcrypt hash of the plaintext. That the hash never equals the plaintext is a property of bcrypt, which the model abstracts.
- The database engine: tables are sequences and ids are fresh naturals. The database schema file is not part of this model. Its columns are taken as text for title and description and text lists for images and tags. The owner column is assumed to reference the user table. A missing `tags` field is taken to leave the column unset, which stores an empty list; this is an assumption about the store client, whose behaviour is not part of this model. Only a plain array of strings or an absent field is accepted for `tags`; other forms the store client may accept for a list column (such as an object `{ set: [...] }`) are modelled as not fitting, and answered with 500.
- CarsRoute.List: states the listing as a newest-first permutation of the user's cars. The order among cars with equal `createdAt` is the database's and is not modelled.
- Concurrency between requests is not modelled. The store failures the model covers are an unanswered call, a field that does not fit its column, an owner that is not a user and a taken e-mail. Other failures, such as time-outs and constraint races between requests, are not modelled.
- `toLowerCase` is modelled for ASCII letters only. Unicode case mapping is not modelled.
- React state (`cars`, `filteredCars`, `loading`, `error`), the router push after creating, rendering, and the axios calls are not modelled. So are the error strings the create page shows for failed requests (`src/app/cars/create/page.tsx:44-52`).
- `src/hooks/useLocalStorage.ts` (browser storage), `src/components/Button.tsx` (styling), and the login and signup pages (form forwarding) are not part of this model.
- A text-area entry that is a file rather than a string is not modelled.
