# Resume API: authentication and owner-scoped resumes, modelled in Dafny

This project models the request handlers of a small FastAPI service. Users register with an email and a password, and log in to receive a signed access token in the `access_token` cookie. They then manage their own "resume" records: create, list, fetch, update, delete, and "improve", which appends the fixed marker `" [Improved]"` to the text.

The database holds two tables, `users` and `resumes`. The model keeps each as a sequence of rows in rowid order.
- Users are never deleted, so their ids are 1, 2, 3, ... in insertion order.
- Resume ids stay strictly ascending. A new resume gets the rowid SQLite gives a table without AUTOINCREMENT: one more than the largest id present, or 1 when the table is empty.

The SQL queries the handlers issue are recursive functions over these sequences:
- `where email == e` then `.first()`;
- `where id == i and user_id == u` then `.first()`;
- `where user_id == u` then `.all()`.

The JWT service and the bcrypt hasher are foreign libraries. Each is a record of functions that the handlers receive as a parameter (`Crypto.TokenService`, `Crypto.PasswordHasher`). The model relies on two facts about them:
- a token issued for a subject is non-empty and decodes to claims whose `sub` is that subject (`IssuedTokensDecode`);
- a password verifies against any salted hash made from it (`VerifiesOwnHash`).

HS256 pinning, signature checks and expiry all happen inside `decode`. The bcrypt salt, which the library draws at random, is a parameter of `Register`.

Modules:
- `Http`: `Option`, the handler reply `Reply<T> = Ok(value) | Err(error)`, and the three errors. `EmailTaken`, `Unauthorized` and `NotFound` are sent as 400, 401 and 404.
- `Tables`: the row datatypes, the table invariants, the queries, and lemmas about them.
- `Crypto`: the abstract token service and password hasher.
- `Auth`: `get_current_user` (`Authenticate`), `/login` and `/me`, as pure functions of the users table.
- `Api`: class `Store`, holding both tables. Its methods are the handlers that write: register, create, update, delete, improve. Its functions are the read-only resume routes.
- `Scenarios`: client runs on a fresh `Store`. Each states what a caller observes using only the handlers' contracts.

Every protected handler first runs `Authenticate` and answers 401 if it fails, without touching the tables. So no resume data can be reached without a resolved user. The owner-scoped routes look a resume up by id *and* owner. A missing id and another user's id give the same 404, and in both cases the tables are left unchanged.

Notes on what the handlers do:
- `register` keeps emails unique by looking the email up before inserting (the column also carries a unique constraint); a taken email is answered with 400.
- Authentication rejects a missing or empty cookie and a payload whose `sub` is missing or empty (`if not token`, `if not email`), besides an undecodable token and an unknown email.
- Create, update and delete answer `{'ok': True}`; improve answers the new context.

## Model

| member | source | states |
|---|---|---|
| `Tables.FindUserByEmail` | fastapitz/back/main.py:53-55 | a user is found only if it is stored with exactly that email; nothing is found only if no stored user has it |
| `Tables.FindOwnedResume` | fastapitz/back/main.py:145-147 | the index found holds a row with both the requested id and the caller as owner; nothing is found only if no row has both |
| `Tables.OwnedBy` | fastapitz/back/main.py:137-139 | the filtered rows are exactly the stored rows whose `user_id` is the given owner |
| `Tables.NextResumeId` | fastapitz/back/database.py:24 | the autoincremented id is positive and larger than every stored resume id, so it is fresh |
| `Tables.FindStoredEmail` | fastapitz/back/database.py:33 | under the unique email column, a lookup of a stored user's email returns that very user |
| `Tables.SameEmailSameUser` | fastapitz/back/database.py:33 | two stored users with the same email are the same row |
| `Tables.WithUserKeepsValid` | fastapitz/back/main.py:77-80 | inserting a user whose email is absent keeps ids numbered from 1 and emails unique, and the lookup then finds the new row |
| `Tables.FoundRowIsOnlyRowWithId` | fastapitz/back/database.py:24 | the resume found for an owner is the only row carrying that primary key |
| `Tables.OtherOwnersRowIsNotFound` | fastapitz/back/main.py:145-150 | a resume owned by another user is not found by the owner-scoped lookup, just like a missing id |
| `Tables.RemoveRow` | fastapitz/back/main.py:181 | deleting one row leaves exactly the rows with a different id, still in ascending id order |
| `Tables.ReplaceRow` | fastapitz/back/main.py:165-166 | changing a row in place while keeping its id keeps the ids ascending |
| `Tables.AppendRow` | fastapitz/back/main.py:130 | adding a row with the next id keeps the ids ascending |
| `Tables.AppendedRowIsFound` | fastapitz/back/main.py:125-130 | a resume just created is what the owner-scoped lookup of its new id finds |
| `Tables.ReplacedRowIsFound` | fastapitz/back/main.py:165-166 | a resume updated in place is still found, by its unchanged id and owner, at the same position |
| `Tables.RemovedRowIsNotFound` | fastapitz/back/main.py:181 | once a resume is deleted, the lookup of its id finds nothing, whoever asks |
| `Tables.EveryResumeHasStoredOwner` | fastapitz/back/main.py:125-129 | every stored resume's `user_id` is the id of a stored user, since resumes are created only for an authenticated caller and users are never deleted |
| `Tables.OwnedByAscending` | fastapitz/back/main.py:137-141 | the listing of one owner's resumes is in ascending id order |
| `Auth.Authenticate` | fastapitz/back/main.py:38-64 | a user is returned only if the cookie holds a non-empty token that decodes, with a non-empty `sub` equal to that stored user's email; on any other path the answer is 401 and no stored user would have passed |
| `Auth.AuthenticatedUserIsUnique` | fastapitz/back/main.py:53-60 | with unique emails, a request authenticates as at most one user |
| `Auth.Login` | fastapitz/back/main.py:83-108 | 401 when the email is unknown or the password does not verify; on success the body's token and the `access_token` cookie carry the same token, issued for the email that logged in |
| `Auth.LoginIffPasswordVerifies` | fastapitz/back/main.py:86-95 | with unique emails, login succeeds if and only if a stored user has the email and the password verifies against that user's hash |
| `Auth.Me` | fastapitz/back/main.py:110-112 | `/me` returns the email and id of the user the request authenticates as, or 401 when none does |
| `Auth.RegisterThenLogin` | fastapitz/back/main.py:68-95 | after a successful registration, logging in with the same email and password succeeds |
| `Auth.LoginCookieAuthenticates` | fastapitz/back/main.py:97-106 | presenting the cookie a login set authenticates the request as the user who logged in |
| `Auth.LoginThenMe` | fastapitz/back/main.py:110-112 | a login followed by `/me` with its cookie returns the email that logged in and that user's id |
| `Api.Store.constructor` | fastapitz/back/database.py:36-38 | a new database has both tables empty and satisfies the store invariant |
| `Api.Store.Register` | fastapitz/back/main.py:68-81 | a taken email gives 400 and leaves the users table unchanged; otherwise exactly one user is appended, with the next id, that email and the salted hash of the password; email uniqueness is preserved and resumes are untouched |
| `Api.Store.AddResume` | fastapitz/back/main.py:122-133 | 401 leaves everything unchanged; otherwise exactly one resume is appended with a fresh id, the submitted title and context and the caller's id as owner; existing rows are unchanged |
| `Api.Store.ListResumes` | fastapitz/back/main.py:135-141 | 401 exactly when authentication fails; otherwise the list holds exactly the resumes whose owner is the caller |
| `Api.Store.GetResume` | fastapitz/back/main.py:143-153 | 401 when authentication fails; 404 only when no stored resume with that id belongs to the caller; otherwise a stored resume with that id owned by the caller |
| `Api.Store.UpdateResume` | fastapitz/back/main.py:155-169 | 401 or 404 leave the tables unchanged; otherwise only the caller's row with that id changes, taking the new title and context and keeping its id and owner |
| `Api.Store.DeleteResume` | fastapitz/back/main.py:171-184 | 401 or 404 leave the tables unchanged; otherwise only the caller's row with that id is removed, and every row with another id stays in order |
| `Api.Store.ImproveResume` | fastapitz/back/main.py:186-199 | 401 or 404 leave the tables unchanged; otherwise only that row's context becomes the old context plus `" [Improved]"`, and that new context is returned |
| `Scenarios.SignUp` | fastapitz/back/main.py:68-108 | registering and then logging in yields cookies that authenticate as the newly inserted user |
| `Scenarios.RegisterTwice` | fastapitz/back/main.py:68-81 | registering one email twice gives 200, then 400, and leaves exactly one user |
| `Scenarios.CreateThenGet` | fastapitz/back/main.py:122-153 | a resume created with title "T" and context "C" is read back as id 1, "T", "C", owned by its creator |
| `Scenarios.ImproveTwice` | fastapitz/back/main.py:186-199 | improving context "hi" twice returns "hi [Improved]" and then "hi [Improved] [Improved]" |
| `Scenarios.OtherUserSeesNotFound` | fastapitz/back/main.py:143-193 | on another user's resume, get, update, delete and improve all give 404 and that user's listing is empty; the owner still reads the resume unchanged |
| `Scenarios.DeletedNewestIdIsReused` | fastapitz/back/database.py:24 | after the newest resume is deleted, the next resume created gets the same id |

## Left out

- JWT encoding and decoding (PyJWT, AuthX) are abstract: no HMAC-SHA256, no base64 and no JSON. Checking the `exp` claim happens inside `decode`. The round-trip fact assumes a token is presented before it expires, because clocks are not modelled.
- `Crypto.TokenService`: `issue` is a function of the email alone. AuthX draws `iat`, `exp` and a random `jti` when it creates the token at main.py:97, so each login gets a different token; the model does not capture that, and no property proved here depends on it.
- Resistance to tampered or wrongly signed tokens is a property of the abstract `decode`, which answers None for them; the model only shows that such a token then gets 401 (`Auth.Authenticate`).
- bcrypt is abstract. "A password verifies against its own hash" is assumed, and so is that `hash` and `verify` always return. The random salt becomes a parameter.
- `Api.Store.Register` and `Auth.Login`: passlib refuses a password containing a NUL byte (`NullPasswordError`), uncaught at main.py:77 and main.py:93, so the source answers 500 where the model answers 200 (register) or 401/200 (login). Hashing is total in the model.
- `Api.Store.GetResume`, `Api.Store.UpdateResume`, `Api.Store.DeleteResume` and `Api.Store.ImproveResume`: ids are unbounded integers. SQLite stores signed 64-bit integers, and a `resume_id` outside that range makes the driver raise `OverflowError` at main.py:145, 157, 173 and 188, uncaught, so the source answers 500 where the model answers 404.
- `Tables.NextResumeId`: the max+1 rule is SQLite's only while the largest rowid is below 2^63-1; past that SQLite picks an unused rowid at random, or fails when none is free. The model keeps max+1 on unbounded integers.
- Claims are modelled as string-valued only. A `sub` claim holding a non-string JSON value, which would fail the email lookup at main.py:53-58, is not represented.
- The catch-all `except Exception` at main.py:63-64 is not modelled: in this model the database and the decoder never raise, so nothing reaches it. Likewise, a passlib exception on a malformed stored hash during login is not modelled; every stored hash comes from `hash`.
- Request validation by Pydantic (`EmailStr` and the schema shapes, answered with 422) is not modelled; emails and passwords are plain strings. For this reason `Auth.LoginCookieAuthenticates` and `Auth.LoginThenMe` require a non-empty email. Without that, a user stored with the empty email could log in, but the cookie would then be rejected by `if not email`.
- SQLAlchemy sessions, commits, the async engine and the startup schema creation are not modelled. Each handler is one atomic sequential step. Concurrent requests are not modelled, so neither is the check-then-insert race in `register`.
- Cookie attributes (`httponly`, `samesite`, `secure`, `path`), CORS, the root route, uvicorn start-up and `print` logging are configuration and I/O, and are not modelled.
- Error detail strings are not modelled; errors carry only their kind, and `HttpError.Status` gives its code.
- `Api.Store.ListResumes`: the ordering is stated as a separate lemma (`Tables.OwnedByAscending`), not in the function's own contract.
