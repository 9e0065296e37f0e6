# Health tracker server: record stores, registration, login and caller resolution

This project models the request-handling logic of a FastAPI health-tracking
server, in Dafny. It covers three parts of the server.

- **Thirteen resource routers**: notification settings, achievements, water
  intake logs, about-yourself, basic profile, physical info, nutrition
  database, exercise logs, sleep logs, user goals, food logs, users and meals.
  Each router keeps a module-level Python `dict` from record id to record.
  Each one serves list, get, create, update and delete, and answers 404 or
  400 with its own detail texts.
- **Credential table**: `/auth/register` rejects a duplicate email, then
  stores a hashed password. `/auth/login` checks an email and password.
  Both return a bearer token whose claims are `sub` (the email), `user_id` and
  `exp`.
- **Caller resolution**: `get_current_user` decodes the bearer token and
  returns its `sub` claim. Every failure is 401 "Invalid token". The
  `/protected` route greets the resolved caller.

Files:

- `replies.dfy` (module `Replies`): `Option`, and `Reply`, a handler's answer
  that is either a value or an HTTP status with a detail text.
- `ordered_dict.dfy` (module `OrderedDict`): the Python `dict` as a sequence of
  entries in insertion order. `AsMap` gives its order-free view. Lemmas prove
  that lookup, assignment and deletion refine Dafny's `map` operations.
- `record_store.dfy` (module `RecordStore`): the five handlers over one table,
  with their round-trip lemmas.
- `routers.dfy` (module `Routers`): the `Resource` datatype, and `Serve`, which
  resolves the caller and then runs a handler. It has one lemma per router,
  stated with that router's own detail texts.
- `identity.dfy` (module `Identity`): claims, `CurrentUser` and the protected
  greeting.
- `auth.dfy` (module `Auth`): the credential table, `Register`, `Login` and the
  access-token payload.

Foreign code is passed in as function values:

- bcrypt hashing is `Auth.Hasher` (`hash`, `verify`).
- PyJWT signing is `Auth.Jwt` (`encode`, `decode`); decoding alone is an
  `Identity.Decoder`.
- The clock (`now`, in seconds) and the fresh user id are parameters.

Lemmas state what they need of the foreign code as premises:

- `Auth.Sound`: `verify(p, hash(p))` holds for every password.
- `Auth.RoundTrips`: a minted token decodes back to its claims.

Three facts about the code shape the model:

- Callers are identified by the `sub` claim (the email). The `user_id` claim
  is never used for this, and there is no fallback between the two claims.
- No router filters records by caller. `Routers.CallerIrrelevant` proves that
  the reply does not depend on who the resolved caller is.
- Registration checks only the email. The username is not checked, even
  though the `users` table declares it unique.

## Model

| member | source | states |
|---|---|---|
| `OrderedDict.Values` | my-server/src/my_server/api/meals.py:26 | `list(db.values())` lists one value per entry, in insertion order |
| `OrderedDict.Get` | my-server/src/my_server/api/meals.py:30 | `db.get(id)` finds a value exactly when the key is present, and the value found is stored under that key |
| `OrderedDict.Put` | my-server/src/my_server/api/meals.py:39 | `db[k] = v` adds `k` to the keys; a new key is appended as the last entry; an existing key keeps its position and every other key keeps its place; afterwards `k` maps to `v` |
| `OrderedDict.Remove` | my-server/src/my_server/api/meals.py:53 | `del db[k]` drops exactly one entry when `k` is present; no other key is lost; in a dictionary without repeated keys, `k` is gone afterwards; an absent key changes nothing |
| `OrderedDict.GetAgrees` | my-server/src/my_server/api/meals.py:30 | lookup in the ordered dictionary gives the same answer as lookup in its order-free map view |
| `OrderedDict.PutRefines` | my-server/src/my_server/api/meals.py:39 | assignment keeps keys unique, and its map view is the old view updated at `k` |
| `OrderedDict.RemoveRefines` | my-server/src/my_server/api/meals.py:53 | deletion keeps keys unique, and its map view is the old view without `k` |
| `OrderedDict.EntriesAgree` | my-server/src/my_server/api/meals.py:26 | with unique keys, every entry is the map view's value for its key, and the view has exactly one key per entry |
| `OrderedDict.RemoveAppended` | my-server/src/my_server/api/meals.py:39-53 | deleting the key that was just appended gives back the dictionary exactly as it was before, order included |
| `OrderedDict.PutTwice` | my-server/src/my_server/api/meals.py:46 | assigning the same value to a key twice leaves the same dictionary as assigning it once |
| `RecordStore.List` | my-server/src/my_server/api/meals.py:24-26 | the listing holds one record per entry in insertion order; every stored record appears in it, and each listed record is what its key maps to |
| `RecordStore.Get` | my-server/src/my_server/api/meals.py:28-33 | get succeeds exactly when the id is stored and then returns the stored record; otherwise the reply is 404 with the router's not-found text |
| `RecordStore.Create` | my-server/src/my_server/api/meals.py:35-40 | create succeeds exactly when the body's id is absent; on success the record is appended under its own id and the map view gains exactly that binding; otherwise the reply is 400 with the already-exists text and the table is unchanged; keys stay unique |
| `RecordStore.Update` | my-server/src/my_server/api/meals.py:42-47 | update succeeds exactly when the path id is stored; on success only the path key is rebound, and the key set and key order are unchanged; otherwise the reply is 404 and the table is unchanged |
| `RecordStore.Delete` | my-server/src/my_server/api/meals.py:49-54 | delete succeeds exactly when the id is stored; on success exactly that key is removed and the reply is the deleted text; otherwise the reply is 404 and the table is unchanged |
| `RecordStore.CreateThenGet` | my-server/src/my_server/api/meals.py:28-40 | get of an id that was just created returns the created record |
| `RecordStore.CreateThenDelete` | my-server/src/my_server/api/meals.py:35-54 | delete after create restores the table exactly, so delete is the inverse of create |
| `RecordStore.DeleteTwice` | my-server/src/my_server/api/meals.py:49-54 | after a successful delete, a second delete of the same id is 404 and changes nothing |
| `RecordStore.UpdateUnderPathId` | my-server/src/my_server/api/meals.py:42-47 | update files the body under the path id even when the body names another id; that other id gains no entry |
| `RecordStore.UpdateIdempotent` | my-server/src/my_server/api/meals.py:42-47 | repeating the same update gives the same table and reply |
| `RecordStore.ListAfterCreate` | my-server/src/my_server/api/meals.py:24-40 | after a create, the listing is the earlier listing followed by the new record |
| `Routers.Handle` | my-server/src/my_server/api/meals.py:24-54 | a handler's error is always the router's 404 or 400 and leaves the table unchanged; list and get never change the table; keys stay unique |
| `Routers.Serve` | my-server/src/my_server/api/meals.py:11-54 | a token that does not resolve to a caller gives 401 "Invalid token" with no change; any error leaves every table unchanged; only the addressed router's table can change; otherwise the reply is the handler's |
| `Routers.CallerIrrelevant` | my-server/src/my_server/api/meals.py:24-54 | any two resolved callers, the same or different, get the same reply and leave the same state: nothing is filtered by caller |
| `Routers.DeniesStrangersHolds` | my-server/src/my_server/api/meals.py:11-19 | through the router, a token that does not resolve to a caller gives 401 "Invalid token" on all five routes, with no change |
| `Routers.ListsAllHolds` | my-server/src/my_server/api/meals.py:24-26 | through the router, list returns every stored record of that router, in insertion order, and changes nothing |
| `Routers.FetchesStoredHolds` | my-server/src/my_server/api/meals.py:28-33 | through the router, get returns the stored record of a present id and 404 with the not-found text otherwise, changing nothing |
| `Routers.CreatesNewHolds` | my-server/src/my_server/api/meals.py:35-40 | through the router, create is 400 with no change on a taken id; otherwise it adds exactly that binding, and a following get returns the record |
| `Routers.ReplacesExistingHolds` | my-server/src/my_server/api/meals.py:42-47 | through the router, update is 404 with no change on an absent id; otherwise it rebinds that id and keeps the key set |
| `Routers.DeletesExistingHolds` | my-server/src/my_server/api/meals.py:49-54 | through the router, delete is 404 with no change on an absent id; otherwise it removes only that key, and a second delete is 404 |
| `Routers.RouterObeys` | my-server/src/my_server/api/meals.py:11-54 | every router denies unresolved callers, lists everything, and gets, creates, updates and deletes as above, using that router's own detail texts |
| `Routers.NotificationSettingsRouter` | my-server/src/my_server/api/notification_settings.py:11-54 | an unresolved token gives 401 on every route; list returns all records; get, update and delete of an absent id give 404 "Notification setting not found"; create of a taken id gives 400 "Notification setting already exists"; all errors change nothing; create then get returns the record; update keeps the key set; delete removes only its key and answers "Notification setting deleted", and a second delete is 404 |
| `Routers.AchievementsRouter` | my-server/src/my_server/api/achievements.py:11-54 | an unresolved token gives 401 on every route; list returns all records; get, update and delete of an absent id give 404 "Achievement not found"; create of a taken id gives 400 "Achievement already exists"; all errors change nothing; create then get returns the record; update keeps the key set; delete removes only its key and answers "Achievement deleted", and a second delete is 404 |
| `Routers.WaterIntakeLogsRouter` | my-server/src/my_server/api/water_intake_logs.py:11-54 | an unresolved token gives 401 on every route; list returns all records; get, update and delete of an absent id give 404 "Water intake log not found"; create of a taken id gives 400 "Water intake log already exists"; all errors change nothing; create then get returns the record; update keeps the key set; delete removes only its key and answers "Water intake log deleted", and a second delete is 404 |
| `Routers.AboutYourselfRouter` | my-server/src/my_server/api/about_yourself.py:11-54 | an unresolved token gives 401 on every route; list returns all records; get, update and delete of an absent id give 404 "About yourself not found"; create of a taken id gives 400 "About yourself already exists"; all errors change nothing; create then get returns the record; update keeps the key set; delete removes only its key and answers "About yourself deleted", and a second delete is 404 |
| `Routers.BasicProfileRouter` | my-server/src/my_server/api/basic_profile.py:11-54 | an unresolved token gives 401 on every route; list returns all records; get, update and delete of an absent id give 404 "Profile not found"; create of a taken id gives 400 "Profile already exists"; all errors change nothing; create then get returns the record; update keeps the key set; delete removes only its key and answers "Profile deleted", and a second delete is 404 |
| `Routers.PhysicalInfoRouter` | my-server/src/my_server/api/physical_info.py:11-54 | an unresolved token gives 401 on every route; list returns all records; get, update and delete of an absent id give 404 "Physical info not found"; create of a taken id gives 400 "Physical info already exists"; all errors change nothing; create then get returns the record; update keeps the key set; delete removes only its key and answers "Physical info deleted", and a second delete is 404 |
| `Routers.NutritionDatabaseRouter` | my-server/src/my_server/api/nutrition_database.py:11-54 | an unresolved token gives 401 on every route; list returns all records; get, update and delete of an absent id give 404 "Food not found"; create of a taken id gives 400 "Food already exists"; all errors change nothing; create then get returns the record; update keeps the key set; delete removes only its key and answers "Food deleted", and a second delete is 404 |
| `Routers.ExerciseLogsRouter` | my-server/src/my_server/api/exercise_logs.py:11-54 | an unresolved token gives 401 on every route; list returns all records; get, update and delete of an absent id give 404 "Exercise log not found"; create of a taken id gives 400 "Exercise log already exists"; all errors change nothing; create then get returns the record; update keeps the key set; delete removes only its key and answers "Exercise log deleted", and a second delete is 404 |
| `Routers.SleepLogsRouter` | my-server/src/my_server/api/sleep_logs.py:11-54 | an unresolved token gives 401 on every route; list returns all records; get, update and delete of an absent id give 404 "Sleep log not found"; create of a taken id gives 400 "Sleep log already exists"; all errors change nothing; create then get returns the record; update keeps the key set; delete removes only its key and answers "Sleep log deleted", and a second delete is 404 |
| `Routers.UserGoalsRouter` | my-server/src/my_server/api/user_goals.py:11-54 | an unresolved token gives 401 on every route; list returns all records; get, update and delete of an absent id give 404 "Goal not found"; create of a taken id gives 400 "Goal already exists"; all errors change nothing; create then get returns the record; update keeps the key set; delete removes only its key and answers "Goal deleted", and a second delete is 404 |
| `Routers.FoodLogsRouter` | my-server/src/my_server/api/food_logs.py:11-54 | an unresolved token gives 401 on every route; list returns all records; get, update and delete of an absent id give 404 "Food log not found"; create of a taken id gives 400 "Food log already exists"; all errors change nothing; create then get returns the record; update keeps the key set; delete removes only its key and answers "Food log deleted", and a second delete is 404 |
| `Routers.UsersRouter` | my-server/src/my_server/api/users.py:11-56 | an unresolved token gives 401 on every route; list returns all records; get, update and delete of an absent id give 404 "User not found"; create of a taken id gives 400 "User already exists"; all errors change nothing; create then get returns the record; update keeps the key set; delete removes only its key and answers "User deleted", and a second delete is 404; this store is separate from the credential table of register and login |
| `Routers.MealsRouter` | my-server/src/my_server/api/meals.py:11-54 | an unresolved token gives 401 on every route; list returns all records; get, update and delete of an absent id give 404 "Meal not found"; create of a taken id gives 400 "Meal already exists"; all errors change nothing; create then get returns the record; update keeps the key set; delete removes only its key and answers "Meal deleted", and a second delete is 404 |
| `Identity.CurrentUser` | my-server/src/my_server/api/protected.py:12-20 | a caller resolves exactly when the token decodes and carries a non-null `sub`; the caller is that `sub` claim; every failure is 401 "Invalid token" |
| `Identity.Message` | my-server/src/my_server/api/protected.py:24 | the greeting is the fixed prefix, then the rendered caller, then the fixed trailer, so the caller can be read back out of it |
| `Identity.ProtectedRoute` | my-server/src/my_server/api/protected.py:22-24 | the route fails exactly when the caller does not resolve, with 401 "Invalid token"; otherwise it greets the resolved caller |
| `Identity.MessageNamesCaller` | my-server/src/my_server/api/protected.py:24 | two greetings are equal exactly when the two callers render the same |
| `Identity.NoSubjectNoCaller` | my-server/src/my_server/api/protected.py:12-20 | a token the library rejects, or one with no usable `sub`, gives 401 both when resolving the caller and on the protected route |
| `Auth.Lifetime` | my-server/src/my_server/api/auth.py:39 | the lifetime defaults to 60 minutes when no delta is given and also when the delta is zero, which is falsy; any other delta is used as given |
| `Auth.AccessClaims` | my-server/src/my_server/api/auth.py:37-40 | the signed payload has the caller's claims plus `exp` = now + lifetime; an `exp` the caller passed is overwritten and every other claim is kept |
| `Auth.CreateAccessToken` | my-server/src/my_server/api/auth.py:37-42 | with a library that decodes what it signed, the token carries the caller's claims other than `exp`, and `exp` = now + lifetime |
| `Auth.CallerExpIgnored` | my-server/src/my_server/api/auth.py:38-40 | an `exp` claim passed by the caller does not change the token, because it is overwritten |
| `Auth.SessionClaims` | my-server/src/my_server/api/auth.py:63 | the claims of a login token are exactly `sub` = email, `user_id` = id and `exp` = now + 60 minutes |
| `Auth.FindByEmail` | my-server/src/my_server/api/auth.py:55 | the query finds nothing exactly when no row has the email; otherwise it returns the first row with that email |
| `Auth.Register` | my-server/src/my_server/api/auth.py:51-64 | register fails exactly when the email is present, with 400 "Email already registered" and no change; otherwise it appends one row whose password is `hash(password)` and returns a bearer token for `sub` = email and `user_id` = the new id |
| `Auth.Login` | my-server/src/my_server/api/auth.py:66-73 | login succeeds exactly when the first row with the form's email verifies the password; every failure is the same 401 "Incorrect email or password"; on success it returns a bearer token for that row's email and id |
| `Auth.UniqueEmailFound` | my-server/src/my_server/api/auth.py:55 | when emails are unique, as the database's constraint keeps them, the query returns the one row that carries the email |
| `Auth.FirstIsUnique` | my-server/src/my_server/api/auth.py:69 | the first row with an email is unique, and it is the row the query returns |
| `Auth.RegisterKeepsUnique` | my-server/src/my_server/api/auth.py:54-61 | register keeps emails unique, and keeps ids unique when the new id is fresh |
| `Auth.RegisterTwiceRejected` | my-server/src/my_server/api/auth.py:55-57 | a second registration with the same email fails with 400 and adds nobody |
| `Auth.DuplicateUsernameAccepted` | my-server/src/my_server/api/auth.py:54-55 | a username already used by a row with another email does not stop a registration |
| `Auth.RegisterThenLogin` | my-server/src/my_server/api/auth.py:58-72 | when hashes verify against their own password, the registered email and password log in, and the token names the new row's email and id |
| `Auth.IssuedTokenNamesEmail` | my-server/src/my_server/api/protected.py:12-18 | a token minted by register or login resolves to its email, not to the `user_id` claim it also carries |
| `Auth.RegisteredCallerIsEmail` | my-server/src/my_server/api/auth.py:63 | the token a registration returns resolves to the registered email |
| `Auth.LoginFailuresAlike` | my-server/src/my_server/api/auth.py:69-71 | an unknown email and a wrong password give the identical 401 reply |

## Left out

- Token signing and verification are not modelled: the HS256 signature of section 3.2 of RFC 7518, and the `exp` check of section 4.1.4 of RFC 7519. They are foreign library code. Decoding is an abstract partial function, and every library error is `None`.
- bcrypt is salted and randomised. Only the `hash`/`verify` pair is kept, as function values, with `verify(p, hash(p))` as a lemma premise.
- `datetime.utcnow()` and `uuid4()` are nondeterministic, so they are parameters. Time is whole seconds, as PyJWT writes `exp`. Id freshness is a premise of `Auth.RegisterKeepsUnique`.
- The SQLAlchemy engine, sessions, `get_db` and commits are not modelled. Neither are the database's unique constraints on username and email, nor the race between the email check and the insert. The credential table is a sequence of rows.
- The `createdAt` column default is not modelled.
- Every record field other than `id` is an opaque payload. Request validation by pydantic is foreign code: required fields, `EmailStr` and the 422 replies. `EmailStr` also rewrites the address: it strips surrounding whitespace, reduces `Name <addr>` to the address and lower-cases the domain. A `RegisterRequest`'s email is that rewritten form. So is `response_model` serialisation.
- A missing or malformed `Authorization` header is rejected by FastAPI's `OAuth2PasswordBearer` with 401 "Not authenticated" before `get_current_user` runs. This is library code. The model starts from the extracted token string.
- A record's truthiness is not modelled. Pydantic models are always truthy, so `if not record` in get is taken as "the id is absent".
- App wiring in `main.py` is not modelled: the CORS middleware, the `/`, `/swagger` and `/favicon.ico` routes, and router mounting. The `users` and `/protected` routers are not mounted there, but they are modelled like the others.
- Hard-coded secrets, the algorithm name and the database URL are configuration, not behaviour.
- The order in which Python evaluates the dependency (`get_current_user`) and the body is not modelled. The model resolves the caller first.
- OrderedDict.Remove: its contract does not say that the remaining entries keep their relative order. The definition keeps that order, and `OrderedDict.RemoveAppended` and `RecordStore.CreateThenDelete` rely on it.
- Auth.RegisterThenLogin: the round trip holds for the email as stored, which is the `EmailStr`-normalised form. Login compares the form's `username` exactly as sent, so the same address in another spelling (an upper-case domain, say) answers 401. The normalisation is foreign code and is not modelled.
- Auth.FindByEmail: returning the first matching row in insertion order is a modelling choice. `.first()` without `order_by` promises no order. It matters only for tables with repeated emails, which the database's unique constraint never allows; `Auth.UniqueEmailFound` shows that with unique emails any matching row is the one returned.
- Concurrency is not modelled. FastAPI runs the synchronous handlers in a thread pool, so the check and the write in create, update and delete are not atomic; the model runs each handler atomically and one at a time. Two races follow. Two concurrent creates of the same id can both answer 200, and the second silently overwrites the first. Two concurrent deletes of the same id can both pass the presence check, and the second `del` then raises `KeyError` and answers 500 instead of 404.
- Identity.CurrentUser: a claim is a string, an integer or null. Booleans, floats, arrays and objects are not modelled. A non-string `sub` (which PyJWT accepted before version 2.10) would be returned as the caller and rendered by the f-string, for example as `True`; the model cannot represent such a token.
