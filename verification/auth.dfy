/** Registration and login against the credential table (`/auth/register`,
`/auth/login`), and the construction of the access token both return.

The table is the sequence of its rows in insertion order, and a query's
`.first()` is taken to be the first row that matches. SQL promises no order
without `order_by`; the database's unique email constraint leaves at most one
match, and `UniqueEmailFound` shows that under it the choice does not matter.
Password hashing (bcrypt through passlib) and token signing (PyJWT, HS256) are
foreign code and are passed in as function values: `Hasher` and `Jwt`. What the model needs of them is stated as the
predicates `Sound` and `RoundTrips`, which the lemmas take as premises. The
clock and the fresh user id are parameters too.
*/
module Auth {
  import opened Replies
  import opened Identity

  /** A row of the `users` table; `password` holds the hash, never the plaintext. */
  datatype User = User(id: string, username: string, email: string, password: string)

  /** The credential table. */
  type Credentials = seq<User>

  /** The validated registration body. `email` is the address as pydantic's
      `EmailStr` returns it (trimmed and normalised); login compares the form's
      `username` with it exactly as sent. */
  datatype RegisterRequest = RegisterRequest(username: string, email: string, password: string)

  /** The OAuth2 password form; its `username` field carries the email. */
  datatype LoginForm = LoginForm(username: string, password: string)

  datatype TokenResponse = TokenResponse(accessToken: string, tokenType: string)

  /** The password hashing pair: `hash(p)` and `verify(p, stored)`. */
  datatype Hasher = Hasher(hash: string -> string, verify: (string, string) -> bool)

  /** A hash always verifies against the password it was made from. */
  ghost predicate Sound(h: Hasher)
  {
    forall p :: h.verify(p, h.hash(p))
  }

  /** Token signing and verification with the server's secret. */
  datatype Jwt = Jwt(encode: Claims -> string, decode: Decoder)

  /** The token minted for `c` decodes back to `c` (it is checked before it expires). */
  ghost predicate RoundTrips(jwt: Jwt, c: Claims)
  {
    jwt.decode(jwt.encode(c)) == Some(c)
  }

  const AccessTokenExpireMinutes := 60
  const SecondsPerMinute := 60
  const BearerType := "bearer"
  const EmailAlreadyRegistered := "Email already registered"
  const IncorrectCredentials := "Incorrect email or password"

  /** The token lifetime in seconds: `expires_delta or timedelta(minutes=60)`.
      A zero delta is falsy in Python, so it also gets the default. */
  function Lifetime(expiresDelta: Option<int>): (s: int)
    ensures expiresDelta.None? ==> s == AccessTokenExpireMinutes * SecondsPerMinute
    ensures expiresDelta.Some? && expiresDelta.value == 0 ==> s == AccessTokenExpireMinutes * SecondsPerMinute
    ensures expiresDelta.Some? && expiresDelta.value != 0 ==> s == expiresDelta.value
    ensures s != 0
  {
    match expiresDelta
    case Some(delta) => if delta != 0 then delta else AccessTokenExpireMinutes * SecondsPerMinute
    case None => AccessTokenExpireMinutes * SecondsPerMinute
  }

  /** The payload `create_access_token` signs: a copy of `data` with `exp`
      set to `now` plus the lifetime; the caller's claims are left as they were. */
  function AccessClaims(data: Claims, expiresDelta: Option<int>, now: int): (c: Claims)
    ensures c.Keys == data.Keys + {"exp"}
    ensures c["exp"] == Number(now + Lifetime(expiresDelta))
    ensures forall k :: k in data && k != "exp" ==> c[k] == data[k]
  {
    data["exp" := Number(now + Lifetime(expiresDelta))]
  }

  /** `create_access_token(data, expires_delta)`: the signed payload. With a
      library that gives back what it signed, the token decodes to the caller's
      claims, `exp` excepted, plus `exp` at `now` plus the lifetime. */
  function CreateAccessToken(jwt: Jwt, data: Claims, expiresDelta: Option<int>, now: int): (token: string)
    ensures RoundTrips(jwt, AccessClaims(data, expiresDelta, now)) ==>
      && jwt.decode(token).Some?
      && jwt.decode(token).value.Keys == data.Keys + {"exp"}
      && jwt.decode(token).value["exp"] == Number(now + Lifetime(expiresDelta))
      && forall k :: k in data && k != "exp" ==> jwt.decode(token).value[k] == data[k]
  {
    jwt.encode(AccessClaims(data, expiresDelta, now))
  }

  /** An `exp` the caller passes is overwritten: it does not change the token. */
  lemma CallerExpIgnored(jwt: Jwt, data: Claims, exp: Claim, expiresDelta: Option<int>, now: int)
    ensures CreateAccessToken(jwt, data["exp" := exp], expiresDelta, now)
      == CreateAccessToken(jwt, data, expiresDelta, now)
  {
    assert AccessClaims(data["exp" := exp], expiresDelta, now) == AccessClaims(data, expiresDelta, now);
  }

  /** The claims both register and login sign: subject, user id and the default expiry. */
  function SessionClaims(email: string, id: string, now: int): (c: Claims)
    ensures c.Keys == {"sub", "user_id", "exp"}
    ensures c["sub"] == Text(email) && c["user_id"] == Text(id)
    ensures c["exp"] == Number(now + AccessTokenExpireMinutes * SecondsPerMinute)
  {
    AccessClaims(map["sub" := Text(email), "user_id" := Text(id)], None, now)
  }

  /** Some row carries this email. */
  predicate HasEmail(users: Credentials, email: string)
  {
    exists i :: 0 <= i < |users| && users[i].email == email
  }

  /** No two rows share an email. */
  predicate UniqueEmails(users: Credentials)
  {
    forall i, j :: 0 <= i < j < |users| ==> users[i].email != users[j].email
  }

  /** No two rows share an id. */
  predicate UniqueIds(users: Credentials)
  {
    forall i, j :: 0 <= i < j < |users| ==> users[i].id != users[j].id
  }

  /** `query(User).filter(User.email == email).first()`. */
  function FindByEmail(users: Credentials, email: string): (r: Option<User>)
    ensures r.None? <==> !HasEmail(users, email)
    ensures r.Some? ==> exists i :: FirstWithEmail(users, email, i) && users[i] == r.value
    ensures r.Some? ==> r.value.email == email
    decreases |users|
  {
    if |users| == 0 then None
    else if users[0].email == email then Some(users[0])
    else
      var r := FindByEmail(users[1..], email);
      assert HasEmail(users, email) ==> HasEmail(users[1..], email) by {
        if HasEmail(users, email) {
          var i :| 0 <= i < |users| && users[i].email == email;
          assert users[1..][i - 1] == users[i];
        }
      }
      if r.Some? then
        ghost var i :| FirstWithEmail(users[1..], email, i) && users[1..][i] == r.value;
        assert users[i + 1] == r.value;
        assert forall j :: 0 <= j < i + 1 ==> users[j].email != email by {
          forall j | 0 <= j < i + 1
            ensures users[j].email != email
          {
            if j > 0 {
              assert users[j] == users[1..][j - 1];
            }
          }
        }
        r
      else r
  }

  /** The outcome of a registration: the new table and the reply. */
  datatype Registration = Registration(users: Credentials, reply: Reply<TokenResponse>)

  /** `POST /auth/register`: rejects an email already present, otherwise adds
      one row with a hashed password under `freshId` and mints a token for it.
      Only the email is checked; usernames may repeat. */
  function Register(users: Credentials, req: RegisterRequest, freshId: string, now: int,
                    hasher: Hasher, jwt: Jwt): (r: Registration)
    ensures r.reply.Fail? <==> HasEmail(users, req.email)
    ensures r.reply.Fail? ==> r == Registration(users, Fail(BadRequest, EmailAlreadyRegistered))
    ensures r.reply.Ok? ==>
      r.users == users + [User(freshId, req.username, req.email, hasher.hash(req.password))]
    ensures r.reply.Ok? ==>
      r.reply.value == TokenResponse(jwt.encode(SessionClaims(req.email, freshId, now)), BearerType)
  {
    if FindByEmail(users, req.email).Some? then
      Registration(users, Fail(BadRequest, EmailAlreadyRegistered))
    else
      var hashed := hasher.hash(req.password);
      var user := User(freshId, req.username, req.email, hashed);
      var token := CreateAccessToken(jwt, map["sub" := Text(req.email), "user_id" := Text(user.id)], None, now);
      Registration(users + [user], Ok(TokenResponse(token, BearerType)))
  }

  /** `i` is the first row whose email is `email`. */
  predicate FirstWithEmail(users: Credentials, email: string, i: int)
  {
    0 <= i < |users| && users[i].email == email && forall j :: 0 <= j < i ==> users[j].email != email
  }

  /** `POST /auth/login`: looks the form's `username` up as an email and checks
      the password against the stored hash. An unknown email and a wrong
      password give the same 401. The table is only read. */
  function Login(users: Credentials, form: LoginForm, now: int, hasher: Hasher, jwt: Jwt): (r: Reply<TokenResponse>)
    ensures r.Fail? ==> r == Fail(Unauthorized, IncorrectCredentials)
    ensures r.Ok? <==> exists i :: FirstWithEmail(users, form.username, i)
                                   && hasher.verify(form.password, users[i].password)
    ensures forall i :: FirstWithEmail(users, form.username, i) && r.Ok? ==>
      r.value == TokenResponse(jwt.encode(SessionClaims(users[i].email, users[i].id, now)), BearerType)
  {
    var found := FindByEmail(users, form.username);
    FirstIsUnique(users, form.username);
    if found.None? || !hasher.verify(form.password, found.value.password) then
      Fail(Unauthorized, IncorrectCredentials)
    else
      var user := found.value;
      var token := CreateAccessToken(jwt, map["sub" := Text(user.email), "user_id" := Text(user.id)], None, now);
      Ok(TokenResponse(token, BearerType))
  }

  /** Only one row can be the first with a given email, and it is the one `FindByEmail` answers. */
  lemma FirstIsUnique(users: Credentials, email: string)
    ensures forall i :: FirstWithEmail(users, email, i) ==>
      FindByEmail(users, email) == Some(users[i])
  {
    forall i | FirstWithEmail(users, email, i)
      ensures FindByEmail(users, email) == Some(users[i])
    {
      var r := FindByEmail(users, email);
      assert HasEmail(users, email);
      var k :| FirstWithEmail(users, email, k) && users[k] == r.value;
      assert k == i;
    }
  }

  /** When emails are unique, any row carrying the email is the one the query
      answers, so taking the first match is no choice at all. */
  lemma UniqueEmailFound(users: Credentials, email: string, i: int)
    requires UniqueEmails(users)
    requires 0 <= i < |users| && users[i].email == email
    ensures FindByEmail(users, email) == Some(users[i])
  {
  }

  /** Registration keeps emails unique, and ids too when the new id is fresh. */
  lemma RegisterKeepsUnique(users: Credentials, req: RegisterRequest, freshId: string, now: int,
                            hasher: Hasher, jwt: Jwt)
    requires UniqueEmails(users) && UniqueIds(users)
    requires forall i :: 0 <= i < |users| ==> users[i].id != freshId
    ensures UniqueEmails(Register(users, req, freshId, now, hasher, jwt).users)
    ensures UniqueIds(Register(users, req, freshId, now, hasher, jwt).users)
  {
    var r := Register(users, req, freshId, now, hasher, jwt);
    if r.reply.Ok? {
      var u := r.users;
      forall i, j | 0 <= i < j < |u|
        ensures u[i].email != u[j].email && u[i].id != u[j].id
      {
        if j == |users| {
          assert u[i] == users[i];
        } else {
          assert u[i] == users[i] && u[j] == users[j];
        }
      }
    }
  }

  /** Registering an email that is already present fails the second time and
      adds nobody. */
  lemma RegisterTwiceRejected(users: Credentials, req: RegisterRequest, id1: string, id2: string,
                              now1: int, now2: int, req2: RegisterRequest, hasher: Hasher, jwt: Jwt)
    requires req2.email == req.email
    ensures var first := Register(users, req, id1, now1, hasher, jwt);
      Register(first.users, req2, id2, now2, hasher, jwt)
        == Registration(first.users, Fail(BadRequest, EmailAlreadyRegistered))
  {
    var first := Register(users, req, id1, now1, hasher, jwt);
    if first.reply.Ok? {
      assert first.users[|users|].email == req.email;
    }
  }

  /** A username already taken by a row with another email does not stop a
      registration: only the email is checked. */
  lemma DuplicateUsernameAccepted(users: Credentials, req: RegisterRequest, freshId: string, now: int,
                                  hasher: Hasher, jwt: Jwt, i: int)
    requires 0 <= i < |users| && users[i].username == req.username
    requires !HasEmail(users, req.email)
    ensures var r := Register(users, req, freshId, now, hasher, jwt);
      r.reply.Ok? && r.users[i].username == r.users[|users|].username
  {
  }

  /** Once registered, the same email and password log in, and the token names
      the new row's email and id. */
  lemma {:induction false} RegisterThenLogin(users: Credentials, req: RegisterRequest, freshId: string,
                                             now: int, later: int, hasher: Hasher, jwt: Jwt)
    requires Sound(hasher)
    requires !HasEmail(users, req.email)
    ensures var r := Register(users, req, freshId, now, hasher, jwt);
      Login(r.users, LoginForm(req.email, req.password), later, hasher, jwt)
        == Ok(TokenResponse(jwt.encode(SessionClaims(req.email, freshId, later)), BearerType))
  {
    var r := Register(users, req, freshId, now, hasher, jwt);
    var u := r.users;
    assert FirstWithEmail(u, req.email, |users|) by {
      forall j | 0 <= j < |users|
        ensures u[j].email != req.email
      {
        assert u[j] == users[j];
      }
    }
    assert hasher.verify(req.password, hasher.hash(req.password));
  }

  /** A token minted by register or login resolves, once decoded, to the
      email it was minted for; its `user_id` claim carries the row id but is
      not what the caller is identified by. */
  lemma IssuedTokenNamesEmail(jwt: Jwt, email: string, id: string, now: int)
    requires RoundTrips(jwt, SessionClaims(email, id, now))
    ensures CurrentUser(jwt.decode, jwt.encode(SessionClaims(email, id, now))) == Ok(Text(email))
    ensures jwt.decode(jwt.encode(SessionClaims(email, id, now))).value["user_id"] == Text(id)
  {
  }

  /** The caller a registration's token resolves to is the registered email. */
  lemma RegisteredCallerIsEmail(users: Credentials, req: RegisterRequest, freshId: string, now: int,
                                hasher: Hasher, jwt: Jwt)
    requires !HasEmail(users, req.email)
    requires RoundTrips(jwt, SessionClaims(req.email, freshId, now))
    ensures var r := Register(users, req, freshId, now, hasher, jwt);
      r.reply.Ok? && CurrentUser(jwt.decode, r.reply.value.accessToken) == Ok(Text(req.email))
  {
    IssuedTokenNamesEmail(jwt, req.email, freshId, now);
  }

  /** An unknown email and a wrong password are indistinguishable to the client. */
  lemma LoginFailuresAlike(users: Credentials, form: LoginForm, users': Credentials, form': LoginForm,
                           now: int, hasher: Hasher, jwt: Jwt)
    requires !HasEmail(users, form.username)
    requires FindByEmail(users', form'.username).Some?
    requires !hasher.verify(form'.password, FindByEmail(users', form'.username).value.password)
    ensures Login(users, form, now, hasher, jwt) == Login(users', form', now, hasher, jwt)
    ensures Login(users, form, now, hasher, jwt) == Fail(Unauthorized, IncorrectCredentials)
  {
    FirstIsUnique(users, form.username);
    FirstIsUnique(users', form'.username);
  }
}
