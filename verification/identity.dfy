/** Resolving the caller of a protected request from its bearer token
(`get_current_user`, repeated in every router, and the `/protected` route).

Verifying a JSON Web Token (RFC 7519) -- its HS256 signature and its expiry --
is done by a foreign library, so it appears here as a `Decoder`: a partial
function from the bearer string to the claims it carries, `None` standing for
every error the library raises.
*/
module Identity {
  import opened Replies

  /** A JSON value carried as a claim: a string, an integer (such as `exp`), or null. */
  datatype Claim = Text(text: string) | Number(n: int) | Null

  /** The payload of a token, by claim name. */
  type Claims = map<string, Claim>

  /** Signature and expiry checking with the server's secret: the claims of a
      valid token, `None` when the library rejects it. */
  type Decoder = string -> Option<Claims>

  const InvalidToken := "Invalid token"

  /** The caller's identity: the token's `sub` claim (the email), never its
      `user_id`. `payload.get("sub")` gives `None` both when the key is missing
      and when it holds JSON null. Every failure answers the same 401. */
  function CurrentUser(decode: Decoder, token: string): (r: Reply<Claim>)
    ensures r.Fail? ==> r == Fail(Unauthorized, InvalidToken)
    ensures r.Ok? <==> decode(token).Some? && "sub" in decode(token).value && decode(token).value["sub"] != Null
    ensures r.Ok? ==> r.value == decode(token).value["sub"]
  {
    match decode(token)
    case None => Fail(Unauthorized, InvalidToken)
    case Some(payload) =>
      if "sub" in payload && payload["sub"] != Null then Ok(payload["sub"])
      else Fail(Unauthorized, InvalidToken)
  }

  /** True when a token lets its bearer through `CurrentUser`. */
  predicate Authenticated(decode: Decoder, token: string)
  {
    CurrentUser(decode, token).Ok?
  }

  const Greeting := "Hello, "
  const Trailer := ". You have access to this protected route."

  /** How Python's f-string renders a claim value. */
  function Show(c: Claim): string
  {
    match c
    case Text(s) => s
    case Number(n) => Decimal(n)
    case Null => "None"
  }

  /** The decimal rendering of an integer, with a leading '-' when negative. */
  function Decimal(n: int): string
  {
    if n < 0 then "-" + Digits(-n) else Digits(n)
  }

  function Digits(n: nat): (s: string)
    ensures |s| > 0
    decreases n
  {
    var d := ['0', '1', '2', '3', '4', '5', '6', '7', '8', '9'][n % 10];
    if n < 10 then [d] else Digits(n / 10) + [d]
  }

  /** The greeting of the protected route; the identity can be read back out
      of it between the fixed greeting and trailer. */
  function Message(who: Claim): (m: string)
    ensures |m| == |Greeting| + |Show(who)| + |Trailer|
    ensures m[..|Greeting|] == Greeting
    ensures m[|Greeting|..|m| - |Trailer|] == Show(who)
    ensures m[|m| - |Trailer|..] == Trailer
  {
    var m := Greeting + Show(who) + Trailer;
    assert m[..|Greeting|] == Greeting;
    assert m[|Greeting|..|m| - |Trailer|] == Show(who);
    m
  }

  /** `GET /protected`: the greeting for the resolved caller, or the 401 of `CurrentUser`. */
  function ProtectedRoute(decode: Decoder, token: string): (r: Reply<string>)
    ensures r.Fail? <==> CurrentUser(decode, token).Fail?
    ensures r.Fail? ==> r == Fail(Unauthorized, InvalidToken)
    ensures r.Ok? ==> r.value == Message(CurrentUser(decode, token).value)
  {
    match CurrentUser(decode, token)
    case Fail(status, detail) => Fail(status, detail)
    case Ok(who) => Ok(Message(who))
  }

  /** Two callers get the same greeting only when they render the same. */
  lemma MessageNamesCaller(a: Claim, b: Claim)
    ensures Message(a) == Message(b) <==> Show(a) == Show(b)
  {
    if Message(a) == Message(b) {
      var m := Message(a);
      assert Show(a) == m[|Greeting|..|m| - |Trailer|] == Show(b);
    }
  }

  /** A token whose payload names no subject, or one the library rejects,
      resolves to no caller, whatever else it carries. */
  lemma NoSubjectNoCaller(decode: Decoder, token: string)
    requires decode(token).None? || "sub" !in decode(token).value || decode(token).value["sub"] == Null
    ensures CurrentUser(decode, token) == Fail(Unauthorized, InvalidToken)
    ensures ProtectedRoute(decode, token) == Fail(Unauthorized, InvalidToken)
  {
  }
}
