/** The `auth` edge function: a preflight answer, then a check of the posted
    username and password against the two configured values. The configured
    values, the parsed body and the generated token are parameters. */
module AuthFunction {
  import opened Text

  /** The headers every response carries. */
  const CorsHeaders: seq<(string, string)> := [
    ("Access-Control-Allow-Origin", "*"),
    ("Access-Control-Allow-Headers", "authorization, x-client-info, apikey, content-type")
  ]
  const JsonHeaders: seq<(string, string)> := CorsHeaders + [("Content-Type", "application/json")]

  const NotConfiguredMessage: string := "Authentication not configured"
  const InvalidCredentialsMessage: string := "Invalid username or password"
  const UnknownErrorMessage: string := "Unknown error"

  /** What was thrown: an `Error` with its message, or some other value. */
  datatype Thrown = ErrorValue(message: string) | NonError

  /** The outcome of `req.json()` and its destructuring: the thrown value, or
      the two fields, None when absent or not a string. */
  datatype Body = BodyThrew(thrown: Thrown) | Credentials(username: Option<string>, password: Option<string>)

  datatype ResponseBody =
    | NoBody
    | ErrorBody(error: string)
    | SuccessBody(token: string, username: string)

  datatype Response = Response(status: int, body: ResponseBody, headers: seq<(string, string)>)

  /** A configured value JavaScript treats as false: unset or empty. */
  predicate Unset(value: Option<string>) {
    value.None? || value.value == []
  }

  /** The handler. */
  function Handle(verb: string, body: Body, validUsername: Option<string>, validPassword: Option<string>,
                  token: string): (r: Response)
    ensures CorsHeaders <= r.headers
  {
    if verb == "OPTIONS" then Response(200, NoBody, CorsHeaders)
    else match body
      case BodyThrew(thrown) =>
        Response(500, ErrorBody(if thrown.ErrorValue? then thrown.message else UnknownErrorMessage), JsonHeaders)
      case Credentials(username, password) =>
        if Unset(validUsername) || Unset(validPassword) then
          Response(500, ErrorBody(NotConfiguredMessage), JsonHeaders)
        else if username == validUsername && password == validPassword then
          Response(200, SuccessBody(token, username.value), JsonHeaders)
        else
          Response(401, ErrorBody(InvalidCredentialsMessage), JsonHeaders)
  }

  /** A preflight request gets an empty 200 answer whatever its body. */
  lemma PreflightIgnoresBody(body: Body, u: Option<string>, p: Option<string>, token: string)
    ensures Handle("OPTIONS", body, u, p, token) == Response(200, NoBody, CorsHeaders)
  {
  }

  /** Without both configured values every posted pair is refused with 500,
      before any comparison. */
  lemma MissingConfigRefuses(verb: string, username: Option<string>, password: Option<string>,
                             u: Option<string>, p: Option<string>, token: string)
    requires verb != "OPTIONS" && (Unset(u) || Unset(p))
    ensures Handle(verb, Credentials(username, password), u, p, token) ==
      Response(500, ErrorBody(NotConfiguredMessage), JsonHeaders)
  {
  }

  /** With both values configured, a request succeeds exactly when both posted
      fields equal them, and then answers with the token and the username;
      every other pair gets 401. */
  lemma CredentialCheck(verb: string, username: Option<string>, password: Option<string>,
                        u: string, p: string, token: string)
    requires verb != "OPTIONS" && u != [] && p != []
    ensures var r := Handle(verb, Credentials(username, password), Some(u), Some(p), token);
      (r.status == 200 <==> username == Some(u) && password == Some(p)) &&
      (r.status == 200 ==> r.body == SuccessBody(token, u)) &&
      (r.status != 200 ==> r == Response(401, ErrorBody(InvalidCredentialsMessage), JsonHeaders))
  {
  }

  /** A body that cannot be read gives 500 with the error's message, or
      `Unknown error` for a thrown non-error, whatever is configured. */
  lemma ThrownBodyFails(verb: string, thrown: Thrown, u: Option<string>, p: Option<string>, token: string)
    requires verb != "OPTIONS"
    ensures var r := Handle(verb, BodyThrew(thrown), u, p, token);
      r.status == 500 &&
      r.body == ErrorBody(if thrown.ErrorValue? then thrown.message else UnknownErrorMessage)
  {
  }

  /** Only a matching pair gets the token: whenever the answer carries a token,
      the posted pair is the configured one. */
  lemma TokenOnlyForMatch(verb: string, body: Body, u: Option<string>, p: Option<string>, token: string)
    ensures Handle(verb, body, u, p, token).body.SuccessBody? ==>
      verb != "OPTIONS" && body.Credentials? && !Unset(u) && !Unset(p) &&
      body.username == u && body.password == p
  {
  }
}
