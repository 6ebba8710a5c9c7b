/**
 * The serverless auth endpoint (api/auth.ts): a stateless decision over the
 * method, the `action` query parameter, the posted body and the
 * `Authorization` header. The only "session" is the configured
 * `SESSION_SECRET`: every login hands out that same value, and `me`
 * compares the header with `Bearer <secret>` (section 2.1 of RFC 6750).
 */
module AuthApi {
  import opened Common

  datatype Env = Env(adminPassword: Option<string>, sessionSecret: Option<string>)

  /**
   * The parsed request body: none at all (`null`, which the destructuring
   * of a login cannot read), or an object whose `password` field may be
   * missing.
   */
  datatype LoginBody = NoBody | Fields(password: Option<string>)

  datatype Request = Request(
    httpMethod: string,
    action: Option<string>,
    body: LoginBody,
    authorization: Option<string>)

  datatype Body =
    | LoginOk(token: Option<string>)  // { success: true, token }; the token is omitted when unset
    | LoggedOut                       // { success: true }
    | Admin                           // { isAdmin: true }
    | ErrorBody(error: string)

  datatype Response = Response(status: int, body: Body)

  /** The template literal `${x}` of an optional string: an unset value prints as `undefined`. */
  function Interpolate(x: Option<string>): string
  {
    if x.Some? then x.value else "undefined"
  }

  /** The header value `me` accepts. */
  function ExpectedHeader(env: Env): string
  {
    "Bearer " + Interpolate(env.sessionSecret)
  }

  function Handle(req: Request, env: Env): (r: Response)
    // login: the right password gets the shared secret, anything else 401
    ensures req.httpMethod == "POST" && req.action == Some("login") && req.body.Fields? ==>
      (req.body.password == env.adminPassword <==> r.status == 200)
      && (req.body.password == env.adminPassword ==> r.body == LoginOk(env.sessionSecret))
      && (req.body.password != env.adminPassword ==> r == Response(401, ErrorBody("Invalid password")))
    // login without a body: reading `password` throws and the catch answers 500
    ensures req.httpMethod == "POST" && req.action == Some("login") && req.body.NoBody? ==>
      r == Response(500, ErrorBody("Authentication error"))
    // logout always succeeds and needs nothing
    ensures req.httpMethod == "POST" && req.action == Some("logout") ==> r == Response(200, LoggedOut)
    // me: exactly the expected header
    ensures req.httpMethod == "GET" && req.action == Some("me") ==>
      (r.status == 200 <==> req.authorization == Some(ExpectedHeader(env)))
      && (r.status == 200 ==> r.body == Admin)
      && (r.status != 200 ==> r == Response(401, ErrorBody("Not authenticated")))
    // everything else
    ensures (!(req.httpMethod == "POST" && req.action in {Some("login"), Some("logout")})
      && !(req.httpMethod == "GET" && req.action == Some("me"))) ==>
      r == Response(405, ErrorBody("Method not allowed"))
  {
    var isAuthenticated := req.authorization == Some(ExpectedHeader(env));
    if req.httpMethod == "POST" && req.action == Some("login") then
      if req.body.NoBody? then Response(500, ErrorBody("Authentication error"))
      else if req.body.password == env.adminPassword then Response(200, LoginOk(env.sessionSecret))
      else Response(401, ErrorBody("Invalid password"))
    else if req.httpMethod == "POST" && req.action == Some("logout") then
      Response(200, LoggedOut)
    else if req.httpMethod == "GET" && req.action == Some("me") then
      if isAuthenticated then Response(200, Admin) else Response(401, ErrorBody("Not authenticated"))
    else Response(405, ErrorBody("Method not allowed"))
  }

  /** The token a login hands out, sent back as a Bearer header, passes `me`. */
  lemma LoginTokenPassesMe(env: Env, body: LoginBody, auth: Option<string>, later: LoginBody)
    requires Handle(Request("POST", Some("login"), body, auth), env).status == 200
    requires env.sessionSecret.Some?
    ensures var token := Handle(Request("POST", Some("login"), body, auth), env).body.token.value;
      Handle(Request("GET", Some("me"), later, Some("Bearer " + token)), env) == Response(200, Admin)
  {
  }

  /**
   * Nothing is stored, so a logout cannot revoke anything: the answer to
   * `me` is the same before and after any logout.
   */
  lemma LogoutRevokesNothing(env: Env, logout: Request, me: Request)
    requires logout.httpMethod == "POST" && logout.action == Some("logout")
    requires me.httpMethod == "GET" && me.action == Some("me")
    ensures Handle(logout, env) == Response(200, LoggedOut)
    ensures Handle(me, env).status == 200 <==> me.authorization == Some(ExpectedHeader(env))
  {
  }

  /** With `SESSION_SECRET` unset, the literal header `Bearer undefined` passes `me`. */
  lemma UnsetSecretAcceptsUndefined(env: Env, body: LoginBody)
    requires env.sessionSecret.None?
    ensures Handle(Request("GET", Some("me"), body, Some("Bearer undefined")), env).status == 200
  {
    assert ExpectedHeader(env) == "Bearer " + "undefined" == "Bearer undefined";
  }

  /**
   * With `ADMIN_PASSWORD` unset, a login whose body has no `password` field
   * succeeds; a login with no body at all fails with 500 whatever the setting.
   */
  lemma UnsetPasswordAcceptsMissingPassword(env: Env, auth: Option<string>)
    requires env.adminPassword.None?
    ensures Handle(Request("POST", Some("login"), Fields(None), auth), env).status == 200
    ensures Handle(Request("POST", Some("login"), NoBody, auth), env).status == 500
  {
  }
}
