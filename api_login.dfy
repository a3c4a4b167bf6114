/** `POST /api/auth/login`: look the user up by e-mail, compare the password
    with the stored hash, and open a session. */
module LoginRoute {
  import opened Common
  import opened Store
  import RegisterRoute

  const CREDENTIALS_REQUIRED: string := "Email et mot de passe requis"
  const BAD_CREDENTIALS: string := "Email ou mot de passe incorrect"
  const LOGGED_IN: string := "Connexion réussie"

  datatype LoginRequest = LoginRequest(email: Option<string>, password: Option<string>)

  predicate Given(field: Option<string>)
  {
    field.Some? && field.value != ""
  }

  /** The route. `verify(password, hash)` stands for bcrypt's comparison and
      `sign` for the token signer. */
  function Login(users: seq<User>, body: LoginRequest, verify: (string, string) -> bool,
                 sign: TokenClaims -> string): (r: Response)
    ensures !(Given(body.email) && Given(body.password)) ==> r == Error(400, CREDENTIALS_REQUIRED)
    ensures r.status == 200 <==>
      && Given(body.email) && Given(body.password)
      && FindUnique(users, ByEmail(body.email.value)).Some?
      && verify(body.password.value, FindUnique(users, ByEmail(body.email.value)).value.passwordHash)
    ensures r.status != 200 ==> r.cookie.None?
    ensures r.status == 200 ==>
      var u := FindUnique(users, ByEmail(body.email.value)).value;
      && r.body == UserBody(PublicUser(u.id, u.email, u.name, Some(u.plan)), LOGGED_IN)
      && r.cookie == Some(SessionCookie(sign(TokenClaims(u.id, u.email, u.name, Some(u.plan)))))
  {
    if !(Given(body.email) && Given(body.password)) then Error(400, CREDENTIALS_REQUIRED)
    else
      match FindUnique(users, ByEmail(body.email.value))
      case None => Error(401, BAD_CREDENTIALS)
      case Some(u) =>
        if !verify(body.password.value, u.passwordHash) then Error(401, BAD_CREDENTIALS)
        else
          var claims := TokenClaims(u.id, u.email, u.name, Some(u.plan));
          Response(200, UserBody(PublicUser(u.id, u.email, u.name, Some(u.plan)), LOGGED_IN),
                   Some(SessionCookie(sign(claims))))
  }

  /** An unknown e-mail and a wrong password get the very same answer, so a
      caller cannot learn which e-mails are registered. */
  lemma FailuresIndistinguishable(users: seq<User>, unknown: LoginRequest, wrong: LoginRequest,
                                  verify: (string, string) -> bool, sign: TokenClaims -> string)
    requires Given(unknown.email) && Given(unknown.password) && FindUnique(users, ByEmail(unknown.email.value)).None?
    requires Given(wrong.email) && Given(wrong.password) && FindUnique(users, ByEmail(wrong.email.value)).Some?
    requires !verify(wrong.password.value, FindUnique(users, ByEmail(wrong.email.value)).value.passwordHash)
    ensures Login(users, unknown, verify, sign) == Login(users, wrong, verify, sign) == Error(401, BAD_CREDENTIALS)
  {
  }

  /** After a successful registration, logging in with the same e-mail and
      password succeeds as the new user, provided the comparison accepts a
      password against its own hash. */
  lemma {:induction false} RegisterThenLogin(users: seq<User>, body: RegisterRoute.RegisterRequest, newId: string,
                                             defaultPlan: string, hash: string -> string,
                                             verify: (string, string) -> bool, sign: TokenClaims -> string)
    requires RegisterRoute.Decide(users, body, newId, defaultPlan, hash, sign).1.Some?
    requires forall p :: verify(p, hash(p))
    ensures var u := RegisterRoute.Decide(users, body, newId, defaultPlan, hash, sign).1.value;
      var r := Login(users + [u], LoginRequest(body.email, body.password), verify, sign);
      r.status == 200 && r.body.user.id == newId
  {
    var u := RegisterRoute.Decide(users, body, newId, defaultPlan, hash, sign).1.value;
    FindUniqueAppend(users, u, ByEmail(u.email));
  }
}
