/** `POST /api/auth/register`: validate, refuse a used e-mail, store the new
    user with a hash of the password, and open a session. */
module RegisterRoute {
  import opened Common
  import opened Store

  const ALL_REQUIRED: string := "Tous les champs sont requis"
  const TOO_SHORT: string := "Le mot de passe doit contenir au moins 6 caractères"
  const EMAIL_TAKEN: string := "Cet email est déjà utilisé"
  const REGISTERED: string := "Inscription réussie"
  const MIN_PASSWORD_LENGTH: nat := 6

  /** The JSON body; absent or empty fields are `None` or `""`. */
  datatype RegisterRequest = RegisterRequest(email: Option<string>, name: Option<string>, password: Option<string>)

  predicate Given(field: Option<string>)
  {
    field.Some? && field.value != ""
  }

  predicate Complete(body: RegisterRequest)
  {
    Given(body.email) && Given(body.name) && Given(body.password)
  }

  /** The decision, checks in the source's order: missing field (400), short
      password (400), e-mail in use (409); otherwise 201 with the user to
      insert and the session cookie. `hash` stands for bcrypt and `sign` for
      the token signer; `defaultPlan` is the plan column's default. */
  function Decide(users: seq<User>, body: RegisterRequest, newId: string, defaultPlan: string,
                  hash: string -> string, sign: TokenClaims -> string): (r: (Response, Option<User>))
    ensures !Complete(body) ==> r == (Error(400, ALL_REQUIRED), None)
    ensures Complete(body) && |body.password.value| < MIN_PASSWORD_LENGTH ==> r == (Error(400, TOO_SHORT), None)
    ensures Complete(body) && |body.password.value| >= MIN_PASSWORD_LENGTH && FindUnique(users, ByEmail(body.email.value)).Some?
      ==> r == (Error(409, EMAIL_TAKEN), None)
    ensures r.1.Some? <==>
      Complete(body) && |body.password.value| >= MIN_PASSWORD_LENGTH
      && forall i :: 0 <= i < |users| ==> users[i].email != body.email.value
    ensures r.1.Some? ==>
      && r.1.value == User(newId, body.email.value, body.name.value, hash(body.password.value), defaultPlan)
      && r.0.status == 201
      && r.0.cookie == Some(SessionCookie(sign(TokenClaims(newId, body.email.value, body.name.value, None))))
  {
    if !Complete(body) then (Error(400, ALL_REQUIRED), None)
    else if |body.password.value| < MIN_PASSWORD_LENGTH then (Error(400, TOO_SHORT), None)
    else if FindUnique(users, ByEmail(body.email.value)).Some? then (Error(409, EMAIL_TAKEN), None)
    else
      var u := User(newId, body.email.value, body.name.value, hash(body.password.value), defaultPlan);
      var token := sign(TokenClaims(u.id, u.email, u.name, None));
      (Response(201, UserBody(PublicUser(u.id, u.email, u.name, None), REGISTERED), Some(SessionCookie(token))), Some(u))
  }

  /** The route on the database: the table gains the decided user or nothing,
      and e-mail addresses stay unique. */
  method Register(db: Database, body: RegisterRequest, newId: string, defaultPlan: string,
                  hash: string -> string, sign: TokenClaims -> string) returns (r: Response)
    requires db.Valid() && newId !in UserIds(db.users)
    modifies db`users
    ensures db.Valid()
    ensures var d := Decide(old(db.users), body, newId, defaultPlan, hash, sign);
      && r == d.0
      && db.users == old(db.users) + (if d.1.Some? then [d.1.value] else [])
  {
    var d := Decide(db.users, body, newId, defaultPlan, hash, sign);
    if d.1.Some? {
      assert forall i :: 0 <= i < |db.users| ==> db.users[i].id != newId by {
        forall i | 0 <= i < |db.users| ensures db.users[i].id != newId {
          assert db.users[i] in db.users;
        }
      }
      db.users := db.users + [d.1.value];
    }
    r := d.0;
  }

  /** Registering twice with the same e-mail: the second attempt is refused
      with 409 and stores nothing. */
  lemma SecondRegistrationRefused(users: seq<User>, body: RegisterRequest, id1: string, id2: string,
                                  defaultPlan: string, hash: string -> string, sign: TokenClaims -> string)
    requires Decide(users, body, id1, defaultPlan, hash, sign).1.Some?
    ensures var u := Decide(users, body, id1, defaultPlan, hash, sign).1.value;
      Decide(users + [u], body, id2, defaultPlan, hash, sign) == (Error(409, EMAIL_TAKEN), None)
  {
    var u := Decide(users, body, id1, defaultPlan, hash, sign).1.value;
    assert (users + [u])[|users|].email == body.email.value;
  }
}
