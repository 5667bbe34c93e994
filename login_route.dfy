/** `POST /api/auth/login`: exchange an e-mail and password for a bearer token. */
module LoginRoute {
  import opened Common
  import opened JsValues
  import opened Entities
  import opened Database
  import opened Credentials
  import SignupRoute

  /** Some registered user has e-mail `email` and a stored hash that `compare` matches with `password`. */
  ghost predicate Authentic(users: seq<User>, email: string, password: string, compare: (string, string) -> bool) {
    exists u :: u in users && u.email == email && compare(password, u.password)
  }

  /**
   * The handler, lines 9-35. It only reads the user table. `compare` is
   * `bcrypt.compare`, `sign` is `jwt.sign` with the server's secret, `up` says
   * whether the database answers the lookup. A non-string e-mail makes the
   * lookup throw and a non-string password makes bcrypt throw: both are 500.
   */
  function Login(users: seq<User>, body: Option<JsValue>, compare: (string, string) -> bool,
                 sign: (TokenPayload, string) -> string, up: bool): (resp: Response)
    ensures resp.status in {200, 400, 401, 500}
    ensures resp == CredentialsRequired <==>
      && body.Some? && ReadCredentials(body.value).Some?
      && !(Truthy(ReadCredentials(body.value).value.email) && Truthy(ReadCredentials(body.value).value.password))
    ensures resp.status == 400 ==> resp == CredentialsRequired
    ensures resp.status == 401 ==> resp == InvalidCredentials
    ensures resp.status == 500 ==> resp == InternalError
    ensures resp.status == 500 <==>
      || body.None? || ReadCredentials(body.value).None?
      || (&& Truthy(ReadCredentials(body.value).value.email) && Truthy(ReadCredentials(body.value).value.password)
          && (|| !ReadCredentials(body.value).value.email.Str? || !up
              || (&& FindUserByEmail(users, ReadCredentials(body.value).value.email.s).Some?
                  && !ReadCredentials(body.value).value.password.Str?)))
    ensures resp.status == 200 ==>
      exists u, password :: && u in users && CarriesCredentials(body, u.email, password) && up
                            && compare(password, u.password)
                            && resp == Response(200, LoggedIn(LoginMessage, sign(TokenPayload(u.id, u.email), TokenExpiry)))
  {
    if body.None? then InternalError
    else
      match ReadCredentials(body.value)
      case None => InternalError
      case Some(c) =>
        if !Truthy(c.email) || !Truthy(c.password) then CredentialsRequired
        else if !c.email.Str? || !up then InternalError
        else
          match FindUserByEmail(users, c.email.s)
          case None => InvalidCredentials
          case Some(u) =>
            if !c.password.Str? then InternalError
            else if !compare(c.password.s, u.password) then InvalidCredentials
            else
              assert CarriesCredentials(body, c.email.s, c.password.s);
              Response(200, LoggedIn(LoginMessage, sign(TokenPayload(u.id, u.email), TokenExpiry)))
  }

  /**
   * With the fields present, an unknown e-mail and a wrong password get the
   * very same answer: 401 "Invalid credentials".
   */
  lemma RejectionHidesCause(users: seq<User>, body: Option<JsValue>, compare: (string, string) -> bool,
                            sign: (TokenPayload, string) -> string, email: string, password: string)
    requires EmailsUnique(users)
    requires CarriesCredentials(body, email, password)
    requires !Authentic(users, email, password, compare)
    ensures Login(users, body, compare, sign, true) == InvalidCredentials
  {
    var found := FindUserByEmail(users, email);
    if found.Some? {
      assert !compare(password, found.value.password);
    }
  }

  /**
   * With the fields present, the right password of a registered user is
   * answered with 200 and a seven-day token carrying that user's id and e-mail.
   */
  lemma AcceptsRegisteredUser(users: seq<User>, body: Option<JsValue>, compare: (string, string) -> bool,
                              sign: (TokenPayload, string) -> string, u: User, password: string)
    requires EmailsUnique(users)
    requires u in users
    requires CarriesCredentials(body, u.email, password)
    requires compare(password, u.password)
    ensures Login(users, body, compare, sign, true) == Response(200, LoggedIn(LoginMessage, sign(TokenPayload(u.id, u.email), TokenExpiry)))
  {
    FindUserByEmailUnique(users, u);
  }

  /** bcrypt's promise: a password matches every hash made of it. */
  ghost predicate HashMatches(hash: (string, nat) -> string, compare: (string, string) -> bool) {
    forall password :: compare(password, hash(password, SaltRounds))
  }

  /**
   * Signing up and then logging in with the same body succeeds, and the
   * token names the user just created.
   */
  lemma SignupThenLogin(users: seq<User>, body: Option<JsValue>, hash: (string, nat) -> string,
                        compare: (string, string) -> bool, sign: (TokenPayload, string) -> string, id: Id)
    requires EmailsUnique(users)
    requires HashMatches(hash, compare)
    requires SignupRoute.PlanSignup(users, body, hash, true).Register?
    ensures var plan := SignupRoute.PlanSignup(users, body, hash, true);
            Login(users + [User(id, plan.email, plan.passwordHash)], body, compare, sign, true)
              == Response(200, LoggedIn(LoginMessage, sign(TokenPayload(id, plan.email), TokenExpiry)))
  {
    var plan := SignupRoute.PlanSignup(users, body, hash, true);
    var grown := users + [User(id, plan.email, plan.passwordHash)];
    var password :| CarriesCredentials(body, plan.email, password);
    assert plan.passwordHash == hash(password, SaltRounds);
    SignupRoute.RegisterKeepsEmailsUnique(users, body, hash, true, id);
    assert grown[|users|] in grown;
    AcceptsRegisteredUser(grown, body, compare, sign, grown[|users|], password);
  }
}
