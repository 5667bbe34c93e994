/** `POST /api/auth/signup`: register a new user under a unique e-mail. */
module SignupRoute {
  import opened Common
  import opened JsValues
  import opened Entities
  import opened Database
  import opened Credentials

  /** The route's decision before it inserts: a response, or the user row to create. */
  datatype SignupPlan = Reply(resp: Response) | Register(email: string, passwordHash: string)

  /**
   * Lines 6-19 of the handler. `body` is None when `req.json()` throws;
   * `hash` stands for bcrypt's hash, deterministic here (the random salt is
   * not represented); `up` says whether the database answers the lookup. A non-string e-mail makes the lookup
   * throw and a non-string password makes bcrypt throw: both become 500.
   */
  function PlanSignup(users: seq<User>, body: Option<JsValue>, hash: (string, nat) -> string, up: bool): (plan: SignupPlan)
    ensures plan.Reply? ==> plan.resp in {CredentialsRequired, UserExists, InternalError}
    ensures plan.Reply? && plan.resp == CredentialsRequired <==>
      && body.Some? && ReadCredentials(body.value).Some?
      && !(Truthy(ReadCredentials(body.value).value.email) && Truthy(ReadCredentials(body.value).value.password))
    ensures plan.Reply? && plan.resp == UserExists <==>
      exists email :: CarriesEmail(body, email) && up && FindUserByEmail(users, email).Some?
    ensures plan.Register? ==>
      exists password :: CarriesCredentials(body, plan.email, password) && up && FindUserByEmail(users, plan.email).None?
    ensures forall email, password :: CarriesCredentials(body, email, password) && up && FindUserByEmail(users, email).None? ==>
      plan == Register(email, hash(password, SaltRounds))
  {
    if body.None? then Reply(InternalError)
    else
      match ReadCredentials(body.value)
      case None => Reply(InternalError)
      case Some(c) =>
        if !Truthy(c.email) || !Truthy(c.password) then Reply(CredentialsRequired)
        else if !c.email.Str? || !up then Reply(InternalError)
        else if FindUserByEmail(users, c.email.s).Some? then
          assert CarriesEmail(body, c.email.s);
          Reply(UserExists)
        else if !c.password.Str? then Reply(InternalError)
        else
          assert CarriesCredentials(body, c.email.s, c.password.s);
          Register(c.email.s, hash(c.password.s, SaltRounds))
  }

  /** A request with the e-mail of a registered user is refused as a duplicate, once the fields are present. */
  lemma DuplicateEmailRefused(users: seq<User>, body: Option<JsValue>, hash: (string, nat) -> string, email: string, password: string)
    requires CarriesCredentials(body, email, password)
    requires exists u :: u in users && u.email == email
    ensures PlanSignup(users, body, hash, true) == Reply(UserExists)
  {
  }

  /** Registering keeps e-mails unique: the new e-mail is not yet in the table. */
  lemma RegisterKeepsEmailsUnique(users: seq<User>, body: Option<JsValue>, hash: (string, nat) -> string, up: bool, id: Id)
    requires EmailsUnique(users)
    requires PlanSignup(users, body, hash, up).Register?
    ensures var plan := PlanSignup(users, body, hash, up);
            EmailsUnique(users + [User(id, plan.email, plan.passwordHash)])
  {
    var plan := PlanSignup(users, body, hash, up);
    var grown := users + [User(id, plan.email, plan.passwordHash)];
    forall i, j | 0 <= i < j < |grown| ensures grown[i].email != grown[j].email {
      if j == |users| {
        assert grown[i] in users;
      }
    }
  }

  /** Signing up twice with the same body: the second attempt is refused and adds nobody. */
  lemma RepeatSignupRefused(users: seq<User>, body: Option<JsValue>, hash: (string, nat) -> string, id: Id)
    requires PlanSignup(users, body, hash, true).Register?
    ensures var plan := PlanSignup(users, body, hash, true);
            PlanSignup(users + [User(id, plan.email, plan.passwordHash)], body, hash, true) == Reply(UserExists)
  {
    var plan := PlanSignup(users, body, hash, true);
    var grown := users + [User(id, plan.email, plan.passwordHash)];
    var password :| CarriesCredentials(body, plan.email, password);
    assert grown[|users|] in grown;
    DuplicateEmailRefused(grown, body, hash, plan.email, password);
  }

  /**
   * `POST /api/auth/signup`. `up` says whether the database answers the
   * lookup and `insertUp` whether it accepts the insert that follows. On 201
   * exactly one user is appended, holding the bcrypt hash of the password and
   * a fresh id, which the response carries; on every other answer the store
   * is unchanged.
   */
  method Signup(db: Db, body: Option<JsValue>, hash: (string, nat) -> string, up: bool, insertUp: bool)
    returns (resp: Response)
    requires db.Valid()
    modifies db
    ensures db.Valid()
    ensures db.cars == old(db.cars)
    ensures PlanSignup(old(db.users), body, hash, up).Reply? ==>
      resp == PlanSignup(old(db.users), body, hash, up).resp && db.users == old(db.users)
    ensures PlanSignup(old(db.users), body, hash, up).Register? && !insertUp ==>
      resp == InternalError && db.users == old(db.users)
    ensures PlanSignup(old(db.users), body, hash, up).Register? && insertUp ==>
      var plan := PlanSignup(old(db.users), body, hash, up);
      && resp.status == 201
      && resp.payload.UserCreated?
      && resp.payload.message == UserCreatedMessage
      && !IsRegistered(old(db.users), resp.payload.userId)
      && db.users == old(db.users) + [User(resp.payload.userId, plan.email, plan.passwordHash)]
    ensures resp.status != 201 ==> db.users == old(db.users)
  {
    var plan := PlanSignup(db.users, body, hash, up);
    if plan.Reply? {
      return plan.resp;
    }
    var user := db.CreateUser(plan.email, plan.passwordHash, insertUp);
    if user.None? {
      return InternalError;
    }
    resp := Response(201, UserCreated(UserCreatedMessage, user.value.id));
  }
}
