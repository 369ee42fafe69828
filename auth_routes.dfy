/** Registration and login of server/routes/auth.js. Password hashing and comparison
    (bcrypt) and token signing (JSON Web Token) are the function parameters `hash`,
    `compare` and `sign`. */
module AuthRoutes {

  import opened Wrappers
  import opened Schema
  import opened TokenAuth
  import opened Store

  /** The user projection both routes return: id, email and name, never the hash. */
  datatype PublicUser = PublicUser(id: UserId, email: string, name: Option<string>)

  datatype Session = Session(token: string, user: PublicUser)

  const EmailTakenText := "Email bereits registriert"
  const BadCredentialsText := "Ungültige Anmeldedaten"

  /** A password hasher and the comparison that belongs to it. */
  ghost predicate HashPair(hash: string -> string, compare: (string, string) -> bool) {
    forall p :: compare(p, hash(p))
  }

  /** POST `/register`: 400 when the email is taken; otherwise a new user with the
      hashed password, `isActive` and `isAdmin` false (the schema defaults), and a token
      for it straight away. */
  function Register(t: Tables, email: string, password: string, name: Option<string>,
                    hash: string -> string, sign: Claims -> string, now: Time): (s: Step<Session>)
    ensures s.response.Ok? <==> FindByEmail(t.users, email).None?
    ensures s.response.Error? ==> s.tables == t
    ensures s.response.Ok? ==>
              var id := s.response.body.user.id;
              && s.tables.users.Keys == t.users.Keys + {id}
              && s.tables.users[id].email == email && s.tables.users[id].password == hash(password)
              && s.response.body.token == GenerateToken(sign, id)
  {
    if FindByEmail(t.users, email).Some? then Step(t, Error(BadRequest, EmailTakenText))
    else
      var id := t.nextUserId;
      Step(CreateUser(t, email, hash(password), name, false, false, now),
           Ok(Session(GenerateToken(sign, id), PublicUser(id, email, name))))
  }

  /** POST `/login`: the user with the email, if the password matches its hash. An
      unknown email and a wrong password get the same 401 body; `isActive` is not
      looked at. */
  function Login(t: Tables, email: string, password: string,
                 compare: (string, string) -> bool, sign: Claims -> string): (r: Response<Session>)
    ensures r.Ok? <==> FindByEmail(t.users, email).Some? &&
                       compare(password, t.users[FindByEmail(t.users, email).value].password)
    ensures r.Error? ==> r == Error(Unauthorized, BadCredentialsText)
    ensures r.Ok? ==> r.body.user.id in t.users && t.users[r.body.user.id].email == email &&
                      r.body.user == PublicUser(r.body.user.id, email, t.users[r.body.user.id].name) &&
                      r.body.token == GenerateToken(sign, r.body.user.id)
  {
    match FindByEmail(t.users, email)
    case None => Error(Unauthorized, BadCredentialsText)
    case Some(id) =>
      var user := t.users[id];
      if !compare(password, user.password) then Error(Unauthorized, BadCredentialsText)
      else Ok(Session(GenerateToken(sign, id), PublicUser(id, user.email, user.name)))
  }

  /** A taken email changes nothing; a free one adds exactly one pending, non-admin user
      holding the hash of the password, whom the email now finds, and whose token is the
      one returned. */
  lemma RegisterEffect(t: Tables, email: string, password: string, name: Option<string>,
                       hash: string -> string, sign: Claims -> string, now: Time)
    requires Valid(t)
    ensures var s := Register(t, email, password, name, hash, sign, now);
            (exists id :: id in t.users && t.users[id].email == email) ==>
              s == Step(t, Error(BadRequest, EmailTakenText))
    ensures var s := Register(t, email, password, name, hash, sign, now);
            (forall id :: id in t.users ==> t.users[id].email != email) ==>
              && Valid(s.tables)
              && s.response.Ok?
              && var id := s.response.body.user.id;
                 && id !in t.users
                 && s.tables.users.Keys == t.users.Keys + {id}
                 && s.tables.users[id] == User(email, hash(password), name, false, false, now)
                 && (forall other :: other in t.users ==> s.tables.users[other] == t.users[other])
                 && FindByEmail(s.tables.users, email) == Some(id)
                 && s.response.body.token == GenerateToken(sign, id)
                 && s.tables.systems == t.systems && s.tables.planets == t.planets
  {
    var s := Register(t, email, password, name, hash, sign, now);
    if forall id :: id in t.users ==> t.users[id].email != email {
      CreateUserValid(t, email, hash(password), name, false, false, now);
      FindByEmailUnique(s.tables.users, t.nextUserId);
    }
  }

  /** Registering the same email twice: the second attempt is refused and changes
      nothing. */
  lemma RegisterTwice(t: Tables, email: string, pw1: string, pw2: string, n1: Option<string>, n2: Option<string>,
                      hash: string -> string, sign: Claims -> string, now1: Time, now2: Time)
    requires Valid(t)
    ensures var t1 := Register(t, email, pw1, n1, hash, sign, now1).tables;
            Register(t1, email, pw2, n2, hash, sign, now2) == Step(t1, Error(BadRequest, EmailTakenText))
  {
    var t1 := Register(t, email, pw1, n1, hash, sign, now1).tables;
    if FindByEmail(t.users, email).None? {
      assert t1.users[t.nextUserId].email == email;
    }
  }

  /** Login looks at the email and the password hash only: changing a user's flags (for
      example activating or deactivating the account) does not change its outcome. */
  lemma LoginIgnoresFlags(t: Tables, id: UserId, isActive: bool, isAdmin: bool, email: string,
                          password: string, compare: (string, string) -> bool, sign: Claims -> string)
    requires id in t.users
    ensures var u := t.users[id].(isActive := isActive, isAdmin := isAdmin);
            Login(t.(users := t.users[id := u]), email, password, compare, sign) ==
            Login(t, email, password, compare, sign)
  {
    var u := t.users[id].(isActive := isActive, isAdmin := isAdmin);
    FindByEmailIgnoresOtherFields(t.users, id, u, email);
  }

  /** A user who has just registered, and whom no admin has activated, logs in with the
      same password and gets a token the gate accepts for the new id. */
  lemma RegisteredUserLogsIn(t: Tables, email: string, password: string, name: Option<string>,
                             hash: string -> string, compare: (string, string) -> bool,
                             sign: Claims -> string, verify: string -> Option<Claims>, now: Time)
    requires Valid(t) && HashPair(hash, compare) && KeyPair(sign, verify)
    requires forall id :: id in t.users ==> t.users[id].email != email
    ensures var s := Register(t, email, password, name, hash, sign, now);
            var r := Login(s.tables, email, password, compare, sign);
            && s.response.Ok? && r.Ok?
            && !s.tables.users[r.body.user.id].isActive
            && r.body.user.id == s.response.body.user.id
            && Authenticate(Some(BearerHeader(r.body.token)), verify) == Authenticated(Claims(t.nextUserId))
  {
    RegisterEffect(t, email, password, name, hash, sign, now);
    assert compare(password, hash(password));
    IssuedTokenAuthenticates(sign, verify, t.nextUserId);
  }

  /** POST `/register` as the router runs it. */
  method RegisterRoute(db: Database, email: string, password: string, name: Option<string>,
                       hash: string -> string, sign: Claims -> string, now: Time)
    returns (r: Response<Session>)
    requires db.Valid()
    modifies db
    ensures db.Valid()
    ensures Step(db.State(), r) == Register(old(db.State()), email, password, name, hash, sign, now)
  {
    RegisterEffect(db.State(), email, password, name, hash, sign, now);
    var existing := FindByEmail(db.users, email);
    if existing.Some? {
      return Error(BadRequest, EmailTakenText);
    }
    var id := db.CreateUserRow(email, hash(password), name, false, false, now);
    r := Ok(Session(GenerateToken(sign, id), PublicUser(id, email, name)));
  }
}
