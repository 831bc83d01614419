/** Registration, login and logout over the user collection. Password hashing,
    password comparison and token signing are supplied from outside as plain
    functions. */
module AuthController {
  import opened Wrappers
  import opened Text
  import opened Json
  import opened Constants
  import opened ErrorHandler
  import Validators
  import opened UserModel
  import opened AuthMiddleware

  /** What the register and login responses expose of a user. There is no password
      field to leak. */
  datatype UserPayload = UserPayload(id: nat, email: string, username: string)

  /** A successful login: the signed token and the user's payload. */
  datatype Session = Session(accessToken: string, user: UserPayload)

  function PayloadOf(a: Account): (p: UserPayload)
    ensures p.id == a.id && p.email == a.user.email && p.username == a.user.username
  {
    UserPayload(a.id, a.user.email, a.user.username)
  }

  function RegisterErrors(body: Payload): seq<Validators.ValidationError> {
    Validators.Answer(Validators.RegisterForm, body, Validators.FieldCount(Validators.RegisterForm))
  }

  function LoginErrors(body: Payload): seq<Validators.ValidationError> {
    Validators.Answer(Validators.LoginForm, body, Validators.FieldCount(Validators.LoginForm))
  }

  /** The string the controller reads from the body under `key`; after validation
      there always is one. */
  function Field(body: Payload, key: string): string {
    if Get(body, key).Str? then Get(body, key).s else ""
  }

  // ---------------------------------------------------------------------------
  // registerUser

  /** The duplicate lookup `{$or: [{email}, {username}]}`, its values cast by the
      schema's setters as every query filter is. */
  function Clashes(email: string, username: string): User -> bool {
    (u: User) => u.email == CastEmail(email) || u.username == Trim(username)
  }

  /** The 409 for an existing user. It names the email only when the stored email
      equals the submitted one exactly; otherwise it names the username. */
  function Conflict(existing: User, email: string): (e: AppError)
    ensures e.statusCode == CONFLICT
    ensures e.code == EMAIL_EXISTS <==> existing.email == email
    ensures e.code == USERNAME_EXISTS <==> existing.email != email
    ensures e.code == EMAIL_EXISTS ==> e.message == "User with this email already exists"
    ensures e.code == USERNAME_EXISTS ==> e.message == "User with this username already exists"
  {
    var field := if existing.email == email then "email" else "username";
    AppError(CONFLICT, if field == "email" then EMAIL_EXISTS else USERNAME_EXISTS,
             "User with this " + field + " already exists")
  }

  /** The document registration builds: the email lower-cased (and cast again by the
      schema), the password replaced by its hash. */
  function NewUser(body: Payload, hash: string -> string): UserDraft {
    UserDraft(ToLower(Field(body, "email")), Field(body, "username"), hash(Field(body, "password")),
              Field(body, "firstName"), Field(body, "lastName"))
  }

  /** `registerUser`. */
  method RegisterUser(store: UserStore, body: Payload, hash: string -> string) returns (r: Result<UserPayload, Raised>)
    requires store.Valid()
    modifies store
    ensures store.Valid()
    ensures RegisterErrors(body) != [] ==>
      r == Err(App(Validators.InvalidInput(RegisterErrors(body)))) && unchanged(store)
    ensures RegisterErrors(body) == [] ==>
      Registered(old(store.users), old(store.clock), Field(body, "email"), Field(body, "username"),
                 Cast(NewUser(body, hash)), r, store.users)
  {
    var validationErrors := Validators.ValidateRegisterInput(body);
    if |validationErrors| > 0 {
      return Err(App(Validators.InvalidInput(validationErrors)));
    }
    var email, username, password := Field(body, "email"), Field(body, "username"), Field(body, "password");
    var firstName, lastName := Field(body, "firstName"), Field(body, "lastName");
    r := CreateUser(store, email, username, hash(password), firstName, lastName);
  }

  /** What registration does with an accepted body, given the users before, the
      document it builds, its answer and the users after: a clash found by the
      lookup is a 409 and stores nothing; otherwise the document is stored under a
      fresh id when the schema accepts it (a 500 and nothing stored when not). */
  predicate Registered(before: map<nat, User>, clock: nat, email: string, username: string, doc: User,
                       r: Result<UserPayload, Raised>, after: map<nat, User>)
  {
    match First(before, clock, Clashes(email, username))
    case Some(id) => r == Err(App(Conflict(before[id], email))) && after == before
    case None =>
      && (Conforms(doc) ==> r == Ok(UserPayload(clock, doc.email, doc.username))
                            && after == before[clock := doc.(createdAt := clock)])
      && (!Conforms(doc) ==> r.Err? && r.error.Unexpected? && after == before)
  }

  /** The part of `registerUser` after validation: the duplicate lookup, the new
      document and its `save()`. */
  method CreateUser(store: UserStore, email: string, username: string, hashedPassword: string,
                    firstName: string, lastName: string) returns (r: Result<UserPayload, Raised>)
    requires store.Valid()
    modifies store
    ensures store.Valid()
    ensures store.clock >= old(store.clock)
    ensures Registered(old(store.users), old(store.clock), email, username,
                       Cast(UserDraft(ToLower(email), username, hashedPassword, firstName, lastName)), r, store.users)
    ensures r.Err? && r.error.App? ==> unchanged(store)
  {
    var existingUser := store.FindOne(Clashes(email, username));
    if existingUser.Some? {
      return Err(App(Conflict(existingUser.value.user, email)));
    }
    var newUser := Cast(UserDraft(ToLower(email), username, hashedPassword, firstName, lastName));
    NoClashIsAvailable(store.users, store.clock, email, username, newUser);
    var saved := store.Insert(newUser);
    if saved.None? {
      return Err(Unexpected("User validation failed"));
    }
    r := Ok(PayloadOf(saved.value));
  }

  /** When the lookup finds no one, the new user's cast email and username are free,
      so the unique indexes never refuse it: only the schema's validators can. */
  lemma NoClashIsAvailable(users: map<nat, User>, clock: nat, email: string, username: string, doc: User)
    requires Stamped(users, clock)
    requires forall id :: id in users && id < clock ==> !Clashes(email, username)(users[id])
    requires doc.email == CastEmail(ToLower(email)) && doc.username == Trim(username)
    ensures Available(users, doc)
  {
    CastEmailOfLower(email);
  }

  /** A registered user's email is stored lower-cased and trimmed, and the password
      stored is the hash of the one submitted. */
  lemma RegisteredUserContents(body: Payload, hash: string -> string)
    ensures var doc := Cast(NewUser(body, hash));
      && doc.email == CastEmail(Field(body, "email")) && HasNoUpperAscii(doc.email) && IsTrimmed(doc.email)
      && doc.password == hash(Field(body, "password"))
  {
    CastEmailOfLower(Field(body, "email"));
  }

  /** A submitted email with an upper-case letter is never reported as a clash on
      the email: every stored email is lower-case, so the clash is always reported
      on the username, even when the stored user matched by its email. */
  lemma UpperCaseEmailReportedAsUsername(store: UserStore, email: string, username: string, i: nat)
    requires store.Valid()
    requires i < |email| && 'A' <= email[i] <= 'Z'
    ensures var existing := store.FindOne(Clashes(email, username));
      existing.Some? ==> Conflict(existing.value.user, email).code == USERNAME_EXISTS
  {
    var existing := store.FindOne(Clashes(email, username));
    if existing.Some? {
      assert Conforms(store.users[existing.value.id]);
      assert HasNoUpperAscii(existing.value.user.email);
    }
  }

  /** The stored user whose email differs from the submitted one only in letter
      case (or surrounding whitespace) is found by the lookup. */
  lemma CaseVariantFound(store: UserStore, email: string, username: string, id: nat)
    requires store.Valid()
    requires id in store.users && store.users[id].email == CastEmail(email)
    ensures store.FindOne(Clashes(email, username)).Some?
  {
  }

  // ---------------------------------------------------------------------------
  // loginUser

  const InvalidCredentials := AppError(UNAUTHORIZED, INVALID_CREDENTIALS, "Invalid email or password")

  /** The login lookup `{email: email.toLowerCase()}`, cast by the schema's setters. */
  function HasEmail(email: string): User -> bool {
    (u: User) => u.email == CastEmail(ToLower(email))
  }

  /** `loginUser`: it changes nothing. An unknown email and a wrong password fail
      with the very same 401; success returns a token signed over the user's id and
      email, with the user's payload. */
  method LoginUser(store: UserStore, body: Payload, compare: (string, string) -> bool, sign: Claims -> string)
    returns (r: Result<Session, Raised>)
    requires store.Valid()
    ensures LoginErrors(body) != [] ==> r == Err(App(Validators.InvalidInput(LoginErrors(body))))
    ensures LoginErrors(body) == [] && r.Err? ==> r.error == App(InvalidCredentials)
    ensures LoginErrors(body) == [] ==>
      (r.Ok? <==> exists id :: id in store.users && store.users[id].email == CastEmail(Field(body, "email"))
                               && compare(Field(body, "password"), store.users[id].password))
    ensures r.Ok? ==>
      exists id :: id in store.users && store.users[id].email == CastEmail(Field(body, "email"))
        && r.value == Session(sign(Claims(id, store.users[id].email)), PayloadOf(Account(id, store.users[id])))
  {
    var validationErrors := Validators.ValidateLoginInput(body);
    if |validationErrors| > 0 {
      return Err(App(Validators.InvalidInput(validationErrors)));
    }
    var email, password := Field(body, "email"), Field(body, "password");
    CastEmailOfLower(email);
    var user := store.FindOne(HasEmail(email));
    if user.None? {
      return Err(App(InvalidCredentials));
    }
    var isPasswordValid := compare(password, user.value.user.password);
    if !isPasswordValid {
      OnlyOneWithEmail(store, user.value.id, CastEmail(email));
      return Err(App(InvalidCredentials));
    }
    var accessToken := sign(Claims(user.value.id, user.value.user.email));
    r := Ok(Session(accessToken, PayloadOf(user.value)));
  }

  /** Emails are unique, so the user found by email is the only one with it. */
  lemma OnlyOneWithEmail(store: UserStore, id: nat, email: string)
    requires store.Valid()
    requires id in store.users && store.users[id].email == email
    ensures forall other :: other in store.users && store.users[other].email == email ==> other == id
  {
  }

  /** Register, then log in: after a successful registration the submitted email
      and password satisfy the condition under which login succeeds, whenever the
      password comparison accepts a password against its own hash. */
  lemma RegisterThenLogin(before: map<nat, User>, clock: nat, body: Payload, hash: string -> string,
                          compare: (string, string) -> bool, r: Result<UserPayload, Raised>, after: map<nat, User>)
    requires Registered(before, clock, Field(body, "email"), Field(body, "username"), Cast(NewUser(body, hash)), r, after)
    requires r.Ok?
    requires compare(Field(body, "password"), hash(Field(body, "password")))
    ensures exists id :: id in after && after[id].email == CastEmail(Field(body, "email"))
                         && compare(Field(body, "password"), after[id].password)
  {
    var doc := Cast(NewUser(body, hash));
    CastEmailOfLower(Field(body, "email"));
    assert clock in after && after[clock] == doc.(createdAt := clock);
  }

  // ---------------------------------------------------------------------------
  // logoutUser

  /** `logoutUser`: always 200; tokens are stateless, so nothing changes. */
  function LogoutUser(): (status: int)
    ensures status == OK
  {
    OK
  }
}
