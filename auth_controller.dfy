/** Sign-up and log-in (backend/src/controllers/auth.controller.js). Password
    hashing, hash comparison and token signing are the parameters `hash`,
    `compare` and `sign`; the secret and the 24-hour expiry live inside
    `sign`. */
module AuthController {
  import opened Common
  import opened UserModel
  import opened Store

  /** The sign-up body: only these seven keys are read, so `isAdmin` can
      never be chosen by the caller. */
  datatype SignupBody = SignupBody(
    firstName: Option<string>,
    lastName: Option<string>,
    email: Option<string>,
    password: Option<string>,
    team: Option<string>,
    position: Option<string>,
    jerseyNumber: Option<int>)

  datatype LoginBody = LoginBody(email: Option<string>, password: Option<string>)

  /** The user summary sent back: no password and no admin flag. */
  datatype UserSummary = UserSummary(
    id: Id,
    firstName: string,
    lastName: string,
    email: string,
    team: string,
    position: string,
    jerseyNumber: int)

  datatype AuthReply = AuthReply(message: string, token: string, user: UserSummary)

  function Summary(u: User): UserSummary {
    UserSummary(u.id, u.firstName, u.lastName, u.email, u.team, u.position, u.jerseyNumber)
  }

  /** Why a sign-up stops: the email is taken, bcrypt throws on a missing
      password, or the schema rejects the document. */
  datatype SignupError = EmailExists | HashFailed | Invalid(errors: seq<SchemaError>)

  function SignupFailure(e: SignupError): Response<AuthReply> {
    if e == EmailExists then Failure(400, "User already exists with this email")
    else Failure(500, "Error creating user")
  }

  /** The document handed to `new User(...)`: the hash replaces the password. */
  function NewUserInput(b: SignupBody, hashed: string): UserInput {
    UserInput(b.firstName, b.lastName, b.email, Some(hashed), b.team, b.position, b.jerseyNumber, None)
  }

  /** The user a sign-up stores under `id`, or why it stops. */
  function Register(users: seq<User>, b: SignupBody, hash: string -> string, id: Id): (r: Result<User, SignupError>)
    ensures r == Err(EmailExists) <==> FindUserByEmail(users, b.email).Some?
    ensures r.Ok? ==>
              && b.email == Some(r.value.email) && b.password.Some?
              && r.value.password == hash(b.password.value)
              && !r.value.isAdmin && r.value.id == id
              && (forall k :: 0 <= k < |users| ==> users[k].email != r.value.email)
    ensures r.Ok? <==>
              && FindUserByEmail(users, b.email).None? && b.password.Some?
              && CastUser(NewUserInput(b, hash(b.password.value)), id).Ok?
  {
    if FindUserByEmail(users, b.email).Some? then Err(EmailExists)
    else if b.password.None? then Err(HashFailed)
    else
      var user := CastUser(NewUserInput(b, hash(b.password.value)), id);
      if user.Err? then Err(Invalid(user.error)) else Ok(user.value)
  }

  /** A registered user keeps the collection's emails unique. */
  lemma RegisterKeepsEmailsUnique(users: seq<User>, b: SignupBody, hash: string -> string, id: Id)
    requires EmailsUnique(users)
    requires Register(users, b, hash, id).Ok?
    ensures EmailsUnique(users + [Register(users, b, hash, id).value])
  {
    var u := Register(users, b, hash, id).value;
    var s := users + [u];
    forall i, j | 0 <= i < j < |s| ensures s[i].email != s[j].email {
      if j == |users| {
        assert s[i] == users[i];
      }
    }
  }

  /** `signup`. */
  method Signup(db: Database, body: SignupBody, hash: string -> string, sign: TokenPayload -> string)
    returns (res: Response<AuthReply>)
    requires db.Valid()
    modifies db
    ensures db.Valid() && db.teams == old(db.teams)
    ensures Register(old(db.users), body, hash, old(db.nextId)).Err? ==>
              && res == SignupFailure(Register(old(db.users), body, hash, old(db.nextId)).error)
              && db.users == old(db.users) && db.nextId == old(db.nextId)
    ensures Register(old(db.users), body, hash, old(db.nextId)).Ok? ==>
              var u := Register(old(db.users), body, hash, old(db.nextId)).value;
              && db.users == old(db.users) + [u] && db.nextId == old(db.nextId) + 1
              && res == Success(201, AuthReply("User created successfully", sign(TokenPayload(u.id)), Summary(u)))
  {
    var existingUser := FindUserByEmail(db.users, body.email);
    if existingUser.Some? {
      return Failure(400, "User already exists with this email");
    }
    if body.password.None? {
      // bcrypt.hash(undefined, 12) throws.
      return Failure(500, "Error creating user");
    }
    var hashedPassword := hash(body.password.value);
    var user := CastUser(NewUserInput(body, hashedPassword), db.nextId);
    if user.Err? {
      return Failure(500, "Error creating user");
    }
    RegisterKeepsEmailsUnique(db.users, body, hash, db.nextId);
    AddUserKeepsWellformed(db.users, db.teams, db.nextId, user.value);
    db.users, db.nextId := db.users + [user.value], db.nextId + 1;
    var token := sign(TokenPayload(user.value.id));
    res := Success(201, AuthReply("User created successfully", token, Summary(user.value)));
  }

  /** `login`: the first user with the email, then the password check. */
  function Login(users: seq<User>, b: LoginBody, compare: (string, string) -> bool, sign: TokenPayload -> string)
    : (r: Response<AuthReply>)
    ensures r == Failure(401, "Email not found") <==> FindUserByEmail(users, b.email).None?
    ensures r.Success? ==>
              && r.status == 200 && r.body.message == "Logged in successfully"
              && b.password.Some? && Some(r.body.user.email) == b.email
              && r.body.token == sign(TokenPayload(r.body.user.id))
    ensures var f := FindUserByEmail(users, b.email);
            f.Some? && b.password.None? ==> r == Failure(500, "Error logging in")
    ensures var f := FindUserByEmail(users, b.email);
            f.Some? && b.password.Some? && !compare(b.password.value, users[f.value].password) ==>
              r == Failure(401, "Incorrect password")
    ensures var f := FindUserByEmail(users, b.email);
            f.Some? && b.password.Some? && compare(b.password.value, users[f.value].password) ==>
              r == Success(200, AuthReply("Logged in successfully", sign(TokenPayload(users[f.value].id)), Summary(users[f.value])))
    ensures EmailsUnique(users) ==>
              (r.Success? <==>
                 exists k :: 0 <= k < |users| && Some(users[k].email) == b.email
                   && b.password.Some? && compare(b.password.value, users[k].password))
  {
    var found := FindUserByEmail(users, b.email);
    if found.None? then Failure(401, "Email not found")
    else
      var user := users[found.value];
      // bcrypt.compare(undefined, hash) throws.
      if b.password.None? then Failure(500, "Error logging in")
      else if !compare(b.password.value, user.password) then Failure(401, "Incorrect password")
      else Success(200, AuthReply("Logged in successfully", sign(TokenPayload(user.id)), Summary(user)))
  }

  /** Signing up and then logging in with the same email and password gives
      the new user's token and summary, provided `compare` accepts a
      password against its own hash (as bcrypt does). */
  lemma SignupThenLogin(users: seq<User>, b: SignupBody, hash: string -> string,
                        compare: (string, string) -> bool, sign: TokenPayload -> string, id: Id)
    requires Register(users, b, hash, id).Ok?
    requires compare(b.password.value, hash(b.password.value))
    ensures var u := Register(users, b, hash, id).value;
      Login(users + [u], LoginBody(b.email, b.password), compare, sign)
        == Success(200, AuthReply("Logged in successfully", sign(TokenPayload(id)), Summary(u)))
  {
    var u := Register(users, b, hash, id).value;
    var s := users + [u];
    assert s[|users|] == u;
    assert forall k :: 0 <= k < |users| ==> s[k] == users[k];
  }
}
