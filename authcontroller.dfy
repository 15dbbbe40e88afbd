/**
 * `register` and `login`. Signing a token is the parameter `sign` (the token
 * for a user id), bcrypt's compare is `matches(entered, stored)` and its
 * hash is `hash`.
 */
module AuthController {
  import opened Wrappers
  import opened Http
  import opened Schema
  import opened UserModel
  import opened Store

  const MissingFields := ErrorResponse(400, "Please provide an email and password")
  const UnknownEmail := ErrorResponse(401, "Invalid Credential")
  const WrongPassword := ErrorResponse(401, "Invalid Password")

  /**
   * `login`: the 400 for a missing or empty field comes before any lookup,
   * then the 401 for an unknown email, then the 401 for a wrong password;
   * otherwise 200 with a token for the user found.
   */
  function Login(email: Option<string>, password: Option<string>, db: Db,
                 matches: (string, string) -> bool, sign: Id -> string): (reply: Reply<User>)
    reads db
    ensures !Filled(email) || !Filled(password) ==> reply == Next(MissingFields)
    ensures Filled(email) && Filled(password) && db.FindUserByEmail(email.value).None? ==> reply == Next(UnknownEmail)
    ensures Filled(email) && Filled(password) && db.FindUserByEmail(email.value).Some? ==>
              var u := db.FindUserByEmail(email.value).value;
              reply == if matches(password.value, u.password) then Sent(200, Token(sign(u.id))) else Next(WrongPassword)
  {
    if !Filled(email) || !Filled(password) then Next(MissingFields)
    else
      match db.FindUserByEmail(email.value)
      case None => Next(UnknownEmail)
      case Some(u) =>
        if !matches(password.value, u.password) then Next(WrongPassword)
        else Sent(200, Token(sign(u.id)))
  }

  /**
   * Since emails are unique, a successful login is for the one stored user
   * with that email, and only when the password matches what is stored for
   * that user.
   */
  lemma LoginIdentifiesUser(email: string, password: string, db: Db, matches: (string, string) -> bool,
                            sign: Id -> string, u: User)
    requires db.Valid() && u in db.users && u.email == email
    ensures Login(Some(email), Some(password), db, matches, sign).Sent? <==>
              email != "" && password != "" && matches(password, u.password)
    ensures Login(Some(email), Some(password), db, matches, sign).Sent? ==>
              Login(Some(email), Some(password), db, matches, sign) == Sent(200, Token(sign(u.id)))
  {
    var found := db.FindUserByEmail(email);
    assert found.Some?;
    var i :| 0 <= i < |db.users| && db.users[i] == found.value;
    var j :| 0 <= j < |db.users| && db.users[j] == u;
    SameEmailSameUser(db.users, i, j);
  }

  lemma SameEmailSameUser(us: seq<User>, i: nat, j: nat)
    requires EmailsUnique(us) && i < |us| && j < |us| && us[i].email == us[j].email
    ensures i == j
  {
  }

  /** The body fields `register` reads. */
  const RegisterFields: set<string> := {"name", "email", "password", "role"}

  function Field(body: map<string, string>, k: string): Option<string> {
    if k in body then Some(body[k]) else None
  }

  /** The object `register` passes to `User.create`: the four fields, nothing else. */
  function RegisterInput(body: map<string, string>): UserInput
  {
    UserInput(Field(body, "name"), Field(body, "email"), Field(body, "password"), Field(body, "role"))
  }

  /** Bodies that agree on the four fields register the same user. */
  lemma RegisterIgnoresOtherFields(b1: map<string, string>, b2: map<string, string>)
    requires forall k :: k in RegisterFields ==> Field(b1, k) == Field(b2, k)
    ensures RegisterInput(b1) == RegisterInput(b2)
  {
    assert Field(b1, "name") == Field(b2, "name");
    assert Field(b1, "email") == Field(b2, "email");
    assert Field(b1, "password") == Field(b2, "password");
    assert Field(b1, "role") == Field(b2, "role");
  }

  /**
   * `register`: `User.create` from the four fields (validation, the hash,
   * the email index), then 200 with a token for the new user.
   */
  method Register(db: Db, body: map<string, string>, hash: string -> string, sign: Id -> string)
    returns (reply: Reply<User>)
    requires db.Valid()
    modifies db
    ensures db.Valid()
    ensures NewUser(old(db.nextId), RegisterInput(body)).Err? ==>
              reply == Next(NewUser(old(db.nextId), RegisterInput(body)).error) && db.users == old(db.users)
    ensures NewUser(old(db.nextId), RegisterInput(body)).Ok? ==>
              var u := NewUser(old(db.nextId), RegisterInput(body)).value;
              if FirstWithEmail(old(db.users), u.email).Some?
              then reply == Next(DuplicateKey("email_1")) && db.users == old(db.users)
              else reply == Sent(200, Token(sign(u.id))) && db.users == old(db.users) + [u.(password := hash(u.password))]
    ensures db.bootcamps == old(db.bootcamps) && db.courses == old(db.courses) && db.reviews == old(db.reviews)
  {
    var r := db.CreateUser(RegisterInput(body), hash);
    match r
    case Err(e) =>
      reply := Next(e);
    case Ok(u) =>
      reply := Sent(200, Token(sign(u.id)));
  }
}
