/**
 * The User schema: its field constraints, the pre-save rehash of the
 * password, and the reset token. bcrypt, sha256 and the random source are
 * parameters: `hash`, `digest` and the bytes passed in.
 */
module UserModel {
  import opened Wrappers
  import JsString
  import Json
  import opened Http
  import opened Schema
  import Email

  datatype User = User(
    id: Id,
    name: string,
    email: string,
    role: string,
    password: string,
    resetPasswordToken: Option<string>,
    resetPasswordExpire: Option<int>)

  /** The fields `register` passes on: a missing one is None. */
  datatype UserInput = UserInput(name: Option<string>, email: Option<string>, password: Option<string>, role: Option<string>)

  const Roles: set<string> := {"user", "publisher"}
  const DefaultRole := "user"
  const MinPassword := 6

  /** The role after the schema default is applied. */
  function RoleOf(b: UserInput): string {
    b.role.GetOr(DefaultRole)
  }

  /** `required` plus `match`; the pattern check skips "" but `required` already rejects it. */
  predicate EmailOk(v: Option<string>) {
    Filled(v) && Email.Matches(v.value)
  }

  /** `required` plus `minlength`, on the password as sent, before any hashing. */
  predicate PasswordOk(v: Option<string>) {
    Filled(v) && JsString.Utf16Length(v.value) >= MinPassword
  }

  /** The paths whose validators reject a new user. */
  function UserFailures(b: UserInput): set<string> {
    (if !Filled(b.name) then {"name"} else {})
    + (if !EmailOk(b.email) then {"email"} else {})
    + (if RoleOf(b) !in Roles then {"role"} else {})
    + (if !PasswordOk(b.password) then {"password"} else {})
  }

  /** `new User(body)` and its validation; the password is still the one sent. */
  function NewUser(id: Id, b: UserInput): (r: Result<User, Failure>)
    ensures r.Ok? <==> UserFailures(b) == {}
    ensures r.Err? ==> r.error == ValidationError(UserFailures(b))
    ensures r.Ok? ==> r.value.id == id && r.value.name == b.name.value && r.value.name != ""
    ensures r.Ok? ==> r.value.email == b.email.value && Email.EmailShape(r.value.email)
    ensures r.Ok? ==> r.value.role == RoleOf(b) && r.value.role in Roles && (b.role.None? ==> r.value.role == DefaultRole)
    ensures r.Ok? ==> r.value.password == b.password.value && JsString.Utf16Length(r.value.password) >= MinPassword
    ensures r.Ok? ==> r.value.resetPasswordToken.None? && r.value.resetPasswordExpire.None?
  {
    if UserFailures(b) != {} then Err(ValidationError(UserFailures(b)))
    else
      assert "email" !in UserFailures(b);
      Email.MatchesIffShape(b.email.value);
      assert "password" !in UserFailures(b);
      Ok(User(id, b.name.value, b.email.value, RoleOf(b), b.password.value, None, None))
  }

  /** The schema never admits the admin role, nor an empty one. */
  lemma AdminRejected(id: Id, b: UserInput)
    requires b.role == Some("admin") || b.role == Some("")
    ensures NewUser(id, b).Err? && "role" in NewUser(id, b).error.paths
  {
  }

  /** A five-character password is too short. */
  lemma ShortPasswordRejected(id: Id, b: UserInput)
    requires b.password == Some("abcde")
    ensures NewUser(id, b).Err? && "password" in NewUser(id, b).error.paths
  {
    assert JsString.Utf16Length("abcde") == 5;
  }

  // ---------------------------------------------------------------------
  // Hex encoding of the random bytes

  type Byte = b: int | 0 <= b < 256

  /** `buffer.toString('hex')`: two lowercase digits per byte, high nibble first. */
  function HexString(bytes: seq<Byte>): (s: string)
    ensures |s| == 2 * |bytes|
    ensures forall i :: 0 <= i < |s| ==> '0' <= s[i] <= '9' || 'a' <= s[i] <= 'f'
  {
    if bytes == [] then ""
    else [Json.HexDigit(bytes[0] / 16), Json.HexDigit(bytes[0] % 16)] + HexString(bytes[1..])
  }

  /** Reads a string of hex digits back into bytes. */
  function DecodeHex(s: string): Option<seq<Byte>>
    decreases |s|
  {
    if s == [] then Some([])
    else if |s| == 1 then None
    else
      match (Json.HexValue(s[0]), Json.HexValue(s[1]), DecodeHex(s[2..]))
      case (Some(hi), Some(lo), Some(rest)) =>
        if hi < 16 && lo < 16 then Some([hi * 16 + lo] + rest) else None
      case _ => None
  }

  /** The hex string loses nothing: decoding it gives the bytes back. */
  lemma {:induction false} HexStringRoundTrip(bytes: seq<Byte>)
    ensures DecodeHex(HexString(bytes)) == Some(bytes)
  {
    if bytes != [] {
      var s := HexString(bytes);
      var b := bytes[0];
      Json.HexRoundTrip(b / 16);
      Json.HexRoundTrip(b % 16);
      assert s[2..] == HexString(bytes[1..]);
      HexStringRoundTrip(bytes[1..]);
      assert [b / 16 * 16 + b % 16] + bytes[1..] == bytes;
    }
  }

  /** Ten minutes, in milliseconds. */
  const ResetWindow := 10 * 60 * 1000

  /**
   * A user document as Mongoose holds it in memory: the record's fields and
   * whether the password path was modified since it was loaded.
   */
  class UserDocument {
    var id: Id
    var name: string
    var email: string
    var role: string
    var password: string
    var resetPasswordToken: Option<string>
    var resetPasswordExpire: Option<int>
    var passwordModified: bool

    function Record(): User
      reads this
    {
      User(id, name, email, role, password, resetPasswordToken, resetPasswordExpire)
    }

    /** A new document: every path it sets, the password included, counts as modified. */
    constructor (u: User)
      ensures Record() == u && passwordModified
    {
      id := u.id;
      name := u.name;
      email := u.email;
      role := u.role;
      password := u.password;
      resetPasswordToken := u.resetPasswordToken;
      resetPasswordExpire := u.resetPasswordExpire;
      passwordModified := true;
    }

    /** A document loaded from the store: nothing is modified yet. */
    constructor Load(u: User)
      ensures Record() == u && !passwordModified
    {
      id := u.id;
      name := u.name;
      email := u.email;
      role := u.role;
      password := u.password;
      resetPasswordToken := u.resetPasswordToken;
      resetPasswordExpire := u.resetPasswordExpire;
      passwordModified := false;
    }

    method SetPassword(p: string)
      modifies this
      ensures Record() == old(Record()).(password := p) && passwordModified
    {
      password := p;
      passwordModified := true;
    }

    /** The pre-save hook: hash the password only when it was modified, otherwise leave it alone. */
    method PreSave(hash: string -> string)
      modifies this
      ensures old(passwordModified) ==> Record() == old(Record()).(password := hash(old(password)))
      ensures !old(passwordModified) ==> Record() == old(Record())
      ensures passwordModified == old(passwordModified)
    {
      if !passwordModified {
        return;
      }
      password := hash(password);
    }

    /**
     * `getResetPasswordToken`: returns the hex form of the random bytes and
     * stores only its digest, with an expiry ten minutes after `now`.
     */
    method GetResetPasswordToken(randomBytes: seq<Byte>, digest: string -> string, now: int) returns (token: string)
      requires |randomBytes| == 20
      modifies this
      ensures token == HexString(randomBytes) && |token| == 40
      ensures Record() == old(Record()).(resetPasswordToken := Some(digest(token)),
                                         resetPasswordExpire := Some(now + ResetWindow))
      ensures passwordModified == old(passwordModified)
    {
      token := HexString(randomBytes);
      resetPasswordToken := Some(digest(token));
      resetPasswordExpire := Some(now + ResetWindow);
    }
  }

  /** Saving a document twice hashes only once when the password is not touched in between. */
  method SaveTwice(u: User, hash: string -> string) returns (first: User, second: User)
    ensures first == u.(password := hash(u.password))
    ensures second == first
  {
    var doc := new UserDocument(u);
    doc.PreSave(hash);
    first := doc.Record();
    var stored := new UserDocument.Load(first);
    stored.PreSave(hash);
    second := stored.Record();
  }
}
