/**
 * `protect` and `authorize`. JWT verification is the parameter `verify`:
 * the id a token decodes to, or None when `jwt.verify` throws.
 */
module AuthMiddleware {
  import opened Wrappers
  import JsString
  import opened Http
  import opened UserModel
  import opened Store

  const NotAuthorized := ErrorResponse(401, "Not authorized to access this route")

  predicate StartsWith(s: string, p: string) {
    |p| <= |s| && s[..|p|] == p
  }

  /**
   * The token `protect` reads: the second ' '-separated piece of an
   * Authorization header that starts with "Bearer", if there is one.
   */
  function BearerToken(header: Option<string>): (t: Option<string>)
    ensures t.Some? ==> header.Some? && StartsWith(header.value, "Bearer") && ' ' !in t.value
    ensures header.Some? && StartsWith(header.value, "Bearer") ==> t == JsString.Piece(header.value, ' ', 1)
  {
    if header.Some? && StartsWith(header.value, "Bearer") then JsString.Piece(header.value, ' ', 1) else None
  }

  /** `Bearer a b`: the token is the second space-separated piece. */
  lemma BearerSecondPiece()
    ensures BearerToken(Some("Bearer a b")) == Some("a")
  {
    assert "Bearer a b"[..6] == "Bearer";
    assert "Bearer a b" == "Bearer" + [' '] + "a b";
    assert "a b" == "a" + [' '] + "b";
    JsString.SplitAtSeparator("Bearer", "a b", ' ');
    JsString.SplitAtSeparator("a", "b", ' ');
    JsString.SplitNoSeparator("b", ' ');
  }

  /** `Bearer` alone has no second piece. */
  lemma BearerWithoutToken()
    ensures BearerToken(Some("Bearer")) == None
  {
    assert "Bearer"[..6] == "Bearer";
    JsString.SplitNoSeparator("Bearer", ' ');
  }

  /** Another scheme, or no header, gives no token. */
  lemma NotBearer()
    ensures BearerToken(Some("Basic a")) == None
    ensures BearerToken(None) == None
  {
    assert "Basic a"[..6] != "Bearer" by { assert "Basic a"[1] == 'a'; }
  }

  /**
   * `protect`: 401 with no token, an empty one, or one that fails to
   * verify; otherwise the request proceeds with `req.user` set to the user
   * of the decoded id, None when there is no such user.
   */
  function Protect(header: Option<string>, verify: string -> Option<Id>, db: Db): (r: Result<Option<User>, Failure>)
    reads db
    ensures r.Err? ==> r.error == NotAuthorized
    ensures r.Ok? <==> BearerToken(header).Some? && BearerToken(header).value != ""
                       && verify(BearerToken(header).value).Some?
    ensures r.Ok? ==> r.value == db.FindUser(verify(BearerToken(header).value).value)
  {
    var token := BearerToken(header);
    if token.None? || token.value == "" then Err(NotAuthorized)
    else
      match verify(token.value)
      case None => Err(NotAuthorized)
      case Some(id) => Ok(db.FindUser(id))
  }

  /** Only the Authorization header is read: without a Bearer header nothing proceeds, whatever `verify` accepts. */
  lemma NoBearerNoEntry(header: Option<string>, verify: string -> Option<Id>, db: Db)
    requires header.None? || !StartsWith(header.value, "Bearer")
    ensures Protect(header, verify, db) == Err(NotAuthorized)
  {
  }

  /** The 403 `authorize` builds for a role outside the list. */
  function RoleDenied(role: string): Failure {
    ErrorResponse(403, "This user role " + role + " is not authorized to access this route")
  }

  /** `req.user.role` read while building the message, when `req.user` is null. */
  const NoUserRole := TypeError("Cannot read properties of null (reading 'role')")

  /** `authorize(...roles)` as written: None lets the request proceed. */
  function Authorize(roles: set<string>, user: Option<User>): (f: Option<Failure>)
    ensures f.None? <==> user.Some? && user.value.role in roles
    ensures user.None? ==> f == Some(NoUserRole)
    ensures user.Some? && user.value.role !in roles ==> f == Some(RoleDenied(user.value.role))
  {
    if user.None? then Some(NoUserRole)
    else if user.value.role !in roles then Some(RoleDenied(user.value.role))
    else None
  }

  /** The same gate with a missing user refused by a 403, as the `!req.user` test intends. */
  function AuthorizeFixed(roles: set<string>, user: Option<User>): (f: Option<Failure>)
    ensures f.None? <==> user.Some? && user.value.role in roles
    ensures f.Some? ==> f.value.ErrorResponse? && f.value.status == 403
  {
    if user.None? then Some(ErrorResponse(403, "Not authorized to access this route"))
    else if user.value.role !in roles then Some(RoleDenied(user.value.role))
    else None
  }

  /** `protect` then `authorize`, as the review routes mount them. */
  function Guard(header: Option<string>, verify: string -> Option<Id>, db: Db, roles: set<string>): (f: Option<Failure>)
    reads db
    ensures f.None? <==> Protect(header, verify, db).Ok? && Protect(header, verify, db).value.Some?
                         && Protect(header, verify, db).value.value.role in roles
    ensures Protect(header, verify, db).Err? ==> f == Some(NotAuthorized)
    ensures Protect(header, verify, db).Ok? && Protect(header, verify, db).value.None? ==> f == Some(NoUserRole)
    ensures Protect(header, verify, db).Ok? && Protect(header, verify, db).value.Some?
            && Protect(header, verify, db).value.value.role !in roles
            ==> f == Some(RoleDenied(Protect(header, verify, db).value.value.role))
  {
    match Protect(header, verify, db)
    case Err(e) => Some(e)
    case Ok(user) => Authorize(roles, user)
  }

  /**
   * A token that verifies for an id with no user passes `protect` with a
   * null `req.user`; `authorize` then faults instead of answering 403.
   */
  lemma UnknownUserFaults(header: Option<string>, verify: string -> Option<Id>, db: Db, roles: set<string>)
    requires BearerToken(header).Some? && BearerToken(header).value != ""
    requires verify(BearerToken(header).value).Some?
    requires db.FindUser(verify(BearerToken(header).value).value).None?
    ensures Guard(header, verify, db, roles) == Some(NoUserRole)
    ensures AuthorizeFixed(roles, Protect(header, verify, db).value).value.status == 403
  {
  }

  /** The roles the review routes admit. */
  const ReviewRoles: set<string> := {"user", "admin"}

  /** Since the schema stores no admin, of the stored users exactly those with role "user" pass the review routes' gate. */
  lemma ReviewGateAdmitsUsers(db: Db, u: User)
    requires db.Valid() && u in db.users
    ensures Authorize(ReviewRoles, Some(u)).None? <==> u.role == "user"
    ensures u.role == "publisher" ==> Authorize(ReviewRoles, Some(u)) == Some(RoleDenied("publisher"))
  {
    var i :| 0 <= i < |db.users| && db.users[i] == u;
    assert u.role in Roles;
  }
}
