/** The bearer-token middleware of backend/src/middleware/auth.middleware.js: it takes the
    access token from the Authorization header, verifies it with the access secret and
    sorts the role claim into an admin principal, a user principal or a rejection, looking
    the principal up in its own collection. */
module AuthMiddleware {
  import opened Prelude
  import opened Primitives
  import opened UserModel
  import opened AdminModel
  import opened Store
  import opened Http

  const AuthenticationRequired: string := "Authentication required"
  const InvalidAdminAccount: string := "Invalid admin account"
  const InvalidUserAccount: string := "Invalid or inactive user account"
  const InvalidUserRole: string := "Invalid user role"
  const InvalidToken: string := "Invalid token"

  /** authorization?.split(' ')[1]: the second space-separated piece of the header, if the
      header is present and has one. */
  function BearerToken(header: Option<string>): (r: Option<string>)
    ensures r.Some? ==> header.Some? && ' ' !in r.value
    ensures header.Some? && ' ' !in header.value ==> r.None?
  {
    match header
    case None => None
    case Some(h) =>
      var parts := Split(h, ' ');
      if |parts| >= 2 then Some(parts[1]) else None
  }

  /** A header built as `Bearer <token>` from a token without spaces yields that token. */
  lemma BearerTokenOfHeader(token: string)
    requires ' ' !in token
    ensures BearerToken(Some("Bearer " + token)) == Some(token)
  {
    assert "Bearer " + token == Join(["Bearer", token], ' ');
    SplitJoin(["Bearer", token], ' ');
  }

  /** The role claims the middleware treats as administrators. */
  predicate IsAdminRoleClaim(role: Option<string>)
  {
    role.Some? && (role.value == "superadmin" || role.value == "contentmanager" || role.value == "moderator")
  }

  /** The role claims the middleware treats as users. */
  predicate IsUserRoleClaim(role: Option<string>)
  {
    role.Some? && (role.value == "student" || role.value == "teacher")
  }

  /** The two role lists are disjoint, and they are exactly the role enums of the two
      schemas: every admin role name is an admin claim, every user role name a user claim. */
  lemma RoleClaimsPartition(role: Option<string>)
    ensures !(IsAdminRoleClaim(role) && IsUserRoleClaim(role))
    ensures IsAdminRoleClaim(role) <==> exists r: AdminRole :: role == Some(AdminRoleName(r))
    ensures IsUserRoleClaim(role) <==> exists r: UserRole :: role == Some(UserRoleName(r))
  {
    if IsAdminRoleClaim(role) {
      var r := if role.value == "superadmin" then SuperAdmin
               else if role.value == "contentmanager" then ContentManager else Moderator;
      assert role == Some(AdminRoleName(r));
    }
    if IsUserRoleClaim(role) {
      var r := if role.value == "student" then Student else Teacher;
      assert role == Some(UserRoleName(r));
    }
  }

  /** What the middleware decides for a request: reject with a message, or let it through
      with the decoded claims set as `req.admin` or as `req.user`. */
  datatype Decision = Reject(message: string) | AsAdmin(claims: Claims) | AsUser(claims: Claims)

  /** The decision for the given Authorization header against the stored documents. A
      request gets through only with a token that verifies under the access secret, carries
      a role of one of the two lists and the id of an existing principal of that kind. */
  function Decide(p: Primitives, secret: string, now: int, header: Option<string>,
                  users: seq<UserDoc>, admins: seq<AdminDoc>): (r: Decision)
    ensures Falsy(BearerToken(header)) ==> r == Reject(AuthenticationRequired)
    ensures r.AsAdmin? ==> p.jwtVerify(BearerToken(header).value, secret, now) == Verified(r.claims)
                           && IsAdminRoleClaim(r.claims.role)
                           && exists k :: 0 <= k < |admins| && Some(admins[k].id) == r.claims.id
    ensures r.AsUser? ==> p.jwtVerify(BearerToken(header).value, secret, now) == Verified(r.claims)
                          && IsUserRoleClaim(r.claims.role)
                          && exists k :: 0 <= k < |users| && Some(users[k].id) == r.claims.id
    ensures r.Reject? && !Falsy(BearerToken(header)) ==>
              (p.jwtVerify(BearerToken(header).value, secret, now).Rejected? <==> r.message == InvalidToken)
    ensures !Falsy(BearerToken(header)) && p.jwtVerify(BearerToken(header).value, secret, now).Verified? ==>
              var c := p.jwtVerify(BearerToken(header).value, secret, now).claims;
              && (IsAdminRoleClaim(c.role) && (exists k :: 0 <= k < |admins| && Some(admins[k].id) == c.id) ==>
                    r == AsAdmin(c))
              && (IsUserRoleClaim(c.role) && (exists k :: 0 <= k < |users| && Some(users[k].id) == c.id) ==>
                    r == AsUser(c))
  {
    var token := BearerToken(header);
    if Falsy(token) then Reject(AuthenticationRequired)
    else
      match p.jwtVerify(token.value, secret, now)
      case Rejected(_, _) => Reject(InvalidToken)
      case Verified(c) =>
        if IsAdminRoleClaim(c.role) then
          if FindAdminById(admins, c.id).None? then Reject(InvalidAdminAccount) else AsAdmin(c)
        else if IsUserRoleClaim(c.role) then
          if FindUserById(users, c.id).None? then Reject(InvalidUserAccount) else AsUser(c)
        else Reject(InvalidUserRole)
  }

  /** A verified token whose role is in neither list is refused as a role, whatever its id;
      one whose role is listed but whose principal is gone is refused as an account. */
  lemma DecideRejections(p: Primitives, secret: string, now: int, header: Option<string>,
                         users: seq<UserDoc>, admins: seq<AdminDoc>, c: Claims)
    requires !Falsy(BearerToken(header)) && p.jwtVerify(BearerToken(header).value, secret, now) == Verified(c)
    ensures !IsAdminRoleClaim(c.role) && !IsUserRoleClaim(c.role) ==>
              Decide(p, secret, now, header, users, admins) == Reject(InvalidUserRole)
    ensures IsAdminRoleClaim(c.role) && (forall k :: 0 <= k < |admins| ==> Some(admins[k].id) != c.id) ==>
              Decide(p, secret, now, header, users, admins) == Reject(InvalidAdminAccount)
    ensures IsUserRoleClaim(c.role) && (forall k :: 0 <= k < |users| ==> Some(users[k].id) != c.id) ==>
              Decide(p, secret, now, header, users, admins) == Reject(InvalidUserAccount)
  {
  }

  /** The middleware itself: on a rejection it answers 401 with the message and does not call
      `next`; otherwise it sets exactly one of `req.admin` and `req.user` to the decoded
      claims and calls `next`. */
  method Authenticate(req: Request, db: Db, p: Primitives, cfg: JwtConfig, now: int, header: Option<string>)
    returns (res: Option<Response>, next: bool)
    modifies req
    ensures var d := Decide(p, cfg.secret, now, header, db.Users(), db.Admins());
            && (next <==> !d.Reject?)
            && res == (if d.Reject? then Some(Response(401, Message(d.message))) else None)
            && req.admin == (if d.AsAdmin? then Some(d.claims) else old(req.admin))
            && req.user == (if d.AsUser? then Some(d.claims) else old(req.user))
    ensures old(req.admin).None? && old(req.user).None? ==>
              !(req.admin.Some? && req.user.Some?) && (next <==> req.admin.Some? || req.user.Some?)
  {
    var token := BearerToken(header);
    if token.None? || token.value == "" {
      return Some(Response(401, Message(AuthenticationRequired))), false;
    }
    var verified := p.jwtVerify(token.value, cfg.secret, now);
    if verified.Rejected? {
      return Some(Response(401, Message(InvalidToken))), false;
    }
    var decoded := verified.claims;
    if IsAdminRoleClaim(decoded.role) {
      var admin := FindAdminById(db.Admins(), decoded.id);
      if admin.None? {
        return Some(Response(401, Message(InvalidAdminAccount))), false;
      }
      req.admin := Some(decoded);
    } else if IsUserRoleClaim(decoded.role) {
      var user := FindUserById(db.Users(), decoded.id);
      if user.None? {
        return Some(Response(401, Message(InvalidUserAccount))), false;
      }
      req.user := Some(decoded);
    } else {
      return Some(Response(401, Message(InvalidUserRole))), false;
    }
    return None, true;
  }
}
