/** The handlers of backend/src/controllers/auth.controller.js as transitions over the two
    principal collections. Each handler appears twice: as a step function on the stored user
    documents (what the response is and what the User collection holds afterwards) and as
    a method that does what the handler does to the live documents of a `Db`, proved to
    agree with its step function. The Admin collection is only ever read. */
module AuthController {
  import opened Prelude
  import opened Primitives
  import opened Tokens
  import opened UserModel
  import opened AdminModel
  import opened Store
  import opened Http

  /** A handler's response and the User collection it leaves. */
  datatype Step = Step(res: Response, users: seq<UserDoc>)

  const EmailExists: string := "Email already exists"
  const InvalidCredentials: string := "Invalid credentials"
  const RefreshRequired: string := "Refresh token is required"
  const InvalidRefresh: string := "Invalid refresh token"
  const LoggedOut: string := "Logged out successfully"
  const UserNotFound: string := "User not found"
  const ResetEmailSent: string := "Password reset email sent"
  const InvalidResetToken: string := "Invalid or expired reset token"
  const ResetSuccessful: string := "Password reset successful"
  const TeacherRegisteredMessage: string := "Teacher registered successfully"

  /** What generateTokens reads from a user document: its `_id` and `role`. */
  function UserSubject(d: UserDoc): Subject
  {
    Subject(Some(d.id), Some(UserRoleName(d.role)))
  }

  /** What generateTokens reads from `{ id: admin._id, role: admin.role, isAdmin: true }`
      in login's admin branch, as written: the object has no `_id`, so the id claim is
      absent. */
  function AdminSubjectAsWritten(a: AdminDoc): Subject
  {
    Subject(None, Some(AdminRoleName(a.role)))
  }

  /** The subject login's admin branch evidently means to sign: the admin's id and role. */
  function AdminSubject(a: AdminDoc): Subject
  {
    Subject(Some(a.id), Some(AdminRoleName(a.role)))
  }

  function UserView(d: UserDoc): PrincipalView
  {
    PrincipalView(d.id, d.email, UserRoleName(d.role), false)
  }

  function AdminView(a: AdminDoc): PrincipalView
  {
    PrincipalView(a.id, a.email, AdminRoleName(a.role), true)
  }

  // ---------------------------------------------------------------------------
  // Step functions

  /** What register, login and refresh do once they hold the user document at `k`: sign a
      token pair for it, record the refresh token in its ledger (expired entries dropped) and
      answer with both tokens and the user's id, e-mail and role. */
  function IssueStep(p: Primitives, cfg: JwtConfig, now: int, users: seq<UserDoc>, k: nat, status: nat): Step
    requires k < |users|
  {
    var d := users[k];
    var tokens := GenerateTokens(p, cfg, UserSubject(d), now);
    Step(Response(status, Issued(tokens.accessToken, tokens.refreshToken, UserView(d))),
         users[k := d.(refreshTokens := LedgerAfterAdd(d.refreshTokens, tokens.refreshToken, RefreshTtl, now))])
  }

  /** register: refuse a taken e-mail; otherwise create a student, save it (validation, then
      the hash), issue a token pair and record the refresh token in the new ledger. */
  function RegisterStep(p: Primitives, cfg: JwtConfig, now: int, salt: Salt, users: seq<UserDoc>, nextId: Id,
                        email: string, password: string): Step
  {
    if FindUserByEmail(users, email).Some? then Step(Response(400, Message(EmailExists)), users)
    else
      var created := NewUserDoc(nextId, email, password, Student, None);
      var errors := UserSchemaErrors(created);
      if errors != [] then Step(Response(500, SaveFailed(errors)), users)
      else
        IssueStep(p, cfg, now, users + [created.(password := p.bcryptHash(password, salt))], |users|, 201)
  }

  function ProfileOf(given: Option<ProfileInput>): Option<Profile>
  {
    match given
    case None => None
    case Some(input) => Some(NewProfile(input))
  }

  /** registerTeacher: the same e-mail check; a teacher with the given profile; no tokens. */
  function RegisterTeacherStep(p: Primitives, salt: Salt, users: seq<UserDoc>, nextId: Id,
                               email: string, password: string, profile: Option<ProfileInput>): Step
  {
    if FindUserByEmail(users, email).Some? then Step(Response(400, Message(EmailExists)), users)
    else
      var created := NewUserDoc(nextId, email, password, Teacher, ProfileOf(profile));
      var errors := UserSchemaErrors(created);
      if errors != [] then Step(Response(500, SaveFailed(errors)), users)
      else
        var stored := created.(password := p.bcryptHash(password, salt));
        Step(Response(201, TeacherRegistered(TeacherRegisteredMessage, stored.id, stored.email,
                                             UserRoleName(Teacher), stored.profile)),
             users + [stored])
  }

  /** login: the Admin collection first; only when no admin has the address, the User
      collection. Only a successful user login writes (the new refresh token). An admin's
      tokens are signed for `AdminSubject` when `signAdminId` holds and for
      `AdminSubjectAsWritten` otherwise. */
  function LoginStepFor(p: Primitives, cfg: JwtConfig, now: int, users: seq<UserDoc>, admins: seq<AdminDoc>,
                        email: string, password: string, signAdminId: bool): Step
  {
    match FindAdminByEmail(admins, email)
    case Some(a) =>
      if !p.bcryptCompare(password, admins[a].password) then Step(Response(401, Message(InvalidCredentials)), users)
      else
        var subject := if signAdminId then AdminSubject(admins[a]) else AdminSubjectAsWritten(admins[a]);
        var tokens := GenerateTokens(p, cfg, subject, now);
        Step(Response(200, Issued(tokens.accessToken, tokens.refreshToken, AdminView(admins[a]))), users)
    case None =>
      match FindUserByEmail(users, email)
      case None => Step(Response(401, Message(InvalidCredentials)), users)
      case Some(i) =>
        if !p.bcryptCompare(password, users[i].password) then Step(Response(401, Message(InvalidCredentials)), users)
        else IssueStep(p, cfg, now, users, i, 200)
  }

  /** login as written: an administrator's tokens carry no id claim. */
  function LoginStep(p: Primitives, cfg: JwtConfig, now: int, users: seq<UserDoc>, admins: seq<AdminDoc>,
                     email: string, password: string): Step
  {
    LoginStepFor(p, cfg, now, users, admins, email, password, false)
  }

  /** login as evidently intended: an administrator's tokens carry the admin's id. */
  function LoginStepCorrected(p: Primitives, cfg: JwtConfig, now: int, users: seq<UserDoc>, admins: seq<AdminDoc>,
                              email: string, password: string): Step
  {
    LoginStepFor(p, cfg, now, users, admins, email, password, true)
  }

  /** refresh: verify with the refresh secret, find the holder, then rotate: remove the
      presented token and record a new one. */
  function RefreshStep(p: Primitives, cfg: JwtConfig, now: int, users: seq<UserDoc>, token: Option<string>): Step
  {
    if Falsy(token) then Step(Response(400, Message(RefreshRequired)), users)
    else
      match p.jwtVerify(token.value, cfg.refreshSecret, now)
      case Rejected(name, message) =>
        if name == JsonWebTokenError then Step(Response(401, Message(InvalidRefresh)), users)
        else Step(Response(500, Message(message)), users)
      case Verified(claims) =>
        match FindUserForRefresh(users, claims.id, token.value, now)
        case None => Step(Response(401, Message(InvalidRefresh)), users)
        case Some(i) =>
          IssueStep(p, cfg, now, users[i := users[i].(refreshTokens := WithoutToken(users[i].refreshTokens, token.value))], i, 200)
  }

  /** logout: remove the token from the first user holding it, if any; success either way. */
  function LogoutStep(users: seq<UserDoc>, token: Option<string>): Step
  {
    if Falsy(token) then Step(Response(400, Message(RefreshRequired)), users)
    else
      match FindUserByRefreshToken(users, token.value)
      case None => Step(Response(200, Message(LoggedOut)), users)
      case Some(i) =>
        Step(Response(200, Message(LoggedOut)),
             users[i := users[i].(refreshTokens := WithoutToken(users[i].refreshTokens, token.value))])
  }

  /** forgotPassword: store the digest of a created reset token and its expiry, then hand the
      plain token to the mailer. A mailer failure answers 500 after the token is stored. */
  function ForgotPasswordStep(p: Primitives, now: int, users: seq<UserDoc>, email: string, random: seq<bv8>,
                              mailError: Option<string>): Step
  {
    match FindUserByEmail(users, email)
    case None => Step(Response(404, Message(UserNotFound)), users)
    case Some(i) =>
      var d := users[i].(resetPasswordToken := Some(p.sha256Hex(HexOfBytes(random))),
                         resetPasswordExpires := Some(now + ResetTtl));
      var res := match mailError
                 case Some(m) => Response(500, Message(m))
                 case None => Response(200, Message(ResetEmailSent));
      Step(res, users[i := d])
  }

  /** The reset e-mail forgotPassword sends: the stored address and the plain token. */
  datatype Mail = Mail(to: string, token: string)

  function ForgotPasswordMail(users: seq<UserDoc>, email: string, random: seq<bv8>): Option<Mail>
  {
    match FindUserByEmail(users, email)
    case None => None
    case Some(i) => Some(Mail(users[i].email, HexOfBytes(random)))
  }

  /** resetPassword: find a user by the token's digest with an expiry still ahead, set the new
      password (hashed on save) and clear the token. */
  function ResetPasswordStep(p: Primitives, now: int, salt: Salt, users: seq<UserDoc>, token: string,
                             newPassword: string): Step
  {
    match FindUserForReset(users, p.sha256Hex(token), now)
    case None => Step(Response(400, Message(InvalidResetToken)), users)
    case Some(i) =>
      Step(Response(200, Message(ResetSuccessful)),
           users[i := users[i].(password := p.bcryptHash(newPassword, salt),
                                resetPasswordToken := None, resetPasswordExpires := None)])
  }

  // ---------------------------------------------------------------------------
  // Handlers

  /** The shared tail of register, login and refresh. */
  method Issue(db: Db, p: Primitives, cfg: JwtConfig, now: int, salt: Salt, k: nat, status: nat)
    returns (res: Response)
    requires db.Valid() && k < |db.users|
    modifies db.users[k]
    ensures db.Valid() && db.users == old(db.users)
    ensures Step(res, db.Users()) == IssueStep(p, cfg, now, old(db.Users()), k, status)
  {
    var user := db.users[k];
    var tokens := GenerateTokens(p, cfg, UserSubject(user.Doc()), now);
    var view := UserView(user.Doc());
    db.AddRefreshTokenAt(k, p, salt, tokens.refreshToken, RefreshTtl, now);
    return Response(status, Issued(tokens.accessToken, tokens.refreshToken, view));
  }

  /** logout */
  method Logout(db: Db, p: Primitives, salt: Salt, token: Option<string>) returns (res: Response)
    requires db.Valid()
    modifies db.users
    ensures db.Valid() && db.users == old(db.users)
    ensures Step(res, db.Users()) == LogoutStep(old(db.Users()), token)
  {
    if token.None? || token.value == "" {
      return Response(400, Message(RefreshRequired));
    }
    var found := FindUserByRefreshToken(db.Users(), token.value);
    if found.Some? {
      db.RemoveRefreshTokenAt(found.value, p, salt, token.value);
    }
    return Response(200, Message(LoggedOut));
  }

  /** register */
  method Register(db: Db, p: Primitives, cfg: JwtConfig, now: int, salt: Salt, email: string, password: string)
    returns (res: Response)
    requires db.Valid()
    modifies db`users, db`nextId
    ensures db.Valid()
    ensures Step(res, db.Users()) == RegisterStep(p, cfg, now, salt, old(db.Users()), old(db.nextId), email, password)
  {
    if FindUserByEmail(db.Users(), email).Some? {
      return Response(400, Message(EmailExists));
    }
    ghost var docs := db.Users();
    ghost var created := NewUserDoc(db.nextId, email, password, Student, None);
    assert !EmailTaken(docs, NormalizeEmail(email));
    var count := |db.users|;
    var saved, user := db.CreateUser(p, salt, email, password, Student, None);
    if saved.Fail? {
      assert UserSchemaErrors(created) != [];
      return Response(500, SaveFailed(saved.error));
    }
    ghost var stored := docs + [created.(password := p.bcryptHash(password, salt))];
    assert db.Users() == stored && count == |docs|;
    assert RegisterStep(p, cfg, now, salt, docs, old(db.nextId), email, password)
           == IssueStep(p, cfg, now, stored, count, 201);
    res := Issue(db, p, cfg, now, salt, count, 201);
  }

  /** registerTeacher */
  method RegisterTeacher(db: Db, p: Primitives, salt: Salt, email: string, password: string,
                         profile: Option<ProfileInput>) returns (res: Response)
    requires db.Valid()
    modifies db`users, db`nextId
    ensures db.Valid()
    ensures Step(res, db.Users()) == RegisterTeacherStep(p, salt, old(db.Users()), old(db.nextId), email, password, profile)
  {
    if FindUserByEmail(db.Users(), email).Some? {
      return Response(400, Message(EmailExists));
    }
    ghost var created := NewUserDoc(db.nextId, email, password, Teacher, ProfileOf(profile));
    var saved, teacher := db.CreateUser(p, salt, email, password, Teacher, ProfileOf(profile));
    if saved.Fail? {
      assert UserSchemaErrors(created) != [];
      return Response(500, SaveFailed(saved.error));
    }
    var d := teacher.Doc();
    return Response(201, TeacherRegistered(TeacherRegisteredMessage, d.id, d.email, UserRoleName(d.role), d.profile));
  }

  /** login */
  method Login(db: Db, p: Primitives, cfg: JwtConfig, now: int, salt: Salt, email: string, password: string)
    returns (res: Response)
    requires db.Valid()
    modifies db.users
    ensures db.Valid() && db.users == old(db.users)
    ensures Step(res, db.Users()) == LoginStep(p, cfg, now, old(db.Users()), db.Admins(), email, password)
  {
    var a := FindAdminByEmail(db.Admins(), email);
    if a.Some? {
      var admin := db.admins[a.value];
      if !admin.ComparePassword(p, password) {
        return Response(401, Message(InvalidCredentials));
      }
      var issued := GenerateTokens(p, cfg, AdminSubjectAsWritten(admin.Doc()), now);
      return Response(200, Issued(issued.accessToken, issued.refreshToken, AdminView(admin.Doc())));
    }
    var found := FindUserByEmail(db.Users(), email);
    if found.None? {
      return Response(401, Message(InvalidCredentials));
    }
    var user := db.users[found.value];
    if !user.ComparePassword(p, password) {
      return Response(401, Message(InvalidCredentials));
    }
    res := Issue(db, p, cfg, now, salt, found.value, 200);
  }

  /** refresh */
  method Refresh(db: Db, p: Primitives, cfg: JwtConfig, now: int, salt: Salt, token: Option<string>)
    returns (res: Response)
    requires db.Valid()
    modifies db.users
    ensures db.Valid() && db.users == old(db.users)
    ensures Step(res, db.Users()) == RefreshStep(p, cfg, now, old(db.Users()), token)
  {
    if token.None? || token.value == "" {
      return Response(400, Message(RefreshRequired));
    }
    var verified := p.jwtVerify(token.value, cfg.refreshSecret, now);
    if verified.Rejected? {
      if verified.name == JsonWebTokenError {
        return Response(401, Message(InvalidRefresh));
      }
      return Response(500, Message(verified.message));
    }
    var found := FindUserForRefresh(db.Users(), verified.claims.id, token.value, now);
    if found.None? {
      return Response(401, Message(InvalidRefresh));
    }
    db.RemoveRefreshTokenAt(found.value, p, salt, token.value);
    res := Issue(db, p, cfg, now, salt, found.value, 200);
  }

  /** forgotPassword; the mailer's failure, if any, is given as `mailError`, and `mail` is
      what was handed to it. */
  method ForgotPassword(db: Db, p: Primitives, now: int, salt: Salt, email: string, random: seq<bv8>,
                        mailError: Option<string>) returns (res: Response, mail: Option<Mail>)
    requires db.Valid()
    modifies db.users
    ensures db.Valid() && db.users == old(db.users)
    ensures Step(res, db.Users()) == ForgotPasswordStep(p, now, old(db.Users()), email, random, mailError)
    ensures mail == ForgotPasswordMail(old(db.Users()), email, random)
  {
    var found := FindUserByEmail(db.Users(), email);
    if found.None? {
      return Response(404, Message(UserNotFound)), None;
    }
    var to := db.users[found.value].email;
    var token := db.IssueResetTokenAt(found.value, p, salt, now, random);
    mail := Some(Mail(to, token));
    if mailError.Some? {
      return Response(500, Message(mailError.value)), mail;
    }
    res := Response(200, Message(ResetEmailSent));
  }

  /** resetPassword. The new password is the one the reset route's validation chain lets
      through, which is never empty. */
  method ResetPassword(db: Db, p: Primitives, now: int, salt: Salt, token: string, newPassword: string)
    returns (res: Response)
    requires db.Valid() && newPassword != ""
    modifies db.users
    ensures db.Valid() && db.users == old(db.users)
    ensures Step(res, db.Users()) == ResetPasswordStep(p, now, salt, old(db.Users()), token, newPassword)
  {
    var digest := p.sha256Hex(token);
    var found := FindUserForReset(db.Users(), digest, now);
    if found.None? {
      return Response(400, Message(InvalidResetToken));
    }
    db.ResetPasswordAt(found.value, p, salt, newPassword);
    return Response(200, Message(ResetSuccessful));
  }
}
