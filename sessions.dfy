/** What the handlers of backend/src/controllers/auth.controller.js do to the two principal
    collections, stated per handler and across handlers: which collection changes, which
    status comes back, what a later request with the issued tokens meets in the middlewares,
    and the admin-token finding. */
module Sessions {
  import opened Prelude
  import opened Primitives
  import opened Tokens
  import opened UserModel
  import opened AdminModel
  import opened Store
  import opened Http
  import opened AuthController
  import opened AuthMiddleware
  import opened Validation

  /** No user but the one at `i` holds `token` in its ledger. */
  predicate OnlyHolder(users: seq<UserDoc>, i: nat, token: string)
  {
    forall k :: 0 <= k < |users| && k != i ==> !HoldsToken(users[k], token)
  }

  /** No user but the one at `i` stores `digest` as its reset token. */
  predicate OnlyResetDigest(users: seq<UserDoc>, i: nat, digest: string)
  {
    forall k :: 0 <= k < |users| && k != i ==> users[k].resetPasswordToken != Some(digest)
  }

  /** An access token signed for `subject` and sent as `Bearer <token>` while it is live
      reaches the middleware's role check carrying exactly the subject's claims. */
  lemma BearerAccessVerifies(p: Primitives, cfg: JwtConfig, subject: Subject, issuedAt: int, now: int)
    requires JwtSound(p) && TokenLive(issuedAt, AccessTtl, now)
    ensures var access := GenerateTokens(p, cfg, subject, issuedAt).accessToken;
            && BearerToken(Some("Bearer " + access)) == Some(access) && access != ""
            && p.jwtVerify(access, cfg.secret, now) == Verified(Claims(subject.docId, subject.role))
  {
    var access := GenerateTokens(p, cfg, subject, issuedAt).accessToken;
    GeneratedTokensVerify(p, cfg, subject, issuedAt, now);
    assert JwtShaped(access);
    forall k | 0 <= k < |access|
      ensures access[k] != ' '
    {
      assert !IsSpace(access[k]);
    }
    BearerTokenOfHeader(access);
  }

  /** The access token register, login and refresh hand out lets a request through as the
      user it was issued to, with that user's id and role, while it is live. */
  lemma IssuedAccessAuthenticates(p: Primitives, cfg: JwtConfig, issuedAt: int, now: int, users: seq<UserDoc>,
                                  k: nat, status: nat, admins: seq<AdminDoc>)
    requires JwtSound(p) && TokenLive(issuedAt, AccessTtl, now) && k < |users|
    ensures var s := IssueStep(p, cfg, issuedAt, users, k, status);
            Decide(p, cfg.secret, now, Some("Bearer " + s.res.body.accessToken), s.users, admins)
            == AsUser(Claims(Some(users[k].id), Some(UserRoleName(users[k].role))))
  {
    var s := IssueStep(p, cfg, issuedAt, users, k, status);
    BearerAccessVerifies(p, cfg, UserSubject(users[k]), issuedAt, now);
    RoleClaimsPartition(Some(UserRoleName(users[k].role)));
    assert s.users[k].id == users[k].id;
    assert FindUserById(s.users, Some(users[k].id)).Some?;
  }

  // ---------------------------------------------------------------------------
  // register and registerTeacher

  /** A taken address is refused with 400 and nothing is written; otherwise a valid student
      is appended, keeping every stored document, whose ledger holds exactly the refresh
      token of the answer, and whose password is the digest of the given one. */
  lemma {:induction false} RegisterOutcomes(p: Primitives, cfg: JwtConfig, now: int, salt: Salt, users: seq<UserDoc>,
                                            nextId: Id, email: string, password: string)
    ensures EmailTaken(users, NormalizeEmail(email)) ==>
              RegisterStep(p, cfg, now, salt, users, nextId, email, password) == Step(Response(400, Message(EmailExists)), users)
    ensures !EmailTaken(users, NormalizeEmail(email)) && NormalizeEmail(email) != "" && password != "" ==>
              var s := RegisterStep(p, cfg, now, salt, users, nextId, email, password);
              && s.res.status == 201 && s.res.body.Issued?
              && |s.users| == |users| + 1 && s.users[..|users|] == users
              && s.users[|users|].id == nextId && s.users[|users|].role == Student
              && s.users[|users|].email == NormalizeEmail(email)
              && s.users[|users|].password == p.bcryptHash(password, salt)
              && s.users[|users|].refreshTokens == [RefreshEntry(s.res.body.refreshToken, now + RefreshTtl)]
              && s.res.body.accessToken == p.jwtSign(Claims(Some(nextId), Some("student")), cfg.secret, now / 1000, AccessTtl / 1000)
  {
    if !EmailTaken(users, NormalizeEmail(email)) && NormalizeEmail(email) != "" && password != "" {
      var created := NewUserDoc(nextId, email, password, Student, None);
      var stored := created.(password := p.bcryptHash(password, salt));
      assert UserSchemaErrors(created) == [];
      var s := RegisterStep(p, cfg, now, salt, users, nextId, email, password);
      assert s == IssueStep(p, cfg, now, users + [stored], |users|, 201);
      var added := (users + [stored])[|users|];
      assert added == stored;
      assert Unexpired(stored.refreshTokens, now) == [];
      assert (users + [stored])[..|users|] == users;
    }
  }

  /** registerTeacher makes the same address check; a saved teacher carries the given
      profile and an empty ledger, and the answer holds no token. */
  lemma RegisterTeacherOutcomes(p: Primitives, salt: Salt, users: seq<UserDoc>, nextId: Id, email: string,
                                password: string, profile: Option<ProfileInput>)
    ensures EmailTaken(users, NormalizeEmail(email)) ==>
              RegisterTeacherStep(p, salt, users, nextId, email, password, profile)
              == Step(Response(400, Message(EmailExists)), users)
    ensures var s := RegisterTeacherStep(p, salt, users, nextId, email, password, profile);
            s.res.status == 201 ==>
              && s.res.body.TeacherRegistered? && |s.users| == |users| + 1 && s.users[..|users|] == users
              && s.users[|users|].role == Teacher && s.users[|users|].refreshTokens == []
              && s.users[|users|].profile == ProfileOf(profile)
  {
    var s := RegisterTeacherStep(p, salt, users, nextId, email, password, profile);
    if s.res.status == 201 {
      var stored := NewUserDoc(nextId, email, password, Teacher, ProfileOf(profile)).(password := p.bcryptHash(password, salt));
      assert s.users == users + [stored];
      assert (users + [stored])[..|users|] == users;
    }
  }

  // ---------------------------------------------------------------------------
  // login

  /** When an administrator has the address, the answer does not depend on the User
      collection at all (a wrong password included) and nothing is written. */
  lemma LoginAdminShadowsUsers(p: Primitives, cfg: JwtConfig, now: int, users: seq<UserDoc>, others: seq<UserDoc>,
                               admins: seq<AdminDoc>, email: string, password: string)
    requires exists k :: 0 <= k < |admins| && admins[k].email == NormalizeEmail(email)
    ensures LoginStep(p, cfg, now, users, admins, email, password).users == users
    ensures LoginStep(p, cfg, now, users, admins, email, password).res
            == LoginStep(p, cfg, now, others, admins, email, password).res
    ensures LoginStep(p, cfg, now, users, admins, email, password).res.status in {200, 401}
  {
  }

  /** Without an administrator of that address, an unknown address and a wrong password get
      the same 401 answer and write nothing; a right password appends the answer's refresh
      token to that user's ledger, expired entries dropped, and touches no other user. */
  lemma LoginUserOutcomes(p: Primitives, cfg: JwtConfig, now: int, users: seq<UserDoc>, admins: seq<AdminDoc>,
                          email: string, password: string)
    requires forall k :: 0 <= k < |admins| ==> admins[k].email != NormalizeEmail(email)
    ensures var s := LoginStep(p, cfg, now, users, admins, email, password);
            s.res.status != 200 <==> s == Step(Response(401, Message(InvalidCredentials)), users)
    ensures var s := LoginStep(p, cfg, now, users, admins, email, password);
            s.res.status == 200 ==>
              exists i :: 0 <= i < |users| && users[i].email == NormalizeEmail(email)
                && p.bcryptCompare(password, users[i].password)
                && s.users == users[i := users[i].(refreshTokens :=
                     LedgerAfterAdd(users[i].refreshTokens, s.res.body.refreshToken, RefreshTtl, now))]
  {
    var s := LoginStep(p, cfg, now, users, admins, email, password);
    var found := FindUserByEmail(users, email);
    if found.Some? && p.bcryptCompare(password, users[found.value].password) {
      var i := found.value;
      assert s == IssueStep(p, cfg, now, users, i, 200);
    }
  }

  /** An access token from a user login, presented as `Bearer <token>` while it is live,
      lets the request through as that user with the id and role the answer reported. */
  lemma UserLoginTokenAuthenticates(p: Primitives, cfg: JwtConfig, issuedAt: int, now: int, users: seq<UserDoc>,
                                    admins: seq<AdminDoc>, email: string, password: string)
    requires JwtSound(p) && TokenLive(issuedAt, AccessTtl, now)
    requires forall k :: 0 <= k < |admins| ==> admins[k].email != NormalizeEmail(email)
    requires LoginStep(p, cfg, issuedAt, users, admins, email, password).res.status == 200
    ensures var s := LoginStep(p, cfg, issuedAt, users, admins, email, password);
            && s.res.body.Issued? && !s.res.body.user.isAdmin
            && Decide(p, cfg.secret, now, Some("Bearer " + s.res.body.accessToken), s.users, admins)
               == AsUser(Claims(Some(s.res.body.user.id), Some(s.res.body.user.role)))
  {
    var i := FindUserByEmail(users, email).value;
    var s := LoginStep(p, cfg, issuedAt, users, admins, email, password);
    assert s == IssueStep(p, cfg, issuedAt, users, i, 200);
    IssuedAccessAuthenticates(p, cfg, issuedAt, now, users, i, 200, admins);
  }

  /** The administrator token as login writes it: the id claim is missing, so the bearer
      middleware refuses every request made with it as "Invalid admin account". */
  lemma AdminTokenRejectedAsWritten(p: Primitives, cfg: JwtConfig, issuedAt: int, now: int, users: seq<UserDoc>,
                                    admins: seq<AdminDoc>, a: nat)
    requires JwtSound(p) && TokenLive(issuedAt, AccessTtl, now) && a < |admins|
    ensures var access := GenerateTokens(p, cfg, AdminSubjectAsWritten(admins[a]), issuedAt).accessToken;
            Decide(p, cfg.secret, now, Some("Bearer " + access), users, admins) == Reject(InvalidAdminAccount)
  {
    BearerAccessVerifies(p, cfg, AdminSubjectAsWritten(admins[a]), issuedAt, now);
    RoleClaimsPartition(Some(AdminRoleName(admins[a].role)));
  }

  /** An administrator who logs in with the right password gets a 200 answer whose access
      token the bearer middleware refuses on every request as "Invalid admin account". */
  lemma AdminLoginRejectedAsWritten(p: Primitives, cfg: JwtConfig, issuedAt: int, now: int, users: seq<UserDoc>,
                                    admins: seq<AdminDoc>, email: string, password: string)
    requires JwtSound(p) && TokenLive(issuedAt, AccessTtl, now)
    requires exists k :: 0 <= k < |admins| && admins[k].email == NormalizeEmail(email)
    requires LoginStep(p, cfg, issuedAt, users, admins, email, password).res.status == 200
    ensures var s := LoginStep(p, cfg, issuedAt, users, admins, email, password);
            && s.res.body.Issued? && s.res.body.user.isAdmin
            && Decide(p, cfg.secret, now, Some("Bearer " + s.res.body.accessToken), s.users, admins)
               == Reject(InvalidAdminAccount)
  {
    var a := FindAdminByEmail(admins, email).value;
    AdminTokenRejectedAsWritten(p, cfg, issuedAt, now, users, admins, a);
  }

  /** The correction changes nothing but the tokens of an administrator's login: the
      status, the principal reported and the User collection are those of login as
      written, and without an administrator at the address the two answers coincide. */
  lemma LoginCorrectionOnlyAdminTokens(p: Primitives, cfg: JwtConfig, now: int, users: seq<UserDoc>,
                                       admins: seq<AdminDoc>, email: string, password: string)
    ensures var w := LoginStep(p, cfg, now, users, admins, email, password);
            var c := LoginStepCorrected(p, cfg, now, users, admins, email, password);
            && c.users == w.users && c.res.status == w.res.status
            && c.res.body.Issued? == w.res.body.Issued?
            && (c.res.body.Issued? ==> c.res.body.user == w.res.body.user)
    ensures (forall k :: 0 <= k < |admins| ==> admins[k].email != NormalizeEmail(email)) ==>
              LoginStepCorrected(p, cfg, now, users, admins, email, password)
              == LoginStep(p, cfg, now, users, admins, email, password)
  {
  }

  /** With the id signed in, an administrator's login token lets the request through as
      that administrator while it is live. */
  lemma AdminLoginTokenAuthenticates(p: Primitives, cfg: JwtConfig, issuedAt: int, now: int, users: seq<UserDoc>,
                                     admins: seq<AdminDoc>, email: string, password: string)
    requires JwtSound(p) && TokenLive(issuedAt, AccessTtl, now)
    requires exists k :: 0 <= k < |admins| && admins[k].email == NormalizeEmail(email)
    requires LoginStepCorrected(p, cfg, issuedAt, users, admins, email, password).res.status == 200
    ensures var s := LoginStepCorrected(p, cfg, issuedAt, users, admins, email, password);
            && s.res.body.Issued? && s.res.body.user.isAdmin
            && Decide(p, cfg.secret, now, Some("Bearer " + s.res.body.accessToken), users, admins)
               == AsAdmin(Claims(Some(s.res.body.user.id), Some(s.res.body.user.role)))
  {
    var a := FindAdminByEmail(admins, email).value;
    BearerAccessVerifies(p, cfg, AdminSubject(admins[a]), issuedAt, now);
    RoleClaimsPartition(Some(AdminRoleName(admins[a].role)));
    assert FindAdminById(admins, Some(admins[a].id)).Some?;
  }


  // ---------------------------------------------------------------------------
  // refresh and logout

  /** refresh answers 400 without a token; a verification error named JsonWebTokenError
      gives 401 and any other (an expired token) 500 with its message; a verified token no
      user matches gives 401. None of these writes. */
  lemma RefreshErrors(p: Primitives, cfg: JwtConfig, now: int, users: seq<UserDoc>, token: Option<string>)
    ensures Falsy(token) ==> RefreshStep(p, cfg, now, users, token) == Step(Response(400, Message(RefreshRequired)), users)
    ensures !Falsy(token) && p.jwtVerify(token.value, cfg.refreshSecret, now).Rejected? ==>
              var v := p.jwtVerify(token.value, cfg.refreshSecret, now);
              RefreshStep(p, cfg, now, users, token)
              == Step(Response(if v.name == JsonWebTokenError then 401 else 500,
                               Message(if v.name == JsonWebTokenError then InvalidRefresh else v.message)), users)
    ensures RefreshStep(p, cfg, now, users, token).res.status != 200 ==> RefreshStep(p, cfg, now, users, token).users == users
  {
  }

  /** A successful refresh rotates: the holder's ledger loses every entry of the presented
      token and gains the new one at its end; no other user changes. */
  lemma RefreshRotates(p: Primitives, cfg: JwtConfig, now: int, users: seq<UserDoc>, token: string)
    requires RefreshStep(p, cfg, now, users, Some(token)).res.status == 200
    ensures var s := RefreshStep(p, cfg, now, users, Some(token));
            exists i :: 0 <= i < |users| && HoldsToken(users[i], token) && HasUnexpired(users[i].refreshTokens, now)
              && s.users == users[i := users[i].(refreshTokens :=
                   LedgerAfterAdd(WithoutToken(users[i].refreshTokens, token), s.res.body.refreshToken, RefreshTtl, now))]
              && (s.res.body.refreshToken != token ==> !HoldsToken(s.users[i], token))
              && HoldsToken(s.users[i], s.res.body.refreshToken)
  {
    var s := RefreshStep(p, cfg, now, users, Some(token));
    var claims := p.jwtVerify(token, cfg.refreshSecret, now).claims;
    var i := FindUserForRefresh(users, claims.id, token, now).value;
    var next := s.res.body.refreshToken;
    assert s.users == users[i := users[i].(refreshTokens :=
                       LedgerAfterAdd(WithoutToken(users[i].refreshTokens, token), next, RefreshTtl, now))];
    RotatedLedger(users[i].refreshTokens, token, next, RefreshTtl, now);
  }

  /** Presenting a refresh token again after it was rotated out is refused when nobody else
      holds it and the rotation issued a different token: the second request writes nothing
      and never answers 200. */
  lemma RefreshReplayRejected(p: Primitives, cfg: JwtConfig, now: int, later: int, users: seq<UserDoc>, token: string)
    requires RefreshStep(p, cfg, now, users, Some(token)).res.status == 200
    requires RefreshStep(p, cfg, now, users, Some(token)).res.body.refreshToken != token
    requires exists i :: 0 <= i < |users| && HoldsToken(users[i], token) && OnlyHolder(users, i, token)
    ensures var s := RefreshStep(p, cfg, now, users, Some(token));
            && RefreshStep(p, cfg, later, s.users, Some(token)).res.status != 200
            && RefreshStep(p, cfg, later, s.users, Some(token)).users == s.users
  {
    var s := RefreshStep(p, cfg, now, users, Some(token));
    var claims := p.jwtVerify(token, cfg.refreshSecret, now).claims;
    var i := FindUserForRefresh(users, claims.id, token, now).value;
    var next := s.res.body.refreshToken;
    assert s.users == users[i := users[i].(refreshTokens :=
                       LedgerAfterAdd(WithoutToken(users[i].refreshTokens, token), next, RefreshTtl, now))];
    RotatedLedger(users[i].refreshTokens, token, next, RefreshTtl, now);
    var j :| 0 <= j < |users| && HoldsToken(users[j], token) && OnlyHolder(users, j, token);
    assert i == j;
    NoHolderAfterRotation(users, i, LedgerAfterAdd(WithoutToken(users[i].refreshTokens, token), next, RefreshTtl, now),
                          token);
    RefreshWithUnheldToken(p, cfg, later, s.users, token);
  }

  /** Replacing the only holder's ledger by one without the token leaves nobody holding it. */
  lemma NoHolderAfterRotation(users: seq<UserDoc>, i: nat, ledger: seq<RefreshEntry>, token: string)
    requires i < |users| && OnlyHolder(users, i, token) && !HasToken(ledger, token)
    ensures var after := users[i := users[i].(refreshTokens := ledger)];
            forall k :: 0 <= k < |after| ==> !HoldsToken(after[k], token)
  {
  }

  /** Signing is deterministic and counts in whole seconds, so a refresh within the second
      its refresh token was issued re-issues that very token: the rotation removes it and
      records it again, and somebody still holds it afterwards. */
  lemma SameSecondRefreshKeepsToken(p: Primitives, cfg: JwtConfig, issuedAt: int, now: int, users: seq<UserDoc>, i: nat)
    requires JwtSound(p) && i < |users| && now / 1000 == issuedAt / 1000
    requires RefreshStep(p, cfg, now, users,
                         Some(GenerateTokens(p, cfg, UserSubject(users[i]), issuedAt).refreshToken)).res.status == 200
    ensures var token := GenerateTokens(p, cfg, UserSubject(users[i]), issuedAt).refreshToken;
            var s := RefreshStep(p, cfg, now, users, Some(token));
            && s.res.body.refreshToken == token
            && exists k :: 0 <= k < |s.users| && HoldsToken(s.users[k], token)
  {
    var token := GenerateTokens(p, cfg, UserSubject(users[i]), issuedAt).refreshToken;
    assert p.jwtVerify(token, cfg.refreshSecret, now) == Verified(Claims(Some(users[i].id), None));
    RefreshRotates(p, cfg, now, users, token);
  }

  /** A refresh token no user holds is refused and nothing is written. */
  lemma RefreshWithUnheldToken(p: Primitives, cfg: JwtConfig, now: int, users: seq<UserDoc>, token: string)
    requires forall k :: 0 <= k < |users| ==> !HoldsToken(users[k], token)
    ensures RefreshStep(p, cfg, now, users, Some(token)).res.status != 200
    ensures RefreshStep(p, cfg, now, users, Some(token)).users == users
  {
    var v := p.jwtVerify(token, cfg.refreshSecret, now);
    if v.Verified? {
      assert FindUserForRefresh(users, v.claims.id, token, now).None?;
    }
  }

  /** Logout answers 200 whether or not anybody holds the token, and removes it from the
      first holder only; when at most that one user holds it, a second logout with the same
      token changes nothing. */
  lemma LogoutIdempotent(users: seq<UserDoc>, token: string)
    requires token != ""
    requires forall i, k ::
               0 <= i < |users| && 0 <= k < |users| && HoldsToken(users[i], token) && HoldsToken(users[k], token) ==> i == k
    ensures LogoutStep(users, Some(token)).res == Response(200, Message(LoggedOut))
    ensures forall k :: 0 <= k < |LogoutStep(users, Some(token)).users| ==>
              !HoldsToken(LogoutStep(users, Some(token)).users[k], token)
    ensures LogoutStep(LogoutStep(users, Some(token)).users, Some(token)) == LogoutStep(users, Some(token))
  {
    match FindUserByRefreshToken(users, token)
    case None =>
    case Some(i) =>
      WithoutTokenIdempotent(users[i].refreshTokens, token);
      var after := LogoutStep(users, Some(token)).users;
      forall k | 0 <= k < |after|
        ensures !HoldsToken(after[k], token)
      {
        if k != i {
          assert after[k] == users[k];
        }
      }
      assert FindUserByRefreshToken(after, token).None?;
  }

  // ---------------------------------------------------------------------------
  // forgotPassword and resetPassword

  /** An unknown address gets 404 and nothing is written. For a known one the digest of the
      mailed token and an expiry an hour ahead are stored whether or not the mail goes out;
      a mail failure turns the answer into 500. */
  lemma ForgotPasswordOutcomes(p: Primitives, now: int, users: seq<UserDoc>, email: string, random: seq<bv8>,
                               mailError: Option<string>)
    ensures !EmailTaken(users, NormalizeEmail(email)) ==>
              ForgotPasswordStep(p, now, users, email, random, mailError) == Step(Response(404, Message(UserNotFound)), users)
              && ForgotPasswordMail(users, email, random).None?
    ensures EmailTaken(users, NormalizeEmail(email)) ==>
              var s := ForgotPasswordStep(p, now, users, email, random, mailError);
              var mail := ForgotPasswordMail(users, email, random);
              && mail.Some? && mail.value.token == HexOfBytes(random)
              && s.res.status == (if mailError.Some? then 500 else 200)
              && exists i :: 0 <= i < |users| && users[i].email == NormalizeEmail(email) == mail.value.to
                   && s.users == users[i := users[i].(resetPasswordToken := Some(p.sha256Hex(mail.value.token)),
                                                      resetPasswordExpires := Some(now + ResetTtl))]
  {
    if EmailTaken(users, NormalizeEmail(email)) {
      var i := FindUserByEmail(users, email).value;
      assert users[i].email == NormalizeEmail(email);
    }
  }

  /** A reset that succeeded cannot be repeated with the same token: its digest is cleared,
      so unless another user stores the same digest the next attempt gets 400 and writes
      nothing, at any time. */
  lemma ResetNotReusable(p: Primitives, now: int, later: int, salt: Salt, salt': Salt, users: seq<UserDoc>,
                         token: string, password: string, password': string)
    requires ResetPasswordStep(p, now, salt, users, token, password).res.status == 200
    requires exists i :: 0 <= i < |users| && ResetQueryMatches(users[i], p.sha256Hex(token), now)
                         && OnlyResetDigest(users, i, p.sha256Hex(token))
    ensures var s := ResetPasswordStep(p, now, salt, users, token, password);
            ResetPasswordStep(p, later, salt', s.users, token, password')
            == Step(Response(400, Message(InvalidResetToken)), s.users)
  {
    var digest := p.sha256Hex(token);
    var i := FindUserForReset(users, digest, now).value;
    var j :| 0 <= j < |users| && ResetQueryMatches(users[j], digest, now) && OnlyResetDigest(users, j, digest);
    assert i == j;
    var s := ResetPasswordStep(p, now, salt, users, token, password);
    assert forall k :: 0 <= k < |s.users| ==> !ResetQueryMatches(s.users[k], digest, later);
  }

  /** A live reset token whose digest only the user at `i` stores resets that user. */
  lemma ResetFindsHolder(p: Primitives, now: int, salt: Salt, users: seq<UserDoc>, i: nat, token: string,
                         password: string)
    requires i < |users| && ResetQueryMatches(users[i], p.sha256Hex(token), now)
    requires OnlyResetDigest(users, i, p.sha256Hex(token))
    ensures ResetPasswordStep(p, now, salt, users, token, password)
            == Step(Response(200, Message(ResetSuccessful)),
                    users[i := users[i].(password := p.bcryptHash(password, salt),
                                         resetPasswordToken := None, resetPasswordExpires := None)])
  {
    assert FindUserForReset(users, p.sha256Hex(token), now) == Some(i);
  }

  /** forgotPassword writes the reset fields of the first user with the address and
      nothing else, so the same address finds the same user afterwards. */
  lemma ForgotTouchesOnlyHolder(p: Primitives, now: int, users: seq<UserDoc>, email: string, random: seq<bv8>,
                                mailError: Option<string>, i: nat)
    requires FindUserByEmail(users, email) == Some(i)
    ensures var s := ForgotPasswordStep(p, now, users, email, random, mailError);
            && s.users == users[i := users[i].(resetPasswordToken := Some(p.sha256Hex(HexOfBytes(random))),
                                               resetPasswordExpires := Some(now + ResetTtl))]
            && FindUserByEmail(s.users, email) == Some(i)
  {
    var s := ForgotPasswordStep(p, now, users, email, random, mailError);
    assert forall k :: 0 <= k < |users| ==> s.users[k].email == users[k].email;
  }

  /** A second forgot-password request supersedes the first: once the user stores the
      digest of the second token, the token mailed first is refused by resetPassword and
      nothing is written, provided no user stored its digest before. */
  lemma ForgotAgainSupersedes(p: Primitives, now: int, now': int, later: int, salt: Salt, users: seq<UserDoc>,
                              email: string, first: seq<bv8>, second: seq<bv8>, mailError: Option<string>,
                              mailError': Option<string>, password: string)
    requires EmailTaken(users, NormalizeEmail(email))
    requires p.sha256Hex(HexOfBytes(first)) != p.sha256Hex(HexOfBytes(second))
    requires forall k :: 0 <= k < |users| ==> users[k].resetPasswordToken != Some(p.sha256Hex(HexOfBytes(first)))
    ensures var s1 := ForgotPasswordStep(p, now, users, email, first, mailError);
            var s2 := ForgotPasswordStep(p, now', s1.users, email, second, mailError');
            ResetPasswordStep(p, later, salt, s2.users, HexOfBytes(first), password)
            == Step(Response(400, Message(InvalidResetToken)), s2.users)
  {
    var i := FindUserByEmail(users, email).value;
    ForgotTouchesOnlyHolder(p, now, users, email, first, mailError, i);
    var s1 := ForgotPasswordStep(p, now, users, email, first, mailError);
    ForgotTouchesOnlyHolder(p, now', s1.users, email, second, mailError', i);
    NoOtherHolderAfterOverwrite(s1.users, i, p.sha256Hex(HexOfBytes(first)),
                                Some(p.sha256Hex(HexOfBytes(second))), Some(now' + ResetTtl), later);
  }

  /** Overwriting the reset fields of the user at `i` leaves no live match for a digest
      that only that user stored. */
  lemma NoOtherHolderAfterOverwrite(users: seq<UserDoc>, i: nat, digest: string, token: Option<string>,
                                    expires: Option<int>, later: int)
    requires i < |users| && token != Some(digest)
    requires forall k :: 0 <= k < |users| && k != i ==> users[k].resetPasswordToken != Some(digest)
    ensures var after := users[i := users[i].(resetPasswordToken := token, resetPasswordExpires := expires)];
            forall k :: 0 <= k < |after| ==> !ResetQueryMatches(after[k], digest, later)
  {
  }

  /** The reset round trip: after forgotPassword stored the digest of the mailed token (a
      digest no user stored before), the reset route accepts that token and, within the
      hour, resetPassword gives that same user the new password's digest and clears the
      token. */
  lemma ForgotThenReset(p: Primitives, now: int, later: int, salt: Salt, users: seq<UserDoc>, email: string,
                        random: seq<bv8>, mailError: Option<string>, password: string)
    requires |random| == 32 && now <= later < now + ResetTtl
    requires EmailTaken(users, NormalizeEmail(email))
    requires forall k :: 0 <= k < |users| ==> users[k].resetPasswordToken != Some(p.sha256Hex(HexOfBytes(random)))
    ensures var token := ForgotPasswordMail(users, email, random).value.token;
            var s1 := ForgotPasswordStep(p, now, users, email, random, mailError);
            var s2 := ResetPasswordStep(p, later, salt, s1.users, token, password);
            && ResetTokenChain(token).errors == [] && ResetTokenChain(token).value == token
            && s2.res == Response(200, Message(ResetSuccessful))
            && exists i :: 0 <= i < |users| && users[i].email == NormalizeEmail(email)
                 && s2.users == users[i := users[i].(password := p.bcryptHash(password, salt),
                                                     resetPasswordToken := None, resetPasswordExpires := None)]
  {
    var token := HexOfBytes(random);
    MailedResetTokenAccepted(random);
    var i := FindUserByEmail(users, email).value;
    var s1 := ForgotPasswordStep(p, now, users, email, random, mailError);
    var stored := users[i].(resetPasswordToken := Some(p.sha256Hex(token)), resetPasswordExpires := Some(now + ResetTtl));
    assert s1.users == users[i := stored];
    ResetFindsHolder(p, later, salt, s1.users, i, token, password);
    var cleared := users[i].(password := p.bcryptHash(password, salt), resetPasswordToken := None,
                             resetPasswordExpires := None);
    assert stored.(password := p.bcryptHash(password, salt), resetPasswordToken := None,
                   resetPasswordExpires := None) == cleared;
    UpdateTwice(users, i, stored, cleared);
  }
}
