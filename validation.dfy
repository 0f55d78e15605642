/** The request validation of backend/src/middleware/validation.middleware.js: the
    express-validator chains for e-mail, password, reset token and refresh cookie, the
    `handleValidation` step that turns their errors into a 400 answer, and the per-route
    arrays. A chain runs its sanitizers and validators in the order written, each validator
    seeing the value as sanitized so far; every failing validator reports one error with its
    `withMessage` text, or "Invalid value" when it has none. */
module Validation {
  import opened Prelude
  import opened Primitives
  import opened AdminModel
  import opened Http
  import opened AuthMiddleware

  const DefaultMessage: string := "Invalid value"
  const EmailRequired: string := "Email is required"
  const EmailInvalid: string := "Please enter a valid email"
  const PasswordRequired: string := "Password is required"
  const PasswordTooShort: string := "Password must be at least 6 characters long"
  const ResetTokenRequired: string := "Reset token is required"
  const RefreshTokenRequired: string := "Refresh token is required"
  const RefreshTokenFormat: string := "Invalid refresh token format"
  const InvalidRefreshToken: string := "Invalid refresh token"

  const MinPasswordLength: nat := 6
  const MaxResetTokenLength: nat := 100

  /** A chain's errors and the value it leaves in the request for the handler. */
  datatype ChainResult = ChainResult(errors: seq<FieldError>, value: string)

  // ---------------------------------------------------------------------------
  // escape(): HTML entities for & " ' < > / \ `

  /** The characters escape() replaces by an entity. */
  predicate IsEscaped(c: char)
  {
    c == '&' || c == '"' || c == '\'' || c == '<' || c == '>' || c == '/' || c == '\\' || c == '`'
  }

  /** The characters that cannot appear in escaped text: all the replaced ones except the
      ampersand that starts each entity. */
  predicate IsMarkup(c: char)
  {
    IsEscaped(c) && c != '&'
  }

  function EscapeChar(c: char): (r: string)
    ensures |r| >= 1
    ensures !IsEscaped(c) <==> r == [c]
    ensures forall k :: 0 <= k < |r| ==> !IsMarkup(r[k])
  {
    if c == '&' then "&amp;"
    else if c == '"' then "&quot;"
    else if c == '\'' then "&#x27;"
    else if c == '<' then "&lt;"
    else if c == '>' then "&gt;"
    else if c == '/' then "&#x2F;"
    else if c == '\\' then "&#x5C;"
    else if c == '`' then "&#96;"
    else [c]
  }

  /** The escaped text is never shorter, is empty only for empty input, leaves text without
      such characters alone and contains none of the markup characters. */
  function Escape(s: string): (r: string)
    ensures |r| >= |s|
    ensures r == [] <==> s == []
    ensures (forall k :: 0 <= k < |s| ==> !IsEscaped(s[k])) ==> r == s
    ensures forall k :: 0 <= k < |r| ==> !IsMarkup(r[k])
  {
    if s == [] then []
    else
      var head := EscapeChar(s[0]);
      var tail := Escape(s[1..]);
      assert forall k :: 0 <= k < |head| + |tail| ==> (head + tail)[k] == if k < |head| then head[k] else tail[k - |head|];
      head + tail
  }

  // ---------------------------------------------------------------------------
  // Chains

  function Err(field: string, message: string, failed: bool): seq<FieldError>
  {
    if failed then [FieldError(field, message)] else []
  }

  /** body('email').trim().notEmpty().isEmail().normalizeEmail().escape() */
  function EmailChain(p: Primitives, raw: string): (r: ChainResult)
    ensures r.errors == [] <==> Trim(raw) != "" && p.isEmail(Trim(raw))
    ensures Trim(raw) == "" ==> FieldError("email", EmailRequired) in r.errors
    ensures forall k :: 0 <= k < |r.errors| ==> r.errors[k].field == "email"
  {
    var t := Trim(raw);
    ChainResult(Err("email", EmailRequired, t == "") + Err("email", EmailInvalid, !p.isEmail(t)),
                Escape(p.normalizeEmail(t)))
  }

  /** body('password').trim().notEmpty().escape(), followed on registration and reset by
      isLength({min: 6}), as written: the length rule measures the ESCAPED value. */
  function PasswordChainAsWritten(raw: string, isRegistration: bool): (r: ChainResult)
    ensures r.value == Escape(Trim(raw))
    ensures r.errors == [] <==> Trim(raw) != "" && (isRegistration ==> |Escape(Trim(raw))| >= MinPasswordLength)
  {
    var t := Trim(raw);
    var e := Escape(t);
    ChainResult(Err("password", PasswordRequired, t == "")
                + Err("password", PasswordTooShort, isRegistration && |e| < MinPasswordLength), e)
  }

  /** The password chain with the length rule on the trimmed password the user typed. */
  function PasswordChain(raw: string, isRegistration: bool): (r: ChainResult)
    ensures r.value == Escape(Trim(raw))
    ensures r.errors == [] <==> Trim(raw) != "" && (isRegistration ==> |Trim(raw)| >= MinPasswordLength)
    ensures r.errors == [] ==> r.value != ""
  {
    var t := Trim(raw);
    ChainResult(Err("password", PasswordRequired, t == "")
                + Err("password", PasswordTooShort, isRegistration && |t| < MinPasswordLength), Escape(t))
  }

  /** Escaping can lengthen a short password past the limit: "<<" is two characters and
      escapes to "&lt;&lt;", so the rule as written lets it through on registration. */
  lemma ShortPasswordPassesAsWritten()
    ensures PasswordChainAsWritten("<<", true).errors == []
    ensures |Trim("<<")| == 2 < MinPasswordLength
    ensures PasswordChain("<<", true).errors != []
  {
    assert !IsSpace('<');
    assert Trim("<<") == "<<";
    assert Escape("<<") == "&lt;" + Escape("<");
    assert Escape("<") == "&lt;" + Escape("");
  }

  /** With the corrected rule every accepted registration password has at least six
      characters after trimming, and login accepts every non-blank password. */
  lemma PasswordRules(raw: string)
    ensures PasswordChain(raw, true).errors == [] ==> |Trim(raw)| >= MinPasswordLength
    ensures PasswordChain(raw, false).errors == [] <==> Trim(raw) != ""
    ensures PasswordChain(raw, true).errors == [] ==> PasswordChain(raw, false).errors == []
  {
  }

  predicate IsHexDigit(c: char)
  {
    '0' <= c <= '9' || 'a' <= c <= 'f' || 'A' <= c <= 'F'
  }

  /** /^[a-fA-F0-9]+$/ without the non-emptiness. */
  predicate AllHex(t: string)
  {
    forall k :: 0 <= k < |t| ==> IsHexDigit(t[k])
  }

  /** param('token').trim().notEmpty().isLength({min: 1, max: 100}).matches(/^[a-fA-F0-9]+$/)
      .escape(): the last two validators carry no message of their own. */
  function ResetTokenChain(raw: string): (r: ChainResult)
    ensures r.errors == [] <==> 1 <= |Trim(raw)| <= MaxResetTokenLength && AllHex(Trim(raw))
    ensures Trim(raw) == "" ==>
              r.errors == [FieldError("token", ResetTokenRequired), FieldError("token", DefaultMessage),
                           FieldError("token", DefaultMessage)]
    ensures r.errors == [] ==> r.value == Trim(raw)
  {
    var t := Trim(raw);
    assert AllHex(t) ==> forall k :: 0 <= k < |t| ==> !IsEscaped(t[k]);
    ChainResult(Err("token", ResetTokenRequired, t == "")
                + Err("token", DefaultMessage, !(1 <= |t| <= MaxResetTokenLength))
                + Err("token", DefaultMessage, !(t != [] && AllHex(t))), Escape(t))
  }

  /** The token forgotPassword mails (the hex of 32 random bytes) passes the reset route's
      token rule unchanged. */
  lemma MailedResetTokenAccepted(random: seq<bv8>)
    requires |random| == 32
    ensures ResetTokenChain(HexOfBytes(random)).errors == []
    ensures ResetTokenChain(HexOfBytes(random)).value == HexOfBytes(random)
  {
    var t := HexOfBytes(random);
    assert forall k :: 0 <= k < |t| ==> !IsSpace(t[k]) && IsHexDigit(t[k]);
    assert Trim(t) == t;
  }

  // ---------------------------------------------------------------------------
  // The refresh cookie

  /** What the custom check of the refresh cookie concludes about a token. */
  datatype CookieVerdict = CookieReject | CookieAdmin(claims: Claims) | CookieUser(claims: Claims)

  /** jwt.verify with the refresh secret, then a check for an id. The version test
      `!decoded.version === undefined` compares a boolean with undefined and is always false,
      so it never rejects. A listed admin role marks an admin; ANY other role, a missing one
      included, marks a user. */
  function ClassifyRefreshCookie(p: Primitives, refreshSecret: string, now: int, token: string): (r: CookieVerdict)
    ensures r.CookieReject? <==> p.jwtVerify(token, refreshSecret, now).Rejected?
                                 || p.jwtVerify(token, refreshSecret, now).claims.id.None?
    ensures r.CookieAdmin? ==> IsAdminRoleClaim(r.claims.role)
    ensures r.CookieUser? ==> !IsAdminRoleClaim(r.claims.role)
    ensures !r.CookieReject? ==> p.jwtVerify(token, refreshSecret, now) == Verified(r.claims)
  {
    match p.jwtVerify(token, refreshSecret, now)
    case Rejected(_, _) => CookieReject
    case Verified(decoded) =>
      if decoded.id.None? then CookieReject
      else if IsAdminRoleClaim(decoded.role) then CookieAdmin(decoded)
      else CookieUser(decoded)
  }

  /** cookie('refreshToken').trim().notEmpty().isJWT().custom(...): the custom check sees
      the trimmed value and reports "Invalid refresh token" on any failure. A missing cookie
      reads as the empty string. */
  function RefreshCookieErrors(p: Primitives, refreshSecret: string, now: int, raw: string): (r: seq<FieldError>)
    ensures r == [] <==> Trim(raw) != "" && p.isJwt(Trim(raw))
                         && !ClassifyRefreshCookie(p, refreshSecret, now, Trim(raw)).CookieReject?
    ensures forall k :: 0 <= k < |r| ==> r[k].field == "refreshToken"
  {
    var t := Trim(raw);
    Err("refreshToken", RefreshTokenRequired, t == "")
    + Err("refreshToken", RefreshTokenFormat, !p.isJwt(t))
    + Err("refreshToken", InvalidRefreshToken, ClassifyRefreshCookie(p, refreshSecret, now, t).CookieReject?)
  }

  /** The refresh chain as it runs on a request: its errors, and the marker the custom
      check sets on the request when it succeeds. */
  method CheckRefreshCookie(req: Request, p: Primitives, refreshSecret: string, now: int, raw: string)
    returns (errors: seq<FieldError>)
    modifies req
    ensures errors == RefreshCookieErrors(p, refreshSecret, now, raw)
    ensures var v := ClassifyRefreshCookie(p, refreshSecret, now, Trim(raw));
            && req.admin == (if v.CookieAdmin? then Some(v.claims) else old(req.admin))
            && req.user == (if v.CookieUser? then Some(v.claims) else old(req.user))
  {
    var t := Trim(raw);
    errors := [];
    if t == "" {
      errors := errors + [FieldError("refreshToken", RefreshTokenRequired)];
    }
    if !p.isJwt(t) {
      errors := errors + [FieldError("refreshToken", RefreshTokenFormat)];
    }
    var verified := p.jwtVerify(t, refreshSecret, now);
    if verified.Rejected? || verified.claims.id.None? {
      errors := errors + [FieldError("refreshToken", InvalidRefreshToken)];
    } else if IsAdminRoleClaim(verified.claims.role) {
      req.admin := Some(verified.claims);
    } else {
      req.user := Some(verified.claims);
    }
  }

  /** The refresh tokens generateTokens issues carry no role, so while one is live the
      cookie check classifies it as a user's, even one issued to an administrator; the
      bearer middleware would refuse the same claims with "Invalid user role". */
  lemma IssuedRefreshCookieIsUser(p: Primitives, refreshSecret: string, id: Id, issuedAt: int, now: int)
    requires JwtSound(p)
    requires TokenLive(issuedAt, RefreshTtl, now)
    ensures var token := p.jwtSign(Claims(Some(id), None), refreshSecret, issuedAt / 1000, RefreshTtl / 1000);
            && RefreshCookieErrors(p, refreshSecret, now, token) == []
            && ClassifyRefreshCookie(p, refreshSecret, now, token) == CookieUser(Claims(Some(id), None))
            && !IsUserRoleClaim(Claims(Some(id), None).role)
  {
    var token := p.jwtSign(Claims(Some(id), None), refreshSecret, issuedAt / 1000, RefreshTtl / 1000);
    assert JwtShaped(token);
    assert Trim(token) == token;
  }

  // ---------------------------------------------------------------------------
  // handleValidation and the route arrays

  /** handleValidation: with errors, a 400 answer listing every error in order and no call
      to `next` (None means `next` is called). */
  function HandleValidation(errors: seq<FieldError>): (r: Option<Response>)
    ensures r.None? <==> errors == []
    ensures r.Some? ==> r.value == Response(400, Invalid(errors)) && |r.value.body.errors| == |errors|
  {
    if errors == [] then None else Some(Response(400, Invalid(errors)))
  }

  /** The chains of each route as written: the password's length rule measures the
      escaped value. */
  function LoginErrors(p: Primitives, email: string, password: string): seq<FieldError>
  {
    EmailChain(p, email).errors + PasswordChainAsWritten(password, false).errors
  }

  function RegistrationErrors(p: Primitives, email: string, password: string): seq<FieldError>
  {
    EmailChain(p, email).errors + PasswordChainAsWritten(password, true).errors
  }

  function ResetPasswordErrors(token: string, password: string): seq<FieldError>
  {
    ResetTokenChain(token).errors + PasswordChainAsWritten(password, true).errors
  }

  function ForgotPasswordErrors(p: Primitives, email: string): seq<FieldError>
  {
    EmailChain(p, email).errors
  }

  /** The registration and reset chains with the corrected length rule. */
  function RegistrationErrorsCorrected(p: Primitives, email: string, password: string): seq<FieldError>
  {
    EmailChain(p, email).errors + PasswordChain(password, true).errors
  }

  function ResetPasswordErrorsCorrected(token: string, password: string): seq<FieldError>
  {
    ResetTokenChain(token).errors + PasswordChain(password, true).errors
  }

  /** A request reaches a handler only when both of its chains pass: login and reset only
      ever receive a non-blank password, and registration and reset one whose ESCAPED form
      has at least six characters. */
  lemma RoutesAdmitOnlyValidInput(p: Primitives, email: string, token: string, password: string)
    ensures HandleValidation(LoginErrors(p, email, password)).None? <==>
              EmailChain(p, email).errors == [] && Trim(password) != ""
    ensures HandleValidation(RegistrationErrors(p, email, password)).None? <==>
              Trim(email) != "" && p.isEmail(Trim(email))
              && Trim(password) != "" && |Escape(Trim(password))| >= MinPasswordLength
    ensures HandleValidation(ResetPasswordErrors(token, password)).None? ==>
              PasswordChainAsWritten(password, true).value != "" && ResetTokenChain(token).value == Trim(token)
              && |Escape(Trim(password))| >= MinPasswordLength
    ensures HandleValidation(ForgotPasswordErrors(p, email)).Some? <==> Trim(email) == "" || !p.isEmail(Trim(email))
  {
  }

  /** With the corrected rule registration and reset admit exactly the passwords of at
      least six typed characters, and every input they admit the routes as written admit
      too; "<<" shows the converse fails. */
  lemma CorrectedRoutesAdmitSixTyped(p: Primitives, email: string, token: string, password: string)
    ensures HandleValidation(RegistrationErrorsCorrected(p, email, password)).None? <==>
              Trim(email) != "" && p.isEmail(Trim(email)) && |Trim(password)| >= MinPasswordLength
    ensures HandleValidation(ResetPasswordErrorsCorrected(token, password)).None? ==>
              |Trim(password)| >= MinPasswordLength && ResetTokenChain(token).value == Trim(token)
    ensures RegistrationErrorsCorrected(p, email, password) == [] ==> RegistrationErrors(p, email, password) == []
    ensures ResetPasswordErrorsCorrected(token, password) == [] ==> ResetPasswordErrors(token, password) == []
  {
  }
}
