/** The User document of backend/src/models/User.js: its schema rules, the refresh-token
    ledger, the reset and e-mail-verification tokens, the balance and the pre-save password
    hashing gate. */
module UserModel {
  import opened Prelude
  import opened Primitives

  // ---------------------------------------------------------------------------
  // Role: enum ['student', 'teacher'], default 'student', immutable

  datatype UserRole = Student | Teacher

  function UserRoleName(r: UserRole): string
  {
    match r
    case Student => "student"
    case Teacher => "teacher"
  }

  /** The role a new document gets from the value it is given: the default when none is
      given, the named role when it is one of the enum values, and a validation failure
      (None) otherwise. */
  function ParseUserRole(given: Option<string>): (r: Option<UserRole>)
    ensures given.None? ==> r == Some(Student)
    ensures given.Some? ==> (r.Some? <==> given.value == "student" || given.value == "teacher")
    ensures given.Some? && r.Some? ==> UserRoleName(r.value) == given.value
  {
    match given
    case None => Some(Student)
    case Some(name) =>
      if name == "student" then Some(Student)
      else if name == "teacher" then Some(Teacher)
      else None
  }

  // ---------------------------------------------------------------------------
  // Profile sub-document

  const DefaultPicture: string := "default-profile.png"
  const BioMaxLength: nat := 500

  datatype Profile = Profile(firstName: string, lastName: string, bio: Option<string>, picture: string)

  /** The profile fields as a request body gives them. */
  datatype ProfileInput = ProfileInput(firstName: string, lastName: string, bio: Option<string>, picture: Option<string>)

  /** A profile as stored from the given fields: names and bio trimmed, the default picture
      when none is given. */
  function NewProfile(given: ProfileInput): (r: Profile)
    ensures r.picture == if given.picture.Some? then given.picture.value else DefaultPicture
    ensures |r.firstName| <= |given.firstName| && |r.lastName| <= |given.lastName|
    ensures given.bio.None? <==> r.bio.None?
    ensures r.firstName == "" <==> forall k :: 0 <= k < |given.firstName| ==> IsSpace(given.firstName[k])
    ensures r.lastName == "" <==> forall k :: 0 <= k < |given.lastName| ==> IsSpace(given.lastName[k])
    ensures r.firstName == Trim(given.firstName) && r.lastName == Trim(given.lastName)
    ensures given.bio.Some? ==> r.bio == Some(Trim(given.bio.value))
  {
    Profile(Trim(given.firstName), Trim(given.lastName),
            match given.bio case None => None case Some(b) => Some(Trim(b)),
            match given.picture case None => DefaultPicture case Some(u) => u)
  }

  /** The profile's schema messages; empty exactly when both names are present and the bio
      has at most 500 characters. */
  function ProfileErrors(p: Profile): (r: seq<string>)
    ensures r == [] <==> p.firstName != "" && p.lastName != "" && (p.bio.Some? ==> |p.bio.value| <= BioMaxLength)
  {
    (if p.firstName == "" then ["First name is required"] else [])
    + (if p.lastName == "" then ["Last name is required"] else [])
    + (if p.bio.Some? && |p.bio.value| > BioMaxLength then ["Bio cannot be more than 500 characters"] else [])
  }

  // ---------------------------------------------------------------------------
  // The refresh-token ledger

  datatype RefreshEntry = RefreshEntry(token: string, expiresAt: int)

  /** The filter callbacks: an entry still live at `now`, an entry for another token. */
  function LiveAt(now: int): RefreshEntry -> bool
  {
    (e: RefreshEntry) => e.expiresAt > now
  }

  function NotFor(token: string): RefreshEntry -> bool
  {
    (e: RefreshEntry) => e.token != token
  }

  /** The entries that have not expired at `now` (expiresAt > now), in their order. */
  function Unexpired(ledger: seq<RefreshEntry>, now: int): (r: seq<RefreshEntry>)
    ensures |r| <= |ledger|
    ensures forall i :: 0 <= i < |r| ==> r[i] in ledger && r[i].expiresAt > now
    ensures forall i :: 0 <= i < |ledger| && ledger[i].expiresAt > now ==> ledger[i] in r
  {
    Keep(ledger, LiveAt(now))
  }

  /** The entries whose token differs from `token`, in their order. */
  function WithoutToken(ledger: seq<RefreshEntry>, token: string): (r: seq<RefreshEntry>)
    ensures |r| <= |ledger|
    ensures forall i :: 0 <= i < |r| ==> r[i] in ledger && r[i].token != token
    ensures forall i :: 0 <= i < |ledger| && ledger[i].token != token ==> ledger[i] in r
  {
    Keep(ledger, NotFor(token))
  }

  predicate HasToken(ledger: seq<RefreshEntry>, token: string)
  {
    exists i :: 0 <= i < |ledger| && ledger[i].token == token
  }

  predicate HasUnexpired(ledger: seq<RefreshEntry>, now: int)
  {
    exists i :: 0 <= i < |ledger| && ledger[i].expiresAt > now
  }

  /** The ledger after addRefreshToken(token, ttl) at `now`: the unexpired entries in their
      order, then the new entry. */
  function LedgerAfterAdd(ledger: seq<RefreshEntry>, token: string, ttl: int, now: int): (r: seq<RefreshEntry>)
    ensures |r| == |Unexpired(ledger, now)| + 1
    ensures r[|r| - 1] == RefreshEntry(token, now + ttl)
    ensures forall i :: 0 <= i < |r| - 1 ==> r[i] in ledger && r[i].expiresAt > now
    ensures forall i :: 0 <= i < |ledger| && ledger[i].expiresAt > now ==> ledger[i] in r
  {
    Unexpired(ledger, now) + [RefreshEntry(token, now + ttl)]
  }

  /** Purging keeps the relative order: it distributes over any split of the ledger. */
  lemma UnexpiredKeepsOrder(a: seq<RefreshEntry>, b: seq<RefreshEntry>, now: int)
    ensures Unexpired(a + b, now) == Unexpired(a, now) + Unexpired(b, now)
  {
    KeepAppend(a, b, LiveAt(now));
  }

  /** The ledger length after an add is the number of previously unexpired copies of each
      entry plus the new one: each surviving entry keeps its multiplicity. */
  lemma {:induction false} LedgerAfterAddMultiplicity(ledger: seq<RefreshEntry>, token: string, ttl: int, now: int, e: RefreshEntry)
    ensures multiset(LedgerAfterAdd(ledger, token, ttl, now))[e]
            == (if e.expiresAt > now then multiset(ledger)[e] else 0)
               + (if e == RefreshEntry(token, now + ttl) then 1 else 0)
  {
    KeepMultiplicity(ledger, LiveAt(now), e);
  }

  /** There is no size cap and no eviction: when nothing has expired, adding appends. */
  lemma {:induction false} LedgerHasNoCap(ledger: seq<RefreshEntry>, token: string, ttl: int, now: int)
    requires forall i :: 0 <= i < |ledger| ==> ledger[i].expiresAt > now
    ensures LedgerAfterAdd(ledger, token, ttl, now) == ledger + [RefreshEntry(token, now + ttl)]
    ensures |LedgerAfterAdd(ledger, token, ttl, now)| == |ledger| + 1
  {
    KeepAll(ledger, LiveAt(now));
  }

  /** Removing a token keeps the other entries in their order. */
  lemma WithoutTokenKeepsOrder(a: seq<RefreshEntry>, b: seq<RefreshEntry>, token: string)
    ensures WithoutToken(a + b, token) == WithoutToken(a, token) + WithoutToken(b, token)
  {
    KeepAppend(a, b, NotFor(token));
  }

  /** A rotation (remove the presented token, add a new one) leaves the new token in the
      ledger and, when it differs, none of the presented one. */
  lemma RotatedLedger(ledger: seq<RefreshEntry>, token: string, next: string, ttl: int, now: int)
    ensures HasToken(LedgerAfterAdd(WithoutToken(ledger, token), next, ttl, now), next)
    ensures next != token ==> !HasToken(LedgerAfterAdd(WithoutToken(ledger, token), next, ttl, now), token)
  {
    var stripped := WithoutToken(ledger, token);
    var r := LedgerAfterAdd(stripped, next, ttl, now);
    assert r[|r| - 1].token == next;
    if next != token {
      forall k | 0 <= k < |r| ensures r[k].token != token {
        if k < |r| - 1 {
          assert r[k] in stripped;
        }
      }
    }
  }

  /** Removing a token nobody holds is a no-op. */
  lemma {:induction false} WithoutAbsentToken(ledger: seq<RefreshEntry>, token: string)
    requires !HasToken(ledger, token)
    ensures WithoutToken(ledger, token) == ledger
  {
    KeepAll(ledger, NotFor(token));
  }

  /** Removing a token removes every entry for it, so removing it again changes nothing. */
  lemma WithoutTokenIdempotent(ledger: seq<RefreshEntry>, token: string)
    ensures !HasToken(WithoutToken(ledger, token), token)
    ensures WithoutToken(WithoutToken(ledger, token), token) == WithoutToken(ledger, token)
  {
    KeepIdempotent(ledger, NotFor(token));
  }

  // ---------------------------------------------------------------------------
  // Reset and verification tokens

  /** Date.now() + 3600000: one hour. */
  const ResetTtl: int := 3600000
  /** Date.now() + 24 * 3600000: twenty-four hours. */
  const VerificationTtl: int := 24 * 3600000

  // ---------------------------------------------------------------------------
  // The persisted document and its schema rules

  datatype UserDoc = UserDoc(
    id: Id,
    email: string,
    role: UserRole,
    profile: Option<Profile>,
    isEmailVerified: bool,
    emailVerificationToken: Option<string>,
    emailVerificationExpires: Option<int>,
    password: string,
    balance: int,
    resetPasswordToken: Option<string>,
    resetPasswordExpires: Option<int>,
    refreshTokens: seq<RefreshEntry>)

  /** The messages of the schema validators run by save(); empty exactly when the e-mail and
      the password are present, the balance is not negative and the profile, if any, is
      valid. The role is always one of the enum values here (UserRole has no other). */
  function UserSchemaErrors(d: UserDoc): (r: seq<string>)
    ensures r == [] <==> d.email != "" && d.password != "" && d.balance >= 0
                         && (d.profile.Some? ==> ProfileErrors(d.profile.value) == [])
  {
    (if d.email == "" then ["Path `email` is required."] else [])
    + (if d.password == "" then ["Path `password` is required."] else [])
    + (if d.balance < 0 then ["Balance cannot be negative"] else [])
    + (match d.profile case None => [] case Some(p) => ProfileErrors(p))
  }

  /** The document a save() leaves behind, given the document it started from and whether
      the password was modified: unchanged when validation fails or the password was not
      touched, otherwise the same document with the password replaced by its digest. */
  function AfterSave(d: UserDoc, passwordModified: bool, p: Primitives, salt: Salt): (r: UserDoc)
    ensures r.(password := d.password) == d
    ensures r.password != d.password ==> passwordModified && UserSchemaErrors(d) == []
  {
    if UserSchemaErrors(d) == [] && passwordModified then d.(password := p.bcryptHash(d.password, salt)) else d
  }

  /** The document `new User({email, password, role, profile})` builds: the e-mail through
      its setters, verification off, balance 0, no tokens, an empty ledger and the plain
      password (hashed by the first save). */
  function NewUserDoc(id: Id, email: string, password: string, role: UserRole, profile: Option<Profile>): (d: UserDoc)
    ensures d.id == id && d.email == NormalizeEmail(email) && d.password == password
    ensures d.role == role && d.profile == profile
    ensures d.balance == 0 && d.refreshTokens == [] && !d.isEmailVerified
    ensures d.resetPasswordToken.None? && d.emailVerificationToken.None?
  {
    UserDoc(id, NormalizeEmail(email), role, profile, false, None, None, password, 0, None, None, [])
  }

  class User {
    const id: Id
    const email: string
    /** Immutable after creation. */
    const role: UserRole
    const profile: Option<Profile>
    var isEmailVerified: bool
    var emailVerificationToken: Option<string>
    var emailVerificationExpires: Option<int>
    var password: string
    /** Mongoose's isModified('password'): set by a new document and by assigning the
        password, cleared by a successful save. */
    var passwordModified: bool
    var balance: int
    var resetPasswordToken: Option<string>
    var resetPasswordExpires: Option<int>
    var refreshTokens: seq<RefreshEntry>

    /** The document as stored. */
    function Doc(): UserDoc
      reads this
    {
      UserDoc(id, email, role, profile, isEmailVerified, emailVerificationToken,
              emailVerificationExpires, password, balance, resetPasswordToken,
              resetPasswordExpires, refreshTokens)
    }

    /** A saved document: it satisfies the schema and its password is a stored digest. */
    ghost predicate Valid()
      reads this
    {
      UserSchemaErrors(Doc()) == [] && !passwordModified
    }

    /** new User({email, password, role, profile}): the e-mail setters trim and lowercase,
        the balance defaults to 0, the password is plain text until the first save. */
    constructor (id: Id, email: string, password: string, role: UserRole, profile: Option<Profile>)
      ensures Doc() == NewUserDoc(id, email, password, role, profile)
      ensures passwordModified
    {
      this.id := id;
      this.email := NormalizeEmail(email);
      this.role := role;
      this.profile := profile;
      isEmailVerified := false;
      emailVerificationToken := None;
      emailVerificationExpires := None;
      this.password := password;
      passwordModified := true;
      balance := 0;
      resetPasswordToken := None;
      resetPasswordExpires := None;
      refreshTokens := [];
    }

    /** save(): schema validation first; on success the pre-save hook hashes the password
        only when it was modified, so a save that did not touch the password keeps the
        stored digest. A failed save leaves the document as it was. */
    method Save(p: Primitives, salt: Salt) returns (out: Outcome<seq<string>>)
      modifies this`password, this`passwordModified
      ensures out.Fail? <==> UserSchemaErrors(old(Doc())) != []
      ensures out.Fail? ==> out.error == UserSchemaErrors(old(Doc())) && passwordModified == old(passwordModified)
      ensures out.Pass? ==> Valid()
      ensures Doc() == AfterSave(old(Doc()), old(passwordModified), p, salt)
    {
      var errors := UserSchemaErrors(Doc());
      if errors != [] {
        return Fail(errors);
      }
      if passwordModified {
        password := p.bcryptHash(password, salt);
        passwordModified := false;
      }
      out := Pass;
    }

    /** comparePassword: bcrypt.compare against the stored digest. */
    function ComparePassword(p: Primitives, candidate: string): bool
      reads this
    {
      p.bcryptCompare(candidate, password)
    }

    /** user.password = ...: the new plain password, marked modified. */
    method SetPassword(plain: string)
      modifies this`password, this`passwordModified
      ensures Doc() == old(Doc()).(password := plain) && passwordModified
    {
      password := plain;
      passwordModified := true;
    }

    /** updateBalance(amount): refuses to go below zero, otherwise sets the balance and
        saves. */
    method UpdateBalance(p: Primitives, salt: Salt, amount: int) returns (out: Outcome<seq<string>>)
      modifies this`balance, this`password, this`passwordModified
      ensures old(balance) + amount < 0 ==>
                out == Fail(["Insufficient balance"]) && Doc() == old(Doc())
                && passwordModified == old(passwordModified)
      ensures old(balance) + amount >= 0 ==>
                balance >= 0
                && (out.Fail? <==> UserSchemaErrors(old(Doc()).(balance := old(balance) + amount)) != [])
                && Doc() == AfterSave(old(Doc()).(balance := old(balance) + amount), old(passwordModified), p, salt)
      ensures out.Pass? ==> Valid()
    {
      var newBalance := balance + amount;
      if newBalance < 0 {
        return Fail(["Insufficient balance"]);
      }
      balance := newBalance;
      out := Save(p, salt);
    }

    /** createPasswordResetToken: the plain token is the hex of the random bytes; only its
        sha256 digest is stored, with an expiry one hour from now. Nothing is saved. */
    method CreatePasswordResetToken(p: Primitives, now: int, random: seq<bv8>) returns (token: string)
      modifies this`resetPasswordToken, this`resetPasswordExpires
      ensures token == HexOfBytes(random)
      ensures Doc() == old(Doc()).(resetPasswordToken := Some(p.sha256Hex(token)),
                                   resetPasswordExpires := Some(now + ResetTtl))
    {
      token := HexOfBytes(random);
      resetPasswordToken := Some(p.sha256Hex(token));
      resetPasswordExpires := Some(now + ResetTtl);
    }

    /** clearPasswordResetToken: both fields unset. Nothing is saved. */
    method ClearPasswordResetToken()
      modifies this`resetPasswordToken, this`resetPasswordExpires
      ensures Doc() == old(Doc()).(resetPasswordToken := None, resetPasswordExpires := None)
    {
      resetPasswordToken := None;
      resetPasswordExpires := None;
    }

    /** What forgotPassword does to the user it found: create a reset token, then save();
        a stored document keeps its password digest. */
    method IssueResetToken(p: Primitives, salt: Salt, now: int, random: seq<bv8>) returns (token: string)
      requires Valid()
      modifies this`resetPasswordToken, this`resetPasswordExpires, this`password, this`passwordModified
      ensures Valid() && token == HexOfBytes(random)
      ensures Doc() == old(Doc()).(resetPasswordToken := Some(p.sha256Hex(token)),
                                   resetPasswordExpires := Some(now + ResetTtl))
    {
      token := CreatePasswordResetToken(p, now, random);
      var _ := Save(p, salt);
    }

    /** What resetPassword does to the user it found: assign the new password, clear the
        reset token, then save(), which hashes the new password. */
    method ResetTo(p: Primitives, salt: Salt, plain: string)
      requires Valid() && plain != ""
      modifies this`resetPasswordToken, this`resetPasswordExpires, this`password, this`passwordModified
      ensures Valid()
      ensures Doc() == old(Doc()).(password := p.bcryptHash(plain, salt),
                                   resetPasswordToken := None, resetPasswordExpires := None)
    {
      SetPassword(plain);
      ClearPasswordResetToken();
      var _ := Save(p, salt);
    }

    /** createEmailVerificationToken: as for reset tokens, with a 24-hour expiry. */
    method CreateEmailVerificationToken(p: Primitives, now: int, random: seq<bv8>) returns (token: string)
      modifies this`emailVerificationToken, this`emailVerificationExpires
      ensures token == HexOfBytes(random)
      ensures Doc() == old(Doc()).(emailVerificationToken := Some(p.sha256Hex(token)),
                                   emailVerificationExpires := Some(now + VerificationTtl))
    {
      token := HexOfBytes(random);
      emailVerificationToken := Some(p.sha256Hex(token));
      emailVerificationExpires := Some(now + VerificationTtl);
    }

    /** verifyEmail: marks the address verified, clears the token and its expiry, saves. */
    method VerifyEmail(p: Primitives, salt: Salt) returns (out: Outcome<seq<string>>)
      modifies this`isEmailVerified, this`emailVerificationToken, this`emailVerificationExpires,
               this`password, this`passwordModified
      ensures out.Fail? <==> UserSchemaErrors(old(Doc())) != []
      ensures out.Pass? ==> Valid()
      ensures Doc() == AfterSave(old(Doc()).(isEmailVerified := true, emailVerificationToken := None,
                                             emailVerificationExpires := None),
                                 old(passwordModified), p, salt)
    {
      isEmailVerified := true;
      emailVerificationToken := None;
      emailVerificationExpires := None;
      out := Save(p, salt);
    }

    /** addRefreshToken(token, expiresIn): purge the expired entries, append, save. */
    method AddRefreshToken(p: Primitives, salt: Salt, token: string, ttl: int, now: int) returns (out: Outcome<seq<string>>)
      modifies this`refreshTokens, this`password, this`passwordModified
      ensures out.Fail? <==> UserSchemaErrors(old(Doc())) != []
      ensures out.Pass? ==> Valid()
      ensures Doc() == AfterSave(old(Doc()).(refreshTokens := LedgerAfterAdd(old(refreshTokens), token, ttl, now)),
                                 old(passwordModified), p, salt)
    {
      refreshTokens := Unexpired(refreshTokens, now);
      refreshTokens := refreshTokens + [RefreshEntry(token, now + ttl)];
      out := Save(p, salt);
    }

    /** removeRefreshToken(token): drop every entry for that exact token string, save. */
    method RemoveRefreshToken(p: Primitives, salt: Salt, token: string) returns (out: Outcome<seq<string>>)
      modifies this`refreshTokens, this`password, this`passwordModified
      ensures out.Fail? <==> UserSchemaErrors(old(Doc())) != []
      ensures out.Pass? ==> Valid()
      ensures Doc() == AfterSave(old(Doc()).(refreshTokens := WithoutToken(old(refreshTokens), token)),
                                 old(passwordModified), p, salt)
    {
      refreshTokens := WithoutToken(refreshTokens, token);
      out := Save(p, salt);
    }
  }
}
