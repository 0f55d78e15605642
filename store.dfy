/** The two principal collections the authentication core reads and writes (the User and
    Admin Mongoose models), as one store of live document objects. A document object in the
    store is the persisted document: a method that changes it and saves is a write to the
    collection. Queries return the first match in insertion order, as findOne does. */
module Store {
  import opened Prelude
  import opened Primitives
  import opened UserModel
  import opened AdminModel

  /** The stored views of a sequence of user documents. */
  function UserDocs(us: seq<User>): (r: seq<UserDoc>)
    reads us
    ensures |r| == |us|
    ensures forall i :: 0 <= i < |us| ==> r[i] == us[i].Doc()
  {
    if us == [] then [] else [us[0].Doc()] + UserDocs(us[1..])
  }

  lemma UserDocsAppend(us: seq<User>, u: User)
    ensures UserDocs(us + [u]) == UserDocs(us) + [u.Doc()]
  {
    assert forall i :: 0 <= i < |us| ==> (us + [u])[i] == us[i];
  }

  function AdminDocs(admins: seq<Admin>): (r: seq<AdminDoc>)
    reads admins
    ensures |r| == |admins|
    ensures forall i :: 0 <= i < |admins| ==> r[i] == admins[i].Doc()
  {
    if admins == [] then [] else [admins[0].Doc()] + AdminDocs(admins[1..])
  }

  // ---------------------------------------------------------------------------
  // Queries

  /** User.findOne({ email }): the e-mail passes through the field's setters first. */
  function FindUserByEmail(docs: seq<UserDoc>, email: string): (r: Option<nat>)
    ensures r.Some? ==> r.value < |docs| && docs[r.value].email == NormalizeEmail(email)
    ensures r.Some? ==> forall k :: 0 <= k < r.value ==> docs[k].email != NormalizeEmail(email)
    ensures r.None? <==> forall k :: 0 <= k < |docs| ==> docs[k].email != NormalizeEmail(email)
  {
    FirstIndex(docs, (d: UserDoc) => d.email == NormalizeEmail(email))
  }

  /** Admin.findOne({ email }). */
  function FindAdminByEmail(docs: seq<AdminDoc>, email: string): (r: Option<nat>)
    ensures r.Some? ==> r.value < |docs| && docs[r.value].email == NormalizeEmail(email)
    ensures r.None? <==> forall k :: 0 <= k < |docs| ==> docs[k].email != NormalizeEmail(email)
  {
    FirstIndex(docs, (d: AdminDoc) => d.email == NormalizeEmail(email))
  }

  /** User.findById(id); an absent id (findById(undefined)) matches nothing. */
  function FindUserById(docs: seq<UserDoc>, id: Option<Id>): (r: Option<nat>)
    ensures r.Some? ==> id.Some? && r.value < |docs| && docs[r.value].id == id.value
    ensures r.None? <==> id.None? || forall k :: 0 <= k < |docs| ==> docs[k].id != id.value
  {
    match id
    case None => None
    case Some(v) => FirstIndex(docs, (d: UserDoc) => d.id == v)
  }

  /** Admin.findById(id). */
  function FindAdminById(docs: seq<AdminDoc>, id: Option<Id>): (r: Option<nat>)
    ensures r.Some? ==> id.Some? && r.value < |docs| && docs[r.value].id == id.value
    ensures r.None? <==> id.None? || forall k :: 0 <= k < |docs| ==> docs[k].id != id.value
  {
    match id
    case None => None
    case Some(v) => FirstIndex(docs, (d: AdminDoc) => d.id == v)
  }

  /** Whether the unique e-mail index already holds this (stored, normalised) address. */
  predicate EmailTaken(docs: seq<UserDoc>, email: string)
  {
    exists k :: 0 <= k < |docs| && docs[k].email == email
  }

  predicate HoldsToken(d: UserDoc, token: string)
  {
    HasToken(d.refreshTokens, token)
  }

  /** User.findOne({ 'refreshTokens.token': token }). */
  function FindUserByRefreshToken(docs: seq<UserDoc>, token: string): (r: Option<nat>)
    ensures r.Some? ==> r.value < |docs| && HoldsToken(docs[r.value], token)
    ensures r.Some? ==> forall k :: 0 <= k < r.value ==> !HoldsToken(docs[k], token)
    ensures r.None? <==> forall k :: 0 <= k < |docs| ==> !HoldsToken(docs[k], token)
  {
    FirstIndex(docs, (d: UserDoc) => HoldsToken(d, token))
  }

  /** The refresh query: the id matches, SOME entry carries the token and SOME entry (not
      necessarily the same one) is unexpired. The two array conditions are independent, as
      two dotted-path conditions without $elemMatch are. */
  predicate RefreshQueryMatches(d: UserDoc, id: Option<Id>, token: string, now: int)
  {
    id == Some(d.id) && HasToken(d.refreshTokens, token) && HasUnexpired(d.refreshTokens, now)
  }

  function FindUserForRefresh(docs: seq<UserDoc>, id: Option<Id>, token: string, now: int): (r: Option<nat>)
    ensures r.Some? ==> r.value < |docs| && RefreshQueryMatches(docs[r.value], id, token, now)
    ensures r.None? <==> forall k :: 0 <= k < |docs| ==> !RefreshQueryMatches(docs[k], id, token, now)
  {
    FirstIndex(docs, (d: UserDoc) => RefreshQueryMatches(d, id, token, now))
  }

  /** The reset query: the stored digest matches and the expiry is strictly in the future. */
  predicate ResetQueryMatches(d: UserDoc, digest: string, now: int)
  {
    d.resetPasswordToken == Some(digest) && d.resetPasswordExpires.Some? && d.resetPasswordExpires.value > now
  }

  function FindUserForReset(docs: seq<UserDoc>, digest: string, now: int): (r: Option<nat>)
    ensures r.Some? ==> r.value < |docs| && ResetQueryMatches(docs[r.value], digest, now)
    ensures r.None? <==> forall k :: 0 <= k < |docs| ==> !ResetQueryMatches(docs[k], digest, now)
  {
    FirstIndex(docs, (d: UserDoc) => ResetQueryMatches(d, digest, now))
  }

  // ---------------------------------------------------------------------------
  // The store

  /** Ids are unique and below the counter; e-mails are unique (the unique index); every
      stored document satisfies its schema and holds a digest. */
  ghost predicate UsersValid(users: seq<User>, bound: nat)
    reads users
  {
    && (forall i, j :: 0 <= i < j < |users| ==> users[i].id != users[j].id)
    && (forall i :: 0 <= i < |users| ==> users[i].id < bound)
    && (forall i, j :: 0 <= i < j < |users| ==> users[i].email != users[j].email)
    && (forall i :: 0 <= i < |users| ==> users[i].Valid())
  }

  lemma AppendUserValid(users: seq<User>, u: User, bound: nat)
    requires UsersValid(users, bound) && u.Valid() && u.id < bound
    requires forall i :: 0 <= i < |users| ==> users[i].id != u.id && users[i].email != u.email
    ensures UsersValid(users + [u], bound)
  {
    var us := users + [u];
    assert forall i :: 0 <= i < |users| ==> us[i] == users[i];
  }

  /** Appending a valid user with a fresh id and an e-mail no stored document has. */
  lemma AppendNewUser(users: seq<User>, u: User, bound: nat)
    requires UsersValid(users, bound) && u.Valid() && u.id < bound
    requires forall i :: 0 <= i < |users| ==> users[i].id != u.id
    requires !EmailTaken(UserDocs(users), u.email)
    ensures UsersValid(users + [u], bound)
    ensures UserDocs(users + [u]) == UserDocs(users) + [u.Doc()]
  {
    var docs := UserDocs(users);
    assert forall i :: 0 <= i < |users| ==> users[i].email == docs[i].email;
    AppendUserValid(users, u, bound);
    UserDocsAppend(users, u);
  }

  class Db {
    var users: seq<User>
    var admins: seq<Admin>
    /** The next fresh document id (ObjectIds are unique; a counter stands for them). */
    var nextId: nat

    function Users(): seq<UserDoc>
      reads this`users, users
    {
      UserDocs(users)
    }

    function Admins(): seq<AdminDoc>
      reads this`admins, admins
    {
      AdminDocs(admins)
    }

    /** The user collection's invariant (the admin collection is only read here). */
    ghost predicate Valid()
      reads this, users
    {
      UsersValid(users, nextId)
    }

    constructor ()
      ensures Valid() && users == [] && admins == [] && nextId == 0
    {
      users := [];
      admins := [];
      nextId := 0;
    }

    /** A fresh _id for a new document. */
    method NewId() returns (id: Id)
      requires Valid()
      modifies this`nextId
      ensures Valid() && id == old(nextId) && nextId == old(nextId) + 1
      ensures forall i :: 0 <= i < |users| ==> users[i].id != id
    {
      id := nextId;
      nextId := nextId + 1;
    }

    /** new User({...}) with a fresh id, then save(): the created document is validated,
        its password hashed and the document inserted, or nothing is stored. */
    method CreateUser(p: Primitives, salt: Salt, email: string, password: string, role: UserRole,
                      profile: Option<Profile>) returns (out: Outcome<seq<string>>, u: User)
      requires Valid()
      modifies this`users, this`nextId
      ensures Valid()
      ensures out.Pass? <==> UserSchemaErrors(NewUserDoc(old(nextId), email, password, role, profile)) == []
                             && !EmailTaken(old(Users()), NormalizeEmail(email))
      ensures out.Pass? ==> Users() == old(Users()) + [NewUserDoc(old(nextId), email, password, role, profile)
                                                        .(password := p.bcryptHash(password, salt))]
      ensures out.Pass? ==> users == old(users) + [u] && u.Valid() && fresh(u)
                            && u.Doc() == NewUserDoc(old(nextId), email, password, role, profile)
                                          .(password := p.bcryptHash(password, salt))
      ensures out.Fail? ==> users == old(users)
      ensures out.Fail? && UserSchemaErrors(NewUserDoc(old(nextId), email, password, role, profile)) != [] ==>
                out.error == UserSchemaErrors(NewUserDoc(old(nextId), email, password, role, profile))
    {
      ghost var docs := Users();
      var id := NewId();
      u := new User(id, email, password, role, profile);
      ghost var created := NewUserDoc(id, email, password, role, profile);
      assert u.Doc() == created && u.email == created.email == NormalizeEmail(email);
      assert Users() == docs;
      out := InsertUser(u, p, salt);
      if out.Pass? {
        assert u.Doc() == AfterSave(created, true, p, salt) == created.(password := p.bcryptHash(password, salt));
        assert Users() == docs + [u.Doc()];
      }
    }

    /** The stored document at `k` gets a new refresh-token entry (user.addRefreshToken). */
    method AddRefreshTokenAt(k: nat, p: Primitives, salt: Salt, token: string, ttl: int, now: int)
      requires Valid() && k < |users|
      modifies users[k]
      ensures Valid() && users == old(users)
      ensures Users() == old(Users())[k := old(Users())[k].(refreshTokens :=
                           LedgerAfterAdd(old(Users())[k].refreshTokens, token, ttl, now))]
    {
      ghost var docs := Users();
      var user := users[k];
      var _ := user.AddRefreshToken(p, salt, token, ttl, now);
      forall j | 0 <= j < |users| && j != k
        ensures users[j].Doc() == docs[j] && users[j].Valid()
      {
        assert users[j].id != users[k].id;
      }
      assert Users() == docs[k := user.Doc()];
    }

    /** The stored document at `k` loses every entry carrying `token` (user.removeRefreshToken). */
    method RemoveRefreshTokenAt(k: nat, p: Primitives, salt: Salt, token: string)
      requires Valid() && k < |users|
      modifies users[k]
      ensures Valid() && users == old(users)
      ensures Users() == old(Users())[k := old(Users())[k].(refreshTokens :=
                           WithoutToken(old(Users())[k].refreshTokens, token))]
    {
      ghost var docs := Users();
      var user := users[k];
      var _ := user.RemoveRefreshToken(p, salt, token);
      forall j | 0 <= j < |users| && j != k
        ensures users[j].Doc() == docs[j] && users[j].Valid()
      {
        assert users[j].id != users[k].id;
      }
      assert Users() == docs[k := user.Doc()];
    }

    /** The stored document at `k` gets a reset token (user.createPasswordResetToken, then
        save()); the plain token is returned, its digest stored. */
    method IssueResetTokenAt(k: nat, p: Primitives, salt: Salt, now: int, random: seq<bv8>) returns (token: string)
      requires Valid() && k < |users|
      modifies users[k]
      ensures Valid() && users == old(users) && token == HexOfBytes(random)
      ensures Users() == old(Users())[k := old(Users())[k].(resetPasswordToken := Some(p.sha256Hex(token)),
                                                              resetPasswordExpires := Some(now + ResetTtl))]
    {
      ghost var docs := Users();
      var user := users[k];
      token := user.IssueResetToken(p, salt, now, random);
      forall j | 0 <= j < |users| && j != k
        ensures users[j].Doc() == docs[j] && users[j].Valid()
      {
        assert users[j].id != users[k].id;
      }
      assert Users() == docs[k := user.Doc()];
    }

    /** The stored document at `k` takes a new password and drops its reset token, then is
        saved, which hashes the new password. */
    method ResetPasswordAt(k: nat, p: Primitives, salt: Salt, plain: string)
      requires Valid() && k < |users| && plain != ""
      modifies users[k]
      ensures Valid() && users == old(users)
      ensures Users() == old(Users())[k := old(Users())[k].(password := p.bcryptHash(plain, salt),
                                                              resetPasswordToken := None, resetPasswordExpires := None)]
    {
      ghost var docs := Users();
      var user := users[k];
      user.ResetTo(p, salt, plain);
      forall j | 0 <= j < |users| && j != k
        ensures users[j].Doc() == docs[j] && users[j].Valid()
      {
        assert users[j].id != users[k].id;
      }
      assert Users() == docs[k := user.Doc()];
    }

    /** The insert itself: the unique e-mail index refuses an address already stored. */
    method Insert(u: User) returns (out: Outcome<seq<string>>)
      requires Valid() && u.id < nextId && u.Valid()
      requires forall i :: 0 <= i < |users| ==> users[i].id != u.id
      modifies this`users
      ensures Valid()
      ensures out.Pass? <==> !EmailTaken(old(Users()), u.email)
      ensures out.Pass? ==> users == old(users) + [u] && Users() == old(Users()) + [u.Doc()]
      ensures out.Fail? ==> users == old(users)
    {
      if EmailTaken(Users(), u.email) {
        return Fail(["E11000 duplicate key error"]);
      }
      ghost var before := users;
      users := users + [u];
      AppendNewUser(before, u, nextId);
      return Pass;
    }

    /** save() of a new user document: validation and the hash gate, then the insert. */
    method InsertUser(u: User, p: Primitives, salt: Salt) returns (out: Outcome<seq<string>>)
      requires Valid() && u.id < nextId && u !in users
      requires forall i :: 0 <= i < |users| ==> users[i].id != u.id
      modifies this`users, u`password, u`passwordModified
      ensures Valid()
      ensures out.Pass? <==> UserSchemaErrors(old(u.Doc())) == [] && !EmailTaken(old(Users()), u.email)
      ensures out.Pass? ==> users == old(users) + [u] && u.Valid()
                            && u.Doc() == AfterSave(old(u.Doc()), old(u.passwordModified), p, salt)
                            && Users() == old(Users()) + [u.Doc()]
      ensures out.Fail? ==> users == old(users)
      ensures out.Fail? && UserSchemaErrors(old(u.Doc())) != [] ==> out.error == UserSchemaErrors(old(u.Doc()))
    {
      ghost var docs := Users();
      out := u.Save(p, salt);
      assert Users() == docs && Valid();
      if out.Pass? {
        out := Insert(u);
      }
    }
  }
}
