/** The Admin document of backend/src/models/Admin.js: its role enum, the password length
    rule checked on the plain password, the e-mail pattern, and the pre-save hash gate. */
module AdminModel {
  import opened Prelude
  import opened Primitives

  // ---------------------------------------------------------------------------
  // Role: enum ['superadmin', 'contentmanager', 'moderator'], default 'superadmin'

  datatype AdminRole = SuperAdmin | ContentManager | Moderator

  function AdminRoleName(r: AdminRole): string
  {
    match r
    case SuperAdmin => "superadmin"
    case ContentManager => "contentmanager"
    case Moderator => "moderator"
  }

  /** The role a new admin gets: the default when none is given, the named role when it is
      one of the enum values, a validation failure (None) otherwise. */
  function ParseAdminRole(given: Option<string>): (r: Option<AdminRole>)
    ensures given.None? ==> r == Some(SuperAdmin)
    ensures given.Some? ==> (r.Some? <==> given.value in {"superadmin", "contentmanager", "moderator"})
    ensures given.Some? && r.Some? ==> AdminRoleName(r.value) == given.value
  {
    match given
    case None => Some(SuperAdmin)
    case Some(name) =>
      if name == "superadmin" then Some(SuperAdmin)
      else if name == "contentmanager" then Some(ContentManager)
      else if name == "moderator" then Some(Moderator)
      else None
  }

  // ---------------------------------------------------------------------------
  // The e-mail pattern /^\w+([.-]?\w+)*@\w+([.-]?\w+)*(\.\w{2,3})+$/

  /** `\w`: ASCII letters, digits and the underscore. */
  predicate IsWordChar(c: char)
  {
    'a' <= c <= 'z' || 'A' <= c <= 'Z' || '0' <= c <= '9' || c == '_'
  }

  predicate IsSep(c: char)
  {
    c == '.' || c == '-'
  }

  /** `\w+([.-]?\w+)*`, read left to right: a word character, then either the end, or more
      of the same, or one separator followed by more of the same. */
  predicate Words(s: string)
    decreases |s|
  {
    |s| >= 1 && IsWordChar(s[0]) &&
    (|s| == 1 || (IsWordChar(s[1]) && Words(s[1..])) || (IsSep(s[1]) && Words(s[2..])))
  }

  /** `\w{n}` for the given n. */
  ghost predicate WordRun(s: string)
  {
    forall k :: 0 <= k < |s| ==> IsWordChar(s[k])
  }

  /** `(\.\w{2,3})+`: one run of two or three word characters after a '.', then either the
      end or more runs. */
  ghost predicate TopLevelRuns(t: string)
    decreases |t|, 1
  {
    TopLevelRunOf(t, 2) || TopLevelRunOf(t, 3)
  }

  ghost predicate TopLevelRunOf(t: string, n: nat)
    decreases |t|, 0
  {
    n + 1 <= |t| && t[0] == '.' && WordRun(t[1..n + 1]) &&
    (|t| == n + 1 || TopLevelRuns(t[n + 1..]))
  }

  /** The whole pattern, as the regular expression reads: a local part, one '@', a domain
      made of dotted words followed by one or more top-level runs. */
  ghost predicate MatchesEmailPattern(s: string)
  {
    exists i, j :: 0 <= i < j < |s| && s[i] == '@' && Words(s[..i]) &&
                   Words(s[i + 1..j]) && TopLevelRuns(s[j..])
  }

  /** How many word characters `s` ends with. */
  function TrailingWordRun(s: string): (n: nat)
    ensures n <= |s|
    ensures forall k :: |s| - n <= k < |s| ==> IsWordChar(s[k])
    ensures n < |s| ==> !IsWordChar(s[|s| - 1 - n])
  {
    if s != [] && IsWordChar(s[|s| - 1]) then TrailingWordRun(s[..|s| - 1]) + 1 else 0
  }

  /** The validator as a scan: split at the first '@'; the local part is dotted words; so is
      the domain, whose last separator is a '.' followed by two or three word characters. */
  function EmailShapeOk(s: string): bool
  {
    match IndexOf(s, '@')
    case None => false
    case Some(i) => Words(s[..i]) && DomainShapeOk(s[i + 1..])
  }

  /** The domain part: dotted words whose last separator is a '.' followed by two or three
      word characters. */
  predicate DomainShapeOk(d: string)
  {
    var n := TrailingWordRun(d);
    Words(d) && 2 <= n <= 3 && n < |d| && d[|d| - 1 - n] == '.'
  }

  lemma {:induction false} WordsHasNoAt(s: string)
    requires Words(s)
    ensures '@' !in s
    decreases |s|
  {
    if |s| >= 2 {
      if IsWordChar(s[1]) && Words(s[1..]) {
        WordsHasNoAt(s[1..]);
        assert s == [s[0]] + s[1..];
      } else {
        WordsHasNoAt(s[2..]);
        assert s == [s[0], s[1]] + s[2..];
      }
    }
  }

  lemma {:induction false} WordRunIsWords(s: string)
    requires |s| >= 1 && WordRun(s)
    ensures Words(s)
    decreases |s|
  {
    if |s| >= 2 {
      WordRunIsWords(s[1..]);
    }
  }

  /** Dotted words joined by one '.' are dotted words. */
  lemma {:induction false} WordsJoin(a: string, b: string)
    requires Words(a) && Words(b)
    ensures Words(a + ['.'] + b)
    decreases |a|
  {
    var s := a + ['.'] + b;
    if |a| == 1 {
      assert s[2..] == b;
    } else if IsWordChar(a[1]) && Words(a[1..]) {
      WordsJoin(a[1..], b);
      assert s[1..] == a[1..] + ['.'] + b;
    } else {
      WordsJoin(a[2..], b);
      assert s[2..] == a[2..] + ['.'] + b;
    }
  }

  /** What precedes a separator inside dotted words is dotted words. */
  lemma {:induction false} WordsBeforeSep(d: string, j: nat)
    requires Words(d) && j < |d| && IsSep(d[j])
    ensures j > 0 && Words(d[..j])
    decreases |d|
  {
    if j == 1 {
      assert d[..j] == [d[0]];
    } else if IsWordChar(d[1]) && Words(d[1..]) {
      WordsBeforeSep(d[1..], j - 1);
      assert d[..j][1..] == d[1..][..j - 1];
    } else {
      WordsBeforeSep(d[2..], j - 2);
      assert d[..j][2..] == d[2..][..j - 2];
    }
  }

  /** When `t` is '.' and n word characters, its trailing run has length n. */
  lemma TrailingAllWord(t: string, n: nat)
    requires 1 <= n + 1 == |t| && t[0] == '.' && WordRun(t[1..n + 1])
    ensures TrailingWordRun(t) == n
  {
    assert forall k :: |t| - n <= k < |t| ==> t[k] == t[1..n + 1][k - 1];
    TrailingRunIs(t, n);
  }

  /** The trailing run is the word characters at the end up to the first non-word one. */
  lemma TrailingRunIs(s: string, n: nat)
    requires n < |s| && !IsWordChar(s[|s| - 1 - n])
    requires forall k :: |s| - n <= k < |s| ==> IsWordChar(s[k])
    ensures TrailingWordRun(s) == n
  {
  }

  /** A suffix that contains a non-word character decides the trailing run alone. */
  lemma {:induction false} TrailingOfSuffix(t: string, k: nat)
    requires k <= |t| && TrailingWordRun(t[k..]) < |t| - k
    ensures TrailingWordRun(t) == TrailingWordRun(t[k..])
    decreases |t|
  {
    var b := t[k..];
    assert b[|b| - 1] == t[|t| - 1];
    if IsWordChar(t[|t| - 1]) {
      var t', b' := t[..|t| - 1], b[..|b| - 1];
      assert TrailingWordRun(b) == TrailingWordRun(b') + 1;
      assert TrailingWordRun(t) == TrailingWordRun(t') + 1;
      assert t'[k..] == b';
      TrailingOfSuffix(t', k);
    }
  }

  /** Dotted words, a '.', dotted words: dotted words. */
  lemma JoinAtDot(d: string, j: nat)
    requires j + 1 < |d| && d[j] == '.' && Words(d[..j]) && Words(d[j + 1..])
    ensures Words(d)
  {
    WordsJoin(d[..j], d[j + 1..]);
    assert d == d[..j] + ['.'] + d[j + 1..];
  }

  /** The trailing run and the '.' before it, read off a suffix that has them. */
  lemma TailFromSuffix(d: string, j: nat)
    requires j < |d|
    requires 2 <= TrailingWordRun(d[j..]) < |d| - j
    requires d[j..][|d| - j - 1 - TrailingWordRun(d[j..])] == '.'
    ensures TrailingWordRun(d) == TrailingWordRun(d[j..])
    ensures d[|d| - 1 - TrailingWordRun(d)] == '.'
  {
    TrailingOfSuffix(d, j);
  }

  lemma TopLevelRunsShape(t: string)
    requires TopLevelRuns(t)
    ensures |t| >= 3 && t[0] == '.' && Words(t[1..])
    ensures 2 <= TrailingWordRun(t) <= 3 && t[|t| - 1 - TrailingWordRun(t)] == '.'
  {
    TopLevelRunsWords(t);
    TopLevelRunsTail(t);
  }

  /** After the leading '.', the runs are dotted words. */
  lemma {:induction false} TopLevelRunsWords(t: string)
    requires TopLevelRuns(t)
    ensures |t| >= 3 && t[0] == '.' && Words(t[1..])
    decreases |t|
  {
    var n := if TopLevelRunOf(t, 2) then 2 else 3;
    WordRunIsWords(t[1..n + 1]);
    if |t| == n + 1 {
      assert t[1..] == t[1..n + 1];
    } else {
      var rest := t[n + 1..];
      TopLevelRunsWords(rest);
      assert rest[1..] == t[n + 2..];
      RunThenWords(t, n);
    }
  }

  /** The last run has two or three characters and a '.' before it. */
  lemma {:induction false} TopLevelRunsTail(t: string)
    requires TopLevelRuns(t)
    ensures 2 <= TrailingWordRun(t) <= 3 && TrailingWordRun(t) < |t| && t[|t| - 1 - TrailingWordRun(t)] == '.'
    decreases |t|
  {
    var n := if TopLevelRunOf(t, 2) then 2 else 3;
    if |t| == n + 1 {
      TrailingAllWord(t, n);
    } else {
      TopLevelRunsTail(t[n + 1..]);
      TailFromSuffix(t, n + 1);
    }
  }

  /** A word run, a '.' and dotted words are dotted words. */
  lemma RunThenWords(t: string, n: nat)
    requires n + 2 < |t| && Words(t[1..n + 1]) && t[n + 1] == '.' && Words(t[n + 2..])
    ensures Words(t[1..])
  {
    var u := t[1..];
    assert u[..n] == t[1..n + 1] && u[n] == '.' && u[n + 1..] == t[n + 2..];
    JoinAtDot(u, n);
  }

  /** A domain read by the regular expression passes the scan. */
  lemma DomainShape(d: string, j: nat)
    requires j < |d| && Words(d[..j]) && TopLevelRuns(d[j..])
    ensures DomainShapeOk(d)
  {
    var t := d[j..];
    TopLevelRunsShape(t);
    assert d[j] == '.' && d[j + 1..] == t[1..];
    JoinAtDot(d, j);
    TailFromSuffix(d, j);
  }

  /** A domain that passes the scan splits, at its last '.', into the regular expression's
      reading. */
  lemma DomainMatches(d: string, j: nat)
    requires Words(d)
    requires 2 <= TrailingWordRun(d) <= 3 && j == |d| - 1 - TrailingWordRun(d)
    requires d[j] == '.'
    ensures 0 < j && Words(d[..j]) && TopLevelRuns(d[j..])
  {
    var n := TrailingWordRun(d);
    WordsBeforeSep(d, j);
    var t := d[j..];
    var run := t[1..n + 1];
    assert WordRun(run) by {
      forall k | 0 <= k < |run| ensures IsWordChar(run[k]) {
        assert run[k] == d[j + 1 + k];
      }
    }
    assert TopLevelRunOf(t, n);
  }

  lemma ShapeMatchesPattern(s: string)
    requires EmailShapeOk(s)
    ensures MatchesEmailPattern(s)
  {
    var i := IndexOf(s, '@').value;
    var d := s[i + 1..];
    var j := |d| - 1 - TrailingWordRun(d);
    DomainMatches(d, j);
    assert s[i + 1..i + 1 + j] == d[..j];
    assert s[i + 1 + j..] == d[j..];
    assert Words(s[..i]) && Words(s[i + 1..i + 1 + j]) && TopLevelRuns(s[i + 1 + j..]);
  }

  lemma PatternHasShape(s: string)
    requires MatchesEmailPattern(s)
    ensures EmailShapeOk(s)
  {
    var i, j :| 0 <= i < j < |s| && s[i] == '@' && Words(s[..i]) &&
                Words(s[i + 1..j]) && TopLevelRuns(s[j..]);
    WordsHasNoAt(s[..i]);
    IndexOfAt(s, '@', i);
    var d := s[i + 1..];
    assert d[..j - i - 1] == s[i + 1..j];
    assert d[j - i - 1..] == s[j..];
    DomainShape(d, j - i - 1);
  }

  /** The scan accepts exactly the strings the regular expression matches. */
  lemma EmailShapeMatchesPattern(s: string)
    ensures EmailShapeOk(s) <==> MatchesEmailPattern(s)
  {
    if EmailShapeOk(s) {
      ShapeMatchesPattern(s);
    }
    if MatchesEmailPattern(s) {
      PatternHasShape(s);
    }
  }

  // ---------------------------------------------------------------------------
  // The persisted document and its schema rules

  const PasswordMinLength: nat := 6

  datatype AdminDoc = AdminDoc(id: Id, email: string, role: AdminRole, password: string)

  /** The first failing validator of each path, in schema order: password (required,
      minlength 6), then e-mail (required, pattern). An empty value skips the pattern and
      length checks, as Mongoose does. */
  function AdminSchemaErrors(d: AdminDoc): (r: seq<string>)
    ensures r == [] <==> |d.password| >= PasswordMinLength && d.email != "" && MatchesEmailPattern(d.email)
    ensures |r| <= 2
  {
    EmailShapeMatchesPattern(d.email);
    (if d.password == "" then ["Password is required"]
     else if |d.password| < PasswordMinLength then ["Password must be at least 6 characters long"]
     else [])
    + (if d.email == "" then ["Email is required"]
       else if !EmailShapeOk(d.email) then ["Please enter a valid email"]
       else [])
  }

  function AfterAdminSave(d: AdminDoc, passwordModified: bool, p: Primitives, salt: Salt): (r: AdminDoc)
    ensures r.(password := d.password) == d
    ensures r.password != d.password ==> passwordModified && AdminSchemaErrors(d) == []
  {
    if AdminSchemaErrors(d) == [] && passwordModified then d.(password := p.bcryptHash(d.password, salt)) else d
  }

  class Admin {
    const id: Id
    const email: string
    const role: AdminRole
    var password: string
    var passwordModified: bool

    function Doc(): AdminDoc
      reads this
    {
      AdminDoc(id, email, role, password)
    }

    ghost predicate Valid()
      reads this
    {
      AdminSchemaErrors(Doc()) == [] && !passwordModified
    }

    constructor (id: Id, email: string, password: string, role: AdminRole)
      ensures Doc() == AdminDoc(id, NormalizeEmail(email), role, password)
      ensures passwordModified
    {
      this.id := id;
      this.email := NormalizeEmail(email);
      this.role := role;
      this.password := password;
      passwordModified := true;
    }

    /** save(): validation on the plain password first, then the hash gate. */
    method Save(p: Primitives, salt: Salt) returns (out: Outcome<seq<string>>)
      modifies this`password, this`passwordModified
      ensures out.Fail? <==> AdminSchemaErrors(old(Doc())) != []
      ensures out.Fail? ==> out.error == AdminSchemaErrors(old(Doc())) && passwordModified == old(passwordModified)
      ensures out.Pass? ==> Valid()
      ensures Doc() == AfterAdminSave(old(Doc()), old(passwordModified), p, salt)
    {
      var errors := AdminSchemaErrors(Doc());
      if errors != [] {
        return Fail(errors);
      }
      if passwordModified {
        password := p.bcryptHash(password, salt);
        passwordModified := false;
      }
      out := Pass;
    }

    function ComparePassword(p: Primitives, candidate: string): bool
      reads this
    {
      p.bcryptCompare(candidate, password)
    }
  }

  /** A stored digest (60 characters) always passes the length rule again, so re-saving a
      valid admin changes nothing. */
  lemma DigestPassesLengthRule(d: AdminDoc, p: Primitives, salt: Salt)
    requires AdminSchemaErrors(d) == []
    ensures AdminSchemaErrors(d.(password := p.bcryptHash(d.password, salt))) == []
  {
  }
}
