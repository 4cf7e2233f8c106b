/**
 * Registration and login (api/src/routes/auth.js). The `users` table is a map
 * keyed by normalised email, which is what its unique constraint on `email`
 * amounts to; bcrypt and token signing are passed in as functions.
 */
module AuthRoutes {
  import opened Wrappers
  import opened Tokens

  /** `expiresIn: "2h"`, in seconds. */
  const TwoHours: int := 2 * 60 * 60

  const BadRequest: nat := 400
  const Conflict: nat := 409
  const MissingFieldsError: string := "email and password required"
  const DuplicateEmailError: string := "Email already exists"
  const CredentialsError: string := "Invalid credentials"

  /** A body field that is truthy: present and not the empty string. */
  predicate Present(field: Option<string>)
  {
    field.Some? && field.value != ""
  }

  /** `toLowerCase` on one character (ASCII letters). */
  function LowerChar(c: char): char
  {
    if 'A' <= c <= 'Z' then (c as int + 32) as char else c
  }

  /** `s.toLowerCase()`. */
  function Lower(s: string): string
  {
    seq(|s|, i requires 0 <= i < |s| => LowerChar(s[i]))
  }

  /** The characters `trim` removes: ECMAScript white space and line terminators. */
  predicate IsTrimSpace(c: char)
  {
    var n := c as int;
    n == 0x09 || n == 0x0A || n == 0x0B || n == 0x0C || n == 0x0D || n == 0x20 ||
    n == 0xA0 || n == 0x1680 || (0x2000 <= n <= 0x200A) || n == 0x2028 || n == 0x2029 ||
    n == 0x202F || n == 0x205F || n == 0x3000 || n == 0xFEFF
  }

  /** Drops leading white space. */
  function TrimStart(s: string): (r: string)
    ensures |r| <= |s|
  {
    if s != [] && IsTrimSpace(s[0]) then TrimStart(s[1..]) else s
  }

  /** Drops trailing white space. */
  function TrimEnd(s: string): (r: string)
    ensures |r| <= |s|
  {
    if s != [] && IsTrimSpace(s[|s| - 1]) then TrimEnd(s[..|s| - 1]) else s
  }

  /** What `TrimStart` leaves is a suffix of its input that does not start with white space. */
  lemma {:induction false} TrimStartIsSuffix(s: string)
    ensures TrimStart(s) == s[|s| - |TrimStart(s)|..]
    ensures TrimStart(s) == [] || !IsTrimSpace(TrimStart(s)[0])
  {
    if s != [] && IsTrimSpace(s[0]) {
      TrimStartIsSuffix(s[1..]);
      assert s[1..][|s| - 1 - |TrimStart(s)|..] == s[|s| - |TrimStart(s)|..];
    }
  }

  /** What `TrimEnd` leaves is a prefix of its input that does not end with white space. */
  lemma {:induction false} TrimEndIsPrefix(s: string)
    ensures TrimEnd(s) == s[..|TrimEnd(s)|]
    ensures TrimEnd(s) == [] || !IsTrimSpace(TrimEnd(s)[|TrimEnd(s)| - 1])
  {
    if s != [] && IsTrimSpace(s[|s| - 1]) {
      TrimEndIsPrefix(s[..|s| - 1]);
      assert s[..|s| - 1][..|TrimEnd(s)|] == s[..|TrimEnd(s)|];
    }
  }

  /** Only white space is dropped from the front. */
  lemma {:induction false} TrimStartDropsSpace(s: string, i: nat)
    requires i < |s| - |TrimStart(s)|
    ensures IsTrimSpace(s[i])
  {
    if i > 0 {
      TrimStartDropsSpace(s[1..], i - 1);
    }
  }

  /** Only white space is dropped from the back. */
  lemma {:induction false} TrimEndDropsSpace(s: string, i: nat)
    requires |TrimEnd(s)| <= i < |s|
    ensures IsTrimSpace(s[i])
  {
    if i < |s| - 1 {
      TrimEndDropsSpace(s[..|s| - 1], i);
    }
  }

  /** `s.trim()`. */
  function Trim(s: string): string
  {
    TrimEnd(TrimStart(s))
  }

  /** A trimmed string is the slice of its input that starts after the leading white space. */
  lemma TrimIsSlice(s: string)
    ensures var i := |s| - |TrimStart(s)|;
            i + |Trim(s)| <= |s| && Trim(s) == s[i..i + |Trim(s)|]
  {
    var a := TrimStart(s);
    var r := TrimEnd(a);
    var i := |s| - |a|;
    TrimStartIsSuffix(s);
    TrimEndIsPrefix(a);
    assert a == s[i..];
    assert r == a[..|r|];
    assert s[i..][..|r|] == s[i..i + |r|];
  }

  /** A trimmed string has no white space at either end. */
  lemma TrimEnds(s: string)
    ensures Trim(s) == [] || (!IsTrimSpace(Trim(s)[0]) && !IsTrimSpace(Trim(s)[|Trim(s)| - 1]))
  {
    var a := TrimStart(s);
    var r := TrimEnd(a);
    TrimStartIsSuffix(s);
    TrimEndIsPrefix(a);
    if r != [] {
      assert r[0] == a[..|r|][0] == a[0];
    }
  }

  /** Trimming a string with no white space at either end changes nothing. */
  lemma TrimmedIsFixed(s: string)
    requires s == [] || (!IsTrimSpace(s[0]) && !IsTrimSpace(s[|s| - 1]))
    ensures Trim(s) == s
  {
  }

  /** `email.toLowerCase().trim()`, applied before every insert and every lookup. */
  function Normalize(email: string): string
  {
    Trim(Lower(email))
  }

  /** Normalising twice is normalising once, so a stored email is its own key. */
  lemma NormalizeIdempotent(email: string)
    ensures Normalize(Normalize(email)) == Normalize(email)
  {
    var low := Lower(email);
    var y := Trim(low);
    TrimIsSlice(low);
    TrimEnds(low);
    var i := |low| - |TrimStart(low)|;
    assert Lower(y) == y by {
      forall k | 0 <= k < |y|
        ensures LowerChar(y[k]) == y[k]
      {
        assert y[k] == low[i + k];
      }
    }
    TrimmedIsFixed(y);
  }

  /** Two spellings of one address that differ only in letter case share one key. */
  lemma CaseVariantsCollide()
    ensures Normalize("A@b.com") == Normalize("a@B.com") == "a@b.com"
  {
    assert Lower("A@b.com") == "a@b.com";
    assert Lower("a@B.com") == "a@b.com";
    TrimmedIsFixed("a@b.com");
  }

  /** `role === "admin" ? "admin" : "user"`. */
  function SafeRole(role: Option<string>): (r: string)
    ensures r == AdminRole <==> role == Some(AdminRole)
    ensures r == AdminRole || r == UserRole
  {
    if role == Some(AdminRole) then AdminRole else UserRole
  }

  /** A row of `users`. */
  datatype User = User(id: int, email: string, passwordHash: string, role: string, createdAt: int)

  /** `RETURNING id, email, role, created_at`: the password hash never leaves the table. */
  datatype PublicUser = PublicUser(id: int, email: string, role: string, createdAt: int)

  datatype RegisterReply = Created(user: PublicUser) | RegisterFailed(status: nat, error: string)

  datatype LoginReply = TokenIssued(token: string) | LoginFailed(status: nat, error: string)

  /**
   * Every row sits under its own email, which is normalised; every role is
   * admin or user; ids are positive, below the next id, and distinct.
   */
  ghost predicate TableInvariant(users: map<string, User>, nextId: int)
  {
    && 1 <= nextId
    && (forall k :: k in users ==>
          && users[k].email == k
          && Normalize(k) == k
          && (users[k].role == AdminRole || users[k].role == UserRole)
          && 0 < users[k].id < nextId)
    && (forall k1, k2 :: k1 in users && k2 in users && k1 != k2 ==> users[k1].id != users[k2].id)
  }

  /** Inserting a normalised email not yet taken, with the next id, keeps the invariant. */
  lemma InsertKeepsInvariant(users: map<string, User>, nextId: int, u: User)
    requires TableInvariant(users, nextId)
    requires u.email !in users && Normalize(u.email) == u.email
    requires u.id == nextId && (u.role == AdminRole || u.role == UserRole)
    ensures TableInvariant(users[u.email := u], nextId + 1)
  {
    var after := users[u.email := u];
    forall k | k in after
      ensures after[k].email == k && Normalize(k) == k
      ensures after[k].role == AdminRole || after[k].role == UserRole
      ensures 0 < after[k].id < nextId + 1
    {
      if k != u.email {
        assert after[k] == users[k];
      }
    }
    forall k1, k2 | k1 in after && k2 in after && k1 != k2
      ensures after[k1].id != after[k2].id
    {
      if k1 == u.email {
        assert after[k2] == users[k2];
      } else if k2 == u.email {
        assert after[k1] == users[k1];
      } else {
        assert after[k1] == users[k1] && after[k2] == users[k2];
      }
    }
  }

  /** What one registration leaves behind: the reply, the rows, and the next id. */
  datatype Registration = Registration(reply: RegisterReply, users: map<string, User>, nextId: int)

  /**
   * POST /auth/register: 400 when a field is missing, 409 when the
   * normalised email is taken (the table unchanged in both cases), and
   * otherwise one new row under that email with the next id and the safe role.
   */
  function Registered(users: map<string, User>, nextId: int, email: Option<string>, password: Option<string>,
                      role: Option<string>, hash: string -> string, now: int): (r: Registration)
    ensures r.reply.Created? <==> Present(email) && Present(password) && Normalize(email.value) !in users
    ensures !(Present(email) && Present(password)) ==> r.reply == RegisterFailed(BadRequest, MissingFieldsError)
    ensures Present(email) && Present(password) && Normalize(email.value) in users ==>
              r.reply == RegisterFailed(Conflict, DuplicateEmailError)
    ensures !r.reply.Created? ==> r.users == users && r.nextId == nextId
    ensures r.reply.Created? ==>
              && r.nextId == nextId + 1
              && r.users.Keys == users.Keys + {Normalize(email.value)}
              && r.users[Normalize(email.value)] == User(nextId, Normalize(email.value), hash(password.value), SafeRole(role), now)
              && (forall k :: k in users ==> r.users[k] == users[k])
              && r.reply.user == PublicUser(nextId, Normalize(email.value), SafeRole(role), now)
  {
    if !(Present(email) && Present(password)) then
      Registration(RegisterFailed(BadRequest, MissingFieldsError), users, nextId)
    else
      var key := Normalize(email.value);
      if key in users then Registration(RegisterFailed(Conflict, DuplicateEmailError), users, nextId)
      else
        var u := User(nextId, key, hash(password.value), SafeRole(role), now);
        Registration(Created(PublicUser(u.id, u.email, u.role, u.createdAt)), users[key := u], nextId + 1)
  }

  /** A registration, whatever its outcome, keeps the table's invariant. */
  lemma RegisteredKeepsInvariant(users: map<string, User>, nextId: int, email: Option<string>,
                                 password: Option<string>, role: Option<string>,
                                 hash: string -> string, now: int)
    requires TableInvariant(users, nextId)
    ensures var r := Registered(users, nextId, email, password, role, hash, now);
            TableInvariant(r.users, r.nextId)
  {
    if Present(email) && Present(password) && Normalize(email.value) !in users {
      NormalizeIdempotent(email.value);
      InsertKeepsInvariant(users, nextId, User(nextId, Normalize(email.value), hash(password.value), SafeRole(role), now));
    }
  }

  /**
   * The presence check runs before normalisation: an email of spaces only is
   * present, normalises to the empty string, and is stored under that key.
   */
  lemma BlankEmailIsStoredEmpty(users: map<string, User>, nextId: int, password: string,
                                role: Option<string>, hash: string -> string, now: int)
    requires password != "" && "" !in users
    ensures var r := Registered(users, nextId, Some("  "), Some(password), role, hash, now);
            r.reply.Created? && r.reply.user.email == "" && "" in r.users
  {
    assert Lower("  ") == "  ";
  }

  /** The `users` table, keyed by normalised email, with the next value of its id sequence. */
  class UserTable {
    var users: map<string, User>
    var nextId: int

    /** The table's invariant, over its current contents. */
    ghost predicate Valid()
      reads this
    {
      TableInvariant(users, nextId)
    }

    constructor ()
      ensures Valid() && users == map[] && nextId == 1
    {
      users := map[];
      nextId := 1;
    }

    /**
     * POST /auth/register, as an update of the table: the reply, the rows and
     * the id sequence are those `Registered` describes, and the invariant holds.
     */
    method Register(email: Option<string>, password: Option<string>, role: Option<string>,
                    hash: string -> string, now: int) returns (reply: RegisterReply)
      requires Valid()
      modifies this
      ensures Valid()
      ensures Registration(reply, users, nextId) == Registered(old(users), old(nextId), email, password, role, hash, now)
    {
      RegisteredKeepsInvariant(users, nextId, email, password, role, hash, now);
      if !(Present(email) && Present(password)) {
        return RegisterFailed(BadRequest, MissingFieldsError);
      }
      var key := Normalize(email.value);
      var safeRole := SafeRole(role);
      var passwordHash := hash(password.value);
      if key in users {
        return RegisterFailed(Conflict, DuplicateEmailError);
      }
      var u := User(nextId, key, passwordHash, safeRole, now);
      users := users[key := u];
      nextId := nextId + 1;
      reply := Created(PublicUser(u.id, u.email, u.role, u.createdAt));
    }

    /**
     * POST /auth/login: 400 when a field is missing; a token signed over the
     * stored id, email and role with a two-hour expiry when the normalised
     * email is known and the password matches its hash; otherwise one and
     * the same 401.
     */
    function Login(email: Option<string>, password: Option<string>,
                   compare: (string, string) -> bool, sign: Signer): (r: LoginReply)
      reads this
      ensures r == LoginFailed(BadRequest, MissingFieldsError) <==> !(Present(email) && Present(password))
      ensures r.TokenIssued? <==>
                Present(email) && Present(password) && Normalize(email.value) in users &&
                compare(password.value, users[Normalize(email.value)].passwordHash)
      ensures r.TokenIssued? ==>
                var u := users[Normalize(email.value)];
                r.token == sign(Identity(u.id, u.email, u.role), TwoHours)
      ensures Present(email) && Present(password) && !r.TokenIssued? ==>
                r == LoginFailed(Unauthorized, CredentialsError)
    {
      if !(Present(email) && Present(password)) then LoginFailed(BadRequest, MissingFieldsError)
      else
        var key := Normalize(email.value);
        if key !in users then LoginFailed(Unauthorized, CredentialsError)
        else
          var u := users[key];
          if !compare(password.value, u.passwordHash) then LoginFailed(Unauthorized, CredentialsError)
          else TokenIssued(sign(Identity(u.id, u.email, u.role), TwoHours))
    }
  }

  /** An unknown email and a wrong password get the very same reply. */
  lemma UnknownEmailLooksLikeWrongPassword(t: UserTable, unknown: string, known: string, p1: string, p2: string,
                                           compare: (string, string) -> bool, sign: Signer)
    requires unknown != "" && known != "" && p1 != "" && p2 != ""
    requires Normalize(unknown) !in t.users
    requires Normalize(known) in t.users && !compare(p2, t.users[Normalize(known)].passwordHash)
    ensures t.Login(Some(unknown), Some(p1), compare, sign) == t.Login(Some(known), Some(p2), compare, sign)
    ensures t.Login(Some(unknown), Some(p1), compare, sign) == LoginFailed(Unauthorized, CredentialsError)
  {
  }

  /** Login sees an email only through its normalised form: case and surrounding spaces do not matter. */
  lemma LoginIgnoresCase(t: UserTable, e1: string, e2: string, password: Option<string>,
                         compare: (string, string) -> bool, sign: Signer)
    requires e1 != "" && e2 != "" && Normalize(e1) == Normalize(e2)
    ensures t.Login(Some(e1), password, compare, sign) == t.Login(Some(e2), password, compare, sign)
  {
  }

  /**
   * Registering a new email succeeds with the next id; logging in with any
   * case variant of the same email and the same password then yields a token
   * over the stored identity, whose role is the safe role; registering the
   * variant instead is a conflict.
   */
  method RegisterThenLogin(t: UserTable, email: string, variant: string, password: string, role: Option<string>,
                           hash: string -> string, compare: (string, string) -> bool, sign: Signer, now: int)
      returns (created: RegisterReply, login: LoginReply, again: RegisterReply)
    requires t.Valid()
    requires email != "" && variant != "" && password != ""
    requires Normalize(email) == Normalize(variant) && Normalize(email) !in t.users
    requires compare(password, hash(password))
    modifies t
    ensures created == Created(PublicUser(old(t.nextId), Normalize(email), SafeRole(role), now))
    ensures login == TokenIssued(sign(Identity(old(t.nextId), Normalize(email), SafeRole(role)), TwoHours))
    ensures again == RegisterFailed(Conflict, DuplicateEmailError)
  {
    created := t.Register(Some(email), Some(password), role, hash, now);
    login := t.Login(Some(variant), Some(password), compare, sign);
    again := t.Register(Some(variant), Some(password), role, hash, now);
  }
}
