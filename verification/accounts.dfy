/**
 * Users, their permissions and the password, QR and Google sign-up paths of `internal/auth`.
 * The `users` and `user_permissions` tables are the fields of `UserTable`; bcrypt, SHA-256 and
 * base64 are function parameters (`BcryptMatches(hash, password)` is "CompareHashAndPassword
 * returned nil").
 */
module Accounts {
  import opened Wrappers
  import opened Text
  import opened Tables

  /** A row of `users`. */
  datatype UserRow = UserRow(
    id: int,
    username: string,
    passwordHash: string,
    displayName: string,
    email: string,
    defaultCenterId: Option<int>,
    forceDefaultCenter: bool)

  /** A row of `user_permissions`. */
  datatype Grant = Grant(userId: int, permission: string)

  /**
   * A user as `GetUser`, `GetUserByEmail` and `GetUserByID` load it: the selected columns
   * (the default-center columns are not selected) and the user's permissions in table order.
   */
  datatype User = User(
    id: int,
    username: string,
    passwordHash: string,
    displayName: string,
    email: string,
    permissions: seq<string>)

  /** The profile Google returns for a signed-in account (the fields the portal reads). */
  datatype GoogleUserInfo = GoogleUserInfo(id: string, email: string, verifiedEmail: bool, name: string)

  datatype AuthError = InvalidCredentials | UserNotFound | InvalidQRData

  const AdminPermission: string := "ADMIN"
  /** What a user created by Google sign-in may do: view materials and activities, nothing else. */
  const ReadOnlyPermissions: seq<string> := ["materiales.view", "actividades.view"]

  /** `GetUserPermissions`: the permissions granted to `userId`, in table order. */
  function PermissionsOf(grants: seq<Grant>, userId: int): (perms: seq<string>)
    ensures forall p :: p in perms <==> Grant(userId, p) in grants
  {
    if |grants| == 0 then []
    else if grants[0].userId == userId then [grants[0].permission] + PermissionsOf(grants[1..], userId)
    else PermissionsOf(grants[1..], userId)
  }

  /** The user a row stands for, with its permissions attached. */
  function Load(row: UserRow, grants: seq<Grant>): User {
    User(row.id, row.username, row.passwordHash, row.displayName, row.email, PermissionsOf(grants, row.id))
  }

  /** The lookup shared by `GetUser`, `GetUserByEmail` and `GetUserByID`: the first row matching `p`. */
  function LookupUser(users: seq<UserRow>, grants: seq<Grant>, p: UserRow -> bool): (r: Result<User, AuthError>)
    ensures r.Failure? <==> forall j :: 0 <= j < |users| ==> !p(users[j])
    ensures r.Failure? ==> r.error == UserNotFound
    ensures r.Success? ==> exists k :: 0 <= k < |users| && p(users[k]) && r.value == Load(users[k], grants)
                                  && forall j :: 0 <= j < k ==> !p(users[j])
  {
    match FirstWhere(users, p)
    case None => Failure(UserNotFound)
    case Some(k) => Success(Load(users[k], grants))
  }

  function GetUser(users: seq<UserRow>, grants: seq<Grant>, username: string): (r: Result<User, AuthError>)
    ensures r.Success? ==> r.value.username == username
    ensures r.Failure? <==> forall j :: 0 <= j < |users| ==> users[j].username != username
  {
    LookupUser(users, grants, (u: UserRow) => u.username == username)
  }

  function GetUserByEmail(users: seq<UserRow>, grants: seq<Grant>, email: string): (r: Result<User, AuthError>)
    ensures r.Success? ==> r.value.email == email
    ensures r.Failure? <==> forall j :: 0 <= j < |users| ==> users[j].email != email
  {
    LookupUser(users, grants, (u: UserRow) => u.email == email)
  }

  function GetUserByID(users: seq<UserRow>, grants: seq<Grant>, id: int): (r: Result<User, AuthError>)
    ensures r.Success? ==> r.value.id == id && r.value.permissions == PermissionsOf(grants, id)
    ensures r.Failure? <==> forall j :: 0 <= j < |users| ==> users[j].id != id
  {
    LookupUser(users, grants, (u: UserRow) => u.id == id)
  }

  /**
   * `VerifyPassword`: the password matches the stored bcrypt hash, or the hash is a PHP `$2y$`
   * hash and matches once its prefix is read as `$2a$`. Every mismatch is `InvalidCredentials`.
   */
  function VerifyPassword(user: User, password: string, bcryptMatches: (string, string) -> bool): (r: Result<(), AuthError>)
    ensures r.Success? <==>
      bcryptMatches(user.passwordHash, password) ||
      ("$2y$" <= user.passwordHash && bcryptMatches("$2a$" + user.passwordHash[4..], password))
    ensures r.Failure? ==> r.error == InvalidCredentials
  {
    if bcryptMatches(user.passwordHash, password) then Success(())
    else if "$2y$" <= user.passwordHash then
      var modified := ReplaceFirst(user.passwordHash, "$2y$", "$2a$");
      if bcryptMatches(modified, password) then Success(()) else Failure(InvalidCredentials)
    else Failure(InvalidCredentials)
  }

  /**
   * `Login`: an unknown username is `UserNotFound`, a known one with the wrong password is
   * `InvalidCredentials`, and success returns the first user with that name.
   */
  function Login(users: seq<UserRow>, grants: seq<Grant>, username: string, password: string,
                 bcryptMatches: (string, string) -> bool): (r: Result<User, AuthError>)
    ensures r.Success? ==> r.value.username == username && VerifyPassword(r.value, password, bcryptMatches).Success?
    ensures r.Success? ==> GetUser(users, grants, username) == r
    ensures GetUser(users, grants, username).Failure? ==> r == Failure(UserNotFound)
    ensures GetUser(users, grants, username).Success? && r.Failure? ==> r.error == InvalidCredentials
  {
    match GetUser(users, grants, username)
    case Failure(e) => Failure(e)
    case Success(user) =>
      match VerifyPassword(user, password, bcryptMatches)
      case Failure(e) => Failure(e)
      case Success(_) => Success(user)
  }

  /** The QR payload format: `username:base64(password):hex(sha256(username + ":" + password))`. */
  function QRPayload(username: string, encodedPassword: string, hash: string): string {
    username + ":" + encodedPassword + ":" + hash
  }

  /**
   * `LoginWithQR`: the payload must split on `:` into exactly three parts, the middle part must be
   * valid base64, and the last part must be the hex SHA-256 of `username:password`; any failure
   * there is `InvalidQRData`. A payload that passes is a password login.
   */
  function LoginWithQR(qrData: string, users: seq<UserRow>, grants: seq<Grant>,
                       base64Decode: string -> Option<string>, sha256Hex: string -> string,
                       bcryptMatches: (string, string) -> bool): (r: Result<User, AuthError>)
    ensures |Split(qrData, ':')| != 3 ==> r == Failure(InvalidQRData)
    ensures var parts := Split(qrData, ':');
      (|parts| == 3 && base64Decode(parts[1]).None?) ==> r == Failure(InvalidQRData)
    ensures var parts := Split(qrData, ':');
      (|parts| == 3 && base64Decode(parts[1]).Some? &&
       sha256Hex(parts[0] + ":" + base64Decode(parts[1]).value) != parts[2]) ==> r == Failure(InvalidQRData)
    ensures var parts := Split(qrData, ':');
      (|parts| == 3 && base64Decode(parts[1]).Some? &&
       sha256Hex(parts[0] + ":" + base64Decode(parts[1]).value) == parts[2]) ==>
      r == Login(users, grants, parts[0], base64Decode(parts[1]).value, bcryptMatches)
    ensures r.Success? ==>
      var parts := Split(qrData, ':');
      |parts| == 3 && base64Decode(parts[1]).Some? &&
      sha256Hex(parts[0] + ":" + base64Decode(parts[1]).value) == parts[2] &&
      r == Login(users, grants, parts[0], base64Decode(parts[1]).value, bcryptMatches)
    ensures r.Failure? ==> r.error in {InvalidQRData, UserNotFound, InvalidCredentials}
  {
    var parts := Split(qrData, ':');
    if |parts| != 3 then Failure(InvalidQRData)
    else
      var username := parts[0];
      match base64Decode(parts[1])
      case None => Failure(InvalidQRData)
      case Some(password) =>
        if sha256Hex(username + ":" + password) != parts[2] then Failure(InvalidQRData)
        else Login(users, grants, username, password, bcryptMatches)
  }

  /**
   * A payload built from a colon-free username, a colon-free encoding of the password and the
   * matching hash is a password login for that username and password; this is what the QR codes
   * handed to users carry.
   */
  lemma QRLoginRoundTrip(username: string, encoded: string, password: string,
                         users: seq<UserRow>, grants: seq<Grant>,
                         base64Decode: string -> Option<string>, sha256Hex: string -> string,
                         bcryptMatches: (string, string) -> bool)
    requires ':' !in username && ':' !in encoded && ':' !in sha256Hex(username + ":" + password)
    requires base64Decode(encoded) == Some(password)
    ensures LoginWithQR(QRPayload(username, encoded, sha256Hex(username + ":" + password)),
                        users, grants, base64Decode, sha256Hex, bcryptMatches)
            == Login(users, grants, username, password, bcryptMatches)
  {
    SplitThree(username, encoded, sha256Hex(username + ":" + password), ':');
  }

  /**
   * `UserHasAccess`: no user has access to nothing; a user has access to `moduleName` exactly when
   * one of its permissions is `ADMIN` or `moduleName` itself.
   */
  method UserHasAccess(user: Option<User>, moduleName: string) returns (ok: bool)
    ensures ok <==> user.Some? && (AdminPermission in user.value.permissions || moduleName in user.value.permissions)
  {
    if user.None? {
      return false;
    }
    var perms := user.value.permissions;
    for i := 0 to |perms|
      invariant forall j :: 0 <= j < i ==> perms[j] != AdminPermission && perms[j] != moduleName
    {
      if perms[i] == AdminPermission {
        return true;
      }
      if perms[i] == moduleName {
        return true;
      }
    }
    return false;
  }

  /** The username tried at round `k` of the sign-up loop: the base, then base1, base2, ... */
  function Candidate(base: string, k: nat): string {
    if k == 0 then base else base + NatToString(k)
  }

  /** Different rounds try different usernames, so the loop never retries a name. */
  lemma CandidateInjective(base: string, j: nat, k: nat)
    requires Candidate(base, j) == Candidate(base, k)
    ensures j == k
  {
    assert j == 0 <==> |Candidate(base, j)| == |base|;
    assert k == 0 <==> |Candidate(base, k)| == |base|;
    if j != 0 && k != 0 {
      assert NatToString(j) == Candidate(base, j)[|base|..];
      assert NatToString(k) == Candidate(base, k)[|base|..];
      NatToStringInjective(j, k);
    }
  }

  ghost predicate TriedBefore(base: string, name: string, k: nat) {
    exists j :: 0 <= j < k && name == Candidate(base, j)
  }

  function Usernames(users: seq<UserRow>): set<string> {
    set u | u in users :: u.username
  }

  /**
   * The username loop of `CreateUserFromGoogleOAuth`: the first of base, base1, base2, ... that no
   * user has. It always ends, because every round tries a name not tried before and there are only
   * finitely many names taken.
   */
  method FreeUsername(users: seq<UserRow>, base: string) returns (name: string, ghost k: nat)
    ensures name == Candidate(base, k)
    ensures name !in Usernames(users)
    ensures forall j :: 0 <= j < k ==> Candidate(base, j) in Usernames(users)
  {
    var taken := Usernames(users);
    var counter := 0;
    name, k := base, 0;
    ghost var tried: set<string> := {};
    while name in taken
      invariant counter == k
      invariant name == Candidate(base, k)
      invariant forall j :: 0 <= j < k ==> Candidate(base, j) in taken
      invariant tried <= taken
      invariant forall x :: x in tried ==> TriedBefore(base, x, k)
      decreases taken - tried
    {
      if name in tried {
        var j :| 0 <= j < k && name == Candidate(base, j);
        CandidateInjective(base, j, k);
        assert false;
      }
      forall x | x in tried ensures TriedBefore(base, x, k + 1) {
        var j :| 0 <= j < k && x == Candidate(base, j);
        assert 0 <= j < k + 1;
      }
      tried := tried + {name};
      counter, k := counter + 1, k + 1;
      name := base + NatToString(counter);
    }
  }

  /** The id SQLite gives the next inserted row: one more than the largest id, 1 for an empty table. */
  function NextId(users: seq<UserRow>): (id: int)
    ensures id >= 1
    ensures forall j :: 0 <= j < |users| ==> users[j].id < id
  {
    NextKey(users, (u: UserRow) => u.id)
  }

  /** The `user_permissions` rows granting each of `perms` to `userId`, in order. */
  function GrantsFor(userId: int, perms: seq<string>): (r: seq<Grant>)
    ensures |r| == |perms|
    ensures forall i :: 0 <= i < |perms| ==> r[i] == Grant(userId, perms[i])
  {
    if |perms| == 0 then [] else GrantsFor(userId, perms[..|perms| - 1]) + [Grant(userId, perms[|perms| - 1])]
  }

  /** The `users` and `user_permissions` tables. */
  class UserTable {
    var users: seq<UserRow>
    var grants: seq<Grant>

    /** Ids are the primary key. */
    ghost predicate Valid()
      reads this
    {
      forall i, j :: 0 <= i < j < |users| ==> users[i].id != users[j].id
    }

    constructor ()
      ensures Valid() && users == [] && grants == []
    {
      users, grants := [], [];
    }

    /**
     * `CreateUserFromGoogleOAuth`: inserts a password-less user named after the local part of the
     * e-mail (the first free of base, base1, ...), grants it the read-only permissions, and returns
     * the user `GetUserByEmail` then finds.
     */
    method CreateUserFromGoogleOAuth(info: GoogleUserInfo) returns (r: Result<User, AuthError>)
      requires Valid()
      modifies this
      ensures Valid()
      ensures exists k: nat ::
        var name := Candidate(Split(info.email, '@')[0], k);
        name !in Usernames(old(users)) &&
        (forall j :: 0 <= j < k ==> Candidate(Split(info.email, '@')[0], j) in Usernames(old(users))) &&
        users == old(users) + [UserRow(NextId(old(users)), name, "", info.name, info.email, None, false)]
      ensures grants == old(grants) + GrantsFor(NextId(old(users)), ReadOnlyPermissions)
      ensures r == GetUserByEmail(users, grants, info.email)
    {
      var base := Split(info.email, '@')[0];
      var name;
      ghost var k;
      name, k := FreeUsername(users, base);
      var id := NextId(users);
      var row := UserRow(id, name, "", info.name, info.email, None, false);
      users := users + [row];
      assert users[|users| - 1] == row;
      ghost var added := users;
      for i := 0 to |ReadOnlyPermissions|
        invariant users == added
        invariant grants == old(grants) + GrantsFor(id, ReadOnlyPermissions[..i])
      {
        assert ReadOnlyPermissions[..i + 1] == ReadOnlyPermissions[..i] + [ReadOnlyPermissions[i]];
        grants := grants + [Grant(id, ReadOnlyPermissions[i])];
      }
      assert users == old(users) + [UserRow(NextId(old(users)), Candidate(base, k), "", info.name, info.email, None, false)];
      r := GetUserByEmail(users, grants, info.email);
    }
  }

  /**
   * After Google sign-up of an e-mail nobody had, the returned user is the new row, and it holds
   * both read-only permissions and nothing the new id did not already hold.
   */
  lemma SignUpFindsNewUser(old_users: seq<UserRow>, old_grants: seq<Grant>, row: UserRow, r: Result<User, AuthError>)
    requires forall j :: 0 <= j < |old_users| ==> old_users[j].email != row.email
    requires r == GetUserByEmail(old_users + [row], old_grants + GrantsFor(row.id, ReadOnlyPermissions), row.email)
    ensures r.Success? && r.value.id == row.id && r.value.username == row.username && r.value.passwordHash == row.passwordHash
    ensures forall p :: p in ReadOnlyPermissions ==> p in r.value.permissions
    ensures forall p :: p in r.value.permissions ==> p in ReadOnlyPermissions || Grant(row.id, p) in old_grants
  {
    var users := old_users + [row];
    assert users[|old_users|] == row;
  }
}
