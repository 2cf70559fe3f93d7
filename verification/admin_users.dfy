/**
 * User management in `internal/handlers/admin.go`: create, update (the row and, in the same
 * transaction, the whole permission set) and delete. The `users` table enforces unique usernames
 * and e-mails; `user_permissions` and `user_sessions` reference `users` with cascading deletes.
 * A statement that fails rolls the transaction back, so the tables are written only on commit.
 * `hashPassword` is bcrypt (which may fail) and `driverMessage` the text of a database error.
 */
module AdminUsers {
  import opened Wrappers
  import opened Text
  import opened Affinity
  import opened Tables
  import opened Accounts
  import opened Sessions
  import opened Common
  import opened Admin

  const UsersPath: string := "/admin/usuarios"
  const UserFormTemplate: string := "admin_usuario_form.html"
  const AllFieldsRequired: string := "Todos los campos son requeridos"
  const UpdateFieldsRequired: string := "Username, nombre y email son requeridos"
  const HashFailed: string := "Error al procesar la contraseña"

  /** The posted user form; `permissions` is the `permissions` field array, in posted order. */
  datatype UserForm = UserForm(
    username: string,
    password: string,
    displayName: string,
    email: string,
    permissions: seq<string>,
    defaultCenterId: string,
    forceDefaultCenter: string)

  /** A row that already holds the username or the e-mail. */
  predicate TakenBy(u: UserRow, username: string, email: string) {
    u.username == username || u.email == email
  }

  /** The uniqueness the `users` table enforces: no two rows share a username or an e-mail. */
  ghost predicate UniqueLogins(users: seq<UserRow>) {
    forall i, j :: 0 <= i < j < |users| ==>
      users[i].id != users[j].id && users[i].username != users[j].username && users[i].email != users[j].email
  }

  // ---------------------------------------------------------------------------------------
  // Create

  /**
   * `handleUserCreate` up to the commit: all four fields are required, then the password is
   * hashed, then the insert fails on a taken username or e-mail; otherwise this is the new row.
   */
  function CreateUserCheck(users: seq<UserRow>, form: UserForm, hashPassword: string -> Option<string>,
                           driverMessage: string): (r: Result<UserRow, string>)
    ensures form.username == "" || form.password == "" || form.displayName == "" || form.email == "" ==>
      r == Failure(AllFieldsRequired)
    ensures form.username != "" && form.password != "" && form.displayName != "" && form.email != "" &&
            hashPassword(form.password).None? ==>
      r == Failure(HashFailed)
    ensures form.username != "" && form.password != "" && form.displayName != "" && form.email != "" &&
            hashPassword(form.password).Some? && (exists j :: 0 <= j < |users| && TakenBy(users[j], form.username, form.email)) ==>
      r == Failure("Error al crear el usuario: " + driverMessage)
    ensures r.Success? ==>
      r.value.id == NextId(users) && r.value.username == form.username && r.value.email == form.email &&
      r.value.displayName == form.displayName && r.value.passwordHash == hashPassword(form.password).value &&
      r.value.defaultCenterId == DefaultCenterParam(form.defaultCenterId) &&
      (r.value.forceDefaultCenter <==> form.forceDefaultCenter == "on")
    ensures r.Success? ==> forall j :: 0 <= j < |users| ==> !TakenBy(users[j], form.username, form.email)
  {
    if form.username == "" || form.password == "" || form.displayName == "" || form.email == "" then
      Failure(AllFieldsRequired)
    else
      match hashPassword(form.password)
      case None => Failure(HashFailed)
      case Some(hash) =>
        if FirstWhere(users, (u: UserRow) => TakenBy(u, form.username, form.email)).Some? then
          Failure("Error al crear el usuario: " + driverMessage)
        else
          Success(UserRow(NextId(users), form.username, hash, form.displayName, form.email,
                          DefaultCenterParam(form.defaultCenterId), form.forceDefaultCenter == "on"))
  }

  /** The loop of inserts inside the transaction: one `user_permissions` row per posted permission, in order. */
  method InsertGrants(grants: seq<Grant>, userId: int, perms: seq<string>) returns (staged: seq<Grant>)
    ensures staged == grants + GrantsFor(userId, perms)
  {
    staged := grants;
    for i := 0 to |perms|
      invariant staged == grants + GrantsFor(userId, perms[..i])
    {
      assert perms[..i + 1][..i] == perms[..i];
      staged := staged + [Grant(userId, perms[i])];
    }
    assert perms[..|perms|] == perms;
  }

  /** A created user keeps the table free of duplicate ids, usernames and e-mails. */
  lemma CreateKeepsUnique(users: seq<UserRow>, form: UserForm, hashPassword: string -> Option<string>, driverMessage: string)
    requires UniqueLogins(users)
    requires CreateUserCheck(users, form, hashPassword, driverMessage).Success?
    ensures UniqueLogins(users + [CreateUserCheck(users, form, hashPassword, driverMessage).value])
  {
  }

  /**
   * `AdminUsuarioCrear` (POST): behind the gate, the checks of `CreateUserCheck`; on success the
   * user row and one grant per posted permission are committed together.
   */
  method AdminUsuarioCrear(accounts: UserTable, caller: Option<User>, form: UserForm,
                           hashPassword: string -> Option<string>, driverMessage: string) returns (resp: Response)
    modifies accounts
    requires accounts.Valid()
    ensures accounts.Valid()
    ensures !HasAccess(caller, AdminPermission) ==>
      resp == GateResponse(caller) && accounts.users == old(accounts.users) && accounts.grants == old(accounts.grants)
    ensures HasAccess(caller, AdminPermission) && CreateUserCheck(old(accounts.users), form, hashPassword, driverMessage).Failure? ==>
      resp == Form(UserFormTemplate, CreateUserCheck(old(accounts.users), form, hashPassword, driverMessage).error) &&
      accounts.users == old(accounts.users) && accounts.grants == old(accounts.grants)
    ensures HasAccess(caller, AdminPermission) && CreateUserCheck(old(accounts.users), form, hashPassword, driverMessage).Success? ==>
      var row := CreateUserCheck(old(accounts.users), form, hashPassword, driverMessage).value;
      accounts.users == old(accounts.users) + [row] &&
      accounts.grants == old(accounts.grants) + GrantsFor(row.id, form.permissions) &&
      resp == Redirect(UsersPath + "?success=Usuario creado correctamente")
  {
    var stop := AdminGate(caller);
    if stop.Some? {
      return stop.value;
    }
    var check := CreateUserCheck(accounts.users, form, hashPassword, driverMessage);
    if check.Failure? {
      return Form(UserFormTemplate, check.error);
    }
    var row := check.value;
    var staged := InsertGrants(accounts.grants, row.id, form.permissions);
    accounts.users := accounts.users + [row];
    accounts.grants := staged;
    resp := Redirect(UsersPath + "?success=Usuario creado correctamente");
  }

  // ---------------------------------------------------------------------------------------
  // Update

  /** Some user has the id the path names. */
  predicate UserExists(users: seq<UserRow>, idParam: string) {
    exists i :: 0 <= i < |users| && IdParamMatches(idParam, users[i].id)
  }

  /**
   * The `UPDATE users ... WHERE id = ?`: the named row gets the form's fields, and a new password
   * hash only when `hash` holds one.
   */
  function UpdatedUsers(users: seq<UserRow>, idParam: string, form: UserForm, hash: Option<string>): (r: seq<UserRow>)
    ensures |r| == |users|
    ensures forall i :: 0 <= i < |users| ==> r[i].id == users[i].id
    ensures forall i :: 0 <= i < |users| && !IdParamMatches(idParam, users[i].id) ==> r[i] == users[i]
    ensures forall i :: 0 <= i < |users| && IdParamMatches(idParam, users[i].id) ==>
      r[i].username == form.username && r[i].displayName == form.displayName && r[i].email == form.email &&
      r[i].passwordHash == (if hash.Some? then hash.value else users[i].passwordHash) &&
      r[i].defaultCenterId == DefaultCenterParam(form.defaultCenterId) &&
      (r[i].forceDefaultCenter <==> form.forceDefaultCenter == "on")
  {
    UpdateWhere(users, (u: UserRow) => IdParamMatches(idParam, u.id),
                (u: UserRow) => u.(username := form.username,
                                   passwordHash := if hash.Some? then hash.value else u.passwordHash,
                                   displayName := form.displayName, email := form.email,
                                   defaultCenterId := DefaultCenterParam(form.defaultCenterId),
                                   forceDefaultCenter := form.forceDefaultCenter == "on"))
  }

  /** The update would give another row's username or e-mail to the named user. */
  predicate UpdateConflict(users: seq<UserRow>, idParam: string, form: UserForm) {
    UserExists(users, idParam) &&
    exists j :: 0 <= j < |users| && !IdParamMatches(idParam, users[j].id) && TakenBy(users[j], form.username, form.email)
  }

  /**
   * The permission rows after `DELETE ... WHERE user_id = ?` and one insert per posted
   * permission (an id that does not read as a number inserts nothing here: see `UpdateUserCheck`).
   */
  function ReplacedGrants(grants: seq<Grant>, idParam: string, perms: seq<string>): seq<Grant> {
    DeleteWhere(grants, (g: Grant) => IdParamMatches(idParam, g.userId)) +
    (match SqlInteger(idParam) case Some(id) => GrantsFor(id, perms) case None => [])
  }

  /**
   * `handleUserUpdate` up to the commit. Username, display name and e-mail are required; a
   * password, when given, is hashed; the update fails on a taken username or e-mail; a permission
   * insert for an id no user has fails the foreign key. `Success(hash)` commits, with the new hash
   * if there is one.
   */
  function UpdateUserCheck(users: seq<UserRow>, idParam: string, form: UserForm,
                           hashPassword: string -> Option<string>, driverMessage: string): (r: Result<Option<string>, string>)
    ensures form.username == "" || form.displayName == "" || form.email == "" ==> r == Failure(UpdateFieldsRequired)
    ensures form.username != "" && form.displayName != "" && form.email != "" && form.password != "" &&
            hashPassword(form.password).None? ==>
      r == Failure(HashFailed)
    ensures r.Success? <==>
      form.username != "" && form.displayName != "" && form.email != "" &&
      (form.password != "" ==> hashPassword(form.password).Some?) &&
      !UpdateConflict(users, idParam, form) && (|form.permissions| > 0 ==> UserExists(users, idParam))
    ensures r.Success? ==> r.value == (if form.password == "" then None else hashPassword(form.password))
    ensures r.Success? && |form.permissions| > 0 ==> SqlInteger(idParam).Some?
  {
    if form.username == "" || form.displayName == "" || form.email == "" then Failure(UpdateFieldsRequired)
    else if form.password != "" && hashPassword(form.password).None? then Failure(HashFailed)
    else if UpdateConflict(users, idParam, form) then Failure("Error al actualizar el usuario: " + driverMessage)
    else if |form.permissions| > 0 && !UserExists(users, idParam) then Failure("Error al asignar permisos: " + driverMessage)
    else Success(if form.password == "" then None else hashPassword(form.password))
  }

  /**
   * `AdminUsuarioEditar` (POST): behind the gate and the id check, either nothing is written or
   * the row update and the permission replacement are committed together.
   */
  method AdminUsuarioEditar(accounts: UserTable, caller: Option<User>, idParam: string, form: UserForm,
                            hashPassword: string -> Option<string>, driverMessage: string) returns (resp: Response)
    modifies accounts
    requires accounts.Valid()
    ensures accounts.Valid()
    ensures !HasAccess(caller, AdminPermission) ==>
      resp == GateResponse(caller) && accounts.users == old(accounts.users) && accounts.grants == old(accounts.grants)
    ensures HasAccess(caller, AdminPermission) && idParam == "" ==>
      resp == Redirect(UsersPath + "?error=ID de usuario requerido") &&
      accounts.users == old(accounts.users) && accounts.grants == old(accounts.grants)
    ensures HasAccess(caller, AdminPermission) && idParam != "" &&
            UpdateUserCheck(old(accounts.users), idParam, form, hashPassword, driverMessage).Failure? ==>
      resp == Form(UserFormTemplate, UpdateUserCheck(old(accounts.users), idParam, form, hashPassword, driverMessage).error) &&
      accounts.users == old(accounts.users) && accounts.grants == old(accounts.grants)
    ensures HasAccess(caller, AdminPermission) && idParam != "" &&
            UpdateUserCheck(old(accounts.users), idParam, form, hashPassword, driverMessage).Success? ==>
      accounts.users == UpdatedUsers(old(accounts.users), idParam, form,
                                     UpdateUserCheck(old(accounts.users), idParam, form, hashPassword, driverMessage).value) &&
      accounts.grants == ReplacedGrants(old(accounts.grants), idParam, form.permissions) &&
      resp == Redirect(UsersPath + "?success=Usuario actualizado correctamente")
  {
    var stop := AdminGate(caller);
    if stop.Some? {
      return stop.value;
    }
    if idParam == "" {
      return Redirect(UsersPath + "?error=ID de usuario requerido");
    }
    var check := UpdateUserCheck(accounts.users, idParam, form, hashPassword, driverMessage);
    if check.Failure? {
      return Form(UserFormTemplate, check.error);
    }
    var staged := DeleteWhere(accounts.grants, (g: Grant) => IdParamMatches(idParam, g.userId));
    if |form.permissions| > 0 {
      staged := InsertGrants(staged, SqlInteger(idParam).value, form.permissions);
    } else {
      assert staged == ReplacedGrants(accounts.grants, idParam, form.permissions);
    }
    UpdateKeepsIdsDistinct(accounts.users, idParam, form, check.value);
    accounts.users := UpdatedUsers(accounts.users, idParam, form, check.value);
    accounts.grants := staged;
    resp := Redirect(UsersPath + "?success=Usuario actualizado correctamente");
  }

  lemma {:induction false} PermissionsOfAppend(a: seq<Grant>, b: seq<Grant>, id: int)
    ensures PermissionsOf(a + b, id) == PermissionsOf(a, id) + PermissionsOf(b, id)
  {
    if |a| > 0 {
      PermissionsOfAppend(a[1..], b, id);
      assert (a + b)[1..] == a[1..] + b;
    } else {
      assert a + b == b;
    }
  }

  /** Over grants that all belong to `id`, the permissions of `id` are theirs in order, and nobody else has any. */
  lemma {:induction false} PermissionsOfOneUser(g: seq<Grant>, id: int, other: int)
    requires forall i :: 0 <= i < |g| ==> g[i].userId == id
    ensures |PermissionsOf(g, other)| == if other == id then |g| else 0
    ensures other == id ==> forall i :: 0 <= i < |g| ==> PermissionsOf(g, other)[i] == g[i].permission
  {
    if |g| > 0 {
      var tail := g[1..];
      assert forall i :: 0 <= i < |tail| ==> tail[i] == g[i + 1];
      PermissionsOfOneUser(tail, id, other);
      if other == id {
        var r := PermissionsOf(g, other);
        assert r == [g[0].permission] + PermissionsOf(tail, other);
        forall i | 1 <= i < |g| ensures r[i] == g[i].permission {
          assert r[i] == PermissionsOf(tail, other)[i - 1];
        }
      }
    }
  }

  lemma PermissionsOfGrantsFor(perms: seq<string>, id: int, other: int)
    ensures PermissionsOf(GrantsFor(id, perms), other) == if other == id then perms else []
  {
    PermissionsOfOneUser(GrantsFor(id, perms), id, other);
  }

  lemma PermissionsOfDeleted(grants: seq<Grant>, idParam: string, other: int)
    ensures PermissionsOf(DeleteWhere(grants, (g: Grant) => IdParamMatches(idParam, g.userId)), other) ==
            if IdParamMatches(idParam, other) then [] else PermissionsOf(grants, other)
  {
    PermissionsOfDeletedBy(grants, (g: Grant) => IdParamMatches(idParam, g.userId), other, IdParamMatches(idParam, other));
  }

  /** Deleting by a condition that holds for all of `other`'s grants or for none of them. */
  lemma {:induction false} PermissionsOfDeletedBy(grants: seq<Grant>, p: Grant -> bool, other: int, hit: bool)
    requires forall perm :: p(Grant(other, perm)) == hit
    ensures PermissionsOf(DeleteWhere(grants, p), other) == if hit then [] else PermissionsOf(grants, other)
  {
    if |grants| > 0 {
      DeleteCons(grants, p);
      PermissionsOfDeletedBy(grants[1..], p, other, hit);
      var head := if p(grants[0]) then [] else [grants[0]];
      PermissionsOfAppend(head, DeleteWhere(grants[1..], p), other);
      assert grants[0].userId == other ==> p(grants[0]) == hit by {
        if grants[0].userId == other {
          assert grants[0] == Grant(other, grants[0].permission);
        }
      }
    }
  }

  /**
   * The permission set is replaced wholesale: the named user ends up with exactly the posted
   * permissions, in order, and every other user keeps what it had.
   */
  lemma ReplacedGrantsReplaceOnlyTheUser(grants: seq<Grant>, idParam: string, perms: seq<string>, other: int)
    requires SqlInteger(idParam).Some?
    ensures PermissionsOf(ReplacedGrants(grants, idParam, perms), SqlInteger(idParam).value) == perms
    ensures other != SqlInteger(idParam).value ==>
      PermissionsOf(ReplacedGrants(grants, idParam, perms), other) == PermissionsOf(grants, other)
  {
    var id := SqlInteger(idParam).value;
    var cleared := DeleteWhere(grants, (g: Grant) => IdParamMatches(idParam, g.userId));
    PermissionsOfAppend(cleared, GrantsFor(id, perms), id);
    PermissionsOfAppend(cleared, GrantsFor(id, perms), other);
    PermissionsOfDeleted(grants, idParam, id);
    PermissionsOfDeleted(grants, idParam, other);
    PermissionsOfGrantsFor(perms, id, id);
    PermissionsOfGrantsFor(perms, id, other);
  }

  /** An update rewrites rows in place and never touches an id, so ids stay distinct. */
  lemma UpdateKeepsIdsDistinct(users: seq<UserRow>, idParam: string, form: UserForm, hash: Option<string>)
    requires forall i, j :: 0 <= i < j < |users| ==> users[i].id != users[j].id
    ensures var r := UpdatedUsers(users, idParam, form, hash);
      forall i, j :: 0 <= i < j < |r| ==> r[i].id != r[j].id
  {
  }

  /** An update that passes its checks keeps ids, usernames and e-mails unique. */
  lemma UpdateKeepsUnique(users: seq<UserRow>, idParam: string, form: UserForm, hash: Option<string>)
    requires UniqueLogins(users)
    requires !UpdateConflict(users, idParam, form)
    ensures UniqueLogins(UpdatedUsers(users, idParam, form, hash))
  {
    var r := UpdatedUsers(users, idParam, form, hash);
    forall i, j | 0 <= i < j < |r|
      ensures r[i].id != r[j].id && r[i].username != r[j].username && r[i].email != r[j].email
    {
      var mi, mj := IdParamMatches(idParam, users[i].id), IdParamMatches(idParam, users[j].id);
      if mi && !mj {
        assert UserExists(users, idParam);
        assert !TakenBy(users[j], form.username, form.email);
      } else if mj && !mi {
        assert UserExists(users, idParam);
        assert !TakenBy(users[i], form.username, form.email);
      }
    }
  }

  // ---------------------------------------------------------------------------------------
  // Delete

  /**
   * The guard as written: `strconv.Itoa(user.ID) == userID`, a comparison of texts. It never
   * refuses another user's id; `SelfDeleteGuardBypassed` shows what it lets through.
   */
  function SelfDeleteGuardAsWritten(callerId: int, idParam: string): (b: bool)
    ensures b ==> IsSelf(callerId, idParam)
    ensures b ==> idParam != "" && (idParam[0] == '-' || IsDigit(idParam[0]))
  {
    DecimalFormRead(callerId);
    IntToString(callerId) == idParam
  }

  /** The guard as intended: the path names the caller's own row, as the DELETE will read it. */
  predicate IsSelf(callerId: int, idParam: string) {
    IdParamMatches(idParam, callerId)
  }

  /**
   * The guard as written lets "+7", "07", "7.0", "7e0" and " 7 " through for user 7, while
   * `DELETE ... WHERE id = ?` with any of them removes row 7: an administrator can delete their
   * own account. It does catch the plain decimal form.
   */
  lemma SelfDeleteGuardBypassed(callerId: nat)
    ensures GuardMisses(callerId, "+" + IntToString(callerId))
    ensures GuardMisses(callerId, "0" + IntToString(callerId))
    ensures GuardMisses(callerId, IntToString(callerId) + ".0")
    ensures GuardMisses(callerId, IntToString(callerId) + "e0")
    ensures GuardMisses(callerId, " " + IntToString(callerId) + " ")
    ensures SelfDeleteGuardAsWritten(callerId, IntToString(callerId)) && IsSelf(callerId, IntToString(callerId))
  {
    var t := IntToString(callerId);
    SignedOrPaddedDecimalRead(callerId);
    ZeroFractionRead(callerId);
    ZeroExponentRead(callerId);
    SpacedDecimalRead(callerId);
    DecimalFormRead(callerId);
    assert |"+" + t| != |t| && |"0" + t| != |t| && |t + ".0"| != |t| && |t + "e0"| != |t| && |" " + t + " "| != |t|;
  }

  /** The path names the caller's own row, and the guard as written does not refuse it. */
  predicate GuardMisses(callerId: int, idParam: string) {
    IsSelf(callerId, idParam) && !SelfDeleteGuardAsWritten(callerId, idParam)
  }

  /** What the delete removes, with its cascade: the named user, its grants and its sessions. */
  function RemoveUser(users: seq<UserRow>, idParam: string): (r: seq<UserRow>)
    ensures forall i :: 0 <= i < |r| ==> r[i] in users && !IdParamMatches(idParam, r[i].id)
    ensures forall i :: 0 <= i < |users| && !IdParamMatches(idParam, users[i].id) ==> users[i] in r
  {
    DeleteWhere(users, (u: UserRow) => IdParamMatches(idParam, u.id))
  }

  function CascadeGrants(grants: seq<Grant>, idParam: string): seq<Grant> {
    DeleteWhere(grants, (g: Grant) => IdParamMatches(idParam, g.userId))
  }

  function CascadeSessions(rows: seq<Session>, idParam: string): seq<Session> {
    DeleteWhere(rows, (s: Session) => IdParamMatches(idParam, s.userId))
  }

  /**
   * With the intended guard the caller's own account, grants and sessions survive any delete the
   * handler lets through.
   */
  lemma CallerSurvivesDelete(users: seq<UserRow>, grants: seq<Grant>, rows: seq<Session>, callerId: int, idParam: string)
    requires !IsSelf(callerId, idParam)
    ensures forall i :: 0 <= i < |users| && users[i].id == callerId ==> users[i] in RemoveUser(users, idParam)
    ensures forall i :: 0 <= i < |grants| && grants[i].userId == callerId ==> grants[i] in CascadeGrants(grants, idParam)
    ensures forall i :: 0 <= i < |rows| && rows[i].userId == callerId ==> rows[i] in CascadeSessions(rows, idParam)
  {
  }

  /**
   * `AdminUsuarioEliminar` with the guard as written. Behind the gate: an id is required, the
   * caller's own id in its decimal form is refused (another spelling of it passes, see
   * `SelfDeleteGuardBypassed`), and the delete removes the named user with its grants and
   * sessions (the cascade has something to remove only when the user exists); no such user is
   * reported as not found.
   */
  method AdminUsuarioEliminar(accounts: UserTable, sessions: SessionTable, caller: Option<User>, idParam: string)
      returns (resp: Response)
    modifies accounts, sessions
    requires accounts.Valid()
    ensures accounts.Valid()
    ensures !HasAccess(caller, AdminPermission) ==>
      resp == GateResponse(caller) && accounts.users == old(accounts.users) &&
      accounts.grants == old(accounts.grants) && sessions.rows == old(sessions.rows)
    ensures HasAccess(caller, AdminPermission) && (idParam == "" || SelfDeleteGuardAsWritten(caller.value.id, idParam)) ==>
      resp == Redirect(UsersPath + (if idParam == "" then "?error=ID de usuario requerido"
                                    else "?error=No puedes eliminar tu propio usuario")) &&
      accounts.users == old(accounts.users) && accounts.grants == old(accounts.grants) &&
      sessions.rows == old(sessions.rows)
    ensures HasAccess(caller, AdminPermission) && idParam != "" && !SelfDeleteGuardAsWritten(caller.value.id, idParam) &&
            !UserExists(old(accounts.users), idParam) ==>
      resp == Redirect(UsersPath + "?error=Usuario no encontrado") &&
      accounts.users == old(accounts.users) && accounts.grants == old(accounts.grants) &&
      sessions.rows == old(sessions.rows)
    ensures HasAccess(caller, AdminPermission) && idParam != "" && !SelfDeleteGuardAsWritten(caller.value.id, idParam) &&
            UserExists(old(accounts.users), idParam) ==>
      resp == Redirect(UsersPath + "?success=Usuario eliminado correctamente") &&
      accounts.users == RemoveUser(old(accounts.users), idParam) &&
      accounts.grants == CascadeGrants(old(accounts.grants), idParam) &&
      sessions.rows == CascadeSessions(old(sessions.rows), idParam)
  {
    var stop := AdminGate(caller);
    if stop.Some? {
      return stop.value;
    }
    if idParam == "" {
      return Redirect(UsersPath + "?error=ID de usuario requerido");
    }
    if SelfDeleteGuardAsWritten(caller.value.id, idParam) {
      return Redirect(UsersPath + "?error=No puedes eliminar tu propio usuario");
    }
    var found := FirstWhere(accounts.users, (u: UserRow) => IdParamMatches(idParam, u.id));
    if found.None? {
      return Redirect(UsersPath + "?error=Usuario no encontrado");
    }
    ghost var byId := (u: UserRow) => u.id;
    assert DistinctKeys(accounts.users, byId);
    DeleteKeepsKeysDistinct(accounts.users, (u: UserRow) => IdParamMatches(idParam, u.id), byId);
    accounts.users := RemoveUser(accounts.users, idParam);
    accounts.grants := CascadeGrants(accounts.grants, idParam);
    sessions.rows := CascadeSessions(sessions.rows, idParam);
    resp := Redirect(UsersPath + "?success=Usuario eliminado correctamente");
  }
}
