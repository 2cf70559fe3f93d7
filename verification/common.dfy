/**
 * What the gin handlers share: the answers they give, the `centers` table and its lookup by
 * name, the way SQLite compares a textual id from the URL with an integer column, and the
 * login-then-`ADMIN` gate every administrative handler opens with.
 */
module Common {
  import opened Wrappers
  import opened Text
  import opened Affinity
  import opened Tables
  import opened Accounts

  /**
   * What a handler answers: a 302 redirect, a 307 redirect, a plain-text status, or a rendered
   * form with an error.
   */
  datatype Response =
    | Redirect(location: string)
    | TemporaryRedirect(location: string)
    | Status(code: int, body: string)
    | Form(template: string, errorMessage: string)

  const AccessDenied: string := "Acceso denegado"

  /** A row of the `centers` table. */
  datatype Center = Center(id: int, name: string, timezone: string)

  /** `getCenterID`: the id of the first center with that name. */
  function GetCenterID(centers: seq<Center>, name: string): (r: Option<int>)
    ensures r.Some? ==> exists i :: 0 <= i < |centers| && centers[i].name == name && centers[i].id == r.value
    ensures r.None? <==> forall i :: 0 <= i < |centers| ==> centers[i].name != name
  {
    match FirstWhere(centers, (c: Center) => c.name == name)
    case None => None
    case Some(i) => Some(centers[i].id)
  }

  /**
   * `WHERE id = ?` with a textual parameter against an INTEGER column: SQLite applies numeric
   * affinity to the text and compares numerically, so every spelling of the number 7 matches
   * row 7 and a text that is not a whole number matches no row.
   */
  predicate IdParamMatches(param: string, id: int) {
    SqlInteger(param) == Some(id)
  }

  /** `HasAccess` as a value: what `UserHasAccess` answers. */
  predicate HasAccess(user: Option<User>, moduleName: string) {
    user.Some? && (AdminPermission in user.value.permissions || moduleName in user.value.permissions)
  }

  /**
   * The gate of every administrative handler: no user goes to /login, a user without `ADMIN`
   * gets 403, and only an administrator gets through (`stop` is None).
   */
  method AdminGate(user: Option<User>) returns (stop: Option<Response>)
    ensures stop.None? <==> HasAccess(user, AdminPermission)
    ensures user.None? ==> stop == Some(Redirect("/login"))
    ensures user.Some? && stop.Some? ==> stop == Some(Status(403, AccessDenied))
  {
    if user.None? {
      return Some(Redirect("/login"));
    }
    var ok := UserHasAccess(user, AdminPermission);
    if !ok {
      return Some(Status(403, AccessDenied));
    }
    return None;
  }

  /** The `centro` cookie: absent or empty sends the user to choose a center first. */
  function SelectedCenter(cookies: map<string, string>): (r: Option<string>)
    ensures r.Some? <==> "centro" in cookies && cookies["centro"] != ""
    ensures r.Some? ==> r.value == cookies["centro"]
  {
    if "centro" in cookies && cookies["centro"] != "" then Some(cookies["centro"]) else None
  }

  /**
   * The `page` query of a paginated list (absent reads as "1"): a text `strconv.Atoi` rejects, or a
   * page below 1, becomes 1.
   */
  function PageParam(page: string): (p: int)
    ensures p >= 1
    ensures Atoi(page).Some? && Atoi(page).value >= 1 ==> p == Atoi(page).value
    ensures Atoi(page).None? || Atoi(page).value < 1 ==> p == 1
  {
    match Atoi(page)
    case Some(n) => if n < 1 then 1 else n
    case None => 1
  }

  /** Any page the list itself links to (the decimal form of a page number) is read back as is. */
  lemma PageParamRoundTrip(page: int)
    requires 1 <= page <= MaxInt64
    ensures PageParam(IntToString(page)) == page
  {
    AtoiIntToString(page);
  }

  const ChooseCenterPath: string := "/elegir_centro"
}
