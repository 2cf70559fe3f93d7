/**
 * The WebDAV gateway: the dot-file filter wrapped around the served directory, HTTP Basic
 * authentication with a device token in the password field (section 2 of RFC 7617), the
 * `webdav_tokens` table, the resolution of a shared folder by name, the choice of the served
 * root and the stripping of the route prefix, and the RFC 4918 method set the routes accept.
 * The WebDAV protocol engine itself, the lock system and the disk are not modelled: the inner
 * filesystem is a function parameter and `MkdirAll` answers through `mkdirSucceeds`.
 */
module WebDav {
  import opened Wrappers
  import opened Text
  import opened Tables
  import opened Sorting
  import opened Accounts
  import opened Common
  import opened SharedFolders
  import Sessions

  // ---------------------------------------------------------------------------------------
  // `path.Base` and dot files

  /** `path` with its trailing slashes removed. */
  function TrimTrailingSlashes(path: string): (r: string)
    ensures r <= path
    ensures |r| == 0 || r[|r| - 1] != '/'
    ensures forall i :: |r| <= i < |path| ==> path[i] == '/'
  {
    if |path| > 0 && path[|path| - 1] == '/' then TrimTrailingSlashes(path[..|path| - 1]) else path
  }

  /** The text after the last slash of `path` (all of it when there is no slash). */
  function LastElement(path: string): (r: string)
    ensures '/' !in r
    ensures |r| <= |path| && path[|path| - |r|..] == r
    ensures |r| < |path| ==> path[|path| - |r| - 1] == '/'
  {
    if |path| == 0 || path[|path| - 1] == '/' then []
    else LastElement(path[..|path| - 1]) + [path[|path| - 1]]
  }

  /**
   * `path.Base`: "." for the empty path, "/" for a path of slashes only, and otherwise the last
   * element once trailing slashes are dropped.
   */
  function Base(path: string): (r: string)
    ensures r != ""
    ensures r == "/" || '/' !in r
    ensures path == "" ==> r == "."
    ensures path != "" && TrimTrailingSlashes(path) == "" ==> r == "/"
  {
    if path == "" then "."
    else
      var element := LastElement(TrimTrailingSlashes(path));
      if element == "" then "/" else element
  }

  /**
   * `isDotFile`: the last element of the name, trailing slashes aside, starts with a dot; the
   * empty name counts too (its base is "."), a name of slashes only does not.
   */
  function IsDotFile(name: string): (b: bool)
    ensures name == "" ==> b
    ensures name != "" && TrimTrailingSlashes(name) == "" ==> !b
    ensures TrimTrailingSlashes(name) != "" ==>
      (b <==> LastElement(TrimTrailingSlashes(name)) != "" && LastElement(TrimTrailingSlashes(name))[0] == '.')
  {
    var base := Base(name);
    base[0] == '.'
  }

  /** The last element of `dir/leaf` is `leaf`. */
  lemma {:induction false} LastElementOfChild(dir: string, leaf: string)
    requires '/' !in leaf
    ensures LastElement(dir + "/" + leaf) == leaf
    decreases |leaf|
  {
    var p := dir + "/" + leaf;
    if |leaf| == 0 {
      assert p[|p| - 1] == '/';
    } else {
      var shorter := leaf[..|leaf| - 1];
      assert p[..|p| - 1] == dir + "/" + shorter;
      LastElementOfChild(dir, shorter);
      assert shorter + [leaf[|leaf| - 1]] == leaf;
    }
  }

  /** `path.Base(dir + "/" + leaf)` is `leaf` for a non-empty leaf without slashes. */
  lemma BaseOfChild(dir: string, leaf: string)
    requires leaf != "" && '/' !in leaf
    ensures Base(dir + "/" + leaf) == leaf
  {
    var p := dir + "/" + leaf;
    assert p[|p| - 1] == leaf[|leaf| - 1];
    assert TrimTrailingSlashes(p) == p;
    LastElementOfChild(dir, leaf);
  }

  /**
   * Only the last element decides: a file inside a dot directory is not a dot file, and a dot
   * file in any directory is.
   */
  lemma OnlyLastElementIsChecked(dir: string, leaf: string)
    requires leaf != "" && '/' !in leaf
    ensures IsDotFile(dir + "/" + leaf) <==> leaf[0] == '.'
  {
    BaseOfChild(dir, leaf);
  }

  // ---------------------------------------------------------------------------------------
  // The filtered filesystem

  /** The calls the WebDAV handler makes on its filesystem. */
  datatype FsCall =
    | Mkdir(name: string)
    | OpenFile(name: string)
    | RemoveAll(name: string)
    | Rename(source: string, target: string)
    | Stat(name: string)

  datatype FsError = ErrNotExist | FsFailure(message: string)

  /** What a call gives back: nothing, a file's information, or an open file with its listing. */
  datatype FsReply = Done | FileInfo(name: string) | Opened(entries: seq<string>)

  /**
   * `filteredFileSystem`: `Stat` of a dot file fails with `ErrNotExist` without asking the inner
   * filesystem; every other call, `Stat` of other names included, is the inner call unchanged.
   */
  function FilteredCall(inner: FsCall -> Result<FsReply, FsError>, call: FsCall): (r: Result<FsReply, FsError>)
    ensures call.Stat? && IsDotFile(call.name) ==> r == Failure(ErrNotExist)
    ensures !call.Stat? ==> r == inner(call)
    ensures call.Stat? && !IsDotFile(call.name) ==> r == inner(call)
  {
    if call.Stat? && IsDotFile(call.name) then Failure(ErrNotExist) else inner(call)
  }

  /**
   * `OpenFile` hands back the inner file unwrapped, so a directory listing still shows a dot
   * entry that `Stat` then reports as missing; and a dot file can still be written.
   */
  lemma DotEntryListedButNotStatable(inner: FsCall -> Result<FsReply, FsError>, dir: string, entry: string)
    requires inner(OpenFile(dir)).Success? && inner(OpenFile(dir)).value.Opened?
    requires entry in inner(OpenFile(dir)).value.entries
    requires entry != "" && entry[0] == '.' && '/' !in entry
    ensures FilteredCall(inner, OpenFile(dir)).Success? && entry in FilteredCall(inner, OpenFile(dir)).value.entries
    ensures FilteredCall(inner, Stat(dir + "/" + entry)) == Failure(ErrNotExist)
    ensures FilteredCall(inner, OpenFile(dir + "/" + entry)) == inner(OpenFile(dir + "/" + entry))
  {
    OnlyLastElementIsChecked(dir, entry);
  }

  /** The entries `filteredDir.Readdir` keeps: those whose name does not start with a dot. */
  function HideDotEntries(entries: seq<string>): (r: seq<string>)
    ensures forall i :: 0 <= i < |r| ==> !("." <= r[i]) && r[i] in entries
    ensures forall i :: 0 <= i < |entries| && !("." <= entries[i]) ==> entries[i] in r
  {
    Where(entries, Listed)
  }

  /** A directory entry that `Readdir` passes on: its name does not start with ".". */
  predicate Listed(e: string) {
    !("." <= e)
  }

  /**
   * `filteredDir.Readdir`: an inner error is passed on with no entries; otherwise the entries
   * without a leading dot, in their original order.
   */
  method Readdir(inner: Result<seq<string>, FsError>) returns (r: Result<seq<string>, FsError>)
    ensures inner.Failure? ==> r == Failure(inner.error)
    ensures inner.Success? ==> r == Success(HideDotEntries(inner.value))
  {
    if inner.Failure? {
      return Failure(inner.error);
    }
    var entries := inner.value;
    var filtered: seq<string> := [];
    for i := 0 to |entries|
      invariant filtered == Where(entries[..i], Listed)
    {
      WhereStep(entries, i, Listed);
      if !("." <= entries[i]) {
        filtered := filtered + [entries[i]];
      }
    }
    assert entries[..|entries|] == entries;
    return Success(filtered);
  }

  // ---------------------------------------------------------------------------------------
  // The `webdav_tokens` table

  /** A row of `webdav_tokens`. */
  datatype WebDavToken = WebDavToken(
    id: int,
    userId: int,
    deviceName: string,
    token: string,
    createdAt: int,
    lastUsed: int,
    expiresAt: int,
    isActive: bool)

  /** `token = ? AND is_active = 1 AND expires_at > now`. */
  predicate TokenLive(t: WebDavToken, token: string, now: int) {
    t.token == token && t.isActive && t.expiresAt > now
  }

  /** A user as `validateWebDAVToken` reads it: no password hash and no permissions. */
  function BareUser(row: UserRow): (u: User)
    ensures u.id == row.id && u.username == row.username && u.displayName == row.displayName && u.email == row.email
    ensures u.passwordHash == "" && u.permissions == []
  {
    User(row.id, row.username, "", row.displayName, row.email, [])
  }

  /**
   * `validateWebDAVToken`: the owner of the first live row carrying the token, read without its
   * password hash or permissions; no live row, or no such user, is an error (None).
   */
  function ValidateWebDAVToken(tokens: seq<WebDavToken>, users: seq<UserRow>, token: string, now: int): (r: Option<User>)
    ensures r.Some? ==> exists i :: 0 <= i < |tokens| && TokenLive(tokens[i], token, now) && tokens[i].userId == r.value.id
    ensures r.Some? ==> exists j :: 0 <= j < |users| && r.value == BareUser(users[j])
    ensures (forall i :: 0 <= i < |tokens| ==> !TokenLive(tokens[i], token, now)) ==> r.None?
  {
    match FirstWhere(tokens, (t: WebDavToken) => TokenLive(t, token, now))
    case None => None
    case Some(i) =>
      match FirstWhere(users, (u: UserRow) => u.id == tokens[i].userId)
      case None => None
      case Some(j) => Some(BareUser(users[j]))
  }

  /** `updateWebDAVTokenUsage`: every row with the token is stamped, active or not. */
  function TouchToken(tokens: seq<WebDavToken>, token: string, now: int): seq<WebDavToken> {
    UpdateWhere(tokens, (t: WebDavToken) => t.token == token, (t: WebDavToken) => t.(lastUsed := now))
  }

  /** `revokeWebDAVToken`: `UPDATE ... SET is_active = 0 WHERE id = ? AND user_id = ?`. */
  function RevokeToken(tokens: seq<WebDavToken>, tokenId: int, userId: int): seq<WebDavToken> {
    UpdateWhere(tokens, (t: WebDavToken) => t.id == tokenId && t.userId == userId, (t: WebDavToken) => t.(isActive := false))
  }

  /** Recording use never changes whether, or as whom, any token authenticates. */
  lemma UsageKeepsValidity(tokens: seq<WebDavToken>, users: seq<UserRow>, token: string, now: int, lookup: string, at: int)
    ensures ValidateWebDAVToken(TouchToken(tokens, token, now), users, lookup, at) == ValidateWebDAVToken(tokens, users, lookup, at)
  {
    var touched := TouchToken(tokens, token, now);
    var p := (t: WebDavToken) => TokenLive(t, lookup, at);
    assert forall j :: 0 <= j < |tokens| ==> (p(touched[j]) <==> p(tokens[j]));
    SameFirst(tokens, touched, p);
  }

  /**
   * Revocation is scoped to the owner: rows of other users and rows with other ids are exactly as
   * they were, and a request naming no row of the caller changes nothing at all.
   */
  lemma RevokeIsOwnerScoped(tokens: seq<WebDavToken>, tokenId: int, callerId: int)
    ensures var after := RevokeToken(tokens, tokenId, callerId);
      |after| == |tokens| &&
      (forall i :: 0 <= i < |tokens| && (tokens[i].userId != callerId || tokens[i].id != tokenId) ==> after[i] == tokens[i]) &&
      ((forall i :: 0 <= i < |tokens| ==> tokens[i].userId != callerId || tokens[i].id != tokenId) ==> after == tokens)
  {
    var after := RevokeToken(tokens, tokenId, callerId);
    if forall i :: 0 <= i < |tokens| ==> tokens[i].userId != callerId || tokens[i].id != tokenId {
      assert forall i :: 0 <= i < |tokens| ==> after[i] == tokens[i];
    }
  }

  /** A revoked token no longer authenticates anyone, provided token values are unique. */
  lemma RevokedTokenRejected(tokens: seq<WebDavToken>, users: seq<UserRow>, k: nat, at: int)
    requires k < |tokens|
    requires forall j :: 0 <= j < |tokens| && tokens[j].token == tokens[k].token ==> j == k
    ensures ValidateWebDAVToken(RevokeToken(tokens, tokens[k].id, tokens[k].userId), users, tokens[k].token, at).None?
  {
    var after := RevokeToken(tokens, tokens[k].id, tokens[k].userId);
    assert !after[k].isActive;
    assert forall j :: 0 <= j < |after| && j != k ==> after[j].token != tokens[k].token;
  }

  /** The order of `ORDER BY last_used DESC`. */
  function MostRecentlyUsedFirst(): (WebDavToken, WebDavToken) -> bool {
    (a: WebDavToken, b: WebDavToken) => a.lastUsed >= b.lastUsed
  }

  /** The rows `getUserWebDAVTokens` selects: the user's active, unexpired tokens. */
  function OwnLiveToken(userId: int, now: int): WebDavToken -> bool {
    (t: WebDavToken) => t.userId == userId && TokenLive(t, t.token, now)
  }

  /** `getUserWebDAVTokens`: the user's live tokens, most recently used first. */
  function GetUserWebDAVTokens(tokens: seq<WebDavToken>, userId: int, now: int): (r: seq<WebDavToken>)
    ensures multiset(r) == multiset(Where(tokens, OwnLiveToken(userId, now)))
    ensures forall i :: 0 <= i < |r| ==> r[i] in tokens && r[i].userId == userId && TokenLive(r[i], r[i].token, now)
    ensures forall i :: 0 <= i < |tokens| && tokens[i].userId == userId && TokenLive(tokens[i], tokens[i].token, now) ==> tokens[i] in r
    ensures forall i, j :: 0 <= i < j < |r| ==> r[i].lastUsed >= r[j].lastUsed
  {
    var selected := Where(tokens, OwnLiveToken(userId, now));
    var r := InsertionSort(selected, MostRecentlyUsedFirst());
    InsertionSortSorted(selected, MostRecentlyUsedFirst());
    assert forall i :: 0 <= i < |r| ==> r[i] in selected by {
      forall i | 0 <= i < |r| ensures r[i] in selected {
        assert r[i] in multiset(r);
      }
    }
    assert forall i :: 0 <= i < |selected| ==> selected[i] in r by {
      forall i | 0 <= i < |selected| ensures selected[i] in r {
        assert selected[i] in multiset(selected);
      }
    }
    r
  }

  /** The row id SQLite gives the next token. */
  function NextTokenId(tokens: seq<WebDavToken>): (id: int)
    ensures forall i :: 0 <= i < |tokens| ==> tokens[i].id < id
  {
    NextKey(tokens, (t: WebDavToken) => t.id)
  }

  /** A fresh token authenticates its owner until it expires, if no other row holds the same value. */
  lemma NewTokenValidates(tokens: seq<WebDavToken>, users: seq<UserRow>, t: WebDavToken, at: int)
    requires forall j :: 0 <= j < |tokens| ==> tokens[j].token != t.token
    requires t.isActive && at < t.expiresAt
    requires exists j :: 0 <= j < |users| && users[j].id == t.userId
    ensures ValidateWebDAVToken(tokens + [t], users, t.token, at).Some?
    ensures ValidateWebDAVToken(tokens + [t], users, t.token, at).value.id == t.userId
  {
    var all := tokens + [t];
    assert all[|tokens|] == t;
    assert forall j :: 0 <= j < |tokens| ==> all[j] == tokens[j];
    var p := (t': WebDavToken) => TokenLive(t', t.token, at);
    assert FirstWhere(all, p) == Some(|tokens|);
  }

  /** The `webdav_tokens` table. */
  class TokenTable {
    var rows: seq<WebDavToken>

    constructor ()
      ensures rows == []
    {
      rows := [];
    }

    /**
     * `createWebDAVToken`: a new active row for the device, holding the random token value,
     * used and created now, expiring thirty days from now.
     */
    method CreateWebDAVToken(userId: int, deviceName: string, token: string, now: int) returns (t: WebDavToken)
      modifies this
      ensures rows == old(rows) + [t]
      ensures t == WebDavToken(NextTokenId(old(rows)), userId, deviceName, token, now, now, now + Sessions.ThirtyDays, true)
    {
      t := WebDavToken(NextTokenId(rows), userId, deviceName, token, now, now, now + Sessions.ThirtyDays, true);
      rows := rows + [t];
    }

    method UpdateWebDAVTokenUsage(token: string, now: int)
      modifies this
      ensures rows == TouchToken(old(rows), token, now)
    {
      rows := TouchToken(rows, token, now);
    }

    method RevokeWebDAVToken(tokenId: int, userId: int)
      modifies this
      ensures rows == RevokeToken(old(rows), tokenId, userId)
    {
      rows := RevokeToken(rows, tokenId, userId);
    }
  }

  // ---------------------------------------------------------------------------------------
  // Basic authentication

  /**
   * `Request.BasicAuth` on the `Authorization` header ("" when absent): the prefix "Basic " in
   * any ASCII case, then standard base64 of "username:password", cut at the first colon.
   */
  function BasicAuth(authorization: string, base64Decode: string -> Option<string>): (r: Option<(string, string)>)
    ensures r.None? <==>
      |authorization| < 6 || ToLower(authorization[..6]) != "basic " ||
      base64Decode(authorization[6..]).None? || ':' !in base64Decode(authorization[6..]).value
    ensures r.Some? ==> base64Decode(authorization[6..]) == Some(r.value.0 + ":" + r.value.1) && ':' !in r.value.0
  {
    if |authorization| < 6 || ToLower(authorization[..6]) != "basic " then None
    else match base64Decode(authorization[6..])
      case None => None
      case Some(decoded) => Cut(decoded, ':')
  }

  /** Credentials a client encodes as RFC 7617 prescribes are read back as sent. */
  lemma BasicAuthRoundTrip(username: string, password: string, encoded: string, base64Decode: string -> Option<string>)
    requires ':' !in username
    requires base64Decode(encoded) == Some(username + ":" + password)
    ensures BasicAuth("Basic " + encoded, base64Decode) == Some((username, password))
  {
    var h := "Basic " + encoded;
    assert h[..6] == "Basic ";
    assert h[6..] == encoded;
    CutJoined(username, password, ':');
  }

  const Challenge: string := "Basic realm=\"Figaro WebDAV\""

  datatype AuthOutcome = Unauthorized(wwwAuthenticate: string) | Authorized(user: User)

  /** What `WebDAVAuth` decides: the token in the password field decides; the username does not count. */
  function AuthDecision(credentials: Option<(string, string)>, tokens: seq<WebDavToken>, users: seq<UserRow>, now: int): (out: AuthOutcome)
    ensures out.Authorized? <==> credentials.Some? && ValidateWebDAVToken(tokens, users, credentials.value.1, now).Some?
    ensures out.Authorized? ==> out.user == ValidateWebDAVToken(tokens, users, credentials.value.1, now).value
    ensures out.Unauthorized? ==> out.wwwAuthenticate == Challenge
  {
    match credentials
    case None => Unauthorized(Challenge)
    case Some((_, password)) =>
      match ValidateWebDAVToken(tokens, users, password, now)
      case None => Unauthorized(Challenge)
      case Some(user) => Authorized(user)
  }

  /**
   * `WebDAVAuth`: 401 with the `Basic realm` challenge unless Basic credentials carry a live token;
   * on success the token's last use is stamped and its owner is the WebDAV user.
   */
  method WebDAVAuth(tokens: TokenTable, authorization: string, base64Decode: string -> Option<string>,
                    users: seq<UserRow>, now: int) returns (out: AuthOutcome)
    modifies tokens
    ensures out == AuthDecision(BasicAuth(authorization, base64Decode), old(tokens.rows), users, now)
    ensures out.Authorized? ==> tokens.rows == TouchToken(old(tokens.rows), BasicAuth(authorization, base64Decode).value.1, now)
    ensures out.Unauthorized? ==> tokens.rows == old(tokens.rows)
  {
    var credentials := BasicAuth(authorization, base64Decode);
    if credentials.None? {
      return Unauthorized(Challenge);
    }
    var password := credentials.value.1;
    var user := ValidateWebDAVToken(tokens.rows, users, password, now);
    if user.None? {
      return Unauthorized(Challenge);
    }
    tokens.UpdateWebDAVTokenUsage(password, now);
    return Authorized(user.value);
  }

  /** Any username is accepted with a valid token: only the password field is read. */
  lemma UsernameIgnored(u1: string, u2: string, password: string, tokens: seq<WebDavToken>, users: seq<UserRow>, now: int)
    ensures AuthDecision(Some((u1, password)), tokens, users, now) == AuthDecision(Some((u2, password)), tokens, users, now)
  {
  }

  // ---------------------------------------------------------------------------------------
  // Shared folders by name

  /**
   * The name of the user's default center as the `LEFT JOIN` reads it: "" when the user is
   * unknown, has no default center, or the center row is missing (the NULL fails to scan).
   */
  function DefaultCenterName(users: seq<UserRow>, centers: seq<Center>, userId: int): string {
    match FirstWhere(users, (u: UserRow) => u.id == userId)
    case None => ""
    case Some(i) =>
      match users[i].defaultCenterId
      case None => ""
      case Some(c) =>
        match FirstWhere(centers, (ct: Center) => ct.id == c)
        case None => ""
        case Some(k) => centers[k].name
  }

  /** The center a WebDAV user sees folders of: the id found by the default center's name, if any. */
  function FolderScope(users: seq<UserRow>, centers: seq<Center>, userId: int): (scope: Option<int>)
    ensures scope.Some? ==> exists k :: 0 <= k < |centers| && centers[k].id == scope.value
    ensures DefaultCenterName(users, centers, userId) == "" ==> scope.None?
  {
    var name := DefaultCenterName(users, centers, userId);
    if name == "" then None else GetCenterID(centers, name)
  }

  /** `name = ? AND is_active = 1 AND (center_id IS NULL OR center_id = ?)`; NULL = NULL is not true. */
  predicate Reachable(f: SharedFolder, name: string, scope: Option<int>) {
    f.name == name && f.isActive && (f.centerId.None? || (scope.Some? && f.centerId == scope))
  }

  /** `getSharedFolderByName`: the first active folder of that name that is global or in the user's scope. */
  function GetSharedFolderByName(folders: seq<SharedFolder>, users: seq<UserRow>, centers: seq<Center>,
                                 name: string, userId: int): (r: Option<SharedFolder>)
    ensures r.Some? ==> r.value in folders && r.value.name == name && r.value.isActive
    ensures r.Some? ==> r.value.centerId.None? || r.value.centerId == FolderScope(users, centers, userId)
    ensures r.None? <==> forall i :: 0 <= i < |folders| ==> !Reachable(folders[i], name, FolderScope(users, centers, userId))
  {
    var scope := FolderScope(users, centers, userId);
    match FirstWhere(folders, (f: SharedFolder) => Reachable(f, name, scope))
    case None => None
    case Some(i) => Some(folders[i])
  }

  /** A user without a default center reaches global folders only. */
  lemma NoDefaultCenterOnlyGlobal(folders: seq<SharedFolder>, users: seq<UserRow>, centers: seq<Center>,
                                  name: string, userId: int, i: nat)
    requires i < |users| && users[i].id == userId && users[i].defaultCenterId.None?
    requires forall j :: 0 <= j < i ==> users[j].id != userId
    ensures var r := GetSharedFolderByName(folders, users, centers, name, userId);
            r.Some? ==> r.value.centerId.None?
  {
    assert FirstWhere(users, (u: UserRow) => u.id == userId) == Some(i);
  }

  // ---------------------------------------------------------------------------------------
  // Roots and paths

  /** `filepath.Join(a, b)` for a relative `b` (the cleaning of `..` and `.` is not modelled). */
  function JoinPath(a: string, b: string): string {
    a + "/" + b
  }

  /**
   * The path handed to the WebDAV handler: the route prefix removed, or "/" when the path did
   * not start with it.
   */
  function StripRoutePrefix(urlPath: string, prefix: string): (r: string)
    ensures prefix != "" && prefix <= urlPath ==> prefix + r == urlPath
    ensures !(prefix <= urlPath) || prefix == "" ==> r == "/"
  {
    var trimmed := TrimPrefix(urlPath, prefix);
    if trimmed == urlPath then "/" else trimmed
  }

  datatype DavAnswer = NotFound | ServerError | Serve(root: string, path: string)

  predicate ServedLocally(f: SharedFolder) {
    f.folderType == "local" && f.localPath.Some?
  }

  /**
   * `WebDAVSharedFolders`: 404 for a folder the user cannot reach and for a folder that is not
   * local; 500 when its directory cannot be created; otherwise the folder's directory is served
   * with the route prefix stripped.
   */
  method WebDAVSharedFolders(user: User, folderName: string, urlPath: string, folders: seq<SharedFolder>,
                             users: seq<UserRow>, centers: seq<Center>, dataDir: string,
                             mkdirSucceeds: string -> bool) returns (a: DavAnswer)
    ensures var f := GetSharedFolderByName(folders, users, centers, folderName, user.id);
      (f.None? || !ServedLocally(f.value)) <==> a == NotFound
    ensures var f := GetSharedFolderByName(folders, users, centers, folderName, user.id);
      a.ServerError? <==> f.Some? && ServedLocally(f.value) && !mkdirSucceeds(JoinPath(dataDir, f.value.localPath.value))
    ensures var f := GetSharedFolderByName(folders, users, centers, folderName, user.id);
      a.Serve? ==>
        f.Some? && ServedLocally(f.value) &&
        a == Serve(JoinPath(dataDir, f.value.localPath.value), StripRoutePrefix(urlPath, "/dav/CarpetasCompartidas/" + folderName))
  {
    var folder := GetSharedFolderByName(folders, users, centers, folderName, user.id);
    if folder.None? {
      return NotFound;
    }
    if !ServedLocally(folder.value) {
      return NotFound;
    }
    var root := JoinPath(dataDir, folder.value.localPath.value);
    if !mkdirSucceeds(root) {
      return ServerError;
    }
    return Serve(root, StripRoutePrefix(urlPath, "/dav/CarpetasCompartidas/" + folderName));
  }

  /** The personal directory of a user: DataDir/ArchivosPersonales/<id>. */
  function PersonalRoot(dataDir: string, userId: int): string {
    JoinPath(JoinPath(dataDir, "ArchivosPersonales"), IntToString(userId))
  }

  /** Different users never share a personal directory. */
  lemma PersonalRootsDistinct(dataDir: string, a: int, b: int)
    requires MinInt64 <= a <= MaxInt64 && MinInt64 <= b <= MaxInt64
    ensures PersonalRoot(dataDir, a) == PersonalRoot(dataDir, b) ==> a == b
  {
    var base := JoinPath(dataDir, "ArchivosPersonales") + "/";
    var sa, sb := IntToString(a), IntToString(b);
    assert PersonalRoot(dataDir, a) == base + sa;
    assert PersonalRoot(dataDir, b) == base + sb;
    if base + sa == base + sb {
      assert sa == (base + sa)[|base|..];
      assert sb == (base + sb)[|base|..];
      AtoiIntToString(a);
      AtoiIntToString(b);
    }
  }

  /** `WebDAVPersonalFiles`: the user's own directory, or 500 when it cannot be created. */
  method WebDAVPersonalFiles(user: User, urlPath: string, dataDir: string, mkdirSucceeds: string -> bool)
    returns (a: DavAnswer)
    ensures mkdirSucceeds(PersonalRoot(dataDir, user.id)) ==>
      a == Serve(PersonalRoot(dataDir, user.id), StripRoutePrefix(urlPath, "/dav/MisArchivos"))
    ensures !mkdirSucceeds(PersonalRoot(dataDir, user.id)) ==> a == ServerError
  {
    var root := PersonalRoot(dataDir, user.id);
    if !mkdirSucceeds(root) {
      return ServerError;
    }
    return Serve(root, StripRoutePrefix(urlPath, "/dav/MisArchivos"));
  }

  // ---------------------------------------------------------------------------------------
  // Routes

  /** The methods registered under /dav: the RFC 4918 methods and the plain HTTP ones. */
  const DavMethods: set<string> :=
    {"PROPFIND", "PROPPATCH", "MKCOL", "COPY", "MOVE", "LOCK", "UNLOCK",
     "GET", "PUT", "POST", "DELETE", "HEAD", "OPTIONS"}

  datatype DavRoute = PersonalFiles | SharedFolderRoute(folder: string)

  const PersonalPrefix: string := "/dav/MisArchivos/"
  const SharedPrefix: string := "/dav/CarpetasCompartidas/"

  /**
   * The routes "/dav/MisArchivos/" + path and "/dav/CarpetasCompartidas/" + folder + "/" + path, for the
   * registered methods only.
   */
  function RouteDav(httpMethod: string, path: string): (r: Option<DavRoute>)
    ensures r.Some? ==> httpMethod in DavMethods
    ensures httpMethod in DavMethods && PersonalPrefix <= path ==> r == Some(PersonalFiles)
    ensures r.Some? && r.value.SharedFolderRoute? ==>
      r.value.folder != "" && '/' !in r.value.folder && SharedPrefix + r.value.folder + "/" <= path
  {
    if httpMethod !in DavMethods then None
    else if PersonalPrefix <= path then Some(PersonalFiles)
    else if !(SharedPrefix <= path) then None
    else
      match Cut(path[|SharedPrefix|..], '/')
      case Some((folder, _)) =>
        if folder == "" then None
        else
          assert path == SharedPrefix + path[|SharedPrefix|..];
          Some(SharedFolderRoute(folder))
      case None => None
  }

  /**
   * A request routed to a shared folder reaches the WebDAV handler as "/" followed by the rest
   * of its path inside the folder.
   */
  lemma SharedRouteStripsToFolderPath(httpMethod: string, folder: string, rest: string)
    requires httpMethod in DavMethods
    requires folder != "" && '/' !in folder
    ensures var path := SharedPrefix + folder + "/" + rest;
      RouteDav(httpMethod, path) == Some(SharedFolderRoute(folder)) &&
      StripRoutePrefix(path, "/dav/CarpetasCompartidas/" + folder) == "/" + rest
  {
    SharedRouteOf(httpMethod, folder, rest);
    SharedRouteStrip(folder, rest);
  }

  lemma SharedRouteOf(httpMethod: string, folder: string, rest: string)
    requires httpMethod in DavMethods
    requires folder != "" && '/' !in folder
    ensures RouteDav(httpMethod, SharedPrefix + folder + "/" + rest) == Some(SharedFolderRoute(folder))
  {
    var inside := folder + "/" + rest;
    var path := SharedPrefix + inside;
    assert SharedPrefix + folder + "/" + rest == path;
    NotPersonal(inside);
    assert path[|SharedPrefix|..] == inside;
    CutJoined(folder, rest, '/');
    RouteShared(httpMethod, path, folder, rest);
  }

  /** A path under the shared prefix is not under the personal one. */
  lemma NotPersonal(inside: string)
    ensures !(PersonalPrefix <= SharedPrefix + inside)
  {
    assert (SharedPrefix + inside)[5] == 'C' && PersonalPrefix[5] == 'M';
  }

  lemma RouteShared(httpMethod: string, path: string, folder: string, rest: string)
    requires httpMethod in DavMethods && !(PersonalPrefix <= path) && SharedPrefix <= path
    requires Cut(path[|SharedPrefix|..], '/') == Some((folder, rest)) && folder != ""
    ensures RouteDav(httpMethod, path) == Some(SharedFolderRoute(folder))
  {
  }

  lemma SharedRouteStrip(folder: string, rest: string)
    ensures StripRoutePrefix(SharedPrefix + folder + "/" + rest, "/dav/CarpetasCompartidas/" + folder) == "/" + rest
  {
    var path := SharedPrefix + folder + "/" + rest;
    var prefix := "/dav/CarpetasCompartidas/" + folder;
    assert prefix + ("/" + rest) == path;
    assert path[|prefix|..] == "/" + rest;
    var r := StripRoutePrefix(path, prefix);
    assert prefix + r == path;
    assert r == path[|prefix|..];
  }

  /** A request routed to the personal files reaches the handler as "/" followed by the rest. */
  lemma PersonalRouteStripsToUserPath(httpMethod: string, rest: string)
    requires httpMethod in DavMethods
    ensures var path := PersonalPrefix + rest;
      RouteDav(httpMethod, path) == Some(PersonalFiles) &&
      StripRoutePrefix(path, "/dav/MisArchivos") == "/" + rest
  {
    var path := PersonalPrefix + rest;
    assert "/dav/MisArchivos" + ("/" + rest) == path;
  }
}
