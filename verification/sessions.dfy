/**
 * Token sessions of `internal/auth`: the `user_sessions` table, the cookie check that every
 * protected request goes through, and the middleware built on it. Times are seconds on one clock;
 * the random bytes a token is made of are parameters.
 */
module Sessions {
  import opened Wrappers
  import opened Tables
  import opened Sorting
  import opened Accounts

  type Byte = b: int | 0 <= b < 256

  /** Sessions and their cookies last thirty days. */
  const ThirtyDays: int := 30 * 24 * 60 * 60
  const DefaultDeviceName: string := "Web Browser"
  const LoginPath: string := "/login"
  const NoPermissionPath: string := "/?flash=No+tienes+permiso+para+acceder+a+esta+p√°gina"

  /** A row of `user_sessions`. */
  datatype Session = Session(
    id: string,
    userId: int,
    token: string,
    deviceName: string,
    ipAddress: string,
    userAgent: string,
    createdAt: int,
    updatedAt: int,
    expiresAt: int,
    isActive: bool)

  /** A cookie the response sets; a negative `maxAge` deletes it. */
  datatype Cookie = Cookie(name: string, value: string, maxAge: int, httpOnly: bool)

  /** What `IsLoggedIn` stores in the request context. */
  datatype Principal = Principal(user: User, session: Session)

  /** The outcome of a middleware: go on to the handler, or redirect and stop. */
  datatype Gate = Continue(principal: Principal) | RedirectTo(location: string)

  /** The lower-case hex digit for `d`. */
  function HexDigit(d: int): char
    requires 0 <= d < 16
  {
    if d < 10 then ('0' as int + d) as char else ('a' as int + d - 10) as char
  }

  predicate IsHexDigit(c: char) {
    '0' <= c <= '9' || 'a' <= c <= 'f'
  }

  /** The value of a lower-case hex digit, -1 for any other character. */
  function HexDigitValue(c: char): (v: int)
    ensures IsHexDigit(c) ==> 0 <= v < 16 && HexDigit(v) == c
    ensures !IsHexDigit(c) ==> v == -1
  {
    if '0' <= c <= '9' then c as int - '0' as int
    else if 'a' <= c <= 'f' then c as int - 'a' as int + 10
    else -1
  }

  /** `hex.EncodeToString`: two lower-case hex digits per byte, high nibble first. */
  function HexEncode(bytes: seq<Byte>): (s: string)
    ensures |s| == 2 * |bytes|
    ensures forall i :: 0 <= i < |s| ==> IsHexDigit(s[i])
  {
    if |bytes| == 0 then ""
    else [HexDigit(bytes[0] / 16), HexDigit(bytes[0] % 16)] + HexEncode(bytes[1..])
  }

  /** `hex.DecodeString`: `None` on an odd length or a character that is not a lower-case hex digit. */
  function HexDecode(s: string): Option<seq<Byte>>
    decreases |s|
  {
    if |s| == 0 then Some([])
    else if |s| == 1 then None
    else
      var hi, lo := HexDigitValue(s[0]), HexDigitValue(s[1]);
      if hi < 0 || lo < 0 then None
      else match HexDecode(s[2..])
        case None => None
        case Some(rest) => Some([(hi * 16 + lo) as Byte] + rest)
  }

  /** A byte is its two nibbles. */
  lemma ByteNibbles(b: Byte)
    ensures 0 <= b / 16 < 16 && 0 <= b % 16 < 16 && (b / 16) * 16 + b % 16 == b
  {
  }

  /** Every digit decodes to the value it was made from. */
  lemma HexDigitRoundTrip(d: int)
    requires 0 <= d < 16
    ensures HexDigitValue(HexDigit(d)) == d
  {
  }

  /** Hex encoding loses nothing: decoding a token gives back its random bytes. */
  lemma {:induction false} HexRoundTrip(bytes: seq<Byte>)
    ensures HexDecode(HexEncode(bytes)) == Some(bytes)
  {
    if |bytes| > 0 {
      var s := HexEncode(bytes);
      var b := bytes[0];
      assert s[2..] == HexEncode(bytes[1..]);
      HexRoundTrip(bytes[1..]);
      ByteNibbles(b);
      HexDigitRoundTrip(b / 16);
      HexDigitRoundTrip(b % 16);
      assert s[0] == HexDigit(b / 16) && s[1] == HexDigit(b % 16);
      assert [b] + bytes[1..] == bytes;
    }
  }

  /** A row `GetSessionByToken` accepts at time `now`. */
  predicate Live(s: Session, token: string, now: int) {
    s.token == token && s.isActive && s.expiresAt > now
  }

  /** `GetSessionByToken`: the first active, unexpired session carrying `token`. */
  function GetSessionByToken(rows: seq<Session>, token: string, now: int): (r: Option<Session>)
    ensures r.Some? ==> r.value in rows && r.value.token == token && r.value.isActive && r.value.expiresAt > now
    ensures r.None? <==> forall j :: 0 <= j < |rows| ==> !Live(rows[j], token, now)
  {
    match FirstWhere(rows, (s: Session) => Live(s, token, now))
    case None => None
    case Some(k) => Some(rows[k])
  }

  /** The order of `ORDER BY updated_at DESC`. */
  function MostRecentFirst(): (Session, Session) -> bool {
    (a: Session, b: Session) => a.updatedAt >= b.updatedAt
  }

  /** The rows `GetUserSessions` selects: the user's active, unexpired sessions. */
  function OwnLiveSession(userId: int, now: int): Session -> bool {
    (s: Session) => s.userId == userId && Live(s, s.token, now)
  }

  /** `GetUserSessions`: the user's active, unexpired sessions, most recently used first. */
  function GetUserSessions(rows: seq<Session>, userId: int, now: int): (r: seq<Session>)
    ensures multiset(r) == multiset(Where(rows, OwnLiveSession(userId, now)))
    ensures forall i :: 0 <= i < |r| ==> r[i].userId == userId && Live(r[i], r[i].token, now)
    ensures forall i :: 0 <= i < |rows| && rows[i].userId == userId && Live(rows[i], rows[i].token, now) ==> rows[i] in r
    ensures forall i, j :: 0 <= i < j < |r| ==> r[i].updatedAt >= r[j].updatedAt
  {
    var selected := Where(rows, OwnLiveSession(userId, now));
    var r := InsertionSort(selected, MostRecentFirst());
    InsertionSortSorted(selected, MostRecentFirst());
    assert forall i :: 0 <= i < |r| ==> r[i] in selected by {
      forall i | 0 <= i < |r| ensures r[i] in selected {
        assert r[i] in multiset(r);
      }
    }
    assert forall i :: 0 <= i < |selected| ==> selected[i] in r by {
      forall i | 0 <= i < |selected| ensures selected[i] in r {
        assert selected[i] in multiset(selected);
      }
    }
    r
  }

  /** `DeactivateSession`: the session with that id is switched off and stamped. */
  function Deactivate(rows: seq<Session>, id: string, now: int): seq<Session> {
    UpdateWhere(rows, (s: Session) => s.id == id, (s: Session) => s.(isActive := false, updatedAt := now))
  }

  /** `DeactivateAllUserSessions`: every session of the user except `exceptId` is switched off. */
  function DeactivateOthers(rows: seq<Session>, userId: int, exceptId: string, now: int): seq<Session> {
    UpdateWhere(rows, (s: Session) => s.userId == userId && s.id != exceptId,
                (s: Session) => s.(isActive := false, updatedAt := now))
  }

  /** `UpdateSessionActivity`: active sessions with that token get a new `updated_at`. */
  function Touch(rows: seq<Session>, token: string, now: int): seq<Session> {
    UpdateWhere(rows, (s: Session) => s.token == token && s.isActive, (s: Session) => s.(updatedAt := now))
  }

  /** Once a session is deactivated, no token lookup at any time returns it again. */
  lemma DeactivatedNeverFound(rows: seq<Session>, id: string, now: int, token: string, later: int)
    ensures var r := GetSessionByToken(Deactivate(rows, id, now), token, later); r.None? || r.value.id != id
  {
    var after := Deactivate(rows, id, now);
    var r := GetSessionByToken(after, token, later);
    if r.Some? {
      var k :| 0 <= k < |after| && after[k] == r.value;
      assert after[k].isActive;
      assert rows[k].id != id;
    }
  }

  /**
   * "Log out everywhere else": afterwards the user's only active sessions carry the exempt id,
   * and sessions of other users are exactly as they were.
   */
  lemma DeactivateOthersKeepsOnlyExempt(rows: seq<Session>, userId: int, exceptId: string, now: int)
    ensures var after := DeactivateOthers(rows, userId, exceptId, now);
      |after| == |rows| &&
      (forall i :: 0 <= i < |after| && after[i].userId == userId && after[i].isActive ==> after[i].id == exceptId) &&
      (forall i :: 0 <= i < |after| && rows[i].userId != userId ==> after[i] == rows[i]) &&
      (forall i :: 0 <= i < |after| && rows[i].id == exceptId ==> after[i] == rows[i])
  {
  }

  /** Recording activity changes no lookup: the same session is found, or none, before and after. */
  lemma {:induction false} TouchKeepsLookups(rows: seq<Session>, token: string, now: int, lookup: string, at: int)
    ensures var before := GetSessionByToken(rows, lookup, at);
            var after := GetSessionByToken(Touch(rows, token, now), lookup, at);
            before.None? == after.None? &&
            (before.Some? ==> after.value.id == before.value.id && after.value.userId == before.value.userId)
  {
    var touched := Touch(rows, token, now);
    assert forall j :: 0 <= j < |rows| ==> (Live(touched[j], lookup, at) <==> Live(rows[j], lookup, at));
    var p := (s: Session) => Live(s, lookup, at);
    SameFirst(rows, touched, p);
  }

  /** A freshly inserted session is what its token finds until it expires, if no other row holds the token. */
  lemma NewSessionIsFound(rows: seq<Session>, s: Session, at: int)
    requires forall j :: 0 <= j < |rows| ==> rows[j].token != s.token
    requires s.isActive && at < s.expiresAt
    ensures GetSessionByToken(rows + [s], s.token, at) == Some(s)
  {
    var all := rows + [s];
    assert all[|rows|] == s;
    assert forall j :: 0 <= j < |rows| ==> all[j] == rows[j];
  }

  /**
   * `IsLoggedIn` without its side effects: the `session_token` cookie, a `loggedin` cookie equal
   * to "yes", a live session for the token and an existing user for the session.
   */
  function CheckLogin(cookies: map<string, string>, rows: seq<Session>, users: seq<UserRow>,
                      grants: seq<Grant>, now: int): (r: Option<Principal>)
    ensures "session_token" !in cookies ==> r.None?
    ensures ("loggedin" !in cookies || cookies["loggedin"] != "yes") ==> r.None?
    ensures r.Some? ==> r.value.session.token == cookies["session_token"] && r.value.session in rows
    ensures r.Some? ==> r.value.session.isActive && r.value.session.expiresAt > now
    ensures r.Some? ==> r.value.user.id == r.value.session.userId && r.value.user.permissions == PermissionsOf(grants, r.value.user.id)
    ensures r.None? && "session_token" in cookies && "loggedin" in cookies && cookies["loggedin"] == "yes" ==>
      var found := GetSessionByToken(rows, cookies["session_token"], now);
      found.None? || GetUserByID(users, grants, found.value.userId).Failure?
  {
    if "session_token" !in cookies then None
    else if "loggedin" !in cookies || cookies["loggedin"] != "yes" then None
    else match GetSessionByToken(rows, cookies["session_token"], now)
      case None => None
      case Some(session) =>
        match GetUserByID(users, grants, session.userId)
        case Failure(_) => None
        case Success(user) => Some(Principal(user, session))
  }

  /** `GetCurrentUser`: the user `IsLoggedIn` stored, if any. */
  function GetCurrentUser(ctx: Option<Principal>): (u: Option<User>)
    ensures u.Some? <==> ctx.Some?
    ensures u.Some? ==> u.value == ctx.value.user
  {
    if ctx.Some? then Some(ctx.value.user) else None
  }

  /** `RequirePermission`: continue only when the current user has access to `permission`. */
  method RequirePermission(ctx: Option<Principal>, permission: string) returns (g: Gate)
    ensures g.Continue? <==> ctx.Some? && (AdminPermission in ctx.value.user.permissions || permission in ctx.value.user.permissions)
    ensures g.Continue? ==> g.principal == ctx.value
    ensures g.RedirectTo? ==> g.location == NoPermissionPath
  {
    var ok := UserHasAccess(GetCurrentUser(ctx), permission);
    if ok {
      g := Continue(ctx.value);
    } else {
      g := RedirectTo(NoPermissionPath);
    }
  }

  /** The cookies `SetUserSession` sets for a session and a user. */
  function LoginCookies(s: Session, user: User): seq<Cookie> {
    [Cookie("session_token", s.token, ThirtyDays, true),
     Cookie("username", user.username, ThirtyDays, false),
     Cookie("loggedin", "yes", ThirtyDays, false)]
  }

  /** The cookies `ClearUserSession` sets: the same three, emptied and expired. */
  const LogoutCookies: seq<Cookie> :=
    [Cookie("session_token", "", -1, true), Cookie("username", "", -1, false), Cookie("loggedin", "", -1, false)]

  /** The `user_sessions` table. */
  class SessionTable {
    var rows: seq<Session>

    constructor ()
      ensures rows == []
    {
      rows := [];
    }

    /**
     * `CreateUserSession`: a new active session whose token is the hex form of 32 random bytes,
     * whose id is the first 16 hex digits of 32 more, and which expires thirty days from now.
     */
    method CreateUserSession(userId: int, deviceName: string, ipAddress: string, userAgent: string,
                             now: int, tokenBytes: seq<Byte>, idBytes: seq<Byte>) returns (s: Session)
      requires |tokenBytes| == 32 && |idBytes| == 32
      modifies this
      ensures rows == old(rows) + [s]
      ensures s.userId == userId && s.deviceName == deviceName && s.ipAddress == ipAddress && s.userAgent == userAgent
      ensures s.token == HexEncode(tokenBytes) && |s.token| == 64
      ensures s.id == HexEncode(idBytes)[..16]
      ensures s.createdAt == now && s.updatedAt == now && s.expiresAt == now + ThirtyDays && s.isActive
    {
      var token := HexEncode(tokenBytes);
      var sessionId := HexEncode(idBytes);
      s := Session(sessionId[..16], userId, token, deviceName, ipAddress, userAgent, now, now, now + ThirtyDays, true);
      rows := rows + [s];
    }

    method DeactivateSession(id: string, now: int)
      modifies this
      ensures rows == Deactivate(old(rows), id, now)
    {
      rows := Deactivate(rows, id, now);
    }

    method DeactivateAllUserSessions(userId: int, exceptId: string, now: int)
      modifies this
      ensures rows == DeactivateOthers(old(rows), userId, exceptId, now)
    {
      rows := DeactivateOthers(rows, userId, exceptId, now);
    }

    method UpdateSessionActivity(token: string, now: int)
      modifies this
      ensures rows == Touch(old(rows), token, now)
    {
      rows := Touch(rows, token, now);
    }

    /**
     * `SetUserSession`: opens a session for `user` (device "Web Browser" when none is named) and
     * returns it with the three cookies that carry it.
     */
    method SetUserSession(user: User, deviceName: string, ipAddress: string, userAgent: string,
                          now: int, tokenBytes: seq<Byte>, idBytes: seq<Byte>) returns (s: Session, cookies: seq<Cookie>)
      requires |tokenBytes| == 32 && |idBytes| == 32
      modifies this
      ensures rows == old(rows) + [s]
      ensures s.userId == user.id && s.isActive && s.expiresAt == now + ThirtyDays && s.token == HexEncode(tokenBytes)
      ensures s.deviceName == if deviceName == "" then DefaultDeviceName else deviceName
      ensures cookies == LoginCookies(s, user)
    {
      var device := if deviceName == "" then DefaultDeviceName else deviceName;
      s := CreateUserSession(user.id, device, ipAddress, userAgent, now, tokenBytes, idBytes);
      cookies := LoginCookies(s, user);
    }

    /**
     * `ClearUserSession`: deactivates the session the `session_token` cookie finds (if any) and
     * expires the three cookies.
     */
    method ClearUserSession(cookies: map<string, string>, now: int) returns (cleared: seq<Cookie>)
      modifies this
      ensures "session_token" in cookies && GetSessionByToken(old(rows), cookies["session_token"], now).Some? ==>
        rows == Deactivate(old(rows), GetSessionByToken(old(rows), cookies["session_token"], now).value.id, now)
      ensures !("session_token" in cookies && GetSessionByToken(old(rows), cookies["session_token"], now).Some?) ==>
        rows == old(rows)
      ensures cleared == LogoutCookies
    {
      if "session_token" in cookies {
        var found := GetSessionByToken(rows, cookies["session_token"], now);
        if found.Some? {
          DeactivateSession(found.value.id, now);
        }
      }
      cleared := LogoutCookies;
    }

    /**
     * `IsLoggedIn`: decides as `CheckLogin` does and, on success, records activity on the token
     * and hands back what goes into the request context.
     */
    method IsLoggedIn(cookies: map<string, string>, users: seq<UserRow>, grants: seq<Grant>, now: int)
      returns (ctx: Option<Principal>)
      modifies this
      ensures ctx == CheckLogin(cookies, old(rows), users, grants, now)
      ensures ctx.Some? ==> rows == Touch(old(rows), cookies["session_token"], now)
      ensures ctx.None? ==> rows == old(rows)
    {
      ctx := CheckLogin(cookies, rows, users, grants, now);
      if ctx.Some? {
        UpdateSessionActivity(cookies["session_token"], now);
      }
    }

    /** `RequireAuth`: continue with the logged-in principal, or redirect to the login page. */
    method RequireAuth(cookies: map<string, string>, users: seq<UserRow>, grants: seq<Grant>, now: int)
      returns (g: Gate)
      modifies this
      ensures g.Continue? <==> CheckLogin(cookies, old(rows), users, grants, now).Some?
      ensures g.RedirectTo? ==> g.location == LoginPath
    {
      var ctx := IsLoggedIn(cookies, users, grants, now);
      if ctx.Some? {
        g := Continue(ctx.value);
      } else {
        g := RedirectTo(LoginPath);
      }
    }
  }

  /**
   * A browser that sends back the cookies `SetUserSession` set is logged in as that user for the
   * thirty days the session lasts, provided the random token was not already in the table and the
   * user row exists.
   */
  lemma SessionCookiesLogIn(rows: seq<Session>, s: Session, user: User, users: seq<UserRow>,
                            grants: seq<Grant>, cookies: map<string, string>, at: int)
    requires forall j :: 0 <= j < |rows| ==> rows[j].token != s.token
    requires s.isActive && s.userId == user.id && at < s.expiresAt
    requires exists j :: 0 <= j < |users| && users[j].id == user.id
    requires "session_token" in cookies && cookies["session_token"] == LoginCookies(s, user)[0].value
    requires "loggedin" in cookies && cookies["loggedin"] == LoginCookies(s, user)[2].value
    ensures var r := CheckLogin(cookies, rows + [s], users, grants, at);
            r.Some? && r.value.session == s && r.value.user.id == user.id
  {
    NewSessionIsFound(rows, s, at);
  }

  /**
   * After `ClearUserSession`, replaying the old `session_token` cookie no longer logs in, provided
   * tokens are unique in the table.
   */
  lemma LogoutEndsSession(rows: seq<Session>, token: string, now: int, users: seq<UserRow>,
                          grants: seq<Grant>, cookies: map<string, string>, later: int)
    requires forall i, j :: 0 <= i < |rows| && 0 <= j < |rows| && rows[i].token == token && rows[j].token == token ==> i == j
    requires GetSessionByToken(rows, token, now).Some?
    requires "session_token" in cookies && cookies["session_token"] == token
    ensures CheckLogin(cookies, Deactivate(rows, GetSessionByToken(rows, token, now).value.id, now), users, grants, later).None?
  {
    var id := GetSessionByToken(rows, token, now).value.id;
    var after := Deactivate(rows, id, now);
    var k :| 0 <= k < |rows| && rows[k] == GetSessionByToken(rows, token, now).value;
    assert !after[k].isActive;
    assert forall j :: 0 <= j < |after| && j != k ==> after[j].token != token;
  }
}
