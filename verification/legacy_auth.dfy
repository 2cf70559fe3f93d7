/**
 * The legacy PHP sign-in of `www/_incl/utils.php`: users are a fixed table keyed by user name,
 * a signed-in browser carries the user name, the base64 password and `loggedin=yes` in
 * cookies, and the chosen center and classroom live in the PHP session. `password_verify`,
 * base64 and SHA-256 are parameters.
 */
module LegacyAuth {
  import opened Wrappers
  import opened Text

  const AdminModule: string := "ADMIN"
  const CookieLifetime: int := 3600
  const NoPermissionLocation: string := "/index.php?flash=No+tienes+permiso+para+acceder+a+esta+página"

  /** An entry of `$users`: the password hash and the modules the user may open. */
  datatype LegacyUser = LegacyUser(passwordHash: string, auth: seq<string>, displayName: string, email: string)

  /** A `setcookie` call: name, value and expiry time. */
  datatype SetCookie = SetCookie(name: string, value: string, expires: int)

  /** The hooks `password_verify(password, hash)`, `base64_encode` and `base64_decode`. */
  datatype Crypto = Crypto(verify: (string, string) -> bool, encode: string -> string, decode: string -> string)

  /** The built-in table: one user `demo`, an administrator; `hash` is what `password_hash('demo')` gave. */
  function DemoUsers(hash: string): map<string, LegacyUser> {
    map["demo" := LegacyUser(hash, [AdminModule, "module2"], "Demo User", "demo@example.com")]
  }

  /** The browser's cookie jar after a response: an expired cookie is removed, any other is set. */
  function ApplyCookies(jar: map<string, string>, cookies: seq<SetCookie>, now: int): (r: map<string, string>)
    ensures forall k :: k in r ==> k in jar || exists i :: 0 <= i < |cookies| && cookies[i].name == k
    decreases |cookies|
  {
    if |cookies| == 0 then jar
    else
      var c := cookies[0];
      var next := if c.expires <= now then jar - {c.name} else jar[c.name := c.value];
      ApplyCookies(next, cookies[1..], now)
  }

  /** `login`: the user exists and the password verifies, and then three cookies for an hour. */
  function Login(users: map<string, LegacyUser>, username: string, password: string, crypto: Crypto, now: int)
      : (r: (bool, seq<SetCookie>))
    ensures r.0 <==> username in users && crypto.verify(password, users[username].passwordHash)
    ensures r.0 ==> r.1 == [SetCookie("username", username, now + CookieLifetime),
                             SetCookie("password", crypto.encode(password), now + CookieLifetime),
                             SetCookie("loggedin", "yes", now + CookieLifetime)]
    ensures !r.0 ==> r.1 == []
  {
    if username in users && crypto.verify(password, users[username].passwordHash) then
      (true, [SetCookie("username", username, now + CookieLifetime),
              SetCookie("password", crypto.encode(password), now + CookieLifetime),
              SetCookie("loggedin", "yes", now + CookieLifetime)])
    else (false, [])
  }

  /** `logout`: the user name and password cookies are expired; `loggedin` is left. */
  function Logout(now: int): (r: seq<SetCookie>)
    ensures |r| == 2 && r[0].name == "username" && r[1].name == "password"
    ensures forall i :: 0 <= i < |r| ==> r[i].expires < now && r[i].value == ""
  {
    [SetCookie("username", "", now - CookieLifetime), SetCookie("password", "", now - CookieLifetime)]
  }

  /**
   * `is_logged_in`: the three cookies are present, `loggedin` is "yes", and the decoded password
   * verifies against the user's hash. An unknown user name has no hash and does not verify.
   */
  function IsLoggedIn(jar: map<string, string>, users: map<string, LegacyUser>, crypto: Crypto): (b: bool)
    ensures "loggedin" !in jar || "username" !in jar || "password" !in jar ==> !b
    ensures b <==> "loggedin" in jar && "username" in jar && "password" in jar && jar["loggedin"] == "yes" &&
                   Login(users, jar["username"], crypto.decode(jar["password"]), crypto, 0).0
  {
    "loggedin" in jar && "username" in jar && "password" in jar &&
    jar["loggedin"] == "yes" &&
    jar["username"] in users &&
    crypto.verify(crypto.decode(jar["password"]), users[jar["username"]].passwordHash)
  }

  /** `user_has_access`: signed in, and `ADMIN` or the module is in the user's list. */
  function UserHasAccess(jar: map<string, string>, users: map<string, LegacyUser>, crypto: Crypto, moduleName: string)
      : (b: bool)
    ensures b <==> IsLoggedIn(jar, users, crypto) &&
                   (AdminModule in users[jar["username"]].auth || moduleName in users[jar["username"]].auth)
    ensures !IsLoggedIn(jar, users, crypto) ==> !b
  {
    if IsLoggedIn(jar, users, crypto) then
      var auth := users[jar["username"]].auth;
      AdminModule in auth || moduleName in auth
    else false
  }

  /** `require_permission`: the redirect it sends (and exits after), or nothing when access is granted. */
  function RequirePermission(jar: map<string, string>, users: map<string, LegacyUser>, crypto: Crypto,
                             moduleName: string): (stop: Option<string>)
    ensures stop.None? <==> UserHasAccess(jar, users, crypto, moduleName)
    ensures stop.Some? ==> stop.value == NoPermissionLocation
  {
    if UserHasAccess(jar, users, crypto, moduleName) then None else Some(NoPermissionLocation)
  }

  /**
   * A successful `login` signs the browser in until the cookies expire, provided base64
   * decoding undoes encoding.
   */
  lemma LoginSignsIn(jar: map<string, string>, users: map<string, LegacyUser>, username: string, password: string,
                     crypto: Crypto, now: int, later: int)
    requires Login(users, username, password, crypto, now).0
    requires crypto.decode(crypto.encode(password)) == password
    requires later < now + CookieLifetime
    ensures IsLoggedIn(ApplyCookies(jar, Login(users, username, password, crypto, now).1, later), users, crypto)
  {
    var cookies := Login(users, username, password, crypto, now).1;
    var j1 := jar["username" := username];
    var j2 := j1["password" := crypto.encode(password)];
    var j3 := j2["loggedin" := "yes"];
    assert ApplyCookies(jar, cookies, later) == ApplyCookies(j1, cookies[1..], later);
    assert ApplyCookies(j1, cookies[1..], later) == ApplyCookies(j2, cookies[2..], later);
    assert ApplyCookies(j2, cookies[2..], later) == ApplyCookies(j3, cookies[3..], later);
  }

  /** After `logout`, the browser is not signed in, whatever it held. */
  lemma LogoutSignsOut(jar: map<string, string>, users: map<string, LegacyUser>, crypto: Crypto, now: int, later: int)
    requires later >= now - CookieLifetime
    ensures !IsLoggedIn(ApplyCookies(jar, Logout(now), later), users, crypto)
  {
    var cookies := Logout(now);
    var j1 := jar - {"username"};
    var j2 := j1 - {"password"};
    assert ApplyCookies(jar, cookies, later) == ApplyCookies(j1, cookies[1..], later);
    assert ApplyCookies(j1, cookies[1..], later) == j2;
  }

  /** A user with `ADMIN` in their list may open every module. */
  lemma AdminOpensEverything(jar: map<string, string>, users: map<string, LegacyUser>, crypto: Crypto, moduleName: string)
    requires IsLoggedIn(jar, users, crypto) && AdminModule in users[jar["username"]].auth
    ensures UserHasAccess(jar, users, crypto, moduleName)
    ensures RequirePermission(jar, users, crypto, moduleName).None?
  {
  }

  /**
   * `login_with_qr`: exactly three ":"-separated parts, a known user name, and the SHA-256 of
   * "user:password" (`hash_equals`) equal to the third part; only then `login` runs.
   */
  function LoginWithQR(users: map<string, LegacyUser>, qr: string, crypto: Crypto, sha256: string -> string, now: int)
      : (r: (bool, seq<SetCookie>))
    ensures |Split(qr, ':')| != 3 ==> r == (false, [])
    ensures |Split(qr, ':')| == 3 && Split(qr, ':')[0] !in users ==> r == (false, [])
    ensures (|Split(qr, ':')| == 3 &&
             sha256(Split(qr, ':')[0] + ":" + crypto.decode(Split(qr, ':')[1])) != Split(qr, ':')[2]) ==> r == (false, [])
    ensures r.0 ==> (|Split(qr, ':')| == 3 && Split(qr, ':')[0] in users &&
      sha256(Split(qr, ':')[0] + ":" + crypto.decode(Split(qr, ':')[1])) == Split(qr, ':')[2] &&
      r == Login(users, Split(qr, ':')[0], crypto.decode(Split(qr, ':')[1]), crypto, now))
  {
    var parts := Split(qr, ':');
    if |parts| != 3 then (false, [])
    else
      var username := parts[0];
      var password := crypto.decode(parts[1]);
      if username !in users then (false, [])
      else if sha256(username + ":" + password) != parts[2] then (false, [])
      else Login(users, username, password, crypto, now)
  }

  /**
   * The code a user's QR badge carries (user name, base64 password and the SHA-256 of
   * "user:password") signs that user in, when the user name and the base64 text hold no ":".
   */
  lemma QRBadgeSignsIn(users: map<string, LegacyUser>, username: string, password: string, crypto: Crypto,
                       sha256: string -> string, now: int)
    requires username in users && crypto.verify(password, users[username].passwordHash)
    requires crypto.decode(crypto.encode(password)) == password
    requires ':' !in username && ':' !in crypto.encode(password) && ':' !in sha256(username + ":" + password)
    ensures var qr := username + ":" + crypto.encode(password) + ":" + sha256(username + ":" + password);
      LoginWithQR(users, qr, crypto, sha256, now) == Login(users, username, password, crypto, now) &&
      LoginWithQR(users, qr, crypto, sha256, now).0
  {
    SplitThree(username, crypto.encode(password), sha256(username + ":" + password), ':');
  }

  /** The PHP session: `$_SESSION`, of which the center and classroom keys matter here. */
  class PhpSession {
    var vars: map<string, string>

    constructor (vars: map<string, string>)
      ensures this.vars == vars
    {
      this.vars := vars;
    }

    /** `set_selected_centro_aula`: both keys are written, nothing else changes. */
    method SetSelectedCentroAula(centro: string, aula: string)
      modifies this
      ensures vars == old(vars)["centro" := centro]["aula" := aula]
      ensures GetSelectedCentro() == Some(centro) && GetSelectedAula() == Some(aula) && IsCentroAulaSelected()
    {
      vars := vars["centro" := centro]["aula" := aula];
    }

    /** `get_selected_centro`: null when unset. */
    function GetSelectedCentro(): (r: Option<string>)
      reads this
      ensures r.Some? <==> "centro" in vars
      ensures r.Some? ==> r.value == vars["centro"]
    {
      if "centro" in vars then Some(vars["centro"]) else None
    }

    /** `get_selected_aula`: null when unset. */
    function GetSelectedAula(): (r: Option<string>)
      reads this
      ensures r.Some? <==> "aula" in vars
      ensures r.Some? ==> r.value == vars["aula"]
    {
      if "aula" in vars then Some(vars["aula"]) else None
    }

    /** `is_centro_aula_selected`: both keys are set, so both getters return a value. */
    function IsCentroAulaSelected(): (b: bool)
      reads this
      ensures b <==> GetSelectedCentro().Some? && GetSelectedAula().Some?
    {
      "centro" in vars && "aula" in vars
    }
  }
}
