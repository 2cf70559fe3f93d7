# Figaro portal: identity, sessions, WebDAV gateway and form rules in Dafny

Figaro is a school portal. It has two parts:

- a Go web application (gin handlers over SQLite);
- an older PHP site that keeps its data in JSON files.

This project models the decision logic of the Go part and verifies it:

- password, QR and Google sign-in;
- the session table and the `IsLoggedIn` middleware;
- permission checks with the `ADMIN` bypass;
- the WebDAV gateway: the token table, HTTP Basic authentication as in section 2 of RFC 7617, shared-folder resolution, root choice, route-prefix stripping and dot-file hiding;
- the shared-folder catalog;
- the admin, material and activity forms with their row scoping;
- the migration bookkeeping;
- the log reader;
- the pagination, pointer, date and template helpers.

It also models the PHP sign-in helpers, the activity list, search and escaping of the PHP activity page, and the material file naming of the PHP material form.

## How the model is built

Each table (`users`, `user_permissions`, `user_sessions`, `webdav_tokens`, `shared_folders`, `centers`, `materials`, `activities`) is a sequence of rows in table order. Each query is either a filter over it or a function that rewrites it. A table that a handler changes lives in a class whose methods have `modifies` clauses. Every such method's `ensures` gives the new table as a function of the old one, and the properties are proved as lemmas about those functions.

The handlers pass the id from the path to `WHERE id = ?` as text. SQLite compares it with the INTEGER column under numeric affinity (`affinity.dfy`): surrounding white space is trimmed, then an optional sign, digits with an optional fraction and an optional exponent are read, and the text matches the row whose id equals that number. So "7", "07", "+7", " 7 ", "7.0" and "7e0" all match row 7, and "0x7", "7a", "7.5" and "" match no row. `Common.IdParamMatches` is this rule.

Outside effects are parameters of the model:

- bcrypt, SHA-256, base64, `crypto/rand` bytes and `time.Parse`;
- the settings table;
- the filesystem's `MkdirAll`;
- the OAuth code exchange;
- the current time.

| file | models |
|---|---|
| `accounts.dfy` | `internal/auth/auth.go`: user lookups, passwords, QR login, access check, Google sign-up |
| `sessions.dfy` | `internal/auth/auth.go`: the session table, hex tokens, `IsLoggedIn`, cookies, middlewares |
| `oauth.dfy` | `internal/auth/auth.go`: OAuth configuration and hosted-domain check |
| `auth_handlers.dfy` | `internal/handlers/auth.go`: login form, logout, profile, WebDAV token page, Google login and callback |
| `webdav.dfy` | `internal/handlers/webdav.go` and the `/dav` routes of `cmd/figaro/main.go` |
| `shared_folders.dfy` | `internal/handlers/shared_folders.go` |
| `common.dfy` | `internal/handlers/common.go`, the center lookup of `internal/handlers/materials.go` and the `page` query the list handlers share |
| `templates.dfy` | the template functions and `getCommonData` of `internal/handlers/common.go` |
| `models.dfy` | `internal/models/models.go`: `NewPaginationInfo`, `NullTime` |
| `utils.dfy` | `pkg/utils/utils.go` |
| `admin.dfy`, `admin_users.dfy` | `internal/handlers/admin.go`: gate, parameters, statistics, centers, users |
| `materials.dfy` | `internal/handlers/materials.go` |
| `activities.dfy` | `internal/handlers/activities.go` |
| `migrations.dfy` | `internal/database/database.go` |
| `logger.dfy` | `ReadLogs` of `pkg/logger/logger.go` |
| `legacy_auth.dfy` | `www/_incl/utils.php` |
| `legacy_activities.dfy` | `www/actividades/index.php` (PHP and JavaScript) |
| `legacy_materials.dfy` | `www/materiales/crear_material.php` |
| `affinity.dfy` | SQLite's numeric reading of a text compared with an INTEGER column |
| `text.dfy`, `tables.dfy`, `sorting.dfy`, `wrappers.dfy` | shared helpers: `strings.Split`, `strconv.Atoi`/`Itoa`, table filters, a stable insertion sort for `ORDER BY`/`usort`, `Option`/`Result` |

### Behaviour of the code a reader might not expect (the model follows the code)

- **Dot-file hiding.** A filter named for hiding dot files might be expected to hide them from every method and at every path component. The code only fails `Stat` on a name whose last element starts with "." and filters `Readdir`. `OpenFile`, `Mkdir`, `RemoveAll` and `Rename` pass through, so `/.hidden/a.txt` is reachable (`WebDav.DotEntryListedButNotStatable`, `WebDav.OnlyLastElementIsChecked`).
- **Shared-folder lookup by name.** The code takes the first matching row in table order. A center's own folder does not take precedence over a global folder of the same name.
- **Hosted domain.** A subdomain of the allowed domain is not accepted. The code compares the second "@"-separated field of the e-mail with the setting for equality, and an e-mail without "@" panics.
- **Login errors.** `auth.Login` distinguishes an unknown user from a wrong password, but the login handler shows the same message for both (`AuthHandlers.NoUsernameOracle`).
- **Token revocation.** Revoking a WebDAV token reports success whether or not a row changed.
- **Session logout.** Ending a session from the profile page has no owner check in the code (see Findings).
- **Findings.** The code behind the five rows under Findings are modelled as the code behaves; the intended rule of each is a separate member with its own proved property.

## Model

| member | source | states |
|---|---|---|
| Affinity.TrimSqlSpace | internal/handlers/admin.go:433-434 | the trimmed text is no longer and neither starts nor ends with white space; a text without surrounding white space is unchanged |
| Affinity.DigitRun | internal/handlers/admin.go:433-434 | the leading run of digits is all digits and stops at the first character that is not one |
| Affinity.ReadMantissa | internal/handlers/admin.go:433-434 | the whole and fraction parts read before an exponent are digit strings |
| Affinity.WholeValue | internal/handlers/admin.go:433-434 | a number with no fraction and no exponent is its own digits' value, with its sign |
| Affinity.IntegerOfNumber | internal/handlers/admin.go:433-434 | a text matches an integer exactly when the number it reads as is that whole number |
| Affinity.DecimalFormRead | internal/handlers/admin.go:433-434 | the decimal form of any integer, `strconv.Itoa`'s output, matches that integer |
| Affinity.SignedOrPaddedDecimalRead | internal/handlers/admin.go:433-434 | "+n" and "0n" match n for every decimal n, as "+7" and "07" match 7 |
| Affinity.SpacedDecimalRead | internal/handlers/admin.go:433-434 | " n " matches n for every decimal n, as " 7 " matches 7 |
| Affinity.ZeroFractionRead | internal/handlers/admin.go:433-434 | "n.0" matches n for every decimal n, as "7.0" matches 7 |
| Affinity.ZeroExponentRead | internal/handlers/admin.go:433-434 | "ne0" matches n for every decimal n, as "7e0" matches 7 |
| Affinity.HalfRefused | internal/handlers/admin.go:433-434 | digits followed by ".5", as in "7.5", match no row |
| Affinity.TrailingCharRefused | internal/handlers/admin.go:433-434 | a decimal followed by any character other than a digit, "." or white space, as in "7a", is not a number |
| Affinity.HexRefused | internal/handlers/admin.go:433-434 | "0x" followed by anything without white space, as in "0x7", is not a number |
| Affinity.BlankRefused | internal/handlers/admin.go:433-434 | the empty text and white space alone are not a number |
| Accounts.PermissionsOf | internal/auth/auth.go:140-158 | a permission is listed exactly when a `user_permissions` row grants it to that user |
| Accounts.LookupUser | internal/auth/auth.go:56-137 | "not found" exactly when no row matches; otherwise the user is a matching row with its permissions attached |
| Accounts.GetUser | internal/auth/auth.go:56-81 | found by username exactly when some row has that username, and the user returned has it |
| Accounts.GetUserByEmail | internal/auth/auth.go:84-109 | found by e-mail exactly when some row has that e-mail, and the user returned has it |
| Accounts.GetUserByID | internal/auth/auth.go:112-137 | found exactly when some row has that id; the user carries exactly that id's permissions |
| Accounts.VerifyPassword | internal/auth/auth.go:170-187 | succeeds iff the hash matches directly, or it starts with `$2y$` and matches with that prefix read as `$2a$`; every failure is InvalidCredentials |
| Accounts.Login | internal/auth/auth.go:190-201 | an unknown username is UserNotFound, a known one with a wrong password is InvalidCredentials, and success is the looked-up user whose password verifies |
| Accounts.LoginWithQR | internal/auth/auth.go:204-224 | a payload that does not split into 3 parts, whose middle part is not base64, or whose third part is not the SHA-256 hex of `user:password` is InvalidQRData; a payload that passes all three is exactly the password login |
| Accounts.QRLoginRoundTrip | internal/auth/auth.go:204-224 | the payload built from a username, its base64 password and SHA-256 logs in exactly like the password login |
| Accounts.UserHasAccess | internal/auth/auth.go:423-440 | true iff a user is present and holds `ADMIN` or exactly the module (no prefix matching) |
| Accounts.CandidateInjective | internal/auth/auth.go:555-572 | the sign-up loop never tries the same username twice (base, base1, base2, ... are distinct) |
| Accounts.FreeUsername | internal/auth/auth.go:555-572 | returns the first candidate not taken: every earlier candidate is taken and the result is free |
| Accounts.NextId | internal/auth/auth.go:575-587 | the next rowid is positive and larger than every existing id |
| Accounts.GrantsFor | internal/auth/auth.go:591-603 | one grant row per permission, in order, for that user |
| Accounts.UserTable.CreateUserFromGoogleOAuth | internal/auth/auth.go:548-611 | appends one password-less user named by the first free candidate from the e-mail's local part; grants exactly the two read-only permissions; returns what lookup by e-mail then finds; ids stay unique |
| Accounts.SignUpFindsNewUser | internal/auth/auth.go:590-610 | after sign-up the lookup by e-mail finds the new row, which holds both read-only permissions |
| Sessions.HexEncode | internal/auth/auth.go:227-233 | two lower-case hex digits per random byte, so a 32-byte token is 64 characters |
| Sessions.HexRoundTrip | internal/auth/auth.go:227-233 | hex decoding gives back the random bytes |
| Sessions.GetSessionByToken | internal/auth/auth.go:274-292 | a row is returned only if its token matches, it is active and `expires_at > now` (strict); none exactly when no row qualifies |
| Sessions.GetUserSessions | internal/auth/auth.go:295-318 | a permutation of the user's live sessions (each listed once), most recently used first |
| Sessions.DeactivatedNeverFound | internal/auth/auth.go:321-325 | once a session is deactivated, no token lookup at any later time returns it |
| Sessions.DeactivateOthersKeepsOnlyExempt | internal/auth/auth.go:328-332 | afterwards the user's only active session is the exempt one; other users' sessions and the exempt session are unchanged |
| Sessions.TouchKeepsLookups | internal/auth/auth.go:335-339 | recording activity changes no lookup result |
| Sessions.NewSessionIsFound | internal/auth/auth.go:236-271 | a freshly inserted session with an unused token is what its token finds until it expires |
| Sessions.CheckLogin | internal/auth/auth.go:380-410 | logged in only with a `session_token` cookie, `loggedin` equal to "yes", a live session and an existing user; the principal is that session and user |
| Sessions.GetCurrentUser | internal/auth/auth.go:413-420 | a user exactly when the context holds one |
| Sessions.RequirePermission | internal/auth/auth.go:455-464 | continue iff a principal with `ADMIN` or the permission is present, otherwise redirect |
| Sessions.SessionTable.CreateUserSession | internal/auth/auth.go:236-271 | appends one active session: a 64-hex token, an id that is the first 16 hex characters of a second token, expiry in 30 days |
| Sessions.SessionTable.DeactivateSession | internal/auth/auth.go:321-325 | the table becomes `Deactivate` of the old one (an unknown id changes nothing) |
| Sessions.SessionTable.DeactivateAllUserSessions | internal/auth/auth.go:328-332 | the table becomes `DeactivateOthers` of the old one |
| Sessions.SessionTable.UpdateSessionActivity | internal/auth/auth.go:335-339 | the table becomes `Touch` of the old one |
| Sessions.SessionTable.SetUserSession | internal/auth/auth.go:342-362 | creates the session (default device name when empty) and sets the three login cookies for it |
| Sessions.SessionTable.ClearUserSession | internal/auth/auth.go:365-377 | deactivates the session the cookie finds, if any, and expires the three cookies |
| Sessions.SessionTable.IsLoggedIn | internal/auth/auth.go:380-410 | the principal is `CheckLogin`; the session is touched only on success, and the table is otherwise unchanged |
| Sessions.SessionTable.RequireAuth | internal/auth/auth.go:443-452 | continue iff logged in, otherwise redirect to the login page |
| Sessions.SessionCookiesLogIn | internal/auth/auth.go:342-362 | a browser returning the cookies `SetUserSession` set is logged in as that user until the session expires |
| Sessions.LogoutEndsSession | internal/auth/auth.go:365-377 | after logout the same cookies no longer log in, at any later time |
| GoogleOAuth.GetGoogleOAuthConfig | internal/auth/auth.go:488-523 | a missing credential is "misconfigured" even when sign-in is disabled; then anything but "true" is "disabled"; success carries the three settings verbatim |
| GoogleOAuth.ValidateGoogleOAuthDomain | internal/auth/auth.go:614-633 | without a hosted domain everything is allowed; with one, the second "@" field must equal it; an e-mail without "@" panics |
| GoogleOAuth.DomainOfPlainAddress | internal/auth/auth.go:614-633 | for `local@domain`, the address is allowed iff the domain equals the setting, and otherwise rejected naming that domain |
| Common.GetCenterID | internal/handlers/materials.go:351-357 | the id of a center with that name; none exactly when no center has the name |
| Common.AdminGate | internal/handlers/admin.go:15-26 | pass iff the caller has ADMIN; no user redirects to /login, any other user gets 403 |
| Common.SelectedCenter | internal/handlers/materials.go:22-27 | a center name exactly when the `centro` cookie is present and non-empty |
| Models.NewPaginationInfo | internal/models/models.go:225-259 | per page defaults to 25; total pages is the ceiling, at least 1; current page is clamped into [1, total]; offset = (current-1)*per page and is never negative; previous/next flags and numbers agree |
| Models.PaginationIsStable | internal/models/models.go:225-259 | feeding a result's current page and per page back in reproduces the same result |
| Models.PagesAreContiguous | internal/models/models.go:225-259 | consecutive pages start exactly one page apart |
| Models.GoQuotient | internal/models/models.go:225-259 | Go's truncating division: for a non-negative dividend, the quotient brackets it |
| Models.NullTime.Scan | internal/models/models.go:119-138 | nil clears Valid with no error; a time is stored; a string is parsed; any other type is an error; Valid is already set when an error is returned |
| Models.NullTime.Value | internal/models/models.go:155-160 | none iff not Valid, otherwise the stored time |
| Utils.IsoToSpanish | pkg/utils/utils.go:11-22 | with exactly three "-" fields before the first "T" they are reversed with "/"; otherwise the input is returned unchanged; a changed result has no "-" |
| Utils.IsoToSpanishIdempotent | pkg/utils/utils.go:11-22 | converting twice is converting once |
| Utils.IsoToSpanishReorders | pkg/utils/utils.go:11-22 | `a-b-c` and `a-b-cTtime` become `c/b/a` with no digit checks |
| Utils.Contains | pkg/utils/utils.go:50-57 | true iff some element equals the item |
| Utils.IntPtr | pkg/utils/utils.go:75-78 | never nil, and it points at the value given, 0 included |
| Utils.StringPtr | pkg/utils/utils.go:60-65 | nil exactly for the empty string |
| Utils.StringValue | pkg/utils/utils.go:68-73 | "" for nil, otherwise the pointed-to string |
| Utils.IntValue | pkg/utils/utils.go:81-85 | 0 for nil, otherwise the pointed-to int |
| Utils.PointerRoundTrips | pkg/utils/utils.go:60-85 | `StringValue(StringPtr(s)) = s`, `IntValue(IntPtr(i)) = i`, and a pointer to "" does not survive the round trip the other way |
| Templates.Call | internal/handlers/common.go:47-54 | true iff fn is a string predicate, the first argument is a string, and fn holds of it |
| Templates.Contains | internal/handlers/common.go:55-67 | membership for a string list, substring for a string, false for anything else |
| Templates.Min | internal/handlers/common.go:81-86 | one of the two arguments, at most both |
| Templates.Max | internal/handlers/common.go:87-92 | one of the two arguments, at least both |
| Templates.Seq | internal/handlers/common.go:93-99 | start..end inclusive ascending; empty when end = start-1; a panic (none) exactly when end < start-1 |
| Templates.Slice | internal/handlers/common.go:100-109 | "" when start is past the end; otherwise the text from start, clipped to length and to the end; a panic on a negative start or length |
| Templates.GetCommonData | internal/handlers/common.go:169-195 | User, Session and HasAccess are present exactly when a user is in the context; HasAccess answers as `UserHasAccess` |
| WebDav.LastElement | internal/handlers/webdav.go:71-74 | the text after the last "/", which contains no "/" |
| WebDav.Base | internal/handlers/webdav.go:71-74 | `path.Base`: never empty, either "/" or free of "/", and "." for "" |
| WebDav.BaseOfChild | internal/handlers/webdav.go:71-74 | the base of `dir/leaf` is `leaf` |
| WebDav.IsDotFile | internal/handlers/webdav.go:71-74 | a dot file iff the last element, trailing slashes aside, starts with "."; the empty name is one, a name of slashes only is not |
| WebDav.OnlyLastElementIsChecked | internal/handlers/webdav.go:71-74 | `dir/leaf` is a dot file iff the leaf starts with ".", whatever the directory |
| WebDav.FilteredCall | internal/handlers/webdav.go:27-49 | Stat of a dot name is ErrNotExist without consulting the inner filesystem; every other call passes through unchanged |
| WebDav.DotEntryListedButNotStatable | internal/handlers/webdav.go:31-49 | a dot entry still appears in an opened directory's listing and can be opened, but not stat'ed |
| WebDav.HideDotEntries | internal/handlers/webdav.go:56-69 | exactly the entries not starting with "." |
| WebDav.Readdir | internal/handlers/webdav.go:56-69 | an inner error is passed on with no entries; otherwise the dot-free entries in their original order |
| WebDav.BareUser | internal/handlers/webdav.go:238-245 | the token's user carries its identity fields but no password hash and no permissions |
| WebDav.ValidateWebDAVToken | internal/handlers/webdav.go:226-251 | a user only for an active token with `expires_at > now`, and it is the token's owner |
| WebDav.UsageKeepsValidity | internal/handlers/webdav.go:254-258 | updating `last_used` changes no validation result |
| WebDav.RevokeIsOwnerScoped | internal/handlers/webdav.go:327-330 | only a row matching both the id and the caller is deactivated; every other row is unchanged |
| WebDav.RevokedTokenRejected | internal/handlers/webdav.go:327-330 | after its owner revokes it, a token no longer validates |
| WebDav.GetUserWebDAVTokens | internal/handlers/webdav.go:298-324 | a permutation of the user's live tokens (each listed once), most recently used first |
| WebDav.NextTokenId | internal/handlers/webdav.go:203-211 | a new token id is larger than every existing one |
| WebDav.NewTokenValidates | internal/handlers/webdav.go:197-223 | a freshly created token with an unused value validates as its owner until it expires |
| WebDav.TokenTable.CreateWebDAVToken | internal/handlers/webdav.go:197-223 | appends one active token that expires in 30 days |
| WebDav.TokenTable.UpdateWebDAVTokenUsage | internal/handlers/webdav.go:254-258 | the table becomes `TouchToken` of the old one |
| WebDav.TokenTable.RevokeWebDAVToken | internal/handlers/webdav.go:327-330 | the table becomes `RevokeToken` of the old one |
| WebDav.BasicAuth | internal/handlers/webdav.go:80-85 | credentials exactly for "Basic " followed by base64 of `user:password`; the user part holds no ":" |
| WebDav.BasicAuthRoundTrip | internal/handlers/webdav.go:80-85 | encoding `user:password` and parsing the header gives the pair back (section 2 of RFC 7617) |
| WebDav.AuthDecision | internal/handlers/webdav.go:77-102 | authorized iff credentials are present and the password-field token validates; otherwise 401 with the Basic realm challenge |
| WebDav.WebDAVAuth | internal/handlers/webdav.go:77-102 | answers as `AuthDecision`, and updates the token's last use only on success |
| WebDav.UsernameIgnored | internal/handlers/webdav.go:80-88 | the Basic username never changes the decision |
| WebDav.FolderScope | internal/handlers/webdav.go:261-295 | the scope is an existing center, and none when the user has no default center name |
| WebDav.GetSharedFolderByName | internal/handlers/webdav.go:261-295 | an active folder of that name that is global or in the user's default center; none iff no row qualifies |
| WebDav.NoDefaultCenterOnlyGlobal | internal/handlers/webdav.go:261-295 | a user without a default center only resolves global folders |
| WebDav.StripRoutePrefix | internal/handlers/webdav.go:143-147 | with the prefix present, the prefix plus the result is the path; otherwise the result is "/" |
| WebDav.WebDAVSharedFolders | internal/handlers/webdav.go:105-150 | 404 iff the folder is unreachable or not a local folder with a path; 500 iff its directory cannot be created; otherwise serves DataDir/LocalPath with the prefix stripped |
| WebDav.PersonalRootsDistinct | internal/handlers/webdav.go:157 | different users never share a personal directory |
| WebDav.WebDAVPersonalFiles | internal/handlers/webdav.go:153-184 | serves DataDir/ArchivosPersonales/<id> with `/dav/MisArchivos` stripped, or 500 when it cannot be created |
| WebDav.RouteDav | cmd/figaro/main.go:76-107 | only the registered RFC 4918 and HTTP methods are routed; a shared route names one non-empty folder |
| WebDav.SharedRouteStripsToFolderPath | internal/handlers/webdav.go:143-147 | a shared-folder request reaches the handler as "/" plus its path inside the folder |
| WebDav.PersonalRouteStripsToUserPath | internal/handlers/webdav.go:177-181 | a personal-files request reaches the handler as "/" plus its path inside the user's directory |
| SharedFolders.ValidateFolderForm | internal/handlers/shared_folders.go:95-151 | in order: an empty name or type, then an unknown type, then a cloud folder without a URL; valid iff none of these |
| SharedFolders.LocalFolderPath | internal/handlers/shared_folders.go:166-169 | `shared_folders/shared_local_` followed by the name |
| SharedFolders.LocalFolderPathInjective | internal/handlers/shared_folders.go:166-169 | for names `filepath.Join` leaves unchanged, two folders share a local path iff they share a name |
| SharedFolders.FolderCenterAsWritten | internal/handlers/shared_folders.go:153-164 | as written: global is NULL, otherwise the posted id, otherwise `Atoi` of the center cookie |
| SharedFolders.FolderCenter | internal/handlers/shared_folders.go:153-164 | corrected: the cookie's center name is resolved to its id |
| SharedFolders.CenterFallbackMakesFolderGlobal | internal/handlers/shared_folders.go:156-163 | a folder meant for center "Colegio Central" is stored with no center (global) as written, but under center 1 once corrected |
| SharedFolders.NewFolder | internal/handlers/shared_folders.go:254-260 | an active row; a local folder gets its local path and a cloud folder none |
| SharedFolders.NextFolderId | internal/handlers/shared_folders.go:254-260 | a new folder id is larger than every existing one |
| SharedFolders.GlobalFirstNewestIsTotal | internal/handlers/shared_folders.go:221-228 | the listing order is a total preorder, so sorting by it is well defined |
| SharedFolders.GetSharedFolders | internal/handlers/shared_folders.go:212-251 | fails iff the center name is unknown; otherwise a permutation of the active folders of that center or global (each listed once), global first, then newest first |
| SharedFolders.GetSharedFolderByID | internal/handlers/shared_folders.go:309-319 | a row whose id the parameter matches; none iff no row matches |
| SharedFolders.SoftDeleteKeepsRows | internal/handlers/shared_folders.go:290 | soft delete keeps every row and field except `is_active`, and the deleted folder is no longer visible anywhere |
| SharedFolders.FolderCatalog.Create | internal/handlers/shared_folders.go:46-209 | in order: the admin gate, the center cookie, validation, the local directory; a row is appended iff all pass, and it is `NewFolder` with the center read from the cookie as written (`FolderCenterAsWritten`), so a non-global folder without `center_id` is stored with no center |
| SharedFolders.FolderCatalog.Delete | internal/handlers/shared_folders.go:263-306 | admin gate, 400 for an empty id, 404 for an unknown id before any update, otherwise the soft delete |
| Materials.ParseIntSafe | internal/handlers/materials.go:360-364 | "" is 0; anything else is `Atoi` |
| Materials.Quantity | internal/handlers/materials.go:140-150 | an empty or unparseable quantity silently becomes 0 |
| Materials.MaterialFormError | internal/handlers/materials.go:114 | an error iff name, unit or category is empty |
| Materials.ApplyForm | internal/handlers/materials.go:262-276 | only rows with that id in the current center change, and they take the form's fields |
| Materials.RemoveInScope | internal/handlers/materials.go:316 | exactly the rows not matching both the id and the center remain; what goes is exactly the matching rows, so nothing else is lost and nothing is duplicated |
| Materials.MaterialsOfCenter | internal/handlers/materials.go:44-74 | a permutation of the named center's materials (each listed once), in ascending order of name; none for an unknown center |
| Materials.GetMaterial | internal/handlers/materials.go:333-349 | a material with that id in the named center; none iff there is none |
| Materials.ShownMaterialIsListed | internal/handlers/materials.go:333-349 | a material that can be opened appears in its center's list |
| Materials.OtherCentersUntouched | internal/handlers/materials.go:262-263 | update and delete never touch another center's material |
| Materials.NothingInScopeChangesNothing | internal/handlers/materials.go:278-280 | with no matching row, update and delete leave the table as it was |
| Materials.MaterialStore.Create | internal/handlers/materials.go:77-175 | login, center cookie, required fields, then an unknown center aborts before any write; otherwise one row is appended |
| Materials.MaterialStore.Update | internal/handlers/materials.go:178-285 | same checks plus the id; the table becomes `ApplyForm`, and zero affected rows report "not found or no permission" |
| Materials.MaterialStore.Delete | internal/handlers/materials.go:288-330 | same checks; the table becomes `RemoveInScope`, and zero affected rows report "not found or no permission" |
| Common.PageParam | internal/handlers/admin.go:49-53 | the page of the user list, and of the activity list (internal/handlers/activities.go:36-40), which parses it the same way: a non-numeric page or a page below 1 becomes 1, any other page is kept |
| Common.PageParamRoundTrip | internal/handlers/activities.go:36-40 | a page number written in decimal is read back unchanged, by either list |
| Admin.DefaultCenterParam | internal/handlers/admin.go:162-168 | NULL exactly for "", "0" or a non-number; otherwise the number |
| Admin.DefaultCenterParamRoundTrip | internal/handlers/admin.go:162-168 | a positive center id written in decimal is read back; "0" is NULL |
| Admin.CenterTimezone | internal/handlers/admin.go:518-521 | never empty: an empty timezone becomes Europe/Madrid |
| Admin.CalculateMaterialStats | internal/handlers/admin.go:1063-1080 | total is the input length; healthy + low stock = total; healthy counts available ≥ minimum; centers counts distinct center ids |
| Admin.HealthyCountExtremes | internal/handlers/admin.go:1063-1080 | all materials are healthy iff the count is the total, and none iff it is 0 |
| Admin.CenterCountBounds | internal/handlers/admin.go:1067-1077 | there are at most as many centers as materials, and at least one when there is a material |
| Admin.RenameCenter | internal/handlers/admin.go:1209-1212 | only the center whose id matches takes the new name and timezone |
| Admin.UnknownCenterUpdateChangesNothing | internal/handlers/admin.go:601-615 | an update of an unknown id leaves the table as it was |
| Admin.NewCenterResolvesByName | internal/handlers/admin.go:1202-1206 | a new center with an unused name is what lookup by that name finds |
| Admin.CenterTable.Create | internal/handlers/admin.go:477-536 | admin gate, a required name, then one appended center with the timezone defaulted |
| Admin.CenterTable.Update | internal/handlers/admin.go:539-616 | admin gate, a required id and name, then the table becomes `RenameCenter` |
| AdminUsers.CreateUserCheck | internal/handlers/admin.go:108-187 | in order: all four fields required, hashing, then a taken username or e-mail fails; success is the new row with the parsed default center and "on" flag |
| AdminUsers.CreateKeepsUnique | internal/handlers/admin.go:171-174 | a successful create keeps ids, usernames and e-mails unique |
| AdminUsers.InsertGrants | internal/handlers/admin.go:190-197 | the table gains one grant per posted permission, in order, after the rows it had (the same loop runs at admin.go:382-389 on update) |
| AdminUsers.AdminUsuarioCrear | internal/handlers/admin.go:74-206 | nothing is written unless the check succeeds; then one row and its grants are appended; user ids stay unique |
| AdminUsers.UpdatedUsers | internal/handlers/admin.go:321-344 | only the matching user changes; the password hash changes only when a new one is supplied |
| AdminUsers.UpdateUserCheck | internal/handlers/admin.go:268-404 | username, display name and e-mail required; success iff hashing works, there is no conflict, and granted permissions name an existing user |
| AdminUsers.AdminUsuarioEditar | internal/handlers/admin.go:209-404 | either nothing is written, or the row update and the wholesale permission replacement are committed together; user ids stay unique |
| AdminUsers.ReplacedGrantsReplaceOnlyTheUser | internal/handlers/admin.go:363-400 | after the update the user holds exactly the submitted permissions, and every other user's are unchanged |
| AdminUsers.UpdateKeepsUnique | internal/handlers/admin.go:339-346 | an update without conflict keeps ids, usernames and e-mails unique |
| AdminUsers.SelfDeleteGuardAsWritten | internal/handlers/admin.go:426-429 | the text comparison never refuses an id that names another user's row, and only refuses ids written with a sign or digit first |
| AdminUsers.SelfDeleteGuardBypassed | internal/handlers/admin.go:426-434 | the guard as written lets "+7", "07", "7.0", "7e0" and " 7 " through for caller 7, although `DELETE ... WHERE id = ?` with any of them removes row 7; it refuses "7" |
| AdminUsers.RemoveUser | internal/handlers/admin.go:432-434 | exactly the users whose id does not match remain |
| AdminUsers.CallerSurvivesDelete | internal/handlers/admin.go:426-434 | with the corrected guard, the caller's row, grants and sessions survive any delete that passes it |
| AdminUsers.AdminUsuarioEliminar | internal/handlers/admin.go:407-447 | the caller's own id in its decimal form is refused ("+7", "7.0" or " 7 " pass for caller 7, see `AdminUsers.SelfDeleteGuardBypassed`); an unknown id is "not found"; otherwise the user and its grants and sessions are removed; user ids stay unique |
| AuthHandlers.LoginDecision | internal/handlers/auth.go:69-112 | a non-empty QR payload is used whenever present; otherwise the password login needs both fields; otherwise credentials are missing |
| AuthHandlers.NoUsernameOracle | internal/handlers/auth.go:88-103 | an unknown user and a wrong password give the identical message |
| AuthHandlers.HandleLoginPost | internal/handlers/auth.go:53-136 | a failure shows the form with the message and creates no session; a success creates one session, sets its cookies and goes to "/" |
| AuthHandlers.Logout | internal/handlers/auth.go:139-149 | ends the cookie's session if it is live, expires the cookies, and redirects to login |
| AuthHandlers.DeactivateOwn | internal/handlers/auth.go:192-197 | corrected: only a session with that id that belongs to the caller is ended |
| AuthHandlers.LogoutSessionIgnoresOwner | internal/handlers/auth.go:192-197 | as written, another user's session is ended; the corrected rule leaves it |
| AuthHandlers.OwnLogoutEndsOwnSession | internal/handlers/auth.go:192-197 | the corrected rule still ends the caller's own session |
| AuthHandlers.ProfilePost | internal/handlers/auth.go:182-214 | "logout_session" ends the session with that non-empty id, whoever owns it; "logout_all_sessions" ends all but the current one; anything else only redirects |
| AuthHandlers.WebDAVCreateToken | internal/handlers/auth.go:246-267 | an empty device name is refused before anything is created; otherwise one token for the caller is appended |
| AuthHandlers.WebDAVRevokeToken | internal/handlers/auth.go:270-291 | a non-integer id is refused before the store is touched; revocation is always scoped to the caller |
| AuthHandlers.GoogleOAuthLogin | internal/handlers/auth.go:377-400 | distinct redirects for disabled, misconfigured and unavailable settings; otherwise a 300-second http-only state cookie and a redirect to Google |
| AuthHandlers.StateRoundTrip | internal/handlers/auth.go:393-410 | the state the login stored passes the callback's check |
| AuthHandlers.CallbackVerdicts | internal/handlers/auth.go:403-476 | a bad state is rejected first; a user is admitted iff state, code, configuration, exchange, user info and domain all pass; a domain panic is a crash |
| AuthHandlers.CallbackOrder | internal/handlers/auth.go:403-533 | the state check precedes clearing the cookie and the exchange; the domain check precedes lookup, provisioning and the session; the lookup precedes provisioning |
| AuthHandlers.RunCallbackChecks | internal/handlers/auth.go:407-476 | the checks as run: the state cookie is cleared iff the state is good, and the code is exchanged iff state, code and configuration passed |
| AuthHandlers.SignInGoogleUser | internal/handlers/auth.go:478-533 | a user is provisioned iff none has the e-mail; exactly one "Google OAuth" session is added for the found or new user |
| AuthHandlers.AdmitGoogleUser | internal/handlers/auth.go:478-533 | a failed lookup writes nothing; otherwise the account is found or created and a session is opened |
| AuthHandlers.GoogleOAuthCallback | internal/handlers/auth.go:403-533 | a callback that is not admitted writes no account or session; an admitted one signs the user in, in the proved step order |
| Activities.TabParam | internal/handlers/activities.go:33-52 | a missing or unknown tab is "all" |
| Activities.EarliestFirstIsTotal | internal/handlers/activities.go:172 | the listing order is a total preorder |
| Activities.ListedActivities | internal/handlers/activities.go:139-172 | a permutation of the listed activities (global or own center, search, today's window unless past), each once, in ascending start order |
| Activities.ActivitiesPage | internal/handlers/activities.go:139-212 | the page is the contiguous slice at the pagination offset, full unless it is the last |
| Activities.TabsShowTheSame | internal/handlers/activities.go:215-224 | the "compartidas" and "enlaces" tabs show exactly what the default tab shows |
| Activities.OnlyTodayWithoutPast | internal/handlers/activities.go:146-150 | without `past=y` an activity outside today is not listed, but it is listed with `past=y` |
| Activities.ParseStampSound | internal/handlers/activities.go:578-582 | an instant the layout "2006-01-02 15:04" accepts is always the instant of a real calendar minute with a four-digit year (the converse of the round trip below) |
| Activities.DateRestSound | internal/handlers/activities.go:578-582 | after the year, the layout accepts only a month in range, a day within it and a minute of a 24-hour day |
| Activities.ClockRestSound | internal/handlers/activities.go:578-582 | the clock part accepts only an hour below 24 and a minute below 60, on a day within its month |
| Activities.ParseDateTimeRoundTrip | internal/handlers/activities.go:578-582 | the date and time a date and a time input send for a real calendar minute parse to that minute's instant (seconds since 1970 UTC) |
| Activities.TrailingTextRefused | internal/handlers/activities.go:578-582 | anything after the minute, seconds included, makes the parse fail |
| Activities.OneDigitHourAccepted | internal/handlers/activities.go:578-582 | a one-digit hour is accepted and names the same minute as its two-digit form |
| Activities.CheckActivityForm | internal/handlers/activities.go:267-330 | title and the four date/time fields are required; both instants must parse; an end before the start is refused and an equal end is accepted; a non-global activity needs a known center; empty URLs become NULL |
| Activities.CheckOrder | internal/handlers/activities.go:289-315 | the first failing check decides the message: start, then end, then order |
| Activities.ApplyDraft | internal/handlers/activities.go:482-487 | only global or own-center rows with that id change |
| Activities.RemoveInScope | internal/handlers/activities.go:531 | exactly the rows outside the scope remain; what goes is exactly the rows in scope |
| Activities.OtherCentersActivitiesUntouched | internal/handlers/activities.go:482-484 | another center's non-global activity is never updated or deleted |
| Activities.GlobalActivitiesInReach | internal/handlers/activities.go:531 | any center can update or delete a global activity named by its decimal id |
| Activities.ActivityStore.Create | internal/handlers/activities.go:227-355 | nothing is written unless the form check succeeds; then one row is appended from the draft |
| Activities.ActivityStore.Update | internal/handlers/activities.go:358-507 | the table becomes `ApplyDraft`, and zero affected rows report "not found or no permission" |
| Activities.ActivityStore.Delete | internal/handlers/activities.go:510-545 | the table becomes `RemoveInScope`, and zero affected rows report "not found or no permission" |
| Migrations.IsMigrationApplied | internal/database/database.go:219-226 | true iff the name is in the applied list |
| Migrations.MigrationFiles | internal/database/database.go:283-292 | a permutation of the `.up.sql` entries (each listed once), in ascending lexicographic order |
| Migrations.ApplyAll | internal/database/database.go:298-322 | the old list is kept as a prefix, and only files not already applied are appended |
| Migrations.ApplyAllNoDuplicates | internal/database/database.go:298-322 | a run never records a migration twice |
| Migrations.ApplyAllComplete | internal/database/database.go:298-322 | a run without error leaves every file recorded |
| Migrations.ApplyAllFailure | internal/database/database.go:306-315 | a failing run names a file it could not read or run, and leaves it unrecorded |
| Migrations.NothingPending | internal/database/database.go:298-302 | with everything applied, a run changes nothing |
| Migrations.ApplyAllIdempotent | internal/database/database.go:298-322 | running again after a successful run changes nothing |
| Migrations.AppendedInOrder | internal/database/database.go:292-318 | newly recorded migrations are in ascending order |
| Migrations.AlreadyInDatabase | internal/database/database.go:132-199 | an unknown migration name is never detected as applied |
| Migrations.DetectAppliedMigrations | internal/database/database.go:88-129 | the detected list is the probed files, in order, and every one is a known migration |
| Migrations.RunMigrations | internal/database/database.go:268-345 | an error returns before saving; otherwise the list is saved iff a migration ran or the state file is absent |
| Migrations.SecondRunIsQuiet | internal/database/database.go:324-337 | after a successful run the next run executes and saves nothing |
| Logger.Kept | pkg/logger/logger.go:214-238 | only values that decode into entries matching the level and day filters are kept |
| Logger.KeptCons | pkg/logger/logger.go:217-238 | a value in front is kept ahead of the rest exactly when it decodes and matches |
| Logger.KeptIsComplete | pkg/logger/logger.go:217-238 | every decodable matching entry is kept |
| Logger.NoFilterKeepsAll | pkg/logger/logger.go:223-235 | with no filters, every decodable line is kept, in order |
| Logger.LastN | pkg/logger/logger.go:240-243 | keeps the last `limit` entries when there are more, as a suffix |
| Logger.Reversed | pkg/logger/logger.go:245-248 | element i is element n-1-i of the input |
| Logger.ReversedTwice | pkg/logger/logger.go:245-248 | reversing twice gives back the input |
| Logger.ReversedPermutes | pkg/logger/logger.go:245-248 | reversal is a permutation |
| Logger.ReverseInPlace | pkg/logger/logger.go:246-248 | the two-pointer swaps leave the array reversed |
| Logger.ReadLogs | pkg/logger/logger.go:202-250 | uninitialised and unopenable files are errors; otherwise the last `limit` matching entries, newest first, every value that does not decode skipped (the corrected loop, see Findings) |
| Logger.FirstMalformed | pkg/logger/logger.go:217-221 | the position of the first syntax error: every value before it is well-formed JSON |
| Logger.DecodeLoop | pkg/logger/logger.go:217-221 | the loop as written never ends exactly when a syntax error comes before the end and does not start with '}' or ']'; otherwise it returns the matching entries before the first syntax error |
| Logger.DecodeStep | pkg/logger/logger.go:217-221 | a well-formed first value moves the first syntax error one place on and adds that value, if it is a matching entry, in front |
| Logger.TruncatedValueHangs | pkg/logger/logger.go:217-221 | a value cut short at the end of the file makes the loop as written run forever, where skipping it returns the entry before it |
| Logger.ClosingBracketHidesTheRest | pkg/logger/logger.go:217-221 | a stray ']' makes the loop as written return nothing, where skipping it returns the entry after it |
| Logger.NewestFirst | pkg/logger/logger.go:240-248 | the result holds at most `limit` entries, and entry i is the i-th match from the end |
| LegacyAuth.ApplyCookies | www/_incl/utils.php:26-36 | the browser's jar only holds cookies it held or was sent |
| LegacyAuth.Login | www/_incl/utils.php:22-32 | succeeds iff the user exists and the password verifies, and only then sets the three one-hour cookies |
| LegacyAuth.Logout | www/_incl/utils.php:33-37 | the username and password cookies are expired; `loggedin` is left |
| LegacyAuth.IsLoggedIn | www/_incl/utils.php:38-46 | a missing cookie means not logged in; otherwise logged in iff `loggedin` is "yes" and the cookie's user name and decoded password would pass `login` again (an unknown name never does) |
| LegacyAuth.UserHasAccess | www/_incl/utils.php:55-67 | false when not logged in; otherwise true iff ADMIN or the module is in the user's list |
| LegacyAuth.RequirePermission | www/_incl/utils.php:69-75 | redirects exactly when access is denied |
| LegacyAuth.LoginSignsIn | www/_incl/utils.php:22-46 | after a successful login the browser is logged in until the cookies expire |
| LegacyAuth.LogoutSignsOut | www/_incl/utils.php:33-46 | after logout the browser is not logged in, whatever it held |
| LegacyAuth.AdminOpensEverything | www/_incl/utils.php:58-62 | an ADMIN user may open every module |
| LegacyAuth.LoginWithQR | www/_incl/utils.php:99-121 | three ":" parts, a known user and a matching SHA-256 are all required before `login` runs |
| LegacyAuth.QRBadgeSignsIn | www/_incl/utils.php:99-121 | a user's QR badge signs that user in |
| LegacyAuth.PhpSession.SetSelectedCentroAula | www/_incl/utils.php:77-81 | writes both keys and nothing else, after which both are selected |
| LegacyAuth.PhpSession.GetSelectedCentro | www/_incl/utils.php:83-86 | null exactly when unset |
| LegacyAuth.PhpSession.GetSelectedAula | www/_incl/utils.php:88-91 | null exactly when unset |
| LegacyAuth.PhpSession.IsCentroAulaSelected | www/_incl/utils.php:93-96 | the selection test holds iff both getters return a value |
| LegacyActivities.Extension | www/actividades/index.php:16 | the text after the last "."; empty without a "." |
| LegacyActivities.JsonExtension | www/actividades/index.php:16 | the extension is "json" iff the name ends in ".json" |
| LegacyActivities.ActivitiesOf | www/actividades/index.php:8-26 | at most one entry per file, each tagged with `_global` |
| LegacyActivities.GetActivitiesFromDir | www/actividades/index.php:8-26 | a missing directory gives []; otherwise `ActivitiesOf` its listing |
| LegacyActivities.EveryJsonFileCounts | www/actividades/index.php:15-24 | exactly one entry per ".json" file |
| LegacyActivities.UndecodableFileYieldsEntry | www/actividades/index.php:17-22 | an undecodable JSON file still yields an (empty) entry, because `_global` is set first |
| LegacyActivities.Upcoming | www/actividades/index.php:49-52 | activities starting today at 00:00 or later |
| LegacyActivities.Past | www/actividades/index.php:55-58 | activities starting before today |
| LegacyActivities.PartitionCovers | www/actividades/index.php:46-58 | every activity falls in exactly one of upcoming and past |
| LegacyActivities.OrdersAreTotal | www/actividades/index.php:61-67 | both sort orders are total preorders |
| LegacyActivities.AllActivitiesSorted | www/actividades/index.php:60-70 | the combined list is a permutation of the input |
| LegacyActivities.SortedUpcoming | www/actividades/index.php:61-63 | upcoming activities sorted ascending by start |
| LegacyActivities.SortedPast | www/actividades/index.php:65-67 | past activities sorted descending by start |
| LegacyActivities.ConcatenatedOrder | www/actividades/index.php:69-70 | upcoming followed by past |
| LegacyActivities.AllActivitiesOrder | www/actividades/index.php:60-70 | the combined list is upcoming ascending then past descending |
| LegacyActivities.ActivitiesPage | www/actividades/index.php:45-70 | the page dies iff some activity's start does not parse; otherwise it holds every activity once, in the combined order |
| LegacyActivities.BuildSearchIndex | www/actividades/index.php:33-43 | one entry per activity, in input order, with exactly id, title, description, start, end and `_global` |
| LegacyActivities.IndexKeepsFields | www/actividades/index.php:33-43 | a missing field is null in the index and "" when read |
| LegacyActivities.PerformSearch | www/actividades/index.php:78-110 | reloads iff there is no term and past is excluded; stops with a TypeError iff, with a term, some activity lacks a title, or lacks a description while its title does not match; otherwise keeps an activity iff the term is empty or the lower-cased title or description contains it, and it starts today or later unless past is included |
| LegacyActivities.MissingTitleStopsSearch | www/actividades/index.php:96-100 | one activity without a title stops every search with a non-empty term |
| LegacyActivities.EmptySearchShowsAll | www/actividades/index.php:96-106 | an empty search including past shows everything |
| LegacyActivities.SearchWithoutPastIsUpcoming | www/actividades/index.php:102-104 | without past activities, a search never reloads, and any list it shows holds only upcoming ones |
| LegacyActivities.ChainChar | www/actividades/index.php:201-208 | each special character becomes exactly one entity, and every other character is kept |
| LegacyActivities.ChainIsPerCharacter | www/actividades/index.php:201-208 | replacing "&" first makes the chain a per-character escape |
| LegacyActivities.EscapeHtml | www/actividades/index.php:201-208 | the escaped text is the per-character escape of the input (each special character becomes its entity, every other character stays), and it holds no raw <, >, " or ' |
| LegacyActivities.EscapeRoundTrip | www/actividades/index.php:201-208 | unescaping gives back the input |
| LegacyMaterials.ReplaceOthers | www/materiales/crear_material.php:32 | same length, with every character outside [a-zA-Z0-9_-] replaced by "_" |
| LegacyMaterials.FileName | www/materiales/crear_material.php:32 | the name's length plus ".json", each character of the name replaced and lower-cased on its own |
| LegacyMaterials.StemAlphabet | www/materiales/crear_material.php:32 | the stem has the name's length and uses only [a-z0-9_-] |
| LegacyMaterials.StemIdempotent | www/materiales/crear_material.php:32 | sanitising a stem again changes nothing |
| LegacyMaterials.StemByCharacter | www/materiales/crear_material.php:32 | the stem is computed character by character |
| LegacyMaterials.SameStem | www/materiales/crear_material.php:32 | names that agree character by character after sanitising share a file |
| LegacyMaterials.NamesCollide | www/materiales/crear_material.php:32 | "A b", "a_b" and "a/b" all go to one file |
| LegacyMaterials.Basename | www/materiales/crear_material.php:24 | the text after the last "/" |
| LegacyMaterials.PhotoPath | www/materiales/crear_material.php:15-28 | the default picture unless an upload was moved; otherwise the download URL of the unique name |
| LegacyMaterials.Record | www/materiales/crear_material.php:10-14 | missing fields default: unit "unidad", quantities 0, notes "" |
| LegacyMaterials.NameGivenIffStem | www/materiales/crear_material.php:31-32 | corrected: the intended check accepts exactly the names whose file name has a non-empty stem |
| LegacyMaterials.ZeroNameRejected | www/materiales/crear_material.php:31 | as written, the name "0" is refused although it has a file name of its own; every other non-empty name passes |
| LegacyMaterials.MaterialFolder.Create | www/materiales/crear_material.php:3-53 | no permission redirects; a name PHP's `empty` rejects ("" or "0") writes nothing and shows the error; otherwise the record is written under the name's file, replacing any file there |
| LegacyMaterials.SameStemOverwrites | www/materiales/crear_material.php:32-45 | saving two names with the same stem leaves only the second record |

## Left out

- Cryptography and encodings are parameters, never computed: bcrypt (`bcryptMatches`, `hashPassword`, `password_verify`), SHA-256 (FIPS 180-4), base64 (RFC 4648) and the random bytes of `crypto/rand`. A WebDAV token (URL-safe base64 of 32 random bytes) is a given string.
- SQL text, the sqlite driver and its errors. A failed query appears only where it changes the answer: the lookup failure of the OAuth callback, and a taken username or e-mail.
- Transactions and concurrency. Each handler runs alone, and the OAuth username probe outside the transaction is not modelled as a race.
- HTTP plumbing, cookie writing, template loading and rendering. Handlers return a `Response` value and a list of cookies.
- The OAuth code exchange and the Google userinfo call. They are the parameters `exchangeSucceeds` and `userInfo`.
- The `golang.org/x/net/webdav` handler, its lock system and `webdav.Dir`. The model stops at the root and path handed to it.
- `filepath.Join` cleaning of "..", "." and duplicate slashes. `JoinPath` concatenates with "/".
- `Stat`/`MkdirAll` and all file I/O. Whether a directory can be created is a parameter, and so are the directory listing and the decoded JSON of the PHP activity page.
- The mkdir calls of `www/materiales/crear_material.php` (lines 18-20 and 55-59) and the upload move. The outcome of the move and of the write are parameters.
- Bytes against characters. Strings are sequences of characters, so `len`, `slice` and `strtolower` act on characters, and lower-casing is ASCII only.
- JavaScript Unicode `toLowerCase`, the `LIKE` wildcards `%` and `_` in a search term, and PHP scalar JSON values.
- Logger `Initialize`, `writeLog` and the level helpers (file append under a mutex).
- Logger.ReadLogs: models the loop that skips every value that does not decode. The loop as written never returns after a syntax error and stops early at a '}' or ']' (`Logger.DecodeLoop`, see Findings).
- Logger.ReadLogs: a negative `limit` is modelled as an error (`SliceOutOfRange`), the slice panic it causes.
- The clock and date formatting. "Now", "today at 00:00" and `dayOf` are parameters; `time.Parse` of a stored timestamp and PHP's `strtotime`/`new DateTime` are partial parsers given as parameters. The form layout "2006-01-02 15:04" is modelled (`Activities.ParseStamp`).
- The activity `status` column, `calculateActivityStats` and the activity and center reports.
- The non-paginated activity queries and the classroom (`AdminAula*`) handlers.
- The center/classroom chooser pages.
- LegacyActivities.Upcoming: takes every start as parsed; a start `new DateTime` cannot parse ends the whole page, which LegacyActivities.ActivitiesPage models.
- Materials.MaterialsOfCenter: materials with equal names keep their table order; SQLite promises no order among them, so this is one of the orders it may return.
- `isMigrationAlreadyInDB` SQL probes. They are the parameter `probe`.
- `loadMigrationState` JSON parsing.
- SQLite's floating-point reading of long numbers. `Affinity.SqlNumber` reads a decimal text exactly; SQLite reads a mantissa of more than about 19 digits, or a large exponent, through a `double` and rounds. Ids written that way are not modelled.
- The Go int64 range. Integers are unbounded, except where a decimal id must parse back (`IntToString` within int64).
- `internal/handlers/handlers.go` is not part of this model. It is an older copy of the split handler files.
- `pkg/config/config.go`, `internal/handlers/static.go` and the PHP pages not listed above are not part of this model.

## Findings

| source | as written | input that shows it | evidently intended | confidence | as-written member | corrected member |
|---|---|---|---|---|---|---|
| www/materiales/crear_material.php:31 | `!empty($nombre)` treats the name "0" as missing | a material named "0" | any non-empty name is saved | not executed | LegacyMaterials.ZeroNameRejected | LegacyMaterials.NameGivenIffStem |
| internal/handlers/auth.go:192-197 | "logout_session" deactivates the posted session id without checking its owner | a signed-in user posts another user's session id | end the session only when it belongs to the caller | not executed | AuthHandlers.LogoutSessionIgnoresOwner | AuthHandlers.OwnLogoutEndsOwnSession |
| internal/handlers/shared_folders.go:156-163 | the `centro` cookie holds a center name but is parsed with `Atoi` | a non-global folder with an empty `center_id`, created in center "Colegio Central" | store the folder under the current center | not executed | SharedFolders.CenterFallbackMakesFolderGlobal | SharedFolders.FolderCenter |
| internal/handlers/admin.go:426-434 | the self-delete guard compares `strconv.Itoa(user.ID)` with the raw parameter | caller 7 deletes id "+7", "7.0" or " 7 ", each of which SQLite still matches to row 7 | refuse the caller's own id however it is written | not executed | AdminUsers.SelfDeleteGuardBypassed | AdminUsers.CallerSurvivesDelete |
| pkg/logger/logger.go:217-221 | `continue` after a failed `Decode` to skip a malformed entry; a syntax error is sticky in `json.Decoder` and does not move its read position, so `More` stays true | a log file whose last line was cut short by a crash, or a stray "]" line | skip the malformed value and read on | not executed, behaviour of `encoding/json` read from its documentation and code | Logger.TruncatedValueHangs | Logger.ReadLogs |
