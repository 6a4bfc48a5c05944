# Chat application core, modelled in Dafny

This project models the logic of a chat application with moderation, written
in TypeScript with an Express/Mongoose server and a React client. It covers
the server's moderation state machine and its route permissions, the ban
ledger and report records, registration/login/logout over the user store,
the HTTP authentication middleware, the Socket.IO presence and signalling
relay, the message rules (validation order, pagination, read receipts), the
Mongoose field validators and the upload filter. On the client it covers the
zod form schemas, the password-strength meter, file validation and icons,
media size and type checks, crypto-address patterns, the page-title badge
and click routing of notifications, the notification list, and the
moderator panel's search, button gating and ban form.

Everything is a pure function over immutable datatypes. Collections
(users, ban ledger, reports, messages, notifications) are sequences in
insertion order, which is the database's natural order; lookups find the
first match. Every server transition takes the caller and the clock reading
`now` (milliseconds) as inputs and answers a status together with the new
state. Token verification and signing, ObjectId validity, e-mail and URL
validation, bcrypt hashing and comparison, and uuid generation are
function-typed parameters (oracles). A server's answer that the client
waits for is a boolean parameter.

Modules, one per source file or concern:

- `Common`, `Text`, `JsNumber`, `Sorting`: shared types, the string helpers
  of JavaScript (trim, lower-casing, `startsWith`, `includes`),
  `parseInt`, and a sort newest-first.
- `UserModel`: the user document and its validators (`server/src/models/User.ts`).
- `Moderation`, `ModerationProps`, `ModerationRoutes`: the moderation
  controller, its properties, and the router in front of it.
- `AuthController`, `AuthMiddleware`, `Relay`, `Messages`, `Upload`: the other
  server files.
- `AuthSchemas`, `ProfileSchemas`, `PasswordStrength`, `FileService`,
  `MediaProcessing`, `Donation`, `NotificationService`, `NotificationCenter`,
  `ModeratorPanel`: the client files.

Four points where the server sources do not fit together are resolved as
follows.

- `checkRole` and `authenticateToken` are imported from the auth middleware,
  which only defines `protect` and `optionalAuth`. `checkRole(roles)` is
  modelled as "the caller's role is one of `roles`". An unauthenticated
  request gets 401.
- The controller writes `role`, `isBanned`, `banReason` and `bannedUntil` on
  users, although the user schema does not declare them. The model follows
  the controller.
- The controller reads `req.user.id`, whereas `protect` sets
  `req.user.userId`. The caller's id is an explicit input.
- The controller imports a named `User` from the user model file, which only
  has a default export; the ban ledger and report files export both. As
  written the import is undefined, so listing, promotion, revocation, ban
  and unban would fail with 500. The model uses the default-exported user
  model throughout.

Three further mismatches change what a user sees, and are recorded under
"## Findings" with the code as written and the evidently intended code
side by side: login saves the loaded document, whose bcrypt hash then
fails the password validator; login with a known e-mail and no password
ends in a 500, because the password comparison's rejection escapes its
own `catch`; and the moderator panel reads `id` and `name` from a listing
that sends `_id` and `username`. The rest of the
model uses the intended behaviour. The notification centre's loading
effect also depends on the list it loads, so every change of the list is
followed by a fresh fetch; `NotificationCenter.ReloadOverridesTransitions`
states what that fetch leaves.

## Model

| member | source | states |
|---|---|---|
| UserModel.View | server/src/controllers/moderationController.ts:9 | A listed user carries every field of the account (id, username, e-mail, avatar, role, ban fields, presence) except the password. |
| UserModel.FindUser | server/src/controllers/moderationController.ts:25-28 | `findById` gives a position holding that id, and gives nothing exactly when no account holds it. |
| UserModel.StoredEmail | server/src/models/User.ts:37-38 | The stored e-mail is the trimmed, lower-cased input and holds no upper-case letter. |
| UserModel.StoredEmailTrimmed | server/src/models/User.ts:33-40 | The normalised e-mail is its own trim: lower-casing does not bring whitespace back to either end. |
| UserModel.NewAccount | server/src/models/User.ts:17-76 | A new document gets the trimmed username, the normalised e-mail, the hash, an empty avatar, role user, no ban, offline, `lastSeen` now. |
| UserModel.NewAccountStoredValid | server/src/models/User.ts:19-53 | Every account that passes the validators stores a 3-to-20-character username over `[A-Za-z0-9_-]` and a non-empty lower-case e-mail, both without surrounding whitespace, and the hash it was given. |
| UserModel.HashFailsPasswordPattern | server/src/models/User.ts:45-49 | A stored value holding `/` or `.`, as bcrypt output does, fails the password pattern. |
| Moderation.LastBan | server/src/models/BanRecord.ts:4-33 | The latest ledger entry about a user is an entry about that user, and there is none exactly when the ledger never mentions the user. |
| Moderation.LastBanAppend | server/src/controllers/moderationController.ts:83-90 | Appending an entry about a user makes it that user's latest entry and leaves everyone else's latest entry as it was. |
| Moderation.GetUsers | server/src/controllers/moderationController.ts:7-14 | The listing has one entry per account, in collection order, each without its password. |
| Moderation.ChangeRole | server/src/controllers/moderationController.ts:16-60 | Only an admin gets past the role check (403 otherwise, state unchanged); then an unknown target gives 404; otherwise only the target's role changes. |
| Moderation.Promote | server/src/controllers/moderationController.ts:16-37 | A successful promotion leaves the target a moderator. |
| Moderation.Revoke | server/src/controllers/moderationController.ts:39-60 | A successful revocation leaves the target a plain user. |
| Moderation.BanExpiry | server/src/controllers/moderationController.ts:78-80 | Duration -1 means no end date; any other duration ends the ban `duration` hours after now, and a date outside the JavaScript range is refused. |
| Moderation.Ban | server/src/controllers/moderationController.ts:62-102 | Staff only (403), then the target must exist (404); success appends exactly one entry naming the target, the actor, now and the end date, and sets the target's ban flags to match it; any failure leaves the state unchanged. |
| Moderation.Unban | server/src/controllers/moderationController.ts:104-127 | Staff only, target must exist; success clears the three ban fields of the target and never touches the ledger or the reports. |
| Moderation.BanHistory | server/src/controllers/moderationController.ts:129-141 | The history is newest first and holds each ledger entry about the target exactly as often as the ledger does, and nothing else. |
| Moderation.ReportUser | server/src/controllers/moderationController.ts:143-160 | Any caller may report any user id; with a non-empty reason a pending report by the caller, with no resolution fields, is appended; otherwise nothing changes. |
| Moderation.GetReports | server/src/controllers/moderationController.ts:162-178 | Staff only; the answer is a newest-first permutation of all reports. |
| Moderation.FindReport | server/src/controllers/moderationController.ts:190-193 | A report lookup gives a position with that id, and nothing exactly when no report has it. |
| Moderation.ResolveReport | server/src/controllers/moderationController.ts:180-205 | Staff only, report must exist (404); success marks only that report resolved with the resolution, the resolver and now, and leaves users and ledger alone. |
| ModerationProps.PromoteRevokeRoundTrip | server/src/controllers/moderationController.ts:30-31 | Revoking a freshly promoted plain user gives back the original state. |
| ModerationProps.PromoteDemotesAdmin | server/src/controllers/moderationController.ts:25-31 | Promotion has no guard on the target's current role, so promoting an admin makes it a moderator. |
| ModerationProps.RoleCheckPrecedesLookup | server/src/controllers/moderationController.ts:21-28 | A non-admin gets the same 403 for an existing and for a missing target, so the lookup cannot be probed. |
| ModerationProps.BanExpiryMeaning | server/src/controllers/moderationController.ts:78-90 | The recorded entry is permanent exactly when the duration is -1, and otherwise ends `duration` hours after it was made. |
| ModerationProps.SelfBanRecordsActorAsTarget | server/src/models/BanRecord.ts:12-25 | Nothing forbids a moderator banning themself: the entry names them as both target and actor. |
| ModerationProps.UnbanIdempotent | server/src/controllers/moderationController.ts:118-121 | Unbanning twice has the same answer and state as unbanning once. |
| ModerationProps.BanExtendsHistory | server/src/controllers/moderationController.ts:83-90 | After a ban the target's history holds exactly one more entry: the one just written. |
| ModerationProps.HistoryAppend | server/src/controllers/moderationController.ts:133-135 | Appending an entry about the target adds exactly that entry to the target's history. |
| ModerationProps.HistoryIsExactlyTheTargets | server/src/controllers/moderationController.ts:133-135 | An entry is in a user's history if and only if it is in the ledger and is about that user. |
| ModerationProps.ReResolveOverwrites | server/src/controllers/moderationController.ts:195-199 | Resolving a resolved report again keeps it resolved and overwrites resolution, resolver and time with the second call's values. |
| ModerationProps.ReportThenListed | server/src/models/Report.ts:29-47 | A report just filed is pending, names the caller, and appears in the staff listing. |
| ModerationProps.ChangeRolePreservesValid | server/src/controllers/moderationController.ts:30-31 | Role changes keep the state invariant: ban flags agree with the latest ledger entry, reports are well formed and their ids unique. |
| ModerationProps.BanPreservesValid | server/src/controllers/moderationController.ts:83-96 | A ban keeps the state invariant. |
| ModerationProps.UnbanPreservesValid | server/src/controllers/moderationController.ts:118-121 | An unban keeps the state invariant. |
| ModerationProps.ReportUserPreservesValid | server/src/controllers/moderationController.ts:148-154 | Filing a report keeps the state invariant. |
| ModerationProps.ResolvePreservesValid | server/src/controllers/moderationController.ts:195-199 | Resolving a report keeps the state invariant. |
| ModerationRoutes.Effective | server/src/routes/moderationRoutes.ts:21-33 | The roles an endpoint serves are exactly those both the route gate and the handler's own check let through. |
| ModerationRoutes.Answer | server/src/controllers/moderationController.ts:32-36 | The JSON answer carries the transition's status, and the success message on 200. |
| ModerationRoutes.Controller | server/src/controllers/moderationController.ts:7-205 | A handler answers 200, 403, 404 or 500, changes nothing unless it answers 200, and answers 403 exactly when its own role check refuses the caller. Each request gets the status and the new state of its own transition (`Moderation.Ban`, `Moderation.Unban`, `ResolveReport`, `Promote`, `Revoke`, `ReportUser`), and the listings answer the user list, the user's ban history or the report list unchanged. |
| ModerationRoutes.Dispatch | server/src/routes/moderationRoutes.ts:18-33 | No caller gives 401 and no change; a role the route's gate refuses gets 403 and no change; a role the gate admits gets exactly the controller's answer; a 200 implies the caller's role is served by the endpoint. |
| ModerationRoutes.BanHistoryGuardedByRouteOnly | server/src/routes/moderationRoutes.ts:24 | A plain user reaching the ban-history handler would be answered; only the route refuses them. |
| ModerationRoutes.DispatchPreservesValid | server/src/routes/moderationRoutes.ts:18-33 | Every request keeps the state invariant. |
| ModerationRoutes.LedgerAppendOnly | server/src/controllers/moderationController.ts:83-90 | No request removes or rewrites a ledger entry: the old ledger is a prefix of the new one. |
| ModerationRoutes.ResolvedStaysResolved | server/src/models/Report.ts:29-32 | A resolved report stays resolved at its position whatever request follows. |
| AuthController.FindByEmail | server/src/controllers/authController.ts:59 | The login lookup finds the first account holding the normalised e-mail, and nothing exactly when none does. |
| AuthController.Register | server/src/controllers/authController.ts:9-52 | A clash on e-mail or username gives 400 with the duplicate message; otherwise a valid document with a fresh id is appended and 201 returns a token and the public fields; anything else is 500 with no change. |
| AuthController.Login | server/src/controllers/authController.ts:54-98 | The intended login: 200 exactly when the e-mail is known and the password matches; then only that user becomes online with `lastSeen` now; every failure (unknown e-mail, missing password, wrong password) is the same 401. |
| AuthController.LoginAsWritten | server/src/controllers/authController.ts:54-98 | As written: the same answers as the intended login, except a 500 with no change for a known e-mail sent without a password, and for a matching password when the document fails a validator that `save()` re-runs, the stored hash against the password pattern included. |
| AuthController.Logout | server/src/controllers/authController.ts:100-119 | No caller id gives 401; otherwise 200 and the caller, if present, is offline with `lastSeen` now, others unchanged. |
| AuthController.RegisterPreservesUnique | server/src/controllers/authController.ts:14-31 | Registration keeps ids, e-mails and usernames unique across the store. |
| AuthController.MissingPasswordAsWritten | server/src/models/User.ts:97-109 | For a known e-mail sent without a password, the intended login answers the 401 of bad credentials and the login as written answers 500, both with no change. |
| AuthController.LoginFailuresIndistinguishable | server/src/controllers/authController.ts:59-72 | An unknown e-mail and a wrong password produce identical answers. |
| AuthController.RegisterThenLogin | server/src/controllers/authController.ts:25-77 | With no clashing user, valid fields and a fresh id, registration succeeds, and the intended login with the same e-mail and password then answers 200 for the new user, who is online. |
| AuthController.RegisterThenLoginAsWrittenFails | server/src/controllers/authController.ts:67-97 | As written, a user who could register and whose hash holds `/` or `.` gets a 500 for the correct password, and nobody goes online. |
| AuthController.LoginThenLogout | server/src/controllers/authController.ts:75-111 | Logging out after logging in leaves that user offline at the later time and everyone else as before. |
| AuthController.SameKeysUnique | server/src/models/User.ts:22 | Rewriting non-key fields keeps the uniqueness of ids, e-mails and usernames. |
| AuthController.LoginPreservesUnique | server/src/controllers/authController.ts:75-77 | Login keeps the store's keys unique. |
| AuthController.LogoutPreservesUnique | server/src/controllers/authController.ts:109-112 | Logout keeps the store's keys unique. |
| AuthMiddleware.SpaceAt | server/src/middleware/auth.ts:25 | Finds the first space of a string, or reports there is none. |
| AuthMiddleware.SecondField | server/src/middleware/auth.ts:25 | `split(' ')[1]` exists exactly when the string holds a space, and never contains a space. |
| AuthMiddleware.ExtractToken | server/src/middleware/auth.ts:23-28 | A truthy header starting with `Bearer` yields its second field; any other header falls back to a truthy cookie. |
| AuthMiddleware.Protect | server/src/middleware/auth.ts:15-82 | No token 401; an undecodable token 401; an expired `exp` 401; a missing user 401; other failures 500; otherwise the request proceeds as the token's user and only that user's `lastSeen` is updated. |
| AuthMiddleware.OptionalAuth | server/src/middleware/auth.ts:84-113 | Always proceeds; attaches the token's user exactly when the second header field verifies and names an existing user. |
| AuthMiddleware.BearerRoundTrip | server/src/middleware/auth.ts:23-25 | `Bearer <token>` yields the token back for any token without spaces. |
| AuthMiddleware.BareBearerIgnoresCookie | server/src/middleware/auth.ts:24-34 | A bare `Bearer` header yields no token and does not fall back to the cookie, so the request is refused. |
| AuthMiddleware.ManualExpiryUnreachable | server/src/middleware/auth.ts:38-45 | If the token library refuses expired tokens, the middleware's own expiry answer never happens. |
| AuthMiddleware.ProtectThenOptionalAgree | server/src/middleware/auth.ts:84-113 | A `Bearer` header that `protect` accepts makes `optionalAuth` attach the same user. |
| Relay.Authenticate | server/src/socket/index.ts:27-48 | The handshake reads `auth.token`, else `query.token`; it admits the verified user if that user exists, and every failure gives the same error. |
| Relay.HandshakeMatchesProtect | server/src/socket/index.ts:27-48 | For a token the library answers alike, the handshake admits a user exactly when `protect` lets a `Bearer` request through, and it is the same user. |
| Relay.SetPresence | server/src/socket/index.ts:56-59 | Only the user `findById` finds changes: online or offline as asked, last seen now, its other fields kept; with no such user nothing changes. |
| Relay.Connect | server/src/socket/index.ts:51-68 | The socket's rooms are exactly its own id and its user's id; only that user's presence changes, to online; every socket but this one hears that user online. |
| Relay.Disconnect | server/src/socket/index.ts:106-116 | Only the socket's user's presence changes, to offline; every socket but this one hears that user offline. |
| Relay.Forward | server/src/socket/index.ts:73-103 | Each forwarding handler emits once to the target's room; any user id in the payload is the authenticated sender's; answers and ICE candidates carry none. |
| Relay.Recipients | server/src/socket/index.ts:65-68 | The sockets reached are exactly the connected sockets the emission's scope covers. |
| Relay.ForwardReachesTarget | server/src/socket/index.ts:73-103 | A forwarded event reaches another socket exactly when it belongs to the target user (or is the socket named). |
| Relay.SenderExcluded | server/src/socket/index.ts:73-103 | The sender never hears its own forwarded event. |
| Relay.ConnectThenDisconnect | server/src/socket/index.ts:56-111 | Connecting then disconnecting leaves the user offline at the later time and everyone else unchanged. |
| Relay.DisconnectIgnoresOtherSockets | server/src/socket/index.ts:106-116 | Closing one of a user's two sockets marks the user offline, and the other socket is told so. |
| Messages.ParseType | server/src/models/Message.ts:34-38 | A missing type is text; a type outside text, image and video fails. |
| Messages.FindMessage | server/src/controllers/messageController.ts:126 | A message lookup gives a position with that id, and nothing exactly when no message has it. |
| Messages.SendMessage | server/src/controllers/messageController.ts:6-61 | 401 without sender, then 400 for a malformed receiver, then 400 for no content and no file; a stored message is private exactly when a receiver is given, read by the sender alone, carries the upload path exactly when a file came, and is emitted to the receiver's room or to everyone. |
| Messages.PageNumber | server/src/controllers/messageController.ts:76 | The page is at least 1: the parsed page when it is at least 1, else 1. |
| Messages.PageLimit | server/src/controllers/messageController.ts:77 | The limit lies in 1..50: the parsed value when in range, 50 for a missing, zero or too large value, 1 for a negative one. |
| Messages.PageCount | server/src/controllers/messageController.ts:104 | The page count is the least whole number of pages holding every message. |
| Messages.PageSlice | server/src/controllers/messageController.ts:91-92 | A page holds at most `limit` messages, taken consecutively from position `(page-1)*limit`. |
| Messages.ListPage | server/src/controllers/messageController.ts:79-105 | A page is the `(page - 1) * limit` skip and `limit` take of a newest-first ordering of exactly the matching messages: it holds only matches, newest first, has exactly the length that skip and take leave, and reports the total of matches and its page count. |
| Messages.SliceMembers | server/src/controllers/messageController.ts:89-92 | Every message on a page of the sorted matches is one of the stored messages. |
| Messages.GetMessages | server/src/controllers/messageController.ts:63-111 | 401 without requester, 400 exactly for a malformed receiver id, otherwise the page for the clamped page and limit. |
| Messages.SlicePreservesOrder | server/src/controllers/messageController.ts:90-92 | A page of a newest-first listing is itself newest first. |
| Messages.MarkAsRead | server/src/controllers/messageController.ts:113-153 | Checks in order 401, 400, 404, then 403 for a private message not addressed to the caller; success adds the caller to the readers once and notifies the sender only the first time. |
| Messages.SendKeepsReadersDistinct | server/src/controllers/messageController.ts:37 | A new message lists no reader twice. |
| Messages.MarkKeepsReadersDistinct | server/src/controllers/messageController.ts:136-138 | Marking as read never lists a reader twice. |
| Messages.MarkAsReadIdempotent | server/src/controllers/messageController.ts:136-147 | A second mark by the same reader changes nothing and sends no second notification. |
| Messages.FileOnlyMessageRefused | server/src/models/Message.ts:29-33 | A message with a file but no text passes the controller's emptiness check but fails the required content validator (500). |
| Messages.ZeroLimitMeansFifty | server/src/controllers/messageController.ts:77 | A limit of "0" is falsy and becomes 50. |
| Messages.NegativeLimitMeansOne | server/src/controllers/messageController.ts:77 | A negative limit becomes 1. |
| Messages.LargeLimitMeansFifty | server/src/controllers/messageController.ts:77 | A limit above 50 becomes 50. |
| Messages.ConversationSymmetric | server/src/controllers/messageController.ts:79-85 | Both participants of a conversation match the same messages. |
| Messages.EveryMatchListed | server/src/controllers/messageController.ts:79-105 | Paging loses nothing: every message the query matches appears on some page, whatever the limit. |
| Messages.EveryMatchOnItsPage | server/src/controllers/messageController.ts:91-92 | The k-th message in listing order is on page `k / limit + 1`, at position `k % limit`. |
| Upload.FileFilter | server/src/middleware/upload.ts:25-52 | Accepted exactly when the type is allowlisted and the size, if known, is at most 10 MiB; the type error wins over the size error. |
| FileService.AllowlistHasNoWildcard | server/src/middleware/upload.ts:26-37 | No entry of the server's allowlist ends in `/*`, so a pattern test against it is an equality test. |
| FileService.ClientCheckMatchesServerFilter | src/services/fileService.ts:113-148 | Given the server's allowlist and 10 MiB cap, the client check accepts a file exactly when the server filter accepts its lower-cased type at that size. |
| Upload.AllowlistShape | server/src/middleware/upload.ts:26-37 | The allowlist has ten distinct entries. |
| Upload.BaseName | server/src/middleware/upload.ts:20 | The last path segment holds no slash. |
| Upload.ExtName | server/src/middleware/upload.ts:20 | The extension is empty or a dot followed by no dot or slash, and ends the base name. |
| Upload.StoredFilename | server/src/middleware/upload.ts:18-21 | The stored name is the unique prefix followed by the original name's extension. |
| Upload.ExtNameOfPlainName | server/src/middleware/upload.ts:20 | `name.ext` keeps `.ext` as its extension. |
| Upload.DotFileHasNoExtension | server/src/middleware/upload.ts:20 | A name without a dot, or the same name with a leading dot, has no extension. |
| JsNumber.ParseInt | src/components/Moderation/ModeratorPanel.tsx:91 | `parseInt` gives a number only when the trimmed text starts with a digit or a sign. |
| JsNumber.OrDefault | server/src/controllers/messageController.ts:76-77 | `n \|\| d` is `n` when it is a non-zero number, and `d` otherwise. |
| JsNumber.ParseIntRoundTrip | src/components/Moderation/ModeratorPanel.tsx:91 | `parseInt` reads back the decimal spelling of every natural number. |
| JsNumber.ParseIntNegativeRoundTrip | src/components/Moderation/ModeratorPanel.tsx:91 | `parseInt` reads back a minus sign followed by a decimal spelling. |
| Sorting.SortDesc | server/src/controllers/moderationController.ts:169-172 | Sorting newest first returns a permutation of its input in non-increasing key order. |
| AuthSchemas.FirstLine | src/validations/authSchemas.ts:29-35 | The prefix before the first line terminator, which is what `.*` in a lookahead can scan. |
| AuthSchemas.LoginErrors | src/validations/authSchemas.ts:3-14 | The e-mail fails exactly when empty or malformed, the password exactly when empty. |
| AuthSchemas.ForgotErrors | src/validations/authSchemas.ts:49-54 | The e-mail fails exactly when empty or malformed. |
| AuthSchemas.EmailRuleShared | src/validations/authSchemas.ts:3-54 | Login, registration and forgotten-password forms reject the same e-mails, so an accepted login form makes an accepted forgotten-password form. |
| AuthSchemas.RegisterErrors | src/validations/authSchemas.ts:16-47 | Each field fails exactly when its own rule does: 3..30 username characters, e-mail, password rules, matching confirmation (error on the confirmation), accepted terms. |
| AuthSchemas.ResetErrors | src/validations/authSchemas.ts:56-73 | The same password rules as registration, a matching confirmation and a non-empty token. |
| AuthSchemas.RegisterAccepted | src/validations/authSchemas.ts:16-47 | An accepted registration form has a valid username and password, matching confirmation and accepted terms. |
| AuthSchemas.RegisterAndResetAgreeOnPasswords | src/validations/authSchemas.ts:29-38 | Registration and reset judge the password and its confirmation identically. |
| AuthSchemas.ClientAcceptsLongerUsernames | src/validations/authSchemas.ts:17-24 | Usernames of 21 to 30 allowed characters pass the form but are refused by the server's 20-character limit. |
| AuthSchemas.ServerUsernameImpliesClient | src/validations/authSchemas.ts:17-24 | A username without spaces that the server accepts also passes the form. |
| AuthSchemas.LeadingSpaceServerOnly | src/validations/authSchemas.ts:17-24 | " bob" is refused by the form but accepted by the server, which trims first. |
| AuthSchemas.FirstLineOfSingleLine | src/validations/authSchemas.ts:29-35 | A string without line terminators is its own first line. |
| AuthSchemas.ServerPasswordImpliesClient | src/validations/authSchemas.ts:29-35 | Every password the server's anchored pattern accepts passes the form. |
| AuthSchemas.ClientOnlyPassword | src/validations/authSchemas.ts:29-35 | The form's pattern is unanchored at the end, so "Aa1@aaa " passes the form but not the server. |
| ProfileSchemas.FieldErrors | src/validations/profileSchemas.ts:3-47 | Each profile field fails exactly when its own rule does: username, e-mail, a non-empty current password under 8, a non-empty new password failing the rules, a bio over 500, a language other than fr/en. |
| ProfileSchemas.RefinementErrors | src/validations/profileSchemas.ts:48-70 | With a non-empty new password, an empty current password is an error on the current password and a different confirmation an error on the confirmation; without one there is none. |
| ProfileSchemas.ProfileErrors | src/validations/profileSchemas.ts:3-70 | The refinements add their errors only when the field checks did not abort (an invalid language aborts them). |
| ProfileSchemas.ProfileAcceptedPasswordChange | src/validations/profileSchemas.ts:16-70 | An accepted form that changes the password has a current password of at least 8, a matching confirmation and a valid new password. |
| ProfileSchemas.NoPasswordChange | src/validations/profileSchemas.ts:48-70 | Without a new password the refinements never complain. |
| ProfileSchemas.BadLanguageHidesMismatch | src/validations/profileSchemas.ts:42-70 | With an invalid language the mismatch errors of the refinements are not reported. |
| ProfileSchemas.NewPasswordRuleMatchesRegistration | src/validations/profileSchemas.ts:22-36 | A new password is refused exactly when registration would refuse it. |
| PasswordStrength.Score | src/components/auth/Register.tsx:202-207 | The score counts at most five criteria. |
| PasswordStrength.Strength | src/components/auth/Register.tsx:199-222 | Empty exactly for an empty password; weak for a score of at most 1, strong for at least 4, medium between. |
| PasswordStrength.StrengthText | src/components/auth/Register.tsx:224-236 | Faible, Moyen and Fort name weak, medium and strong; anything else shows nothing. |
| PasswordStrength.NonEmptyScores | src/components/auth/Register.tsx:204-207 | A non-empty password meets at least one criterion. |
| PasswordStrength.ScoreMonotone | src/components/auth/Register.tsx:202-207 | Appending characters never lowers the score. |
| PasswordStrength.StrengthMonotone | src/components/auth/Register.tsx:209-221 | Appending characters never lowers the strength level. |
| PasswordStrength.ServerValidIsStrong | src/components/auth/Register.tsx:199-236 | Every password the server accepts is shown as Fort. |
| PasswordStrength.ShortLowerCaseIsWeak | src/components/auth/Register.tsx:199-222 | A short all-lower-case password is weak. |
| FileService.Join | src/services/fileService.ts:142 | Joining one pattern is the pattern itself; joining none is empty. |
| FileService.AnyMatches | src/services/fileService.ts:129-136 | True exactly when some accepted pattern matches the type. |
| FileService.ValidateFile | src/services/fileService.ts:113-148 | Valid exactly when the size is within the limit and some pattern matches; an oversize file reports the size error first; the type error lists the patterns. |
| FileService.WildcardIsAPrefixTest | src/services/fileService.ts:131-133 | `image/*` is a prefix test on `image`, so it accepts "imagefoo". |
| FileService.UpperCasePatternNeverMatches | src/services/fileService.ts:129-136 | A pattern holding an upper-case letter never matches the lower-cased type. |
| FileService.ToLowerIdempotent | src/services/fileService.ts:129 | Lower-casing twice is lower-casing once. |
| FileService.TypeCaseIgnored | src/services/fileService.ts:129 | Validation gives the same result for a type and its lower-cased form. |
| FileService.FileIcon | src/services/fileService.ts:158-171 | Each icon is given exactly when its own test passes and every earlier test fails, in the order image, video, audio, pdf, word, spreadsheet, slides, archive; the generic file icon exactly when all fail. |
| FileService.ApplicationIsNotMedia | src/services/fileService.ts:159-161 | An `application/` type is neither image, video nor audio. |
| FileService.WordAt | src/services/fileService.ts:163 | A non-pdf `application/` type containing `word` gets the Word icon. |
| FileService.WordTypesGetWordIcon | src/services/fileService.ts:163 | Both Word types the server accepts get the Word icon. |
| MediaProcessing.ProcessVideo | src/utils/mediaProcessing.ts:112-122 | Succeeds, handing back the same file, exactly when the size test passes for the given limit or 2 MB; otherwise the error names the limit. |
| MediaProcessing.NeverImageAndVideo | src/utils/mediaProcessing.ts:124-130 | No file is both an image and a video. |
| MediaProcessing.SizeLimitMonotone | src/utils/mediaProcessing.ts:132-134 | A file within a limit stays within any larger one. |
| MediaProcessing.DefaultLimitBoundary | src/utils/mediaProcessing.ts:112-122 | The default limit admits exactly 2 MiB and refuses one byte more. |
| MediaProcessing.ServerCapIsTenMB | src/utils/mediaProcessing.ts:132-134 | The size test at 10 MB is the server's upload cap. |
| Donation.ValidateCryptoAddress | src/services/donationService.ts:101-115 | Each known symbol is valid exactly when its pattern matches, ETH and USDT sharing one; an unknown symbol is valid; an inherited property name throws. |
| Donation.AddressForNetwork | src/services/donationService.ts:117-131 | Nothing for an unknown symbol; the configured non-empty network address when a network is asked for; the default address otherwise. |
| Donation.EthAndUsdtAgree | src/services/donationService.ts:105-106 | ETH and USDT addresses are judged alike. |
| Donation.EthFromDigits | src/services/donationService.ts:105 | `0x` followed by any 40 hexadecimal digits is a valid ETH address. |
| Donation.EthIsNotBtc | src/services/donationService.ts:104-105 | No string is both an ETH and a BTC address. |
| Donation.DogeIsNotBtc | src/services/donationService.ts:104-108 | No string is both a Dogecoin and a BTC address. |
| Donation.AddressLengths | src/services/donationService.ts:104-108 | ETH and BNB addresses have 42 characters, Dogecoin 34, BTC 14 to 74. |
| Donation.NetworkAddressWins | src/services/donationService.ts:121-130 | A configured network address is preferred; without a network the default is used. |
| NotificationService.DigitRunEnd | src/services/notificationService.ts:197 | The end of the digit run at a position. |
| NotificationService.StripBadge | src/services/notificationService.ts:197-199 | Stripping only ever removes a prefix that starts with `(`. |
| NotificationService.Title | src/services/notificationService.ts:196-200 | A positive count puts `(count) ` in front of the stripped title; otherwise the title is only stripped. |
| NotificationService.BadgeLabel | src/services/notificationService.ts:186 | "99+" exactly above 99; otherwise the decimal count of at most two digits. |
| NotificationService.ClickTarget | src/services/notificationService.ts:77-99 | Messages with a conversation go to its chat, calls with an id to the call, donations to their history; nothing else navigates. |
| NotificationService.ParseTarget | src/services/notificationService.ts:77-99 | Reading an address back gives a type and id whose address it is; the system type has none. |
| NotificationService.ClickTargetRoundTrip | src/services/notificationService.ts:77-99 | Every address a click navigates to reads back as the notification's own type and id. |
| NotificationService.ClickTargetUnambiguous | src/services/notificationService.ts:77-99 | Two clicks reaching the same address come from the same type with the same id. |
| NotificationService.StripPrefixed | src/services/notificationService.ts:197 | Stripping removes exactly one `(digits)` and whitespace prefix. |
| NotificationService.TitleStripsBack | src/services/notificationService.ts:196-197 | A badged title strips back to the stripped original. |
| NotificationService.TitleUpdatesCompose | src/services/notificationService.ts:196-200 | After a positive count, the next update replaces the badge instead of stacking a second one. |
| NotificationService.ZeroUpdateNotIdempotent | src/services/notificationService.ts:198-199 | After a count of zero a title with two badges loses only one, so the transform is not idempotent in that case. |
| NotificationCenter.Load | src/components/Notifications/NotificationCenter.tsx:29-40 | A successful load shows the stored list with its unread count; a failed one changes nothing. |
| NotificationCenter.Receive | src/components/Notifications/NotificationCenter.tsx:45-47 | The new notification is prepended and the count grows by one exactly when it is unread. |
| NotificationCenter.MarkRead | src/components/Notifications/NotificationCenter.tsx:111-115 | Entries with the id become read; every other entry is unchanged. |
| NotificationCenter.MarkEveryRead | src/components/Notifications/NotificationCenter.tsx:134-137 | Every entry becomes read and nothing else changes. |
| NotificationCenter.MarkAsRead | src/components/Notifications/NotificationCenter.tsx:104-125 | On an ok answer the entries are marked and the count recomputed; otherwise nothing changes. |
| NotificationCenter.MarkAllAsRead | src/components/Notifications/NotificationCenter.tsx:127-142 | On an ok answer every entry is read and the count is 0; otherwise nothing changes. |
| NotificationCenter.Clear | src/components/Notifications/NotificationCenter.tsx:144-157 | On an ok answer the list is empty with count 0; otherwise nothing changes. |
| NotificationCenter.Click | src/components/Notifications/NotificationCenter.tsx:159-185 | An unread notification is marked read, a read one is left alone, and routing follows its type. |
| NotificationCenter.NoticeIcon | src/components/Notifications/NotificationCenter.tsx:187-198 | Messages get the comment icon, calls the phone, donations the gift and system notifications the bell, each icon for its own type and no other. |
| NotificationCenter.MarkEveryReadLeavesNoneUnread | src/components/Notifications/NotificationCenter.tsx:134-137 | After marking every entry read none is unread, so the reset count equals the recomputed one. |
| NotificationCenter.MarkAllKeepsConsistent | src/components/Notifications/NotificationCenter.tsx:127-142 | Marking all read keeps the shown count equal to the number of unread entries. |
| NotificationCenter.MarkReadLowersCount | src/components/Notifications/NotificationCenter.tsx:111-115 | Marking never raises the unread count, and every entry with the id is read afterwards. |
| NotificationCenter.MarkReadIdempotent | src/components/Notifications/NotificationCenter.tsx:111-115 | Marking the same id twice is marking it once. |
| NotificationCenter.MarkReadUnknownId | src/components/Notifications/NotificationCenter.tsx:111-115 | An id no entry has leaves the list unchanged. |
| NotificationCenter.OperationsKeepConsistent | src/components/Notifications/NotificationCenter.tsx:63-68 | Loading, receiving, marking, clearing and clicking keep the shown count equal to the number of unread entries. |
| NotificationCenter.ReloadOverridesTransitions | src/components/Notifications/NotificationCenter.tsx:25-61 | Once the fetch that follows every change of the list answers ok, the centre shows exactly the server's copy with its count, whatever the change did. |
| ModeratorPanel.ListingJson | server/src/controllers/moderationController.ts:9-10 | A listed user's JSON holds `_id`, `username` and `email` with the account's values, and no `id` or `name`. |
| ModeratorPanel.ReadAsWritten | src/components/Moderation/ModeratorPanel.tsx:134-137 | As written, the panel can read a listed user only when the JSON holds `id`, `name` and `email`. |
| ModeratorPanel.ReadListing | src/components/Moderation/ModeratorPanel.tsx:37-46 | The intended reading takes `_id` as the id and `username` as the name, and succeeds exactly when those and `email` are present. |
| ModeratorPanel.ListingUnreadableAsWritten | src/components/Moderation/ModeratorPanel.tsx:134-137 | As written, the panel cannot read any user the listing sends. |
| ModeratorPanel.ListingRoundTrip | server/src/controllers/moderationController.ts:9-10 | Read by its own field names, a listed user comes back with the account's id, username, e-mail, role and ban flag. |
| ModeratorPanel.Search | src/components/Moderation/ModeratorPanel.tsx:134-137 | A user is listed exactly when loaded and its lower-cased name or e-mail contains the lower-cased term. |
| ModeratorPanel.EmptySearchKeepsAll | src/components/Moderation/ModeratorPanel.tsx:134-137 | An empty term keeps every user. |
| ModeratorPanel.RoleButton | src/components/Moderation/ModeratorPanel.tsx:189-209 | The role button shows exactly for an admin viewer and a non-admin user, and offers revocation exactly for a moderator. |
| ModeratorPanel.BanControl | src/components/Moderation/ModeratorPanel.tsx:212-232 | Ban controls show exactly for staff viewers, offering unban exactly for a banned user. |
| ModeratorPanel.ButtonsMatchServerPermissions | src/components/Moderation/ModeratorPanel.tsx:189-232 | Every button shown calls an endpoint that serves the viewer's role. |
| ModeratorPanel.ResetForm | src/components/Moderation/ModeratorPanel.tsx:103-105 | Closing the form clears the selection and reason and restores the 24-hour duration. |
| ModeratorPanel.SubmitBan | src/components/Moderation/ModeratorPanel.tsx:84-114 | A blank reason sets the error and sends nothing; otherwise the request carries the reason and the parsed duration, and the form resets exactly when the server accepted. |
| ModeratorPanel.DurationChoicesParse | src/components/Moderation/ModeratorPanel.tsx:272-278 | Every offered duration parses to the hours it stands for. |
| ModeratorPanel.ChoiceExpires | src/components/Moderation/ModeratorPanel.tsx:272-278 | Every offered duration gives the server a valid end date. |
| ModeratorPanel.PanelBanAccepted | src/components/Moderation/ModeratorPanel.tsx:84-100 | A ban the panel sends with an offered duration and a non-blank reason, by staff, for a user read by `_id` from the server's own listing, is accepted by the server. |
| ModeratorPanel.BlankReasonPanelOnly | src/components/Moderation/ModeratorPanel.tsx:85-88 | A reason of one space is refused by the panel although the server would record it. |

## Findings

| source | as written | input that shows it | evidently intended | confidence | as-written member | corrected member |
|---|---|---|---|---|---|---|
| server/src/controllers/authController.ts:59-77 | The user is loaded with its hash and saved after going online; `save()` re-runs the validators of every loaded field, and the bcrypt hash fails the password pattern of server/src/models/User.ts:45-49, so the catch answers 500. | A registered user whose stored hash holds `/` (most bcrypt hashes hold `/` or `.`) logs in with the right password. | A correct login answers 200 and marks the user online, as with `validateModifiedOnly` or an update that skips validation. | medium, not executed | AuthController.LoginAsWritten, AuthController.RegisterThenLoginAsWrittenFails | AuthController.Login, AuthController.RegisterThenLogin |
| server/src/models/User.ts:97-109 | `comparePassword` returns `bcrypt.compare(candidatePassword, this.password)` without `await` inside its `try`; bcrypt rejects a non-string candidate, the rejection escapes that `catch`, and the login handler's own catch (server/src/controllers/authController.ts:67, 94-97) answers 500. | A login request whose e-mail is registered and whose body has no `password`. | The comparison fails and the login answers the same 401 as for a wrong password. | medium, not executed | AuthController.LoginAsWritten, AuthController.MissingPasswordAsWritten | AuthController.Login, AuthController.MissingPasswordAsWritten |
| src/components/Moderation/ModeratorPanel.tsx:134-137 | The panel reads `id` and `name` of each listed user, but the listing at server/src/controllers/moderationController.ts:9-10 sends Mongoose documents, whose JSON has `_id` and `username` only. | Any listed user: `name` is undefined and `name.toLowerCase()` throws in the search filter; a button would send the id `undefined`. | The panel reads `_id` as the id and `username` as the name. | high, not executed | ModeratorPanel.ReadAsWritten, ModeratorPanel.ListingUnreadableAsWritten | ModeratorPanel.ReadListing, ModeratorPanel.ListingRoundTrip, ModeratorPanel.PanelBanAccepted |

## Left out

- RoleButton: the viewer's role is an input. In the source it is `user?.role` of the signed-in user, but login and registration answer only id, username and e-mail (server/src/controllers/authController.ts:85-92) and the client's stored user type has no role (src/hooks/useAuth.ts:4-9). As written the role is undefined and no role button shows, unless a profile update returns a user that carries it; the profile endpoint is not part of this model.
- BanControl: the viewer's role is an input, for the same reason as `RoleButton`; with the role undefined no ban control shows.
- View: the `createdAt` and `updatedAt` timestamps that the schema's `timestamps` option adds, and that the listing returns, are not part of the account and are dropped.
- Login and register request bodies whose fields are present but not strings: each field is an optional string.
- Database access, HTTP and Socket.IO transport, logging and the React views: every collection is a sequence, every answer a value.
- Token signing and verification, ObjectId validity, e-mail and URL validation, bcrypt and uuid are parameters; token expiry inside the library is an assumption of `AuthMiddleware.ManualExpiryUnreachable` only.
- `populate` of sender and receiver in the message listing, of `bannedBy` in the ban history (server/src/controllers/moderationController.ts:134) and of `reportedUser` and `reportedBy` in the report listing (:170-171), and the `CastError` a malformed id raises inside Mongoose: outside the pure logic. The ban history and report listings return the stored ids; the source's populated documents would carry only `_id` and `email`, since the `name` they ask for is no path of the user schema.
- The two clock reads of a ban (the entry and the user update) share one `now`; the two writes of a ban are one transition, so a failure between them is not modelled.
- A non-integer or non-numeric ban duration: the duration reaching the server is an `Option<int>`.
- Multer's own `limits.fileSize`: only the filter is modelled, with the size optional because the filter may not know it.
- The socket handlers' catch branches, and concurrent sockets of one user beyond `Relay.DisconnectIgnoresOtherSockets`.
- The login branch of `comparePassword` that re-fetches the hash: the comparison is an oracle.
- `formatFileSize` and the byte count in the size error: floating-point formatting; `FileService.ValidateFile` keeps only the limit in that error.
- `MediaProcessing.ProcessVideo`: the limit is a natural number of megabytes; fractional and negative limits are not modelled.
- `compressImage`, `addWatermark`, the favicon canvas and browser notifications: browser APIs.
- The receiving-address table (`src/config/cryptoAddresses.ts`) is not part of this model; `Donation.AddressForNetwork` takes it as a parameter and does not model lookups of inherited property names.
- Lengths are counted in characters, not UTF-16 code units, and lower-casing is ASCII-only: a string with non-ASCII letters can be judged differently.
- The zod e-mail format is an oracle.
- Stale closures and races between asynchronous handlers in the notification centre: one event is handled at a time.
- The moderator panel's loading state, its error banners and the promote, revoke and unban handlers, which only call the service and reload.
- `ModerationRoutes.Dispatch`: the 401 stands for the missing `authenticateToken`, whose exact answer is not part of this model.
- PageNumber: the page is an unbounded integer; JavaScript's `parseInt` gives a double, which rounds page numbers beyond 2^53 and is `Infinity` past about 309 digits.
- PageLimit: the parsed limit is exact here and a double in the source; rounding never carries a value across 1 or 50, so the clamped limit is the same, but the model does not state the double.
- ListPage: the skip `(page - 1) * limit` is exact here, whereas the source computes it as a double, which rounds beyond 2^53.
- GetMessages: inherits the unbounded page and skip of `PageNumber` and `ListPage`; huge page values behave differently in the source.
- ParseInt: the parsed value is an exact integer; JavaScript rounds digit strings beyond 2^53 to the nearest double.
- Load: the fetch that follows every change of the list repeats for as long as the server answers ok, since each answer sets the list again; the model states one fetch (`NotificationCenter.ReloadOverridesTransitions`), not the unending sequence.
- Receive: the prepended notification stands only until the fetch that follows; afterwards the list is the server's copy.
- MarkAsRead: the marked list stands only until the fetch that follows; afterwards the list is the server's copy.
- MarkAllAsRead: the marked list stands only until the fetch that follows; afterwards the list is the server's copy.
- Clear: the empty list stands only until the fetch that follows; afterwards the list is the server's copy.
- ButtonsMatchServerPermissions: covers the viewer's role only; the id a button sends is the panel user's id, which is the server's `_id` only under the intended reading (see "## Findings").
- The profile form's `notifications` switches (src/validations/profileSchemas.ts:43-47): plain booleans with no rule to model.
