# Auth service: ephemeral state, lockout and reset tokens

This project is a Dafny model of the state that the authentication service keeps outside its user table. The service is an Express router in `backend/authservice/authRoutes.js`.

- **Redis keys.** It keeps short-lived keys in Redis:
  - OTP rate-limit counters and a cooldown flag;
  - the hashed OTP itself;
  - login failure counters and a lockout flag;
  - a whitelist of issued refresh tokens (`rt:<userId>:<token>`);
  - a blacklist of logged-out access tokens (`bl_token:<token>`).
- **Reset-token table.** It keeps single-use password-reset tokens in a SQL table.
- **Initials.** The model also covers the avatar initials computed by the frontend header, `getUserInitials`.

Redis is modelled as a map from keys to entries. Each entry is a value (an integer counter or a string) with an optional absolute expiry second, plus a clock (`KeyValue.Snapshot`).

- **Live keys.** A key is live while `now` is before its expiry. GET, TTL and KEYS see only live keys.
- **Commands.** SET EX, INCR, EXPIRE, DEL and the passage of time are pure transformers of a snapshot (`AfterSet`, `AfterIncr`, …).
- **Store methods.** `KeyValue.Store` is the mutable store. Each of its methods is proved to move its state exactly as the matching transformer does.

The handlers listed below are each modelled as a pure function from the state before to the outcome and the state after:

- `/login` as `LoginLockout.LoginAttempt`;
- `/refresh-token` as `Sessions.RefreshAccess`;
- `/validate-session` as `Sessions.ValidateSession`;
- `/logout` as `Sessions.LoggedOut`;
- `/forgot-password` as `PasswordReset.ForgotRequested`;
- `/validate-reset-token` as `PasswordReset.ValidateResetToken`;
- `/reset-password` as `PasswordReset.ResetApplied`.

`/signup/send-otp`, `/resend-otp` and the unverified branch of `/login` are modelled only through the OTP fragment they share, `OtpRateLimit.OtpRequested`. `/signup/verify-otp`, the Google callback and `/me` have no handler function (see "Left out").

- **Handlers that write.** Each handler that changes the store or the table also has a method. The method issues the handler's store commands in order (GET, TTL, KEYS, SET, INCR, EXPIRE, DEL; the purge's SCAN is read as one KEYS) and is proved equal to the function. The methods are `OtpRateLimit.RequestOtp`, `LoginLockout.Login`, `Sessions.Logout`, `PasswordReset.ForgotPassword` and `PasswordReset.ResetPassword`, with the helpers they share.
- **Read-only handlers.** `/refresh-token`, `/validate-session` and `/validate-reset-token` only read, so they are modelled as functions alone: `Sessions.RefreshAccess`, `Sessions.ValidateSession` and `PasswordReset.ValidateResetToken`.

The properties the service promises are lemmas about the functions:

- limits are respected;
- a lockout follows five quick failures;
- logout and a password reset end sessions;
- a reset link works exactly once;
- one namespace never touches another.

Modules:

| module | file | content |
|---|---|---|
| `Wrappers` | wrappers.dfy | `Option` |
| `KeyValue` | keyvalue.dfy | snapshot semantics of the Redis commands used, and the `Store` class |
| `OtpRateLimit` | otp.dfy | `checkOTPRateLimit`, `recordOTPRequest`, `resetOTPCounters` and the issue-an-OTP fragment shared by the routes |
| `Accounts` | accounts.dfy | the user row fields the handlers read |
| `Tokens` | tokens.dfy | JWT verification over an uninterpreted signer and decoder |
| `Sessions` | sessions.dfy | refresh-token whitelist, access-token blacklist, `/refresh-token`, `/logout`, `/validate-session`, the reset-time purge |
| `LoginLockout` | login.dfy | `/login` with its failure counter and lockout |
| `PasswordReset` | reset.dfy | `/forgot-password`, `/validate-reset-token`, `/reset-password` and the reset-token table |
| `Initials` | initials.dfy | `getUserInitials` with JavaScript `trim`, `split(' ')`, `charAt` and `toUpperCase` |

## Model

All source paths are relative to the repository root.

| member | source | states |
|---|---|---|
| KeyValue.Read | backend/authservice/authRoutes.js:60 | GET returns a value exactly when the key is present and not yet expired, and then the stored value |
| KeyValue.TtlOf | backend/authservice/authRoutes.js:62 | TTL is -2 for a missing key, -1 for a key without expiry, and otherwise the positive number of seconds left |
| KeyValue.KeysMatching | backend/authservice/authRoutes.js:142-143 | KEYS with a `prefix*` pattern returns exactly the live keys that start with the prefix |
| KeyValue.AfterSet | backend/authservice/authRoutes.js:109-113 | SET EX makes the key read back the value with the given TTL, and leaves every other key alone |
| KeyValue.AfterIncr | backend/authservice/authRoutes.js:116 | INCR makes a counter one more than before (absent counts as 0); it keeps an existing expiry and creates a new counter without one; other keys are unchanged |
| KeyValue.AfterExpire | backend/authservice/authRoutes.js:118 | EXPIRE on a live key keeps its value and sets its TTL; on a missing key it changes nothing; other keys are unchanged |
| KeyValue.AfterDel | backend/authservice/authRoutes.js:146 | DEL removes exactly the listed keys |
| KeyValue.AfterTick | backend/authservice/authRoutes.js:60-62 | time moves forward, and a key still live afterwards was live, with the same entry, before |
| KeyValue.Store.Get | backend/authservice/authRoutes.js:60 | GET on the table returns the stored value exactly when the key is present and live, and is proved to agree with `Read` |
| KeyValue.Store.Ttl | backend/authservice/authRoutes.js:62 | TTL on the table answers -2, -1 or the seconds left, and is proved to agree with `TtlOf` |
| KeyValue.Store.Keys | backend/authservice/authRoutes.js:143 | KEYS is a pass over the stored keys that keeps the live ones with the prefix; its result is proved to be `KeysMatching` |
| KeyValue.Store.Set | backend/authservice/authRoutes.js:109-113 | the new state is `AfterSet` of the old one |
| KeyValue.Store.Incr | backend/authservice/authRoutes.js:116 | the new state is `AfterIncr` of the old one, and the returned count is the old count plus one |
| KeyValue.Store.Expire | backend/authservice/authRoutes.js:118 | the new state is `AfterExpire` of the old one; it reports whether the key existed |
| KeyValue.Store.Del | backend/authservice/authRoutes.js:146 | the new state is `AfterDel` of the old one |
| OtpRateLimit.FlowKey | backend/authservice/authRoutes.js:56 | the per-flow counter key lies in the `otp_flow:<email>:` namespace |
| OtpRateLimit.DailyKey | backend/authservice/authRoutes.js:57 | the daily counter key lies in the `otp_daily:` namespace |
| OtpRateLimit.CooldownKey | backend/authservice/authRoutes.js:60 | the cooldown key lies in the `otp_cooldown:` namespace |
| OtpRateLimit.OtpKey | backend/authservice/authRoutes.js:343 | the stored-OTP key lies in the `otp:` namespace |
| OtpRateLimit.NamespacesApart | backend/authservice/authRoutes.js:56-60 | no key is in two of the `otp_cooldown:`, `otp_daily:`, `otp_flow:` and `otp:` namespaces |
| OtpRateLimit.KeysApart | backend/authservice/authRoutes.js:105-110 | for one email, the cooldown, flow, daily and OTP keys are pairwise distinct, and only flow keys match the `otp_flow:<email>:*` pattern |
| OtpRateLimit.CheckOtpRateLimit | backend/authservice/authRoutes.js:55-97 | the first gate that fires decides: a live cooldown (retry after its TTL), then a daily count of at least 10, then a flow count of at least 5; the request is allowed exactly when none fires |
| OtpRateLimit.CheckRateLimit | backend/authservice/authRoutes.js:55-97 | the method GETs the cooldown flag, TTLs it when set, then GETs the daily and flow counters (absent or non-integer as 0); its decision is `CheckOtpRateLimit` of the current state |
| OtpRateLimit.RecordOtpRequestEffects | backend/authservice/authRoutes.js:104-134 | recording sets the cooldown for 60 s and adds one to the flow and daily counters; the expiry (360 s and 86400 s) is set only on a counter's first increment, and a later increment keeps the old expiry; nothing else changes |
| OtpRateLimit.RecordOtpRequest | backend/authservice/authRoutes.js:104-134 | the method leaves the store in the `Recorded` state and returns the two new counts |
| OtpRateLimit.AllowedRequestStaysWithinLimits | backend/authservice/authRoutes.js:15-21 | after an allowed request is recorded, the flow count is at most 5 and the daily count at most 10, so the "remaining" numbers reported are never negative |
| OtpRateLimit.CooldownFollowsRecord | backend/authservice/authRoutes.js:60-68 | right after a recorded request, every flow of that email is refused with a 60-second cooldown |
| OtpRateLimit.FlowsCountApartDailyCountsAll | backend/authservice/authRoutes.js:105-106 | a request counts against its own flow only, and against the daily total shared by all flows |
| OtpRateLimit.ResetOtpCountersEffects | backend/authservice/authRoutes.js:140-155 | a reset deletes every flow counter and the cooldown of the email; it keeps the daily counter, the stored OTP and every other key |
| OtpRateLimit.ResetReopensFlow | backend/authservice/authRoutes.js:140-155 | after a reset, a check for any flow is allowed, unless the daily cap was already reached, in which case it is refused for the day |
| OtpRateLimit.ResetOtpCounters | backend/authservice/authRoutes.js:140-155 | the method leaves the store in the `CountersReset` state and reports success |
| OtpRateLimit.OtpRequestBounds | backend/authservice/authRoutes.js:326-345 | a refused request changes nothing; an issued one stores the OTP hash for 60 s and reports counts one above the previous ones, with remaining attempts never negative; only the four OTP keys change |
| OtpRateLimit.RequestOtp | backend/authservice/authRoutes.js:326-345 | the method's outcome and new state are those of `OtpRequested` |
| OtpRateLimit.RequestKeepsCountable | backend/authservice/authRoutes.js:116-122 | issuing keeps both counters numeric, so the next INCR cannot fail |
| OtpRateLimit.RequestsFrom | backend/authservice/authRoutes.js:85-94 | requests spaced at least 60 s apart, all within 360 s, get issued until the flow has 5, after which they are refused by the flow limit |
| OtpRateLimit.FlowLimitScenario | backend/authservice/authRoutes.js:85-94 | from a clean state, six requests in one flow spaced by the cooldown yield five OTPs and then a flow-limit refusal |
| OtpRateLimit.OutcomesFromStart | backend/authservice/authRoutes.js:15-21 | the six outcomes are five issued OTPs counted 1 to 5, then a flow-limit refusal |
| Tokens.Verify | backend/authservice/authRoutes.js:1043-1047 | a token verifies exactly when it is signed with the given secret, decodes, and has not reached its `exp`; the claims are the decoded ones |
| Sessions.WhitelistKey | backend/authservice/authRoutes.js:246-250 | a whitelist key lies under the `rt:<userId>:` prefix |
| Sessions.BlacklistKey | backend/authservice/authRoutes.js:997 | a blacklist key lies in the `bl_token:` namespace |
| Sessions.ListsApart | backend/authservice/authRoutes.js:984-997 | no key is both a whitelist and a blacklist key |
| Sessions.SessionIssued | backend/authservice/authRoutes.js:650-654 | issuing a session whitelists the refresh token for 7 days and touches no other key |
| Sessions.IssueSession | backend/authservice/authRoutes.js:476-480 | the method leaves the store in the `SessionIssued` state; the Google callback at 246-250 and signup at 476-480 use it too |
| Sessions.RefreshAccess | backend/authservice/authRoutes.js:1032-1065 | a refresh succeeds exactly when the cookie is present, verifies with the refresh secret, is whitelisted under its user id, and that user exists |
| Sessions.IssuedSessionRefreshes | backend/authservice/authRoutes.js:1050-1053 | a refresh token that was just whitelisted refreshes for as long as it verifies, within the 7-day lifetime |
| Sessions.ValidateSession | backend/authservice/authRoutes.js:1209-1258 | a session is accepted by its access token exactly when the token is present, not blacklisted, verifies, and names a verified user, and the user returned is that one; a blacklisted token never passes this way; otherwise it is accepted by the refresh token exactly when the refresh path succeeds for a verified user, returning that user; in every other case it is rejected |
| Sessions.LogoutEffects | backend/authservice/authRoutes.js:981-1003 | logout deletes the whitelist entry of a verifying refresh token; it blacklists an unexpired access token until its own `exp`; it leaves the blacklist alone otherwise; every key other than those two keeps its entry |
| Sessions.LogoutEndsRefresh | backend/authservice/authRoutes.js:981-988 | after logout, at any later time, the refresh token no longer refreshes |
| Sessions.LogoutEndsAccess | backend/authservice/authRoutes.js:991-1003 | after logout, at any later time, the access token no longer validates a session on its own |
| Sessions.Logout | backend/authservice/authRoutes.js:975-1003 | the method leaves the store in the `LoggedOut` state |
| Sessions.PurgeEffects | backend/authservice/authRoutes.js:926-938 | the purge deletes every key under `rt:<userId>:` and nothing else |
| Sessions.PurgeEndsRefresh | backend/authservice/authRoutes.js:926-938 | after a purge, no refresh token of that user refreshes, at any later time |
| Sessions.PurgeSessions | backend/authservice/authRoutes.js:926-941 | the loop collects exactly the matching keys and leaves the store in the `SessionsPurged` state |
| LoginLockout.FailuresKey | backend/authservice/authRoutes.js:613 | the failure counter key lies in the `login_failures:` namespace |
| LoginLockout.BlockedKey | backend/authservice/authRoutes.js:555 | the lockout key lies in the `login_blocked:` namespace |
| LoginLockout.LoginKeysApart | backend/authservice/authRoutes.js:555-654 | the failure, lockout, whitelist and OTP keys touched by one login are distinct |
| LoginLockout.LockedOutBeforePassword | backend/authservice/authRoutes.js:555-561 | while the lockout flag is set, an email account is refused before the password is checked, so even the right password fails and nothing changes |
| LoginLockout.FailureEffects | backend/authservice/authRoutes.js:613-628 | a wrong password adds one to the failure counter, giving it a 15-minute window on the first failure; from the fifth failure on it sets the lockout for 15 minutes and answers "too many attempts", otherwise "wrong password"; no other key changes |
| LoginLockout.SuccessEffects | backend/authservice/authRoutes.js:633-654 | a successful login clears the failure counter and the lockout flag and whitelists the new refresh token for 7 days; nothing else changes |
| LoginLockout.Login | backend/authservice/authRoutes.js:519-654 | the method's outcome and new state are those of `LoginAttempt`: missing fields, no account, Google account, locked out, unverified (an OTP is issued in the `login` flow), wrong password, or logged in, checked in that order |
| LoginLockout.LoginKeepsCountable | backend/authservice/authRoutes.js:613 | any attempt, followed by any wait, leaves the login and OTP counters numeric |
| LoginLockout.LockoutAfter | backend/authservice/authRoutes.js:613-628 | with failures less than 15 minutes apart, the remaining wrong passwords up to the fifth are refused as wrong, the fifth locks the account, and the right password that follows is refused |
| LoginLockout.LockoutScenario | backend/authservice/authRoutes.js:613-628 | from a clean state, five quick wrong passwords and then the right one give four "wrong password" answers, then "too many attempts" twice |
| LoginLockout.LockoutFromStart | backend/authservice/authRoutes.js:613-628 | that scenario's outcome sequence, written out |
| LoginLockout.SlowFailuresNeverLock | backend/authservice/authRoutes.js:613-616 | wrong passwords at least 15 minutes apart are each answered "wrong password" and never lock the account |
| PasswordReset.FirstUsable | backend/authservice/authRoutes.js:895-907 | finds the first row with the token that is unused and not yet expired, or none exactly when there is no such row |
| PasswordReset.MarkedUsed | backend/authservice/authRoutes.js:919-922 | marking sets `used` on exactly the rows with the id and changes no other field |
| PasswordReset.ResetTokenTable.Insert | backend/authservice/authRoutes.js:768-777 | inserting appends the row |
| PasswordReset.ResetTokenTable.MarkUsed | backend/authservice/authRoutes.js:919-922 | the table's rows become `MarkedUsed` of the old rows |
| PasswordReset.ForgotEffects | backend/authservice/authRoutes.js:697-780 | a refused request changes neither the store nor the table; a sent link means the rate limit allowed it, one unused row expiring in an hour was appended, and the store is exactly `Recorded` for the reset flow: the cooldown set, the reset flow's and the daily counter one higher, every other key unchanged |
| PasswordReset.ForgotCooldown | backend/authservice/authRoutes.js:748-757 | a second reset request for the same account within 60 s is refused with a cooldown of the seconds still to wait |
| PasswordReset.ForgotPassword | backend/authservice/authRoutes.js:697-780 | the method's outcome, store and table are those of `ForgotRequested` |
| PasswordReset.Utf16Length | backend/authservice/authRoutes.js:881 | JavaScript's `length` counts UTF-16 code units: between the number of characters and twice that, and equal to it exactly when no character lies outside the Basic Multilingual Plane |
| PasswordReset.ThreeEmojiLongEnough | backend/authservice/authRoutes.js:881-886 | a password of three emoji has six code units and passes the minimum-length check |
| PasswordReset.ValidateResetToken | backend/authservice/authRoutes.js:809-850 | a token is valid exactly when it is present, verifies with the reset secret, and has an unused, unexpired row |
| PasswordReset.SentLinkValidates | backend/authservice/authRoutes.js:759-777 | a link just sent validates for as long as its JWT verifies within the hour |
| PasswordReset.ResetAgreesWithValidate | backend/authservice/authRoutes.js:889-905 | once the fields pass, a reset succeeds exactly when the token would validate |
| PasswordReset.ResetEffects | backend/authservice/authRoutes.js:862-944 | a refused reset changes nothing. A successful one is for the user of the first usable row, and the table becomes `MarkedUsed` for that row's id. It also deletes all of that user's whitelisted refresh tokens, plus the OTP flow counters and the cooldown of the token's email. It keeps the daily counter, the stored OTP and every key outside those namespaces |
| PasswordReset.ResetSingleUse | backend/authservice/authRoutes.js:895-922 | after a successful reset, the token neither validates nor resets again, at that instant or later |
| PasswordReset.ResetPassword | backend/authservice/authRoutes.js:862-944 | the method's outcome, store and table are those of `ResetApplied` |
| Initials.Trim | frontend/components/ui/Header.tsx:167 | the trimmed string is no longer than the input and neither starts nor ends with whitespace |
| Initials.TrimStartDropsWhitespace | frontend/components/ui/Header.tsx:167 | trimming the start drops exactly a whitespace prefix |
| Initials.TrimEndDropsWhitespace | frontend/components/ui/Header.tsx:167 | trimming the end drops exactly a whitespace suffix |
| Initials.TrimIsSlice | frontend/components/ui/Header.tsx:167 | the trimmed string is a slice of the input with only whitespace around it |
| Initials.TrimIdempotent | frontend/components/ui/Header.tsx:167 | trimming twice is trimming once |
| Initials.SplitJoin | frontend/components/ui/Header.tsx:167 | joining the pieces of a split with the separator gives the input back |
| Initials.SplitSingle | frontend/components/ui/Header.tsx:167-168 | a split has one piece exactly when the separator does not occur |
| Initials.SplitPartsFree | frontend/components/ui/Header.tsx:167 | no piece contains the separator |
| Initials.SplitFirst | frontend/components/ui/Header.tsx:169 | the first piece starts with the input's first character, or is empty exactly when the input is empty or starts with the separator |
| Initials.SplitLast | frontend/components/ui/Header.tsx:169 | the last piece is the input's suffix after the last separator |
| Initials.CharAt | frontend/components/ui/Header.tsx:169-171 | `charAt` gives the character at an index in range, and the empty string past the end |
| Initials.UpperCase | frontend/components/ui/Header.tsx:169-171 | upper-casing maps each character through the case mapping and keeps the length |
| Initials.GetUserInitials | frontend/components/ui/Header.tsx:164-172 | the initials are at most two characters |
| Initials.NoNameInitials | frontend/components/ui/Header.tsx:165 | a missing or empty name gives "U" |
| Initials.InitialsFromName | frontend/components/ui/Header.tsx:167-171 | every initial of a non-empty name is the upper-cased form of a character of the name as given; the trim, the split and `charAt` only choose characters |
| Initials.TwoPartInitials | frontend/components/ui/Header.tsx:167-169 | when the trimmed name contains a space, the initials are its first character and the first character after its last space, upper-cased |
| Initials.SinglePartInitial | frontend/components/ui/Header.tsx:167-171 | when the trimmed name has no space, the initial is the first character of the untrimmed name, upper-cased |
| Initials.InitialsLength | frontend/components/ui/Header.tsx:164-172 | the initials always have one or two characters |
| Initials.BlankNameInitial | frontend/components/ui/Header.tsx:171 | a name of blanks gives a blank initial (when upper-casing keeps the blank) |
| Initials.LeadingSpaceInitial | frontend/components/ui/Header.tsx:171 | " Bob" gives the upper-cased blank, not "B" |
| Initials.TrimmedInitials | frontend/components/ui/Header.tsx:164-172 | the corrected initials, which trim the name first, have one or two characters |
| Initials.TrimmedNameInitials | frontend/components/ui/Header.tsx:167-171 | for an already trimmed name, each initial is a non-blank character of the name, upper-cased |
| Initials.TrimmedInitialsNeverBlank | frontend/components/ui/Header.tsx:164-172 | the corrected initials are "U" or consist of upper-cased non-blank characters of the name |
| Initials.TrimmedInitialsAgree | frontend/components/ui/Header.tsx:164-172 | on every name that does not start with whitespace, the corrected initials equal the original ones |

## Left out

- **Signup and OTP verification.** `/signup/send-otp`, `/signup/verify-otp` and `/resend-otp` are modelled only through the fragment they share: the rate-limit check, storing the OTP hash and recording the request (`OtpRateLimit.OtpRequested`). The user row insert, the OTP comparison and its deletion are not part of this model.
- **Google sign-in.** The OAuth exchange at backend/authservice/authRoutes.js:162-260 is out. Only its whitelist write is modelled (`Sessions.SessionIssued`).
- **Effects outside the store.** Sending e-mail, building HTTP responses and cookies, and `generateOTP` (randomness) are left out. The OTP hash, the new refresh token, the reset token and the row id are parameters.
- **Hashing and the password column.** bcrypt comparison is a boolean parameter (`passwordMatches`). The password update on the user row at 910-916 is left out.
- **JWT.** The JWT library is uninterpreted: `Tokens.Jwt` is a given signing check and decoder. Tokens without an `exp` claim are not modelled. `JWT_RESET_SECRET || JWT_SECRET` is treated as one reset secret.
- **The `/me` route** is not part of this model.
- **Concurrency.** Requests are modelled one at a time. Two requests racing between a GET and an INCR are not captured.
- **Redis errors.** Errors from Redis are not modelled.
  - The purge's `try/catch` at 925-941 is modelled as always succeeding.
  - INCR on a non-numeric value is excluded: the `Countable` preconditions of `Recorded`, `FailureRecorded` and their callers say that the counter keys hold integers. The service only ever writes integers there.
- **Counter values are integers, not strings.** Counters are held as integers. `parseInt` of a stored counter string is modelled as reading the integer back.
- **The purge's spread DEL.** The purge calls `del(...keys)` on the client created at backend/authservice/config/redis.js:1. Some versions of that client take a single key-or-array argument, so the spread form may delete only the first collected key and leave a user's other sessions whitelisted. The client version is not part of this model. `Sessions.SessionsPurged` and `Sessions.PurgeSessions` read the call as deleting every collected key.
- **Order of KEYS and SCAN results.** SCAN may return duplicates and KEYS has no order. The model takes the set of matching keys, in an order chosen by the loop.
- **The daily-limit message.** The hours in the daily-limit message (`Math.ceil(ttl / 3600)`) are not modelled. The decision carries no message text, so `OtpRateLimit.CheckRateLimit` omits the TTL read of the daily key at backend/authservice/authRoutes.js:75, which only feeds that message.
- KeyValue.KeysMatching: reads a KEYS pattern `prefix*` as a plain prefix match, which assumes the prefix holds none of Redis's glob characters `*`, `?`, `[` and `\`. The reset's pattern `otp_flow:<email>:*` (backend/authservice/authRoutes.js:141-143) embeds an email that nothing checks. For an email such as `a*@x.com`, Redis would also match `otp_flow:ab@x.com:signup`, another user's counter. The "every other key is unchanged" frames of `OtpRateLimit.ResetOtpCountersEffects` and `PasswordReset.ResetEffects` hold only under this assumption. The purge's `rt:<userId>:*` pattern is not affected, because user ids are v4 UUIDs (backend/authservice/authRoutes.js:223 and 349) and hold no glob characters.
- **SQL row order.** The reset-token table is a sequence in insertion order, and `tokens[0]` is the first matching row in that order. SQL gives no order without `ORDER BY`.
- **Initials: character units.** JavaScript strings are UTF-16 code units. Dafny `char`s are Unicode scalar values, so a name that starts with a character outside the Basic Multilingual Plane gets its whole character here, not half of a surrogate pair.
- **Initials: case mapping.** `toUpperCase` is a per-character function parameter `upper`. Mappings that change length (such as "ß" to "SS") are not captured.
- PasswordReset.ResetSingleUse: assumes that no two reset rows carry the same token under different ids (`TokensKeyed`). Two links for one email are at least 60 s apart (`PasswordReset.ForgotCooldown`), so their signed JWTs differ, but the model does not derive uniqueness of JWTs.
- **The `used` column's default.** The INSERT at backend/authservice/authRoutes.js:768-777 does not set `used`. The model gives a new row `used = false`, which assumes the column defaults to 'false'. The table's schema is not part of this model.

## Findings

| source | as written | input that shows it | evidently intended | confidence | as-written member | corrected member |
|---|---|---|---|---|---|---|
| frontend/components/ui/Header.tsx:171 | a single-word name takes its initial from the untrimmed `full_name`, while the word test at 167 uses the trimmed one | `full_name = " Bob"`: the result is a blank, not "B". Signup stores `full_name` as given (backend/authservice/authRoutes.js:285) | take the initial from the trimmed name, so the avatar never shows a blank | not executed; medium | Initials.LeadingSpaceInitial | Initials.TrimmedInitialsNeverBlank |
