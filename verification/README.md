# Family password manager: authentication and credential core in Dafny

This project models the authentication and credential core of a family password manager (a Next.js application written in TypeScript) and proves properties of the model. It covers:

- **Password and secret primitives** (`Crypto`):
  - the five-rule password-strength rubric;
  - the constant-time string comparison;
  - the random password generator with its character pool;
  - master-password hashing, verification and key derivation over an abstract PBKDF2.
- **The auth library**:
  - the role-to-permission table (`Permissions`);
  - the fixed-window rate limiter (`RateLimit`);
  - the client-certificate decision chain (`Certificates`), over the member table (`Members`);
  - the session-table operations (`Sessions`).
- **The route handlers**:
  - `POST`/`GET`/`DELETE /api/auth/session` (`SessionRoute`);
  - the two stages of the staged login: `POST /api/auth/certificate/validate` (`CertValidateRoute`) and `POST /api/auth/master-password` (`MasterPasswordRoute`), over the stage-one/stage-two session table (`StagedSessions`).
- **The master-password page** (`MasterPasswordPage`): the submit, response and countdown transitions of its lockout state, and `formatTime`.
- **The string and list helpers** (`Utils`): truncation, e-mail and password masking, the e-mail check, display width, relative time, shuffle and the search filter.
- **The breadcrumb trail** (`Breadcrumbs`).

Modelling conventions:

- **Time** is an explicit integer `now` in milliseconds.
- **The database** is in-memory sequences of member and session rows. `Tables` holds `findFirst`, `count` and `updateMany`. A `reachable` flag stands for an outage; the operations that catch it return their fallback value.
- **Stateful code** becomes classes whose methods update fields in place: the rate limiter, the session stores and the page's form state. The methods are proved against specification functions: `Admit`/`Decide`, `Validation`, `Deactivate`, `StrengthOf`, `Trail`, `DisplayWidth`, `AfterRejection`/`AfterTick`.
- **The security log** is returned as the ghost list `events` that each handler appends.
- **Foreign calls and randomness** are parameters: PBKDF2, SHA-256, X.509 parsing, the stage-two password check and random tokens and salts. `Math.random` is an arbitrary in-range index.
- **Strings** are `seq<char>`. Case mapping covers ASCII letters.

Three behaviours of the code that a reader might not expect, which the model follows:

- Not every failure logs a security event. These branches answer without logging:
  - the 400 replies for a missing certificate id (`src/app/api/auth/certificate/validate/route.ts:28-33`) and a missing master password (`src/app/api/auth/master-password/route.ts:74-79`);
  - the missing temporary token (`src/app/api/auth/master-password/route.ts:85-90`);
  - the `GET /api/auth/session` checks for a missing token and a missing fingerprint (`src/app/api/auth/session/route.ts:212-229`).
- The rate limiter takes its window in milliseconds (`src/lib/auth.ts:252-256`). The staged-login handlers pass `900`, which the model reads as the 15 minutes their comments name.
- The stored master-password hash is compared with `===`, not a constant-time comparison (`src/lib/crypto.ts:56`).

## Model

| member | source | states |
|---|---|---|
| Crypto.GenerateMasterPasswordHash | src/lib/crypto.ts:36-47 | a supplied non-empty salt is returned unchanged; an absent or empty (falsy) salt is replaced by the fresh random salt |
| Crypto.DeriveEncryptionKey | src/lib/crypto.ts:60-65 | the encryption key is the hash that hashing the master password under that (non-empty) salt gives |
| Crypto.VerifyMasterPassword | src/lib/crypto.ts:50-57 | the password is accepted exactly when the stored hash is the key derived from it and the stored salt; with an empty stored salt (falsy) that salt is the fresh random one instead |
| Crypto.HashIsDerivedKey | src/lib/crypto.ts:40-64 | the verification hash equals `deriveEncryptionKey` of the same password and salt (same PBKDF2, 256 bits, 100000 iterations) |
| Crypto.VerifyRoundTrip | src/lib/crypto.ts:36-57 | verifying a password against the hash generated from it succeeds, whatever random salts are drawn |
| Crypto.VerifyRejectsOtherHash | src/lib/crypto.ts:50-57 | a stored hash different from the derived key is rejected |
| Crypto.EvaluatePasswordStrength | src/lib/crypto.ts:136-194 | the rule-by-rule accumulation yields exactly the rubric `StrengthOf`: score min(rules passed + length bonus, 4), one message per failed rule in order, the positive note iff strong with nothing failed |
| Crypto.StrengthOf | src/lib/crypto.ts:136-194 | the rubric's score lies in 0..4 and its feedback is never empty: some failed rule's message or the positive note |
| Crypto.ScoreFormula | src/lib/crypto.ts:144-187 | the score lies in 0..4 and is min(rules passed + 1 for 12 or more characters, 4); strong iff the score is at least 3 |
| Crypto.FeedbackCount | src/lib/crypto.ts:144-177 | the failure feedback has exactly 5 − (rules passed) messages |
| Crypto.FeedbackPerFailedRule | src/lib/crypto.ts:144-177 | each rule's message is in the feedback iff that rule failed (length < 8, no lowercase, no uppercase, no digit, no special) |
| Crypto.StrongNoteWhenAllPass | src/lib/crypto.ts:187-191 | the positive note appears iff all five rules pass |
| Crypto.AllRulesPass | src/lib/crypto.ts:144-193 | a password passing all five rules scores 4, is strong, and gets only the positive note |
| Crypto.StrengthExamples | src/lib/crypto.ts:136-194 | "aaaa" scores 1 with the length, uppercase, digit and special messages in that order; "Aa1!Aa1!Aa1!" is capped at 4 |
| Crypto.XorZeroIffEqual | src/lib/crypto.ts:263 | the XOR of two character codes is 0 iff the codes are equal |
| Crypto.OrZeroIffBothZero | src/lib/crypto.ts:263 | the OR accumulator stays 0 iff both operands are 0 |
| Crypto.SecureCompare | src/lib/crypto.ts:256-267 | returns true iff the strings are equal; on equal lengths every index is visited, with no early exit |
| Crypto.CharacterPool | src/lib/crypto.ts:214-230 | the pool is empty iff all four character classes are off |
| Crypto.LowerDistinctClean | src/lib/crypto.ts:217 | the reduced lowercase set holds no similar glyph |
| Crypto.UpperDistinctClean | src/lib/crypto.ts:221 | the reduced uppercase set holds no similar glyph |
| Crypto.DigitsDistinctClean | src/lib/crypto.ts:225 | the reduced digit set holds no similar glyph |
| Crypto.SymbolsClean | src/lib/crypto.ts:229 | the symbol set holds no similar glyph |
| Crypto.PoolExcludesSimilar | src/lib/crypto.ts:214-230 | with `excludeSimilar` the pool contains none of 0, 1, i, l, o, I, L, O |
| Crypto.GenerateSecurePassword | src/lib/crypto.ts:197-243 | with each left-out option filled in by its default: fails (throws) iff every class is off; otherwise exactly `length` characters (none for a non-positive length), each from the pool, none a similar glyph under `excludeSimilar`; a left-out length gives 16 characters and a left-out `excludeSimilar` no similar glyph, whatever the other fields say |
| Crypto.GenerateDefaultPassword | src/lib/crypto.ts:197-212 | with no options: 16 characters, none a similar glyph |
| Crypto.WithDefaults | src/lib/crypto.ts:204-211 | each option left out is filled in on its own: length 16, every class on, similar glyphs excluded; a given field is kept |
| Permissions.GetUserPermissions | src/lib/auth.ts:239-241 | a role outside the table gets the empty list |
| Permissions.HasPermission | src/lib/auth.ts:244-247 | a granted permission belongs to a role in the table, and is one admin holds |
| Permissions.PermissionTable | src/lib/auth.ts:16-53 | admin holds all eight; father and mother lack category:write, admin:read and admin:write; son and daughter also lack password:delete |
| Permissions.UnknownRoleDenied | src/lib/auth.ts:239-247 | `hasPermission` is false for every permission of an unknown role |
| Permissions.RolesNested | src/lib/auth.ts:16-53 | every child permission is a parent permission and every parent permission an admin one |
| RateLimit.CeilDiv | src/lib/auth.ts:278 | `Math.ceil(a / b)`: the least q with a <= q·b |
| RateLimit.RateLimiter.constructor | src/lib/auth.ts:250 | the store starts empty |
| RateLimit.RateLimiter.CheckRateLimit | src/lib/auth.ts:252-280 | only the identifier's record changes, to the admitted record; the answer is computed from that record |
| RateLimit.Admit | src/lib/auth.ts:260-268 | no record or an ended window gives count 1 and reset now + window; otherwise count + 1, reset kept (denied calls counted too) |
| RateLimit.Decide | src/lib/auth.ts:270-279 | allowed iff count <= limit; remaining = max(0, limit − count); retryAfter absent iff allowed, else ceil((reset − now)/1000) |
| RateLimit.ReplayWithinWindow | src/lib/auth.ts:260-268 | calls made before an open window ends each add one to its count |
| RateLimit.WindowCountsCalls | src/lib/auth.ts:260-268 | n calls within one fresh window leave count n and reset one window after the first call |
| RateLimit.SixthCallDenied | src/lib/auth.ts:252-280 | with the defaults (5 per 15 minutes) calls 1-5 of a window are allowed and the 6th denied |
| RateLimit.WindowResets | src/lib/auth.ts:263-270 | once the window has ended the next call starts over at count 1 and is allowed |
| Members.FindById | src/lib/auth.ts:319-321 | a lookup by id finds a row carrying the id, and reports none only when no row does |
| Members.FindByCertHash | src/lib/auth.ts:84-86 | a lookup by certificate hash finds a row carrying the hash, and reports none only when no row does |
| Certificates.RemoveColons | src/lib/auth.ts:75-76 | the result contains no ':' and is no longer than the input |
| Certificates.ValidateClientCertificate | src/lib/auth.ts:56-114 | an unparseable certificate is a parse error; success implies a parsed certificate in its period, a reachable table, an active listed member whose certificate has not expired, and the normalized presented fingerprint |
| Certificates.ValidationOrder | src/lib/auth.ts:56-114 | each rejection (parse error, expired period, fingerprint mismatch, member missing or inactive, member certificate expired) happens iff the earlier checks pass and its own fails; success returns the table's member and the normalized fingerprint |
| Certificates.RemoveColonsAppend | src/lib/auth.ts:75-76 | removing ':' distributes over concatenation |
| Certificates.SeparatorInsensitive | src/lib/auth.ts:75-78 | inserting ':' anywhere leaves the compared fingerprint unchanged |
| Certificates.RemoveColonsUpper | src/lib/auth.ts:75-76 | upper-casing commutes with removing ':' |
| Certificates.CaseInsensitive | src/lib/auth.ts:75-78 | upper- and lower-case hex give the same compared fingerprint |
| Certificates.NormalizedForm | src/lib/auth.ts:75-101 | the normalized fingerprint has no ':' and no upper-case letter, and normalizing it again changes nothing |
| Certificates.NoColonsUnchanged | src/lib/auth.ts:75-76 | a string without ':' is unchanged by removing them |
| Sessions.SessionStore.CreateSession | src/lib/auth.ts:117-155 | inserts one active session expiring 24 h after now and counts one login for the member; succeeds iff the database answers and the member exists |
| Sessions.SessionStore.ValidateSession | src/lib/auth.ts:158-203 | answer and new table are those of `Validation` (see ValidationMeaning); on success the row whose id the answer reports, and no other, gets the new last-access time; members unchanged |
| Sessions.SessionStore.InvalidateSession | src/lib/auth.ts:206-217 | deactivates every session with the token and reports true when the database answers, whether or not any matched |
| Sessions.SessionStore.CleanupExpiredSessions | src/lib/auth.ts:220-236 | deactivates expired or inactive sessions and returns how many matched, already-inactive ones included |
| Sessions.SessionStore.InvalidateOtherSessions | src/lib/auth.ts:348-366 | deactivates the member's active sessions under other tokens and returns their number |
| Sessions.SessionStore.GetActiveSessionCount | src/lib/auth.ts:331-345 | counts the member's unexpired active sessions; 0 iff there is none; 0 on an outage |
| Sessions.SessionStore.HasMasterPasswordSet | src/lib/auth.ts:315-328 | true iff the database answers and the first member with the id is active |
| Sessions.ValidationMeaning | src/lib/auth.ts:162-198 | success only for the first session matching token and fingerprint, unexpired and active, with an active owner, changing only that session's last access; `session_invalid` iff no such session; `user_inactive` only when the first such session's owner is inactive; every rejection changes nothing |
| Sessions.ValidationDecided | src/lib/auth.ts:162-198 | conversely, given the first live session: no owner gives `system_error`, an inactive owner `user_inactive`, and an active owner success with that owner and that session's view |
| Sessions.RecordLoginEffect | src/lib/auth.ts:140-146 | the member's login count grows by exactly 1 and its last login is now; no other member changes |
| Sessions.CreateAddsActive | src/lib/auth.ts:126-137 | a created session adds one to its member's active-session count |
| Sessions.CreatedSessionValidates | src/lib/auth.ts:123-173 | a session created under a fresh token is the one validation finds for exactly its 24 hours |
| Sessions.LogoutRejects | src/lib/auth.ts:206-217 | after invalidating a token no session validates under it |
| Sessions.LogoutIdempotent | src/lib/auth.ts:206-217 | invalidating twice equals invalidating once |
| Sessions.SweepMeaning | src/lib/auth.ts:220-236 | after a sweep no expired session is active; a second sweep changes nothing yet reports the same count |
| Sessions.OtherSessionsMeaning | src/lib/auth.ts:348-366 | only the member's sessions under other tokens are deactivated; afterwards the member's active sessions are those under the current token |
| Http.OrElse | src/app/api/auth/session/route.ts:23 | `value \|\| fallback`: the value when present and non-empty, else the fallback |
| Http.BearerToken | src/app/api/auth/session/route.ts:209-212 | no header gives the missing token; the token is never longer than the header; a header starting "Bearer " is that prefix followed by the token |
| Http.BearerRoundTrip | src/app/api/auth/session/route.ts:209-212 | "Bearer t" yields t; the bare prefix or no header yields the missing token |
| Http.BearerWithoutPrefix | src/app/api/auth/session/route.ts:209-210 | a header without "Bearer " is taken whole |
| Http.Prefix | src/app/api/auth/master-password/route.ts:108 | `substring(0, n)`: a prefix of length min(n, length) |
| SessionRoute.GetClientIP | src/app/api/auth/session/route.ts:6-19 | from x-forwarded-for the address holds no ','; without it the address is never empty, and is "unknown" when no header and no connection address is present |
| SessionRoute.GetUserAgent | src/app/api/auth/session/route.ts:22-24 | the user-agent header when present and non-empty, else "unknown" |
| SessionRoute.FirstForwardedEntry | src/app/api/auth/session/route.ts:6-12 | with x-forwarded-for holding a comma, the client address is its first comma-separated entry, trimmed (empty when that entry is) |
| SessionRoute.SingleForwardedEntry | src/app/api/auth/session/route.ts:6-12 | with x-forwarded-for holding a single address (no comma), the client address is that header, trimmed |
| SessionRoute.ClientIPFallback | src/app/api/auth/session/route.ts:14-18 | otherwise x-real-ip, else the connection address, else "unknown"; never empty |
| SessionRoute.Post | src/app/api/auth/session/route.ts:51-200 | rate limit (key auth_ip, 5 per 15 min) first, 429 with retryAfter; then 401 AUTH_CERT_MISSING, then 401 AUTH_CERT_INVALID; 200 iff all pass, creating exactly one session and answering token, expiry, public user fields and certificate; every failure logs one failure event and creates nothing; unparseable body gives deviceInfo {userAgent, "unknown"} |
| SessionRoute.Get | src/app/api/auth/session/route.ts:203-274 | 401 AUTH_SESSION_MISSING, then 401 AUTH_CERT_MISSING (neither logged), then the validation: 401 AUTH_SESSION_INVALID with a logged reason, or 200 with user, session and an empty permission list |
| SessionRoute.Delete | src/app/api/auth/session/route.ts:277-324 | 401 without a token; 204 with the token's sessions deactivated and a logout event when invalidation succeeds, else 404 |
| StagedSessions.StagedSessionTable.Create | src/app/api/auth/certificate/validate/route.ts:76-84 | appends exactly one untrusted session row when the database answers, nothing otherwise |
| StagedSessions.StagedSessionTable.Promote | src/app/api/auth/master-password/route.ts:158-163 | rewrites that one row in place: new token, stage authenticated, trust flag, expiry; stated both by row and by the session id the update selects on |
| StagedSessions.FindPendingMeaning | src/app/api/auth/master-password/route.ts:93-104 | a temporary token opens only an unexpired stage-one session carrying it (the first), and none iff there is none |
| StagedSessions.PromotedNeverPending | src/app/api/auth/master-password/route.ts:93-163 | a promoted session is never found as pending again, under any token at any time |
| StagedSessions.PromoteKeepsOthers | src/app/api/auth/master-password/route.ts:158-163 | promoting one session leaves every other token's lookup unchanged |
| StagedSessions.PendingWindow | src/app/api/auth/certificate/validate/route.ts:72-84 | a stage-one session created under a fresh token is found for exactly the following 10 minutes |
| CertValidateRoute.Post | src/app/api/auth/certificate/validate/route.ts:6-117 | rate limit (cert_validation:ip, 5 per 900 s) first, 429 logged; unparseable body 500 logged; missing id 400 unlogged; missing certificate 401 logged; failed check 401 logged with reason; success inserts one stage-one session expiring in 10 minutes, logs success and answers the temp token with the member's id, name and role only; nothing is inserted on any failure |
| MasterPasswordRoute.TtlMs | src/app/api/auth/master-password/route.ts:154 | 30 days on a remembered device, else 8 hours |
| MasterPasswordRoute.KeyDerivationOf | src/app/api/auth/master-password/route.ts:166-171 | the member's salt, 100000 iterations (the server's own count), PBKDF2 |
| MasterPasswordRoute.Post | src/app/api/auth/master-password/route.ts:52-208 | rate limit (master_password:ip) first, 429 logged; missing password 400 before a missing token 401; only an unexpired stage-one session is accepted, else 401 logged; a wrong password logs the attempts and answers 401 with attempts and lock time, the session untouched; success rewrites that session in place (new token, authenticated, trusted = rememberDevice, TTL by rememberDevice) and answers the member summary and key-derivation parameters |
| MasterPasswordPage.BlankIsEmptyTrim | src/app/auth/master-password/page.tsx:90 | the blank test holds iff trimming leaves nothing |
| MasterPasswordPage.MasterPasswordForm.constructor | src/app/auth/master-password/page.tsx:54-62 | the initial state: empty password, no error, no strength, 0 attempts, unlocked |
| MasterPasswordPage.MasterPasswordForm.ChangePassword | src/app/auth/master-password/page.tsx:152-155 | the new password, the error cleared, and (through the effect at lines 65-72) its strength, or none for an empty field; while locked the field is disabled (line 224) and nothing changes; lock state unchanged |
| MasterPasswordPage.MasterPasswordForm.SetRememberDevice | src/app/auth/master-password/page.tsx:230-236 | the checkbox sets the remember-device flag, except while the form is locked, when it is disabled and nothing changes; every other field unchanged |
| MasterPasswordPage.MasterPasswordForm.HandleSubmit | src/app/auth/master-password/page.tsx:87-150 | a request is sent iff the password is not blank and the form unlocked; a blank password or a locked form sets its error and changes neither attempts nor lock; the lockout invariant is kept |
| MasterPasswordPage.MasterPasswordForm.Respond | src/app/auth/master-password/page.tsx:116-149 | success stores the token and the device trust only when asked; a rejection counts one attempt, locks for 1800 s at the fifth and shows the attempt's message; a network error changes neither attempts nor lock; loading ends |
| MasterPasswordPage.MasterPasswordForm.Tick | src/app/auth/master-password/page.tsx:75-85 | while locked with time left, one second off; at zero the lock lifts and the attempts reset; every field outside the lock state unchanged |
| MasterPasswordPage.ConsistentPreserved | src/app/auth/master-password/page.tsx:75-136 | both transitions keep "locked iff attempts >= 5, remaining <= 1800" |
| MasterPasswordPage.LocksOnFifthRejection | src/app/auth/master-password/page.tsx:129-136 | from an unlocked state, rejections lock the form exactly when the attempts reach 5, for the full 1800 s |
| MasterPasswordPage.UnlocksAfterCountdown | src/app/auth/master-password/page.tsx:75-85 | a lock with r seconds left counts down for r ticks and lifts, attempts reset, on the next |
| MasterPasswordPage.MessagesByAttempt | src/app/auth/master-password/page.tsx:132-142 | attempts 1-2 give the generic message, 3 and 4 name 2 and 1 tries left, 5 announces the lock |
| MasterPasswordPage.FormatTime | src/app/auth/master-password/page.tsx:157-161 | at least four characters ending in ':' and two digits; exactly four below ten minutes |
| MasterPasswordPage.FormatTimeDigits | src/app/auth/master-password/page.tsx:157-161 | minutes, ':' and the tens and units digits of the seconds within the minute |
| MasterPasswordPage.FormatTimeExamples | src/app/auth/master-password/page.tsx:157-161 | 1800 s reads "30:00" and 65 s "1:05" |
| Utils.Head | src/lib/utils.ts:73 | `substring(0, end)`: a prefix with the end clamped into the string |
| Utils.TruncateString | src/lib/utils.ts:71-74 | unchanged within the limit; otherwise a prefix of the input followed by the suffix, exactly the limit long when the limit is at least the suffix length, else just the suffix |
| Utils.TruncateDefaultSuffix | src/lib/utils.ts:71-74 | with the default suffix '...', a string over a limit of at least 3 becomes its first limit − 3 characters and the dots, exactly the limit long |
| Utils.TruncateIdempotent | src/lib/utils.ts:71-74 | truncating again with the same limit and suffix changes nothing |
| Utils.MaskEmail | src/lib/utils.ts:77-87 | an address without '@' is returned unchanged; a masked address keeps the first character, hides the second behind '*' and keeps an '@' |
| Utils.MaskEmailShape | src/lib/utils.ts:77-87 | for name@domain: "@domain" kept, the name's first character kept, a name of 1-2 characters becomes it and one '*', a longer one keeps its length and last character with the middle all '*' |
| Utils.MaskPartsShape | src/lib/utils.ts:79-86 | the same shape stated on the split parts |
| Utils.MaskEmailWithoutAt | src/lib/utils.ts:78-79 | an address without '@' is returned unchanged |
| Utils.MaskEmailEmptyUser | src/lib/utils.ts:78-79 | an address starting with '@' is returned unchanged |
| Utils.MaskEmailEmptyDomain | src/lib/utils.ts:78-79 | an address whose only '@' is last is returned unchanged |
| Utils.MaskEmailDropsTail | src/lib/utils.ts:78 | everything from a second '@' on is dropped from the masked address |
| Utils.SliceFrom | src/lib/utils.ts:94 | `slice(start)`: a negative start counts from the end |
| Utils.MaskPasswordAsWritten | src/lib/utils.ts:90-95 | as written: for a positive count it is the intended masking (MaskPassword); for zero or a negative count the output is at least twice the password's length |
| Utils.MaskPasswordZeroShowsAll | src/lib/utils.ts:90-95 | as written, 0 visible characters shows the whole password after as many '*', twice its length |
| Utils.MaskPasswordZeroExample | src/lib/utils.ts:90-95 | as written, ("secret", 0) gives "******secret" |
| Utils.MaskPassword | src/lib/utils.ts:90-95 | as long as the password; position i shows the character iff the password is longer than the count and i is among the last `visibleChars`, else '*' |
| Utils.MaskPasswordAgrees | src/lib/utils.ts:90-95 | for a positive count the code as written equals the intended masking |
| Utils.MaskPasswordDefault | src/lib/utils.ts:90-95 | with the default count 4, the code as written is the intended masking: a longer password shows exactly its last four characters after '*', a shorter one is all '*' |
| Utils.ValidEmailHasShape | src/lib/utils.ts:122-125 | a match of the pattern has no whitespace, one '@' after a non-empty name, and a '.' strictly inside the domain |
| Utils.ShapedEmailIsValid | src/lib/utils.ts:122-125 | every string of that shape matches the pattern |
| Utils.IsValidEmail | src/lib/utils.ts:122-125 | an accepted address has at least five characters, an '@', and starts and ends with a character that is neither whitespace nor '@' |
| Utils.ValidEmailIffShape | src/lib/utils.ts:122-125 | the pattern accepts exactly the strings of that shape |
| Utils.GetStringLength | src/lib/utils.ts:128-140 | the loop returns the display width: 1 per half-width code unit, 2 per other |
| Utils.WidthBounds | src/lib/utils.ts:128-140 | length <= width <= 2·length (UTF-16 length), with equality iff every character is a half-width one |
| Utils.AsciiWidth | src/lib/utils.ts:128-140 | a string of characters below 0x81 is exactly as wide as it is long |
| Utils.AsciiLength | src/lib/utils.ts:130 | a string within the Basic Multilingual Plane has one code unit per character |
| Utils.NestedQuotients | src/lib/utils.ts:29-39 | the nested floor divisions equal division by an hour and by a day |
| Utils.RelativeBucket | src/lib/utils.ts:23-55 | each bucket (just now, minutes, hours, days, weeks, months, years) is chosen iff the difference lies in its range, with the floor-quotient count |
| Utils.FormatRelativeTime | src/lib/utils.ts:20-56 | "たった今" iff less than a minute has passed (the future included); otherwise the text starts with the count's digits |
| Utils.AgoTextStartsWithCount | src/lib/utils.ts:25-55 | every wording but "just now" starts with a digit |
| Utils.ShuffleArray | src/lib/utils.ts:153-160 | returns a fresh array with the same multiset of elements; the input is left unmodified |
| Utils.CreateSearchFilter | src/lib/utils.ts:272-292 | the items unchanged for an empty term; otherwise exactly the items some key of which matches the lower-cased term (string lower-cased, number as decimal), and the result is `FilterItems`, so FilterMembers, FilterCounts and FilterConcat give its membership, multiplicity and order |
| Utils.FilterMembers | src/lib/utils.ts:280-291 | the filter keeps exactly the matching items |
| Utils.FilterCounts | src/lib/utils.ts:280-291 | each matching item is kept as often as it occurs, and every other item is dropped |
| Utils.FilterConcat | src/lib/utils.ts:280-291 | the filter works item by item, keeping their order |
| Utils.FilterIdempotent | src/lib/utils.ts:277-291 | filtering twice equals filtering once |
| Breadcrumbs.LabelFor | src/components/ui/Breadcrumbs.tsx:226 | the custom label when present and non-empty, else the fallback |
| Breadcrumbs.Capitalize | src/components/ui/Breadcrumbs.tsx:226 | same length, first character upper-cased, the rest unchanged |
| Breadcrumbs.NonEmpty | src/components/ui/Breadcrumbs.tsx:209 | `filter(Boolean)`: exactly the non-empty parts |
| Breadcrumbs.NonEmptyConcat | src/components/ui/Breadcrumbs.tsx:209 | filtering distributes over concatenation |
| Breadcrumbs.SegmentsAreNames | src/components/ui/Breadcrumbs.tsx:209 | every segment is non-empty and free of '/' |
| Breadcrumbs.CreateBreadcrumbs | src/components/ui/Breadcrumbs.tsx:208-233 | the pushed items are exactly the trail: home, then one item per segment |
| Breadcrumbs.StepItem | src/components/ui/Breadcrumbs.tsx:220-229 | each step's cumulative path and item are those of the segment's trail item |
| Breadcrumbs.Pushed | src/components/ui/Breadcrumbs.tsx:225-229 | pushing the next segment's item keeps every earlier item |
| Breadcrumbs.TrailByItems | src/components/ui/Breadcrumbs.tsx:208-233 | home followed by each segment's item is the trail |
| Breadcrumbs.TrailShape | src/components/ui/Breadcrumbs.tsx:212-230 | 1 + segments items; home first (custom '' label or ホーム, /dashboard); each segment's custom or capitalised label; a cumulative link on all but the last; current and no link exactly on the last |
| Breadcrumbs.HrefsNest | src/components/ui/Breadcrumbs.tsx:220-227 | each link extends the previous one by '/' and the next segment |
| Breadcrumbs.SegmentsAround | src/components/ui/Breadcrumbs.tsx:209 | the segments of a/b are those of a followed by those of b |
| Breadcrumbs.NoSegments | src/components/ui/Breadcrumbs.tsx:209 | the empty path has no segments |
| Breadcrumbs.LeadingSlash | src/components/ui/Breadcrumbs.tsx:209 | a leading slash changes no segment |
| Breadcrumbs.TrailingSlash | src/components/ui/Breadcrumbs.tsx:209 | a trailing slash changes no segment |
| Breadcrumbs.DoubledSlash | src/components/ui/Breadcrumbs.tsx:209 | a doubled slash changes no segment |
| Breadcrumbs.JoinPathRoundTrip | src/components/ui/Breadcrumbs.tsx:220-222 | a cumulative path splits back into the segments it was built from |
| Breadcrumbs.HrefIsPrefixPath | src/components/ui/Breadcrumbs.tsx:209-227 | the link of segment item i leads to the path of the first i segments, however the path was written |
| Breadcrumbs.ShownCurrentIsLast | src/components/ui/Breadcrumbs.tsx:171-182 | on a built trail, an item is rendered as current (text, not a link) iff it is the last |

## Left out

- AES encryption and decryption (`src/lib/crypto.ts:68-128`): thin wrappers over a library whose code is not part of this model.
- PBKDF2, SHA-256, X.509 parsing, `randomBytes` and `crypto.randomUUID` are parameters (function-valued or plain values), not implementations.
- `Math.random` is an arbitrary in-range index. No distribution is modelled, so `Utils.ShuffleArray` claims a permutation, not uniformity.
- Prisma persistence is in-memory rows. One `reachable` flag stands for every database fault.
- Thrown-error messages are not recorded in the logged events.
- Security-log row formatting (log level, message text, details object) and `console.error` are left out. Events are ghost values.
- The route files call operations whose signatures do not match `src/lib/auth.ts`:
  - `rateLimiter.checkLimit`, `validateClientCertificate(...).isValid`, `generateSessionToken(obj)`, `createSession({token, stage, …})`, `prisma.session`, `updateSession`, `validateMasterPassword`;
  - the model takes them in the form their call sites imply: the library rate limiter, a staged-session table, and verdict functions passed in.
- Concurrency between requests is not modelled. Each request is atomic.
- Timers are not modelled: each `Tick` is one firing of the countdown effect. Navigation and `localStorage` beyond the two stored entries are also left out.
- The other helpers of `src/lib/utils.ts` are left out: `formatDate`, `formatDateTime`, `formatNumber`, `formatFileSize`, `formatPercentage`, `isValidUrl`, `generateRandomColor`, `deepCopy`, `debounce`, `throttle`, the `localStorage` wrapper and `getClientInfo`. They have locale, float, timer or browser behaviour.
- Case mapping (`toLowerCase`/`toUpperCase`) covers ASCII letters only.
- Characters are Unicode scalar values, so a character outside the Basic Multilingual Plane is one position where JavaScript counts two code units. `Utils.GetStringLength` counts both code units. Other string functions index by character.
- Crypto.SecureCompare: lengths are compared in characters rather than UTF-16 code units. The result (string equality) is the same.
- Utils.CreateSearchFilter: numbers are integers. Non-integer numbers and their `toString` forms are not modelled.
- Breadcrumbs.CreateBreadcrumbs: the item's icon element is reduced to the `homeIcon` flag.
- Breadcrumbs.LabelFor: `customLabels` is read through its own keys only. A plain object also answers inherited keys, so `createBreadcrumbs('/constructor', {})` labels that segment with the `Object` function rather than "Constructor". The map model cannot show this.
- The `!certValidation.user` branch of `POST /api/auth/session` (`src/app/api/auth/session/route.ts:130-144`) cannot be reached: a valid result always carries a user.
- `SessionRoute.Get` answers an empty permission list, as the source does.
- MasterPasswordRoute.Post: an absent `rememberDevice` is read as false. The source stores `undefined` as the trust flag.
- The presentation components, the dashboard, the other pages, the seeds, the configuration files and the health and statistics routes are not part of this model.

## Findings

| source | as written | input that shows it | evidently intended | confidence | as-written member | corrected member |
|---|---|---|---|---|---|---|
| src/lib/utils.ts:90-95 | `password.slice(-visibleChars)` with `visibleChars` 0 is `slice(0)`, the whole password, after `length` stars | `maskPassword("secret", 0)` gives `"******secret"` | a result as long as the password with nothing shown, all '*' | not executed | Utils.MaskPasswordAsWritten, Utils.MaskPasswordZeroExample | Utils.MaskPassword |
