# Coaching-Tracking-System, modelled in Dafny

This project models the client-side core of the Coaching-Tracking-System, a
React application in which students, advisors, an administrator and
external committee members follow capstone projects through coaching
sessions, action items and evaluations. The model covers:

- the token store and access rules (`src/utils/auth.ts`);
- the audit trail (`src/utils/audit.ts`);
- the demo login service (`src/services/authService.ts`);
- the input checks (`src/utils/security.ts`, `src/utils/validation.ts`);
- the route guards (`src/components/ProtectedRoute.tsx`);
- the top-level screen switch (`src/App.tsx`);
- the stateful forms (evaluation, coaching session, secure file upload);
- the values each dashboard derives from the dataset (student, advisor,
  admin, committee);
- the action-item list and the coaching timeline.

Browser state that the code changes in place is modelled as a class:

- `Storage.LocalStorage` stands for `localStorage`;
- `Audit.AuditTrail` holds the module-level log array and the persisted list;
- `Security.RateLimiter` holds the module-level rate-limit map;
- one class per stateful React component.

React state updates become methods with `modifies this`. Everything each
screen computes from its inputs is a function. Dates are integers
(milliseconds since the epoch). The current time, token decoding,
`sanitizeInput`, `Number()` and the user's regular expressions are
parameters of the model.

Shared modules:

- `Wrappers`: `Option`, `Result`.
- `Text`: JavaScript whitespace, `trim`, `toLowerCase`, `parseInt`, number
  printing.
- `Seqs`: `filter`, `slice` with negative indices, `reverse`, remove by
  index, sums.
- `Domain`: the records of `src/types/index.ts`.

## Model

| member | source | states |
|---|---|---|
| Domain.RoleFromName | src/types/index.ts:1 | a recognised role name reads back to the role that prints as it |
| Domain.RoleNameRoundTrip | src/types/index.ts:1 | every role survives printing and reading back |
| Domain.TotalWithinMax | src/components/EvaluationForm.tsx:29-30 | when no score exceeds its category maximum, the total does not exceed the summed maximum |
| Domain.RoleName | src/types/index.ts:1 | the string each role prints as; read back by `RoleFromName` (RoleNameRoundTrip) |
| Domain.TotalScore | src/components/EvaluationForm.tsx:29 | `reduce((sum, s) => sum + s.score, 0)`; bounded by the maximum in TotalWithinMax |
| Domain.MaxScore | src/components/EvaluationForm.tsx:30 | `reduce((sum, s) => sum + s.maxScore, 0)` |
| Storage.LocalStorage.GetItem | src/services/authService.ts:73 | `getItem` yields the stored value exactly when the key is present, `null` otherwise |
| Storage.LocalStorage.SetItem | src/utils/auth.ts:29-31 | `setItem` overwrites one key and keeps the rest |
| Storage.LocalStorage.RemoveItem | src/utils/auth.ts:52-54 | `removeItem` removes one key and keeps the rest |
| Text.Utf16Length | src/utils/validation.ts:31-39 | `s.length` counts UTF-16 code units: at least the number of characters, at most twice it, and 0 only for the empty string |
| Text.Utf16LengthAppend | src/utils/validation.ts:31-39 | the code units of a concatenation are the sum of both parts' |
| Text.Utf16LengthOfBmp | src/utils/security.ts:33 | text inside the Basic Multilingual Plane has as many code units as characters |
| Text.Utf16LengthOfAstral | src/utils/security.ts:33 | one emoji outside that plane is one character and two code units |
| Text.Trim | src/utils/validation.ts:27 | `trim()`: no longer than the input, and neither end is JavaScript white space |
| Text.ToLower | src/services/authService.ts:30 | `toLowerCase()` on ASCII letters: same length, each character lower-cased |
| Text.IntToString | src/utils/auth.ts:31 | `n.toString()`: the decimal numeral, read back by ParseInt (ParseIntOfIntToString) |
| Text.ParseInt | src/utils/auth.ts:64 | `parseInt(s, 10)`: skips leading white space, reads one sign and the longest digit run; `None` for NaN; ParseIntOfIntToString states its round trip |
| Text.ParseIntOfIntToString | src/utils/auth.ts:31 | an expiry written with `toString()` is read back by `parseInt` as the same number |
| Seqs.RemoveAtSpec | src/components/EvaluationForm.tsx:45-47 | filtering out index i removes exactly that element and keeps the order of the others |
| Seqs.Filter | src/components/StudentDashboard.tsx:28 | `filter`: no longer than the input, keeps only elements that pass, keeps every element that passes |
| Seqs.FilterAppend | src/components/StudentDashboard.tsx:28 | filtering distributes over concatenation, so the input order is kept |
| Seqs.FilterPartition | src/components/StudentDashboard.tsx:38-39 | two complementary filters split the list: their lengths add up and they share no element |
| Seqs.Count | src/components/AdminDashboard.tsx:27 | `filter(...).length`: at most the length of the list |
| Seqs.CountAppend | src/components/AdminDashboard.tsx:27 | one more element adds one to the count exactly when it passes |
| Seqs.Slice | src/components/StudentDashboard.tsx:196 | `slice(start, end)` with negative indices counted from the end; never longer than the list |
| Seqs.SliceFrom | src/utils/audit.ts:90 | `slice(start)`: the suffix from the clamped start index |
| Seqs.Reverse | src/utils/audit.ts:90 | `reverse()`: same length, entry i is the i-th from the end |
| Seqs.RemoveAt | src/components/EvaluationForm.tsx:45-47 | `filter((_, i) => i !== k)`; no contract of its own, its meaning is RemoveAtSpec |
| Seqs.Sum | src/components/AdminDashboard.tsx:46 | `reduce((sum, x) => sum + f(x), 0)`; additive over concatenation (SumAppend) |
| Seqs.SumAppend | src/components/AdminDashboard.tsx:46 | the sum of a concatenation is the sum of the parts |
| Seqs.SumMonotone | src/components/EvaluationForm.tsx:29-30 | a pointwise smaller summand gives a smaller sum |
| Auth.StoreTokens | src/utils/auth.ts:28-32 | the three token keys are set, the expiry as its decimal text; no other key changes |
| Auth.WithTokens | src/utils/auth.ts:28-32 | the store after `storeTokens`; no contract of its own, StoreTokens and StoredTokensReadBack state what it holds |
| Auth.WithoutTokens | src/utils/auth.ts:51-55 | the store without the three token keys; ClearTokensExact states it |
| Auth.GetAccessToken | src/utils/auth.ts:37-39 | returns the stored access token, or `null` |
| Auth.GetRefreshToken | src/utils/auth.ts:44-46 | returns the stored refresh token, or `null` |
| Auth.ClearTokens | src/utils/auth.ts:51-55 | removes exactly the three token keys |
| Auth.IsTokenExpired | src/utils/auth.ts:60-66 | a missing or empty expiry is expired; a number is expired from that instant on; text with no number is never expired, because `now >= NaN` is false |
| Auth.CurrentUserIn | src/utils/auth.ts:92-102 | no access token gives `null`; an expired session gives `null`; otherwise the decoded token |
| Auth.GetCurrentUser | src/utils/auth.ts:92-102 | returns `CurrentUserIn` of the old store; clears the tokens exactly when a token is present and expired |
| Auth.HasRole | src/utils/auth.ts:107-109 | true exactly when some listed role equals the user's role |
| Auth.CanAccessResource | src/utils/auth.ts:118-137 | admin always; a student only for their own resource; an advisor only for resources they advise; a committee member only when listed; any other role never; each direction is stated |
| Auth.CommitteeEmptyListDenies | src/utils/auth.ts:132-133 | an empty committee list grants a committee member nothing |
| Auth.StoredTokensReadBack | src/utils/auth.ts:28-66 | after `storeTokens(t)`, both getters return t's tokens, and the session counts as expired exactly when now >= t.expiresAt |
| Auth.ClearTokensExact | src/utils/auth.ts:51-55 | clearing is idempotent; it removes the token keys and leaves every other key as it was |
| Auth.ExpiryBoundary | src/utils/auth.ts:64-65 | the expiry instant itself is already expired; one millisecond earlier is not |
| Auth.NonNumericExpiryNeverExpires | src/utils/auth.ts:64-65 | a stored expiry without a leading number never expires |
| Auth.ExpiredSessionCleared | src/utils/auth.ts:96-99 | on an expired session, `getCurrentUser` returns `null` and leaves no token key behind |
| Audit.MakeLog | src/utils/audit.ts:56-68 | the entry carries the caller's user, role and action; `success` defaults to true |
| Audit.KeepNewest | src/utils/audit.ts:78-79 | the persisted list keeps at most 100 entries, and they are the newest ones |
| Audit.KeepNewestAppend | src/utils/audit.ts:76-80 | appending to a full list evicts exactly the oldest entry; appending to a shorter list evicts nothing |
| Audit.AuditTrail.constructor | src/utils/audit.ts:43 | the in-memory list starts empty; the persisted list is whatever storage held |
| Audit.AuditTrail.LogAuditEvent | src/utils/audit.ts:45-83 | appends the entry to the in-memory list; appends it to the persisted list and trims that list to the newest 100 |
| Audit.GetAuditLogs | src/utils/audit.ts:88-91 | the limit defaults to 50; returns min(limit, n) entries for a positive limit and all entries for limit 0; entry i is the i-th newest |
| Audit.GetAuditLogsByUser | src/utils/audit.ts:96-99 | every entry belongs to the user and is persisted; the result is the user's entries among the newest 1000, newest first, cut to `limit` (50 when none is given) |
| Audit.GetAuditLogsByAction | src/utils/audit.ts:104-107 | the same for one action |
| Audit.NewestFirstAfterLog | src/utils/audit.ts:70-90 | right after an event is logged, `getAuditLogs` starts with that event |
| AuthService.FindUserIndex | src/services/authService.ts:30 | the first user whose e-mail matches, ignoring case; `None` exactly when no user matches |
| AuthService.EmailMatches | src/services/authService.ts:30 | the e-mails are equal after lower-casing both |
| AuthService.PasswordAccepted | src/services/authService.ts:41-42 | the lower-cased e-mail has a non-empty demo password equal to the given one; Login succeeds exactly when it holds for the found user |
| AuthService.MockTokens | src/services/authService.ts:51-55 | the tokens expire two hours after login |
| AuthService.LoginAudit | src/services/authService.ts:32-64 | an unknown e-mail is logged as user "" with role "guest"; the entry is a success exactly when it records a `login` |
| AuthService.Login | src/services/authService.ts:25-67 | succeeds exactly when the e-mail is known and the password is that user's demo password; stores tokens only on success; a failure returns the fixed Thai message and leaves the modelled store (every key but `audit_logs`, which the audit trail holds) unchanged; exactly one audit entry is written |
| AuthService.LoginSessionLifetime | src/services/authService.ts:54 | a session from a successful login is alive exactly before login time plus 7 200 000 ms |
| AuthService.EncodeUser | src/services/authService.ts:87 | `JSON.stringify(user)` as a length-prefixed text; DecodeEncodeUser proves it reads back |
| AuthService.DecodeUser | src/services/authService.ts:76-80 | `JSON.parse` of a stored user, `None` for text that does not parse; DecodeEncodeUser proves it inverts EncodeUser |
| AuthService.UserIn | src/services/authService.ts:72-80 | the user a store holds: `None` for a missing or empty entry, otherwise the decoded one; GetCurrentUserFromStorage returns it |
| AuthService.ReadFieldOfField | src/services/authService.ts:87 | a length-prefixed field reads back to its text and the remainder |
| AuthService.ReadAvatarOfAvatarText | src/services/authService.ts:87 | the optional avatar survives encoding |
| AuthService.DecodeEncodeUser | src/services/authService.ts:77-87 | decoding the stored text of a user gives that user back |
| AuthService.StoreUser | src/services/authService.ts:86-88 | writes the encoded user under `current_user` and changes no other key |
| AuthService.GetCurrentUserFromStorage | src/services/authService.ts:72-81 | a missing or empty entry gives `null`; otherwise the decoded user, so the round trip in `StoredUserRoundTrip` applies to it |
| AuthService.ClearUser | src/services/authService.ts:93-95 | removes `current_user` only |
| AuthService.StoredUserRoundTrip | src/services/authService.ts:72-95 | after `storeUser(u)` the stored user reads back as u; after `clearUser` it reads as `null` |
| ProtectedRoute.RoleNames | src/components/ProtectedRoute.tsx:38 | the required roles, spelled as in the token |
| ProtectedRoute.RolePermitted | src/components/ProtectedRoute.tsx:38 | no required roles, or the user has one of them; RouteDecision uses it in both directions |
| ProtectedRoute.OwnershipPermitted | src/components/ProtectedRoute.tsx:54-62 | no ownership check, or `canAccessResource` grants it |
| ProtectedRoute.RouteDecision | src/components/ProtectedRoute.tsx:28-79 | redirects exactly when no one is signed in; renders the children exactly when the role check and the ownership check both pass; a denial shows the fallback exactly when one is given; the no-role and own-data-only messages are each tied to the check that failed |
| ProtectedRoute.Route | src/components/ProtectedRoute.tsx:19-80 | the outcome is `RouteDecision` applied to the `getCurrentUser` result, with the same storage side effect |
| ProtectedRoute.EmptyRequiredRolesDenyEveryone | src/components/ProtectedRoute.tsx:38 | an empty required-roles list denies every signed-in user |
| ProtectedRoute.AdminPassesOwnership | src/components/ProtectedRoute.tsx:54-63 | an admin whose role is allowed always sees the children, with or without an ownership check |
| ProtectedRoute.GuardDecision | src/components/ProtectedRoute.tsx:94-98 | shows the children exactly when someone is signed in with an allowed role |
| ProtectedRoute.RoleGuard | src/components/ProtectedRoute.tsx:91-99 | the outcome is `GuardDecision` applied to the `getCurrentUser` result |
| ProtectedRoute.GuardAgreesWithRoute | src/components/ProtectedRoute.tsx:38-99 | without an ownership check, `RoleGuard` and `ProtectedRoute` admit the same users |
| App.Render | src/App.tsx:20-39 | the login page exactly when no one is signed in |
| App.DashboardFor | src/App.tsx:26-37 | the dashboard for each role; DashboardForInjective and RenderShowsOwnDashboard state what it means |
| App.DashboardForInjective | src/App.tsx:26-37 | different roles get different dashboards |
| App.RenderShowsOwnDashboard | src/App.tsx:24-39 | a signed-in user sees exactly one dashboard, the one for their role |
| App.App.constructor | src/App.tsx:10 | starts with no user |
| App.App.HandleLogin | src/App.tsx:12-14 | the user becomes the current user |
| App.App.HandleLogout | src/App.tsx:16-18 | no user remains |
| App.App.View | src/App.tsx:20-39 | the screen is a function of the current user alone |
| Security.StrengthOf | src/utils/security.ts:63-64 | strong from a score of 4; medium at exactly 3; weak below 3 |
| Security.ValidatePassword | src/utils/security.ts:28-71 | the length rule counts UTF-16 code units; the errors are the failed rules' messages in rule order; the strength follows the number of rules passed; the password is valid exactly when there is no error |
| Security.PasswordChecks | src/utils/security.ts:33-61 | the five rules in source order: length (UTF-16 units) at least 10, a digit, a lower-case letter, an upper-case letter, a special character |
| Security.FailedMessages | src/utils/security.ts:33-61 | the messages of the failed rules, in rule order, at most one per rule |
| Security.Passed | src/utils/security.ts:33-61 | the score: the number of passed rules; ScorePlusErrors ties it to the messages |
| Security.ScorePlusErrors | src/utils/security.ts:33-61 | every rule either adds to the score or adds a message, so the score and the error count sum to the number of rules |
| Security.PasswordRules | src/utils/security.ts:28-71 | valid exactly when all five rules hold; a password that fails one rule is rated strong yet refused |
| Security.FirstIndexOf | src/utils/security.ts:77 | the first position of a character, or `None` when the character is absent |
| Security.ValidateEmail | src/utils/security.ts:76-79 | accepted exactly when the text is non-empty local text, '@', then a domain with an inner '.', with no whitespace and no second '@' |
| Security.EmailShape | src/utils/security.ts:77 | `^[^\s@]+@[^\s@]+\.[^\s@]+$` as positions: some '@' splits the text into a non-empty local part and a domain with an inner '.', neither holding white space or '@' |
| Security.Admit | src/utils/security.ts:87-105 | an absent or expired window opens a new one with count 1 and allows; a full window refuses and changes nothing; otherwise the count goes up by one; other keys are untouched |
| Security.RateLimiter.constructor | src/utils/security.ts:85 | starts with an empty store |
| Security.RateLimiter.CheckRateLimit | src/utils/security.ts:87-105 | the verdict and the new store are those of `Admit` |
| Security.GrantsWithinWindow | src/utils/security.ts:99-104 | within one open window exactly min(requests, max(0, maxRequests − count)) are allowed, and the window's end stays fixed |
| Security.FreshWindowGrants | src/utils/security.ts:91-104 | a burst inside a fresh window gets exactly min(requests, max(1, maxRequests)) allowed |
| Security.Replay | src/utils/security.ts:87-105 | `checkRateLimit` called once per time in order: the number granted and the final store; GrantsWithinWindow and FreshWindowGrants state its counts |
| Security.ValidateFileType | src/utils/security.ts:120-122 | true exactly when the MIME type is in the list |
| Security.ValidateFileSize | src/utils/security.ts:127-129 | true exactly when the size is at most the limit |
| Security.AfterLastDot | src/utils/security.ts:135 | the text after the last '.': a suffix with no '.', preceded by '.' unless it is the whole name |
| Security.GetFileExtension | src/utils/security.ts:134-136 | has no '.'; a name without a '.' is returned lower-cased whole |
| Security.ExtensionAfterLastDot | src/utils/security.ts:134-136 | `base.ext` gives `ext` lower-cased, whatever the base |
| Security.AfterLastDotSuffix | src/utils/security.ts:135 | the suffix after a final '.' is returned unchanged |
| Security.ReplaceUnsafe | src/utils/security.ts:156 | every character outside `[a-zA-Z0-9._-]` becomes '_'; every other character stays |
| Security.CollapseUnderscores | src/utils/security.ts:157 | never lengthens; keeps the first character |
| Security.SanitizeFilename | src/utils/security.ts:154-159 | at most 255 characters |
| Security.CollapseKeepsSafe | src/utils/security.ts:157 | collapsing keeps the text within the safe characters |
| Security.CollapseHasNoDouble | src/utils/security.ts:157 | no "__" remains after collapsing |
| Security.CollapseIdentity | src/utils/security.ts:157 | text without "__" is unchanged by collapsing |
| Security.CollapseKeepsOthers | src/utils/security.ts:157 | collapsing removes only '_': every other character survives, in order |
| Security.CollapseRun | src/utils/security.ts:157 | two '_' in a row collapse as one does, so each run of '_' ends as a single '_' |
| Security.ReplaceIdentity | src/utils/security.ts:156 | safe text is unchanged by replacement |
| Security.SanitizeFilenameProperties | src/utils/security.ts:154-159 | the result uses only safe characters, has no "__", and sanitizing it again changes nothing |
| Validation.ValidateString | src/utils/validation.ts:11-55 | a non-string is refused; otherwise valid exactly when no check fails; the checks run in the order required (on the trimmed text), minimum, maximum, pattern, each with its own message; the length bounds count UTF-16 code units; a valid value is sanitized unless HTML is allowed |
| Validation.RequiredFails | src/utils/validation.ts:27 | required and the trimmed text is empty |
| Validation.MinFails | src/utils/validation.ts:31 | a truthy minimum above the UTF-16 length |
| Validation.MaxFails | src/utils/validation.ts:39 | a truthy maximum below the UTF-16 length |
| Validation.PatternFails | src/utils/validation.ts:47 | a pattern is given and rejects the text |
| Validation.ZeroLengthBoundIsNoBound | src/utils/validation.ts:31-39 | a length bound of 0 acts as no bound, because 0 is falsy |
| Validation.RequiredUsesTrimmedLength | src/utils/validation.ts:27 | a required field holding only a space is refused as missing |
| Validation.ValidateNumber | src/utils/validation.ts:60-97 | blank input gives 0, refused only when required; otherwise NaN, a non-integer when integers are required, below the minimum and above the maximum are refused in that order |
| Validation.NumberBoundsInclusive | src/utils/validation.ts:88-93 | both bounds are inclusive |
| Validation.ValidateEmailInput | src/utils/validation.ts:139-153 | a non-string is refused; a string is accepted exactly when it has the e-mail shape; the value is the sanitized, lower-cased, trimmed text |
| Validation.FirstInvalid | src/utils/validation.ts:206-211 | the first item the validator refuses, or `None` when all pass |
| Validation.MapValues | src/utils/validation.ts:211 | one validated value per item, in order |
| Validation.ArrayVerdict | src/utils/validation.ts:186-217 | a non-array is refused only when required, and otherwise gives []; too few items are refused first, then too many, each with its count in the message; with no item validator the items pass through unchanged; a refusal carries no items |
| Validation.TooFewItems | src/utils/validation.ts:196 | a truthy minimum above the number of items |
| Validation.TooManyItems | src/utils/validation.ts:200 | a truthy maximum below the number of items |
| Validation.ValidateArray | src/utils/validation.ts:178-217 | the loop returns `ArrayVerdict` |
| Validation.MapValuesAppend | src/utils/validation.ts:211 | the validated values grow by one per item |
| Validation.ArrayItemsValidated | src/utils/validation.ts:204-213 | with a validator, valid exactly when every item passes; a valid result maps the items one to one; a refusal carries the first refused item's error |
| EvaluationForm.DefaultScoresFacts | src/components/EvaluationForm.tsx:10-24 | four categories, summing to 100 points, all starting at 0 |
| EvaluationForm.DefaultScores | src/components/EvaluationForm.tsx:10-24 | the four categories with maxima 50, 20, 15, 15 and score 0; DefaultScoresFacts states their sums |
| EvaluationForm.GradeName | src/components/EvaluationForm.tsx:243-246 | the label shown for each grade: A, B+, B, C+, C |
| EvaluationForm.Clamp | src/components/EvaluationForm.tsx:35 | `Math.min(value, maxScore)`: at most both arguments and equal to one of them |
| EvaluationForm.InputValue | src/components/EvaluationForm.tsx:117 | unparsable input counts as 0 |
| EvaluationForm.TotalAfterUpdate | src/components/EvaluationForm.tsx:29-35 | changing one score moves the total by the difference and leaves the maximum alone |
| EvaluationForm.PercentTenths | src/components/EvaluationForm.tsx:31 | the percentage to one decimal, rounded half away from zero; 0 when the maximum is not positive |
| EvaluationForm.GradeOf | src/components/EvaluationForm.tsx:243-246 | A from 80, B+ from 70, B from 60, C+ from 50, otherwise C; each band in both directions |
| EvaluationForm.GradeMonotone | src/components/EvaluationForm.tsx:243-246 | a higher percentage never gives a lower grade |
| EvaluationForm.PercentMonotone | src/components/EvaluationForm.tsx:31 | a higher total never gives a lower percentage |
| EvaluationForm.GradeEndpoints | src/components/EvaluationForm.tsx:31-246 | full marks give A; zero gives C |
| EvaluationForm.EvaluationForm.constructor | src/components/EvaluationForm.tsx:22-27 | the default scores, empty comments, one empty strength and one empty improvement |
| EvaluationForm.EvaluationForm.Total | src/components/EvaluationForm.tsx:29 | never above the maximum while every score is within its category |
| EvaluationForm.EvaluationForm.Maximum | src/components/EvaluationForm.tsx:30 | the summed category maxima |
| EvaluationForm.EvaluationForm.Grade | src/components/EvaluationForm.tsx:243-246 | GradeOf of the percentage; GradeOf states the bands, GradeMonotone and GradeEndpoints its order |
| EvaluationForm.EvaluationForm.HandleScoreChange | src/components/EvaluationForm.tsx:33-37 | only that score changes, to the value capped at its maximum; the total moves accordingly; the maximum is unchanged; the cap keeps every score within its category |
| EvaluationForm.EvaluationForm.SetComments | src/components/EvaluationForm.tsx:25 | only the comments change |
| EvaluationForm.EvaluationForm.AddStrength | src/components/EvaluationForm.tsx:39 | one empty strength appended; nothing else changes |
| EvaluationForm.EvaluationForm.UpdateStrength | src/components/EvaluationForm.tsx:40-44 | only that strength changes |
| EvaluationForm.EvaluationForm.RemoveStrength | src/components/EvaluationForm.tsx:45-47 | removes by index; the form stays valid when more than one strength was there, which is when the remove button shows (line 177) |
| EvaluationForm.EvaluationForm.AddImprovement | src/components/EvaluationForm.tsx:49 | one empty improvement appended |
| EvaluationForm.EvaluationForm.UpdateImprovement | src/components/EvaluationForm.tsx:50-54 | only that improvement changes |
| EvaluationForm.EvaluationForm.RemoveImprovement | src/components/EvaluationForm.tsx:55-57 | removes by index; the form stays valid when more than one improvement was there (line 216) |
| EvaluationForm.EvaluationForm.HandleSubmit | src/components/EvaluationForm.tsx:59-63 | asks to close the form and changes nothing else |
| EvaluationForm.RemoveKeepsOrder | src/components/EvaluationForm.tsx:45-56 | removing by index keeps the entries before it in place and shifts the later ones by one |
| FileUpload.ValidateFile | src/components/SecureFileUpload.tsx:42-70 | refused exactly when the type is not allowed or the file is too large; the type is checked first, each with its message |
| FileUpload.SizeMessageText | src/components/SecureFileUpload.tsx:62-66 | the size message names the 10MB limit |
| FileUpload.Accepted | src/components/SecureFileUpload.tsx:78-101 | accepted files keep only safe filename characters and at most 255 of them |
| FileUpload.Rejections | src/components/SecureFileUpload.tsx:78-104 | one message per refused file, in selection order; SelectionSplit states which |
| FileUpload.PassesChecks | src/components/SecureFileUpload.tsx:79-81 | `validateFile` finds nothing |
| FileUpload.FailsChecks | src/components/SecureFileUpload.tsx:102-103 | `validateFile` returns a message |
| FileUpload.Renamed | src/components/SecureFileUpload.tsx:82-84 | the file under its sanitized name, type and size kept |
| FileUpload.SelectionSplit | src/components/SecureFileUpload.tsx:78-104 | the accepted files are exactly the passing files, renamed, in selection order; the refusals are exactly the failing files' messages, in selection order |
| FileUpload.AcceptedExactly | src/components/SecureFileUpload.tsx:78-101 | a file is accepted exactly when it is a selected file that passes both checks, renamed |
| FileUpload.AcceptedPlusRejected | src/components/SecureFileUpload.tsx:78-105 | every examined file is either accepted or refused with one message |
| FileUpload.FailureMessage | src/components/SecureFileUpload.tsx:142-145 | an upload failure always has a message |
| FileUpload.Settled | src/components/SecureFileUpload.tsx:123-150 | success on an upload; error with its message on a refusal; the identity and file are kept |
| FileUpload.Settle | src/components/SecureFileUpload.tsx:123-150 | `map(f => f === entry ? settled : f)`: the entries with that identity are settled, all others kept |
| FileUpload.MarkUploading | src/components/SecureFileUpload.tsx:111-113 | the entries with that identity become uploading copies with a new identity, all others kept |
| FileUpload.PendingEntries | src/components/SecureFileUpload.tsx:83-86 | one pending entry per accepted file, in order, with fresh identities |
| FileUpload.ResponseEvent | src/components/SecureFileUpload.tsx:140-158 | `onUploadSuccess(url, id)` on an upload, `onUploadError(message)` on a refusal |
| FileUpload.UploadLogOptions | src/components/SecureFileUpload.tsx:129-156 | the audit options: the file name, size and type with the id on success; the error message on failure |
| FileUpload.SizeMessage | src/components/SecureFileUpload.tsx:65 | the size message; SizeMessageText gives its text |
| FileUpload.AppendPendingKeepsRefs | src/components/SecureFileUpload.tsx:83-107 | appending new entries keeps every entry a distinct object |
| FileUpload.SecureFileUpload.constructor | src/components/SecureFileUpload.tsx:34-38 | no files; `maxFiles` defaults to 5 |
| FileUpload.SecureFileUpload.Examined | src/components/SecureFileUpload.tsx:76-78 | only as many selected files as there are free slots are examined |
| FileUpload.SecureFileUpload.HandleFileSelect | src/components/SecureFileUpload.tsx:72-108 | no selection changes nothing; otherwise the accepted examined files are appended as pending entries and one error is reported per refused file; never more than `maxFiles` entries |
| FileUpload.SecureFileUpload.BeginUpload | src/components/SecureFileUpload.tsx:111-113 | the chosen entry becomes an uploading copy with a new identity |
| FileUpload.SecureFileUpload.HandleUploadAsWritten | src/components/SecureFileUpload.tsx:110-160 | the response is applied to the original object, which is no longer in the list; one upload entry describing the entry as it was before the upload is logged and persisted |
| FileUpload.SecureFileUpload.HandleUpload | src/components/SecureFileUpload.tsx:110-160 | the response is applied to the uploading copy; one upload entry describing the entry as it was before the upload is logged and persisted |
| FileUpload.SecureFileUpload.HandleRemove | src/components/SecureFileUpload.tsx:162-164 | removes that entry only; the others stay in order |
| FileUpload.SecureFileUpload.FindEntry | src/components/SecureFileUpload.tsx:134-136 | the entry with the given identity, whose name, size and type the audit record carries |
| FileUpload.LogUpload | src/components/SecureFileUpload.tsx:129-156 | one audit entry per settled upload |
| FileUpload.UploadNeverSettlesAsWritten | src/components/SecureFileUpload.tsx:111-150 | as written, the response leaves the list as it was after marking, so the entry stays uploading |
| FileUpload.UploadSettlesCopy | src/components/SecureFileUpload.tsx:111-150 | corrected, exactly the uploaded entry settles to success or error, and every other entry is unchanged |
| FileUpload.FilterKeepsDistinct | src/components/SecureFileUpload.tsx:163 | removing entries keeps the rest distinct |
| SessionForm.SetTextField | src/components/CoachingSessionForm.tsx:12-22 | the edited text field takes the new value; every other text field, the duration and the topics are kept |
| SessionForm.TextOf | src/components/CoachingSessionForm.tsx:12-22 | the text held by one of the form's text fields |
| SessionForm.SetDraftField | src/components/CoachingSessionForm.tsx:59-63 | the named field of the draft item takes the value; SetDraftFieldOnlyThatField states that the others are kept |
| SessionForm.FindProject | src/components/CoachingSessionForm.tsx:28 | the first project with that id, or `None` when there is none |
| SessionForm.Students | src/components/CoachingSessionForm.tsx:28-31 | no project selected gives no students; otherwise the users on that project's team |
| SessionForm.StudentsOnTeam | src/components/CoachingSessionForm.tsx:28-31 | every listed student is a user on the selected project's team |
| SessionForm.CoachingSessionForm.constructor | src/components/CoachingSessionForm.tsx:12-26 | 60 minutes, one empty topic, one empty action item with priority medium |
| SessionForm.CoachingSessionForm.SetText | src/components/CoachingSessionForm.tsx:12-22 | only that text field changes |
| SessionForm.CoachingSessionForm.SetDuration | src/components/CoachingSessionForm.tsx:157 | the duration becomes `parseInt` of the input, possibly NaN |
| SessionForm.CoachingSessionForm.AddTopic | src/components/CoachingSessionForm.tsx:40-42 | one empty topic appended |
| SessionForm.CoachingSessionForm.UpdateTopic | src/components/CoachingSessionForm.tsx:44-48 | only that topic changes |
| SessionForm.CoachingSessionForm.RemoveTopic | src/components/CoachingSessionForm.tsx:50-53 | removes by index; at least one topic remains when the remove button shows (line 186) |
| SessionForm.CoachingSessionForm.AddActionItem | src/components/CoachingSessionForm.tsx:55-57 | one default item appended |
| SessionForm.CoachingSessionForm.UpdateActionItem | src/components/CoachingSessionForm.tsx:59-63 | only that field of that item changes |
| SessionForm.CoachingSessionForm.RemoveActionItem | src/components/CoachingSessionForm.tsx:65-67 | removes by index |
| SessionForm.CoachingSessionForm.HandleSubmit | src/components/CoachingSessionForm.tsx:33-38 | asks to close the form and changes nothing else |
| SessionForm.LastActionItemRemovable | src/components/CoachingSessionForm.tsx:239-245 | the remove button is unguarded, so the last action item can be removed, leaving none |
| SessionForm.SetDraftFieldOnlyThatField | src/components/CoachingSessionForm.tsx:59-63 | updating one field leaves the other three as they were |
| ActionItems.DaysUntilDue | src/components/ActionItemsList.tsx:25 | `Math.ceil` of the days left: the smallest d with due − now ≤ d days |
| ActionItems.IsOverdue | src/components/ActionItemsList.tsx:24 | due before now and not completed |
| ActionItems.DaysUntilDueFacts | src/components/ActionItemsList.tsx:25 | 0 at the due instant; 1 in the following day; negative once more than a day late |
| ActionItems.CardFor | src/components/ActionItemsList.tsx:30-34 | completed first, then overdue, then due within 3 days, then normal |
| ActionItems.IconFor | src/components/ActionItemsList.tsx:40-48 | a check for completed, an alert for overdue, otherwise a box highlighted when in progress |
| ActionItems.DaysLabel | src/components/ActionItemsList.tsx:76-80 | shown only for open, not overdue items with non-negative days left: "วันนี้" at 0, "อีก n วัน" otherwise |
| ActionItems.ViewOf | src/components/ActionItemsList.tsx:24-100 | the overdue tag exactly when overdue; the in-progress badge exactly when in progress; never both the tag and the days label |
| ActionItems.RenderList | src/components/ActionItemsList.tsx:10-21 | the empty state exactly for no items; otherwise one view per item, in order |
| ActionItems.CompletedNeverOverdue | src/components/ActionItemsList.tsx:24-34 | a completed item is never shown as overdue |
| ActionItems.TodayOnlyAtDueInstant | src/components/ActionItemsList.tsx:24-25 | "วันนี้" shows exactly when the due time equals now; an item due within the next day reads "อีก 1 วัน" |
| Projections.SessionsWithStudent | src/components/StudentDashboard.tsx:31 | exactly the sessions that list the student |
| Projections.ItemsAssignedTo | src/components/StudentDashboard.tsx:34-36 | every item is assigned to the user |
| Projections.ItemsAssignedToMembership | src/components/StudentDashboard.tsx:34-36 | an item is listed exactly when it is assigned to the user and belongs to one of the sessions |
| Projections.AllItemsLength | src/components/AdvisorDashboard.tsx:47 | the flattened list has as many items as the sessions together |
| Projections.AllItems | src/components/AdvisorDashboard.tsx:47 | `flatMap(s => s.actionItems)`; AllItemsLength states its length |
| Projections.NotCompleted | src/components/StudentDashboard.tsx:38 | exactly the items that are not completed |
| Projections.CompletedItems | src/components/StudentDashboard.tsx:39 | exactly the completed items |
| Projections.OpenCompletedPartition | src/components/StudentDashboard.tsx:38-39 | the two lists split the items: their lengths add up, and nothing is in both |
| StudentDashboard.MyProjects | src/components/StudentDashboard.tsx:28 | exactly the projects whose team includes the student |
| StudentDashboard.MySessions | src/components/StudentDashboard.tsx:31 | the sessions listing the student, both directions |
| StudentDashboard.MyActionItems | src/components/StudentDashboard.tsx:34-36 | every item is assigned to the student |
| StudentDashboard.MyActionItemsExactly | src/components/StudentDashboard.tsx:31-36 | an item is the student's exactly when it is assigned to them in a session that lists them |
| StudentDashboard.TasksPartition | src/components/StudentDashboard.tsx:38-39 | pending and completed tasks split the student's items |
| StudentDashboard.PendingTasks | src/components/StudentDashboard.tsx:38 | the student's items that are not completed, both directions |
| StudentDashboard.CompletedTasks | src/components/StudentDashboard.tsx:39 | the student's completed items, both directions |
| StudentDashboard.OverviewTasks | src/components/StudentDashboard.tsx:196 | the first five pending tasks |
| AdvisorDashboard.MyProjects | src/components/AdvisorDashboard.tsx:28 | exactly the projects the advisor supervises |
| AdvisorDashboard.MySessions | src/components/AdvisorDashboard.tsx:31 | exactly the sessions the advisor held |
| AdvisorDashboard.MyStudents | src/components/AdvisorDashboard.tsx:34-36 | exactly the student users on one of the advisor's teams |
| AdvisorDashboard.MyStudentsOnce | src/components/AdvisorDashboard.tsx:34-36 | a student on several teams is still listed once |
| AdvisorDashboard.SessionsThisWeek | src/components/AdvisorDashboard.tsx:40-45 | never more than the advisor's sessions |
| AdvisorDashboard.SessionsThisWeekAppend | src/components/AdvisorDashboard.tsx:40-45 | one more session adds one to the count exactly when it is dated no earlier than a week before now |
| AdvisorDashboard.SessionsThisWeekBounds | src/components/AdvisorDashboard.tsx:40-45 | all sessions count when all are within seven days; none when none are |
| AdvisorDashboard.PendingItems | src/components/AdvisorDashboard.tsx:48 | exactly the items with status pending; in-progress items are not counted |
| AdvisorDashboard.OverdueItems | src/components/AdvisorDashboard.tsx:49-53 | exactly the open items whose due date has passed |
| AdvisorDashboard.StudentPendingTasks | src/components/AdvisorDashboard.tsx:266-271 | the student's open items in the advisor's sessions |
| AdvisorDashboard.StudentPendingTasksMembership | src/components/AdvisorDashboard.tsx:266-271 | an item is listed exactly when it is assigned to the student, not completed, and held by one of the advisor's sessions that lists the student |
| AdvisorDashboard.RecentSessions | src/components/AdvisorDashboard.tsx:224 | the first three sessions |
| AdminDashboard.CountRole | src/components/AdminDashboard.tsx:27-28 | never more than the users |
| AdminDashboard.CountRoleAppend | src/components/AdminDashboard.tsx:27-28 | one more user adds one to the count exactly when it has the role |
| AdminDashboard.StudentsAndAdvisorsDisjoint | src/components/AdminDashboard.tsx:27-28 | students and advisors together never exceed the users |
| AdminDashboard.FilterOfFilter | src/components/AdminDashboard.tsx:27-28 | filtering by a stronger condition after a weaker one is filtering by the stronger one |
| AdminDashboard.CountStatus | src/components/AdminDashboard.tsx:33-38 | never more than the projects |
| AdminDashboard.StatusCountsSum | src/components/AdminDashboard.tsx:32-39 | the six status counts add up to the number of projects |
| AdminDashboard.ProjectsByStatus | src/components/AdminDashboard.tsx:32-39 | the six per-status counts; StatusCountsSum proves they add up to the number of projects |
| AdminDashboard.ProgressSum | src/components/AdminDashboard.tsx:46 | the summed progress; AverageProgress and AverageWithinRange state the rounded average of it |
| AdminDashboard.ProjectsAtRisk | src/components/AdminDashboard.tsx:42 | exactly the projects below 50% progress |
| AdminDashboard.AverageProgress | src/components/AdminDashboard.tsx:45-47 | no projects gives no average (NaN); otherwise the mean rounded to the nearest integer, halves up |
| AdminDashboard.AverageWithinRange | src/components/AdminDashboard.tsx:45-47 | with every progress between 0 and 100, so is the average |
| AdminDashboard.ProgressColour | src/components/AdminDashboard.tsx:264-267 | green from 80, blue from 60, yellow from 40, otherwise orange; each band in both directions |
| AdminDashboard.SessionCount | src/components/AdminDashboard.tsx:224 | the number of sessions of that project |
| CommitteeDashboard.MyEvaluations | src/components/CommitteeDashboard.tsx:38 | exactly the member's evaluations |
| CommitteeDashboard.AssignedProjects | src/components/CommitteeDashboard.tsx:28-35 | exactly the projects the member evaluated or that are in presentation or completed |
| CommitteeDashboard.AssignedProjectsAsWritten | src/components/CommitteeDashboard.tsx:28-38 | as written, the filter fails with a ReferenceError exactly when there is a project |
| CommitteeDashboard.AsWrittenFailsOnAnyProject | src/components/CommitteeDashboard.tsx:28-38 | with any project, the code as written does not produce the intended list |
| CommitteeDashboard.EvaluatedProjectIds | src/components/CommitteeDashboard.tsx:39 | the project of each evaluation, in order |
| CommitteeDashboard.IsEvaluated | src/components/CommitteeDashboard.tsx:137 | true exactly when the member has an evaluation of the project |
| CommitteeDashboard.EvaluatedAreAssigned | src/components/CommitteeDashboard.tsx:28-39 | an evaluated project is always among the assigned ones |
| CommitteeDashboard.ProjectIds | src/components/CommitteeDashboard.tsx:137 | the id of each project, in order |
| CommitteeDashboard.PendingCountNonNegative | src/components/CommitteeDashboard.tsx:125 | "assigned − evaluated" is never negative when the evaluated project ids are distinct and every evaluation names a known project |
| CommitteeDashboard.PendingCount | src/components/CommitteeDashboard.tsx:125 | assigned minus evaluated; PendingCountNonNegative proves it is never negative |
| CommitteeDashboard.DistinctIncluded | src/components/CommitteeDashboard.tsx:125 | a duplicate-free list contained in another is no longer than it |
| CommitteeDashboard.EvaluationTotals | src/components/CommitteeDashboard.tsx:236-237 | the total never exceeds the maximum when every score is within its category |
| Timeline.Insert | src/components/TimelineView.tsx:12-14 | one step of the sort: adds exactly one session |
| Timeline.SortNewestFirst | src/components/TimelineView.tsx:12-14 | a permutation of the sessions |
| Timeline.InsertBounded | src/components/TimelineView.tsx:12-14 | inserting never puts a session after the date bound of the list |
| Timeline.InsertSorted | src/components/TimelineView.tsx:12-14 | insertion keeps newest-first order |
| Timeline.SortIsNewestFirst | src/components/TimelineView.tsx:12-14 | the sorted copy is in non-increasing date order |
| Timeline.OnDate | src/components/TimelineView.tsx:12-14 | the sessions on one date, in order |
| Timeline.InsertOnDate | src/components/TimelineView.tsx:12-14 | insertion places a session before the others on its date |
| Timeline.NoneOnLaterDate | src/components/TimelineView.tsx:12-14 | a newest-first list that starts before a date holds nothing on that date |
| Timeline.SortIsStable | src/components/TimelineView.tsx:12-14 | sessions on the same date keep their input order, as `Array.prototype.sort` guarantees |
| Timeline.Render | src/components/TimelineView.tsx:20-35 | the empty state exactly when there are no sessions; otherwise the sorted sessions |
| Timeline.CompletedCount | src/components/TimelineView.tsx:40-41 | never more than the session's items |
| Timeline.PreviewItems | src/components/TimelineView.tsx:109 | the first three items |
| Timeline.MoreLabel | src/components/TimelineView.tsx:146-148 | "+n รายการเพิ่มเติม" exactly when there are more than three items, with n the number not shown |
| Timeline.PreviewIconFor | src/components/TimelineView.tsx:111-121 | the check exactly for completed items; the alert exactly for overdue ones |

## Left out

- `src/services/api.ts` (HTTP client) is not part of this model. It is network I/O.
- `sanitizeInput` needs the browser DOM, so it is a function parameter (`sanitize`).
- `decodeToken` (base64 and JSON parsing) is a parameter (`decode`). With the real decoder, the demo tokens `mock_token_<id>_<ms>` contain no '.', so `decodeToken` yields `null`. A route guard given such a decoder therefore redirects to the login page after a demo login.
- `Number()` coercion and the printing of bounds in messages are parameters (`toNumber`, `show`).
- Regular-expression patterns supplied by callers are predicates.
- `generateCSRFToken` is not modelled. It only draws random bytes.
- `validateDate` and `validateUrl` are not modelled. They rest on the `Date` and `URL` parsers.
- `Date.now()` and `new Date()` are parameters (`now`), in milliseconds.
- Date strings are integers. Parsing them is not modelled.
- The 800 ms login delay is not modelled. Login is synchronous.
- The upload request is a given response (`UploadResponse`). There is no network.
- The demo user list (`src/data/mockData.ts`) is a parameter, not fixed data.
- JSON encoding of `current_user` is modelled by a length-prefixed text encoding with a proved round trip. JSON syntax and a corrupt stored value are not modelled.
- `audit_logs` is held as a sequence field (`Audit.AuditTrail.persisted`) rather than JSON text, outside the `Storage.LocalStorage` map. So "the store is unchanged" in a contract speaks of the other keys; logging still rewrites `audit_logs`. The random audit id, `ipAddress`, `userAgent` and the console output are left out.
- `details` values are strings; `Record<string, unknown>` is not modelled.
- Text.ToLower: lower-cases ASCII letters only; Unicode case mapping is not modelled.
- Scores, percentages and progress are integers; floating-point arithmetic is not modelled.
- EvaluationForm.PercentTenths: models `toFixed(1)` as exact half-away-from-zero rounding of the true ratio, without binary floating-point error.
- EvaluationForm.EvaluationForm.HandleScoreChange: the source writes into the score object shared with the previous state; the model replaces the value, so that aliasing is not captured.
- EvaluationForm.InputValue: `parseFloat` is modelled as an optional integer parse.
- The committee percentage `toFixed(0)` (CommitteeDashboard.tsx:238) is left out; only the totals it uses are modelled.
- Validation.ValidateNumber: bounds are finite reals; infinite bounds are not modelled.
- Image previews in SecureFileUpload are not modelled. They depend on `FileReader`, and their callback (`f.file === file`) likewise compares the original objects.
- The allowed-extensions text in the type message is a constant, not derived from the MIME list.
- `onUploadSuccess`, `onUploadError` and `onClose` are not called. They are modelled as returned events, returned messages or a `closeRequested` flag.
- `alert` is not modelled.
- The redirect `window.location.href = '/login'` is the outcome `RedirectToLogin`.
- Page markup, icons and styling are not modelled; only the decisions that choose what is shown.
- These pages are not modelled: LoginPage, SecureLoginPage, LandingPage, RoleSelectionPage and PrivacyPolicy.
- The multi-step landing/role-selection routing described for the application does not exist in `App.tsx`. The model follows `App.tsx`, which switches only between the login page and the dashboards.
- Drag-and-drop state, tabs and other view-only state are not modelled.
- Concurrency between React state updates is not modelled. Each handler is one atomic step.

## Findings

| source | as written | input that shows it | evidently intended | confidence | as-written member | corrected member |
|---|---|---|---|---|---|---|
| src/components/SecureFileUpload.tsx:110-160 | the entry is first replaced by a spread copy marked uploading; the success and error updates then look for the original object with `===`, which is no longer in the list | one selected valid file whose upload completes, successfully or not | the uploaded entry becomes success or error | not executed | FileUpload.UploadNeverSettlesAsWritten | FileUpload.UploadSettlesCopy |
| src/components/CommitteeDashboard.tsx:28-38 | the `assignedProjects` filter reads `myEvaluations` before its `const` declaration on line 38, so the callback throws a ReferenceError | any non-empty project list | evaluations are computed first; assigned projects are those evaluated by the member or in presentation/completed | not executed | CommitteeDashboard.AsWrittenFailsOnAnyProject | CommitteeDashboard.AssignedProjects |
