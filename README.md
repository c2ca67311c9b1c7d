# CRM console: session gate, login, create validators and front-end helpers

This project models the decision logic of a browser-based CRM console (clients,
contacts and leads behind a cookie session) and proves properties of it in
Dafny. It covers:

- the **session gate** (`middleware`): a per-request choice between letting the
  request through, redirecting to `/`, and redirecting to `/login`, based on
  the path and on whether the `token` cookie verifies;
- the **login handler**: the ordered guards (400, 401, 401), the stamping of
  the user row with the login time and a 24-hour expiry, the session token's
  claims and the `token` cookie's attributes. The user table and the cookie
  store are objects updated in place;
- the **create handlers** for leads, contacts and clients: the zod schemas as
  total validators over JSON bodies, the lead status enum with its default,
  the "absent, empty or well-formed" contact fields, and the lead's
  `contactIds` turned into join rows;
- the front-end **user slice**, a three-field state updated by `login`,
  `logout` and `updateUser`;
- **`formatTime`**, the session countdown rendering;
- the **breadcrumb** path logic and the **CRM navigation** active rule.

Files, one module each: `base.dfy` (Option, Result), `text.dfy` (`startsWith`,
`includes`, `split`, `join`, upper-casing), `json.dfy` (JSON bodies, JavaScript
truthiness, zod field checks), `session_gate.dfy`, `login.dfy`, `leads.dfy`,
`contacts.dfy`, `clients.dfy`, `user_slice.dfy`, `format_time.dfy`,
`breadcrumb.dfy`, `crm_navigation.dfy`.

Outside calls are parameters. Token verification is `verifies: string -> bool`.
It includes the signature check and the expiry check against the request's
clock, and it gives the same answer both times the middleware calls it.
`bcrypt.compare` and `SignJWT(...).sign` are the two functions of `Crypto`.
zod's `.email()` and `.url()` checks are `Formats`. The clock is the `now`
parameter, plus `issuedAt` for the instant jose reads. The production flag is
`production`. Whether the store accepts a create is `createSucceeds`. Which
awaited step of the login handler throws is `fault`. A body that is not valid
JSON is `None`.

## Model

| member | source | states |
|---|---|---|
| Text.StartsWith | src/middleware.ts:13-15 | `startsWith`: the prefix test behind the three prefix rules and the navigation rule at crm.tsx:29. `DecisionTable`, `PublicByInfixIff` and `OtherActiveIff` state the rules it serves. |
| SessionGate.Truthy | src/middleware.ts:19-47 | The cookie tests `if (token)` at line 19 and `!token` at line 45: present and non-empty. `NoTokenProtectedGoesToLogin` states the empty-cookie case. |
| SessionGate.IsPublicRoute | src/middleware.ts:12-17 | `isPublicRoute`: one of the three prefixes, or an occurrence of `favicon` or `public` anywhere. `PublicByInfixIff` and `PublicationsPageIsPublic` specify the infix half. |
| SessionGate.Middleware | src/middleware.ts:8-57 | The outcome is one of next, redirect `/`, redirect `/login`. It redirects to `/` iff the token verifies and the path starts with `/login`. It redirects to `/login` iff there is no valid session and the path is not public. |
| SessionGate.DecisionTable | src/middleware.ts:19-56 | The two-verification branching is the table: valid session → `/` on login pages, next elsewhere; no valid session → next on public paths, `/login` otherwise. |
| SessionGate.ValidSessionOnLoginGoesHome | src/middleware.ts:19-27 | A verifying token on a path starting with `/login` is redirected to `/`. |
| SessionGate.ValidSessionElsewherePasses | src/middleware.ts:29-32 | A verifying token on any other path, public or protected, passes. |
| SessionGate.PublicWithoutSessionPasses | src/middleware.ts:40-43 | With no token, or one that fails, a public path passes. |
| SessionGate.NoTokenProtectedGoesToLogin | src/middleware.ts:45-47 | No cookie, or an empty one, on a non-public path redirects to `/login`. |
| SessionGate.FailingTokenProtectedGoesToLogin | src/middleware.ts:49-56 | A failing token on a non-public path redirects to `/login`, never an error: the second verification fails as the first did. |
| SessionGate.PublicNeverToLogin | src/middleware.ts:19-43 | A public path is never redirected to `/login`. |
| SessionGate.PublicationsPageIsPublic | src/middleware.ts:17 | `includes("public")` matches anywhere, so `/dashboard/publications` is public. |
| SessionGate.PublicByInfixIff | src/middleware.ts:12-17 | Apart from the three prefixes, a path is public iff `favicon` or `public` occurs at some index in it. |
| Text.ContainsIff | src/middleware.ts:16-17 | The `includes` scan succeeds iff the word occurs at some index. |
| Text.Contains | src/middleware.ts:16-17 | `includes`, specified by `ContainsIff`: true iff the word occurs at some index. |
| Json.Truthy | src/app/api/auth/login/route.ts:13 | JavaScript truthiness of a body field, behind the missing-fields guard. `MissingFieldsWritesNothing` states its use. |
| LoginRoute.FindByEmail | src/app/api/auth/login/route.ts:20-22 | `findUnique` by email: the index it returns holds that email, and when it returns none, no row does. |
| LoginRoute.IdIndex | src/app/api/auth/login/route.ts:45 | The row `where: { id: user.id }` addresses: a returned index holds that id, and none means no row does. `IdIndexOfUnique` ties it to the looked-up row. |
| LoginRoute.Check | src/app/api/auth/login/route.ts:11-38 | The guard chain answers 400, 401 or 500, or accepts a row whose email is the body's email and whose hash the body's password matches. |
| LoginRoute.CorrectCredentialsAccepted | src/app/api/auth/login/route.ts:11-41 | The converse of `Check`. With unique keys, a body whose email is row `i`'s and whose non-empty password that row's hash accepts is accepted as row `i`. With no throw, the handler answers 200 for that user. |
| LoginRoute.Effect | src/app/api/auth/login/route.ts:9-85 | The handler on values. The status is 200, 400, 401 or 500. The table keeps its length and every row its id and email. A non-200 answer leaves the cookies alone. A 200 answer adds exactly the `token` cookie. |
| LoginRoute.Login | src/app/api/auth/login/route.ts:8-85 | The handler, step by step on the user table and cookie jar. Its response and the new table and jar are exactly those of `Effect` on the old ones. |
| LoginRoute.Stamp | src/app/api/auth/login/route.ts:46-49 | The updated row, specified by `SuccessStampsOnlyThatUser`: `lastLoginAt = now`, `currentTokenExpiry = now + 86400000`, and every other column kept. |
| LoginRoute.UserTable.UpdateLogin | src/app/api/auth/login/route.ts:44-50 | Only the row with the given id changes, and only its `lastLoginAt` and `currentTokenExpiry`. Keys stay unique. |
| LoginRoute.CookieJar.Set | src/app/api/auth/login/route.ts:65-72 | The jar gains or replaces one cookie under the given name. Nothing else changes. |
| LoginRoute.IdIndexOfUnique | src/app/api/auth/login/route.ts:44-46 | With unique ids, the update `where: { id: user.id }` hits the row that was looked up. |
| LoginRoute.MissingFieldsWritesNothing | src/app/api/auth/login/route.ts:13-18 | A falsy email or password gives 400 "Missing required fields". Table and cookies are unchanged. |
| LoginRoute.BadCredentialsIndistinguishable | src/app/api/auth/login/route.ts:24-38 | An unknown email and a wrong password give the same 401 "Invalid credentials", and write nothing. |
| LoginRoute.RejectWritesNothing | src/app/api/auth/login/route.ts:13-38 | No guard failure changes the table or the cookies. Its status is 400, 401 or 500. |
| LoginRoute.Success | src/app/api/auth/login/route.ts:74-77 | The 200 body, specified by `SuccessIsAuthenticated`: the matched user's id and email and "Login successful". |
| LoginRoute.SuccessIsAuthenticated | src/app/api/auth/login/route.ts:74-77 | 200 iff the guards accept and no later step throws. The body is the id and email of the user whose credentials matched, plus the message. |
| LoginRoute.SuccessStampsOnlyThatUser | src/app/api/auth/login/route.ts:41-50 | After the update, only that user's row has changed, and only in its two login columns: `lastLoginAt = now`, `currentTokenExpiry = now + 86400000`. |
| LoginRoute.SuccessSetsSessionCookie | src/app/api/auth/login/route.ts:65-72 | The `token` cookie is httpOnly, sameSite strict and path `/`. It is secure iff production, expires at the stored expiry, and holds the HS256-signed token. Other cookies are untouched. |
| LoginRoute.TokenClaims | src/app/api/auth/login/route.ts:53-62 | The claims jose signs, specified by `ClaimsShape`. |
| LoginRoute.SessionCookie | src/app/api/auth/login/route.ts:65-72 | The cookie options, specified by `SuccessSetsSessionCookie`. |
| LoginRoute.ClaimsShape | src/app/api/auth/login/route.ts:53-62 | The claims carry the user id, email and login instant. `exp` is 86400 seconds after `iat`, and `iat` is the issue instant in whole seconds. |
| LoginRoute.LateThrowKeepsStamp | src/app/api/auth/login/route.ts:44-84 | A throw while signing or setting the cookie answers 500. The row stays stamped and no cookie is set. |
| LoginRoute.ThrowAnswersInternalError | src/app/api/auth/login/route.ts:10-84 | An unreadable or `null` body answers 500 and writes nothing. A throw in the lookup, the comparison or the update writes nothing, and answers 500 once the handler reaches that step; before it, the earlier guard's answer stands. |
| LoginRoute.EffectKeepsKeysUnique | src/app/api/auth/login/route.ts:44-50 | Ids and emails stay unique keys after the handler. |
| Json.RequiredText | src/app/api/leads/route.ts:6 | `z.string().min(1)` accepts exactly non-empty strings and yields that string. |
| Json.OptionalText | src/app/api/leads/route.ts:7 | `z.string().optional()` accepts absent or a string, so `null` is refused. Absent stays absent. |
| Json.OptionalNumber | src/app/api/leads/route.ts:11 | `z.number().optional()` accepts absent or a number. |
| Json.OptionalTextArray | src/app/api/leads/route.ts:13 | `z.array(z.string()).optional()` accepts absent or an all-string array, element for element. |
| LeadsRoute.StatusNamesRoundTrip | src/app/api/leads/route.ts:9 | The five status names and the enum correspond one to one. |
| LeadsRoute.StatusField | src/app/api/leads/route.ts:8-10 | Absent gives `NEW`. Otherwise it is accepted iff it is one of the five names, and yields that member. |
| LeadsRoute.ParseLead | src/app/api/leads/route.ts:5-14 | `leadSchema.safeParse`. A non-object is refused as such; any other failure names at least one field. Specified by `ParseIffConforms`, `CreateCarriesBody` and the field lemmas. |
| LeadsRoute.ParseIffConforms | src/app/api/leads/route.ts:5-14 | Validation succeeds iff the body is an object meeting every field rule. |
| LeadsRoute.TitleRequired | src/app/api/leads/route.ts:6 | A missing or empty title fails, reported against `title`. |
| LeadsRoute.StatusDefaultsAndConverted | src/app/api/leads/route.ts:8-10 | An absent status becomes `NEW`, and `CONVERTED` is accepted on create. |
| LeadsRoute.UnknownStatusRefused | src/app/api/leads/route.ts:8-10 | A status outside the enum fails, reported against `status`. |
| LeadsRoute.NullAssigneeRefused | src/app/api/leads/route.ts:12 | `assignedToId: null` fails, reported against `assignedToId`. |
| LeadsRoute.JoinRows | src/app/api/leads/route.ts:57-64 | The nested join-row create, specified by `JoinRowsPerId`. |
| LeadsRoute.JoinRowsPerId | src/app/api/leads/route.ts:57-64 | Join rows exist iff the id list is present and non-empty. There is one per id, in order. |
| LeadsRoute.ToCreate | src/app/api/leads/route.ts:52-65 | The create payload, `leadData` without `contactIds` plus the join rows. Specified by `CreateCarriesBody` and `JoinRowsPerId`. |
| LeadsRoute.CreateCarriesBody | src/app/api/leads/route.ts:52-65 | The create payload carries the body's `title`, `description`, `value` and `assignedToId` (absent stays absent), and its `status` (`NEW` when absent). For `contactIds` it has exactly one join row per listed id, in order. |
| LeadsRoute.CreateCall | src/app/api/leads/route.ts:52-70 | The payload handed to `prisma.lead.create`, or none when the handler never calls it. By `PostOutcome`, there is none for an invalid body, and it is `ToCreate` of the parse for a valid one. |
| LeadsRoute.PostLead | src/app/api/leads/route.ts:40-80 | The handler. It answers 201, 400 or 500. 201 iff the body is `Created`, and 400 iff it is `Invalid`. |
| LeadsRoute.PostOutcome | src/app/api/leads/route.ts:40-72 | Invalid gives 400 and no create. Valid creates the payload, and the answer is 201 iff the store accepts it. |
| ContactsRoute.OptionalOrEmpty | src/app/api/contacts/route.ts:7 | `.optional().or(z.literal(""))` accepts absent, `""`, or a string passing the check, and keeps the value as given. |
| ContactsRoute.ParseContact | src/app/api/contacts/route.ts:5-13 | `contactSchema.safeParse`. A non-object is refused as such; any other failure names at least one field. Specified by `ParseIffConforms` and `CreatedIsBody`. |
| ContactsRoute.ParseIffConforms | src/app/api/contacts/route.ts:5-13 | Validation succeeds iff the body is an object meeting every field rule. |
| ContactsRoute.NameRequired | src/app/api/contacts/route.ts:6 | A missing or empty name fails, reported against `name`. |
| ContactsRoute.EmailRule | src/app/api/contacts/route.ts:7 | `email` is valid iff absent, `""`, or an email address. `""` is kept as `""`. |
| ContactsRoute.ImageRule | src/app/api/contacts/route.ts:12 | `image` is valid iff absent, `""`, or a URL. |
| ContactsRoute.CreatedIsBody | src/app/api/contacts/route.ts:54-56 | The created row has exactly the body's seven schema fields. Absent fields stay absent. |
| ContactsRoute.CreateCall | src/app/api/contacts/route.ts:54-56 | The data handed to `prisma.contact.create`, or none when the handler never calls it. By `PostOutcome`, there is none for an invalid body, and it is exactly the parse for a valid one. |
| ContactsRoute.PostContact | src/app/api/contacts/route.ts:42-66 | The handler. It answers 201, 400 or 500. 201 iff the body is `Created`, and 400 iff it is `Invalid`. |
| ContactsRoute.PostOutcome | src/app/api/contacts/route.ts:42-58 | Invalid gives 400 and no create. Valid creates the parsed data, and the answer is 201 iff the store accepts it. |
| ClientsRoute.ParseClient | src/app/api/clients/route.ts:5-9 | `clientSchema.safeParse`. A non-object is refused as such; any other failure names at least one field. Specified by `ParseIffConforms` and `ErrorNamesFailingFields`. |
| ClientsRoute.ParseIffConforms | src/app/api/clients/route.ts:5-9 | Validation succeeds iff the body is an object with a non-empty string `name`, and `company` and `status` are absent or strings. |
| ClientsRoute.NameRequired | src/app/api/clients/route.ts:6 | A missing or empty name fails, reported against `name`. |
| ClientsRoute.ErrorNamesFailingFields | src/app/api/clients/route.ts:35-40 | The error names exactly the fields whose check fails. |
| ClientsRoute.CreatedIsBody | src/app/api/clients/route.ts:42-44 | The created row has exactly the body's `name`, `company` and `status`. Absent fields stay absent. |
| ClientsRoute.CreateCall | src/app/api/clients/route.ts:42-44 | The data handed to `prisma.client.create`, or none when the handler never calls it. By `PostOutcome`, there is none for an invalid body, and it is exactly the parse for a valid one. By `MalformedBodyIsServerError`, there is none for an unreadable body. |
| ClientsRoute.PostClient | src/app/api/clients/route.ts:30-54 | The handler. It answers 201, 400 or 500. 201 iff the body is `Created`, and 400 iff it is `Invalid`. |
| ClientsRoute.PostOutcome | src/app/api/clients/route.ts:30-46 | Invalid gives 400 and no create. Valid creates the parsed data, and the answer is 201 iff the store accepts it. |
| ClientsRoute.MalformedBodyIsServerError | src/app/api/clients/route.ts:47-53 | An unreadable body gives 500 "Failed to create client" and no create. |
| UserSlice.Reduce | src/utils/frontend/store/features/userSlice.ts:14-28 | The three reducers on values, specified by the lemmas below and by `Slice`'s methods. |
| UserSlice.StoredToken | src/utils/frontend/store/features/userSlice.ts:16 | A token is stored iff it is present and non-empty, and then unchanged. |
| UserSlice.Slice.constructor | src/utils/frontend/store/features/userSlice.ts:4-8 | The slice starts as `{userInfo: null, isAuthenticated: false, token: null}`. |
| UserSlice.Slice.Login | src/utils/frontend/store/features/userSlice.ts:14-18 | The fields become `Reduce` of the old state under `login`. |
| UserSlice.Slice.Logout | src/utils/frontend/store/features/userSlice.ts:19-23 | The fields become `Reduce` of the old state under `logout`. |
| UserSlice.Slice.UpdateUser | src/utils/frontend/store/features/userSlice.ts:24-28 | The fields become `Reduce` of the old state under `updateUser`. |
| UserSlice.LoginEffect | src/utils/frontend/store/features/userSlice.ts:14-18 | `login` stores the user and sets authenticated. The token is null when absent or empty, and the payload token otherwise. |
| UserSlice.LogoutResets | src/utils/frontend/store/features/userSlice.ts:19-23 | `logout` from any state gives the initial state, so it is idempotent. |
| UserSlice.LoginThenLogout | src/utils/frontend/store/features/userSlice.ts:14-23 | `login` followed by `logout` is the initial state. |
| UserSlice.Merge | src/utils/frontend/store/features/userSlice.ts:26 | `{ ...state.userInfo, ...action.payload }`, specified by `UpdateTouchesOnlyPatchedFields`: each field the patch has wins, and the others are kept. |
| UserSlice.UpdateWithoutUserIsNoop | src/utils/frontend/store/features/userSlice.ts:25 | `updateUser` with no user stored changes nothing. |
| UserSlice.UpdateTouchesOnlyPatchedFields | src/utils/frontend/store/features/userSlice.ts:24-28 | `updateUser` keeps the token and the flag. It overrides each user field the patch has and keeps the others. |
| UserSlice.ReducePreservesConsistent | src/utils/frontend/store/features/userSlice.ts:14-28 | Every reducer keeps "authenticated iff a user is stored, and a token only in an authenticated session and never empty". |
| UserSlice.RunPreservesConsistent | src/utils/frontend/store/features/userSlice.ts:14-28 | Any sequence of actions keeps that consistency. |
| UserSlice.ReachableIsConsistent | src/utils/frontend/store/features/userSlice.ts:4-28 | Every state reachable from the initial one is consistent. |
| UserSlice.RunEndingInLogout | src/utils/frontend/store/features/userSlice.ts:19-23 | Any run of actions ending in `logout` ends in the initial state. |
| FormatTime.Format | src/utils/frontend/format-time.ts:1-13 | `formatTime`, specified by `ClockRoundTrip`, `Shape`, `NonPositiveIsZero` and `FieldValue`. |
| FormatTime.Hours | src/utils/frontend/format-time.ts:4 | Whole hours of `ms`, specified with the next two by `Decomposition`. |
| FormatTime.Minutes | src/utils/frontend/format-time.ts:5 | Minutes within the hour, below 60 by `Decomposition`. |
| FormatTime.Seconds | src/utils/frontend/format-time.ts:6 | Seconds within the minute, below 60 by `Decomposition`. |
| FormatTime.Decomposition | src/utils/frontend/format-time.ts:4-6 | Minutes and seconds are in [0, 59], and `hours*3600 + minutes*60 + seconds == ms / 1000`. |
| FormatTime.NatToString | src/utils/frontend/format-time.ts:9 | `toString` of a non-negative integer: at least one character, all decimal digits. `NatToStringValue` and `NatToStringLength` give its value and length. |
| FormatTime.NatToStringValue | src/utils/frontend/format-time.ts:9 | `toString` of a non-negative integer reads back as that integer. |
| FormatTime.NatToStringLength | src/utils/frontend/format-time.ts:9 | `toString` gives one digit iff the value is below ten. |
| FormatTime.Pad2 | src/utils/frontend/format-time.ts:9 | `padStart(2, "0")`, specified by `PadValue`. |
| FormatTime.PadValue | src/utils/frontend/format-time.ts:9 | `padStart(2, "0")` keeps the value and gives at least two characters. It never shortens a longer string, and puts one `0` before a single digit. |
| FormatTime.Field | src/utils/frontend/format-time.ts:12 | One rendered field, `n.toString().padStart(2, "0")`, specified by `FieldValue`. |
| FormatTime.FieldValue | src/utils/frontend/format-time.ts:9 | Each field is at least two digits and denotes its value. Values below 10 get a leading `0`; larger ones print in full, so hours ≥ 100 are not truncated. |
| FormatTime.NonPositiveIsZero | src/utils/frontend/format-time.ts:2 | `ms <= 0` gives `"00:00"`. |
| FormatTime.SubSecondIsZero | src/utils/frontend/format-time.ts:2-12 | `0 < ms < 1000` also gives `"00:00"`. |
| FormatTime.Shape | src/utils/frontend/format-time.ts:8-12 | From one hour on: three colon-separated fields (hours, minutes, seconds). Below an hour: two fields (minutes, seconds). |
| FormatTime.ClockOfThree | src/utils/frontend/format-time.ts:9 | The three-field form reads back as `3600h + 60m + s`. |
| FormatTime.ClockOfTwo | src/utils/frontend/format-time.ts:12 | The two-field form reads back as `60m + s`. |
| FormatTime.ClockRoundTrip | src/utils/frontend/format-time.ts:1-13 | Reading the rendered clock back gives the whole seconds of the duration (0 when non-positive). |
| Text.Split | src/components/common/dynamic-breadcrumb.tsx:16 | `split`: at least one piece, and no piece contains the separator. |
| Text.Join | src/components/common/dynamic-breadcrumb.tsx:26 | `join`, the inverse of `Split` by `JoinSplit` and `SplitJoin`. |
| Text.JoinSplit | src/components/common/dynamic-breadcrumb.tsx:16 | `join` undoes `split` on the same separator. |
| Text.SplitJoin | src/components/common/dynamic-breadcrumb.tsx:16 | Splitting separator-free pieces joined by the separator gives the pieces. |
| Breadcrumb.RemoveEmpty | src/components/common/dynamic-breadcrumb.tsx:16 | The kept pieces are non-empty and come from the input, and there are no more of them than input pieces. |
| Breadcrumb.RemoveEmptyKeepsEveryPiece | src/components/common/dynamic-breadcrumb.tsx:16 | Every non-empty input piece is in the result. |
| Breadcrumb.RemoveEmptyOne | src/components/common/dynamic-breadcrumb.tsx:16 | The filter drops `""` and keeps any other single piece. |
| Breadcrumb.RemoveEmptyAppend | src/components/common/dynamic-breadcrumb.tsx:16 | The filter distributes over concatenation. With `RemoveEmptyOne` this pins down the result: every non-empty piece, in order. |
| Breadcrumb.Segments | src/components/common/dynamic-breadcrumb.tsx:16 | `paths`, specified by `SegmentsWellFormed`, `SegmentsOfCanonical` and `SegmentsSkipEmptyPieces`. |
| Breadcrumb.SegmentsSkipEmptyPieces | src/components/common/dynamic-breadcrumb.tsx:16 | One input: `Segments("/a//b/") == ["a", "b"]`. The general fact is `RemoveEmptyAppend` with `RemoveEmptyOne`. |
| Breadcrumb.RootAgreesWithRule | src/components/common/dynamic-breadcrumb.tsx:16 | The special case `"/"` → [] agrees with split-and-filter. |
| Breadcrumb.SegmentsWellFormed | src/components/common/dynamic-breadcrumb.tsx:16 | No segment is empty or contains `/`. |
| Breadcrumb.SegmentsOfCanonical | src/components/common/dynamic-breadcrumb.tsx:16 | `"/" + join(segs, "/")` of non-empty slash-free segments gives back exactly `segs`. |
| Breadcrumb.Crumbs | src/components/common/dynamic-breadcrumb.tsx:25-28 | One entry per segment. `HrefChain`, `LastHref` and `OnlyFinalIsLast` give each entry's href and mark. |
| Breadcrumb.Href | src/components/common/dynamic-breadcrumb.tsx:26 | The cumulative href, specified by `HrefChain` and `LastHref`. |
| Breadcrumb.HrefChain | src/components/common/dynamic-breadcrumb.tsx:26 | Each href is the previous one plus `/` and the next segment, and so a prefix of the next. |
| Breadcrumb.LastHref | src/components/common/dynamic-breadcrumb.tsx:26 | The last href is `"/" + join(all, "/")`. |
| Breadcrumb.OnlyFinalIsLast | src/components/common/dynamic-breadcrumb.tsx:27 | Exactly the final entry is marked last. |
| Breadcrumb.Title | src/components/common/dynamic-breadcrumb.tsx:28 | The capitalised title, specified by `TitleShape`. |
| Text.UpperChar | src/components/common/dynamic-breadcrumb.tsx:28 | `toUpperCase` on an ASCII lower-case letter gives its capital. Every other character is left unchanged by this model. |
| Breadcrumb.TitleShape | src/components/common/dynamic-breadcrumb.tsx:28 | A title has its segment's length, its first character upper-cased, and the rest unchanged. |
| Breadcrumb.ItemOf | src/components/common/dynamic-breadcrumb.tsx:30-40 | One entry: the current page when last, otherwise a link followed by a separator. `ItemsSeparators` counts its separators. |
| Breadcrumb.Items | src/components/common/dynamic-breadcrumb.tsx:25-42 | The entries in order, specified by `ItemsSeparators`. |
| Breadcrumb.ItemsSeparators | src/components/common/dynamic-breadcrumb.tsx:39 | The items contribute one separator per non-last entry. |
| Breadcrumb.Render | src/components/common/dynamic-breadcrumb.tsx:18-45 | The rendered list, specified by `SeparatorsMatchSegments`. |
| Breadcrumb.SeparatorsMatchSegments | src/components/common/dynamic-breadcrumb.tsx:24-39 | The rendered list has as many separators as segments. |
| CrmNavigation.IsActive | src/components/common/navigation/crm.tsx:26-29 | `isActive`, specified by `HomeActiveIff` and `OtherActiveIff`. |
| CrmNavigation.ButtonFor | src/components/common/navigation/crm.tsx:38 | The variant is `secondary` iff the entry is active (else `ghost`). The button keeps the entry's title and href. |
| CrmNavigation.Buttons | src/components/common/navigation/crm.tsx:25-45 | One button per entry of `CRMNavigationItems`, in order. |
| CrmNavigation.HomeActiveIff | src/components/common/navigation/crm.tsx:26-28 | The `/dashboard/crm` entry is active iff the pathname equals it. |
| CrmNavigation.OtherActiveIff | src/components/common/navigation/crm.tsx:29 | Any other entry is active iff the pathname starts with its href. |
| CrmNavigation.AtMostOneActive | src/utils/frontend/constant/crmNavigation.ts:1-14 | With these three entries, at most one is active for any pathname. |
| CrmNavigation.AtMostOneHighlighted | src/components/common/navigation/crm.tsx:25-38 | At most one rendered button has the `secondary` variant. |

## Left out

- Lead→Client conversion (`src/app/api/leads/[id]/convert/route.ts`) is outside the scope of this model. Nothing of it is modelled:
  - the 404 "Lead not found" guard (lines 17-19);
  - the 400 "Lead is already converted" guard (lines 21-26);
  - the status update to `CONVERTED`;
  - the client payload (`name: lead.title`, `status: "Active"`, `leadId: id`);
  - the copy of one client-contact row per lead-contact row;
  - the atomicity of the transaction in lines 29-57.
- Out of scope: the GET handlers, the `[id]` routes (get, update, delete), the employees route, and all React pages, dialogs, cards and column definitions. They are not part of the modelled core.
- The ORM is abstract. `findUnique` is a search of a sequence of rows with unique ids and emails. A create is modelled as the data handed to the store plus a `createSucceeds` flag. The record the store returns (generated id, timestamps, included relations) is not modelled, and neither is `findMany` ordering.
- Several crypto and formatting calls are oracles: bcrypt, jose signing and verification (HMAC-SHA-256), and `toISOString`. The `lastLogin` claim carries the login instant rather than its ISO string, and verification is one deterministic predicate per request.
- LoginRoute.TokenClaims: jose reads the clock separately for `setIssuedAt` and for `setExpirationTime`. The model uses one instant, `issuedAt`, for both, so `exp - iat` is exactly 86400.
- LoginRoute.Check: a truthy non-string email is taken to make the lookup throw (500), and a truthy non-string password to make `bcrypt.compare` throw. Both are behaviours of those libraries.
- The middleware `config.matcher` is framework-interpreted, so the model treats the gate as running on every path. Redirect URLs are the paths `/` and `/login`, not absolute URLs.
- Floating point: JSON numbers (the lead `value`) are integers, and `formatTime` takes an integer number of milliseconds. Fractional milliseconds and float `%` are not modelled.
- Breadcrumb.Title: upper-cases ASCII letters only. JavaScript's `toUpperCase` also maps other letters, and can lengthen some (`ß` becomes `SS`). `TitleShape` therefore holds for this model, and for ASCII input in the source.
- Text.UpperChar: maps only the ASCII letters `a`-`z` and leaves every other character unchanged. JavaScript's `toUpperCase` also maps non-ASCII letters (`é` becomes `É`) and can turn one character into two (`ß` becomes `SS`), so this member is the source of the gap `Breadcrumb.Title` inherits.
- UserSlice.Slice.UpdateUser: a patch whose key is present with the value `undefined` overwrites that field in JavaScript. The model's patch fields are only present or absent.
- Validation errors keep only the names of the failing fields, or the fact that the body was not an object. zod's messages and `formErrors` text are not modelled.
- Logging (`console.error`), `NextResponse`, `cookies()` plumbing, `SessionTimer`'s interval, `SiteHeader`'s token read, the theme hook, the persisted store setup, the API client and `authActions` are outside the model.
