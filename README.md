# Recurring jobs and request guards of a NestJS/Keycloak backend

This project models, in Dafny, the two parts of the backend that carry logic of their own.

**The recurring-job subsystem** (`libs/jobs`). A job row holds a cron expression, a status
(PENDING, RUNNING, COMPLETED, ERROR), the time of its last and next run, a JSON payload and an
error message. `JobsService` creates jobs, changes their status, and lists the due ones: a
next run not after now and a status of PENDING or ERROR. Once a minute `SchedulerService`
marks each due job RUNNING and enqueues `{ jobId, data }` under the job's id. A failure there
is recorded as ERROR. The queue worker marks a processed job COMPLETED. If the job logic
throws, the worker marks the job ERROR and throws again. A status of COMPLETED or ERROR stamps
`lastRun` and reschedules `nextRun` from the cron expression.

- `JobsService` is a class over an in-memory table (`map<JobId, Job>`).
- `SchedulerService` is a class that owns the queue.
- `JobWorker.Process` is the worker's callback.
- Each method is proved against a function: `Created`, `Updated`/`SetStatus`, `DueListing`,
  `PollOne`/`PollRun` and `Processed`.
- `Lifecycle` puts the three together as a state machine. It proves the invariant that every
  queued item is for a stored RUNNING job and that no job is queued twice. It also proves that,
  under the modelled events (creation, a poll, a worker run), no status change leads out of
  COMPLETED, so a completed job is never dispatched again.

**The request guards and decorators** (`src/guards`, `src/auth`, `src/decorators`,
`libs/auth`).

- The attribute-based guard with its `AccessPolicy` decorator.
- The permission scheme (`action:resource` strings), its decorator and its guard.
- The realm-role guard.
- The bearer-token guard with `AuthService.validateToken`.
- The two session guards. One of them redirects to the login page with the requested URL
  passed through `encodeURIComponent`.

Each guard's `canActivate` is a `Decision`: return `true` (`Allow`), return `false`
(`Refuse`), or throw an HTTP exception (`Deny`). Handler metadata is a map that decorators
write and guards read. Token decoding and the cron library are parameters, not code.

Parts of the JavaScript runtime that the guards depend on are written out:

- the white-space set of `\s` and `String.prototype.trim`;
- the case-insensitive pattern `/^(Bearer|Token)\s+/i`;
- `encodeURIComponent` as in section 19.2.6.5 of ECMA-262. It is proved invertible by a
  percent-decoder.

## Model

| member | source | states |
|---|---|---|
| JobEntity.Materialize | libs/jobs/src/entities/job.entity.ts:26-27 | a row built without a status gets PENDING; id, cron, nextRun and data are as given; jobType, lastRun and error are null |
| Jobs.Created | libs/jobs/src/jobs.service.ts:20-31 | creation fails with the parser's error exactly when the expression does not parse; otherwise the row is PENDING with nextRun the first occurrence after now, no lastRun and no error |
| Jobs.Updated | libs/jobs/src/jobs.service.ts:42-51 | the status is always replaced; the error is replaced only by a non-empty message; COMPLETED/ERROR stamp lastRun = now and set nextRun to the next occurrence; the update fails exactly when it settles a job whose expression does not parse |
| Jobs.SetStatus | libs/jobs/src/jobs.service.ts:37-53 | an unknown id fails with "Job not found"; otherwise only that row changes, as `Updated` says, and the key set is kept |
| Jobs.SettledWaitsForNextRun | libs/jobs/src/jobs.service.ts:46-51 | a job just set to COMPLETED or ERROR is not due at the time it settled; an ERROR job becomes due exactly when its new nextRun comes; a COMPLETED job never does |
| Jobs.CreatedRowIsNotStorable | libs/jobs/src/entities/job.entity.ts:13-18 | the row `createJob` builds has no `jobType`, so the NOT NULL column refuses it; with a `jobType` it is storable exactly when `jobType` fits 100 characters and the expression fits 255 |
| Jobs.CreatedBecomesDue | libs/jobs/src/jobs.service.ts:20-31 | a new job is not due at creation and is due exactly from its first occurrence on |
| Jobs.DueListingAdmitsOnlyPendingOrError | libs/jobs/src/jobs.service.ts:58-65 | every listed due job is PENDING or ERROR and has a nextRun not after now |
| Jobs.DueListingsAgree | libs/jobs/src/jobs.service.ts:58-65 | two answers of the due-job query on the same table have the same length and the same jobs, differing only in order |
| Jobs.DistinctCardinality | libs/jobs/src/jobs.service.ts:58-65 | a listing without repeated ids has as many ids as entries |
| Jobs.JobsService.CreateJob | libs/jobs/src/jobs.service.ts:20-31 | the result is `Created` for a key no row has; on success exactly that row is added; on failure the table is unchanged |
| Jobs.JobsService.UpdateJobStatus | libs/jobs/src/jobs.service.ts:37-53 | the new table and the result are those of `SetStatus`; on failure the table is unchanged |
| Jobs.JobsService.GetDueJobs | libs/jobs/src/jobs.service.ts:58-65 | returns each stored due row exactly once, as stored, in some order, and changes nothing |
| Scheduler.ItemFor | libs/jobs/src/scheduler.service.ts:35 | the queue item for a job is named by its id and carries `{ jobId, data }` |
| Scheduler.PollOne | libs/jobs/src/scheduler.service.ts:30-40 | one iteration of the poll loop changes only that job's row. An accepted job is RUNNING and its item is appended. A rejected job is ERROR with the broker's message. The iteration throws exactly when the catch's ERROR update fails on an unparsable expression |
| Scheduler.PollRunStopsAtFailure | libs/jobs/src/scheduler.service.ts:30-41 | once an error escapes the loop, later due jobs are not looked at |
| Scheduler.PollRunFrame | libs/jobs/src/scheduler.service.ts:26-42 | a poll changes only rows of due jobs, keeps the key set, only appends to the queue, and appends only items named after due jobs |
| Scheduler.PollRunEnqueuesAccepted | libs/jobs/src/scheduler.service.ts:30-35 | a poll that does not throw appends exactly the items of the due jobs the broker accepts, in listing order |
| Scheduler.PollRunMarksEveryDueJob | libs/jobs/src/scheduler.service.ts:30-40 | after a poll that does not throw, every due job is RUNNING or, if the broker rejected it, ERROR with the broker's message; one job's failure does not stop the others |
| Scheduler.PollRunFailsOnlyOnUnparsableCron | libs/jobs/src/scheduler.service.ts:37-40 | a poll throws only after a broker-rejected due job whose expression does not parse; that job is left RUNNING |
| Scheduler.SchedulerService.PollOneJob | libs/jobs/src/scheduler.service.ts:31-40 | the table, queue and outcome after one iteration are those of `PollOne` |
| Scheduler.SchedulerService.PollJobs | libs/jobs/src/scheduler.service.ts:26-42 | walks a due-job listing of the table it started from, and the table, queue and outcome it leaves are those of `PollRun` over it |
| Worker.Processed | libs/jobs/src/job.worker.ts:18-35 | processing changes only the item's row. It returns normally exactly when the logic succeeds and the job exists with a parsable expression, and the job is then COMPLETED. An unknown job throws "Job not found" |
| Worker.ProcessedSettles | libs/jobs/src/job.worker.ts:22-34 | for a stored parsable job the row always settles: COMPLETED on success, ERROR with the logic's message otherwise (that message is thrown again); lastRun = now and nextRun is later |
| Worker.JobWorker.Process | libs/jobs/src/job.worker.ts:18-35 | the table and outcome after the callback are those of `Processed` |
| Lifecycle.PollOneKeepsInv | libs/jobs/src/scheduler.service.ts:30-40 | one poll iteration on a PENDING or ERROR job keeps the table well keyed and the queue consistent, and moves the job along an allowed transition |
| Lifecycle.PollRunKeepsInv | libs/jobs/src/scheduler.service.ts:26-42 | a whole poll keeps the invariant and the key set, and moves every job along an allowed transition |
| Lifecycle.WorkKeepsInv | libs/jobs/src/job.worker.ts:18-35 | processing a queued item keeps the invariant, changes only that job's row and removes only that item |
| Lifecycle.StepKeepsInv | libs/jobs/src/jobs.service.ts:20-65 | any creation, poll or worker run keeps the invariant and drops no job. The only status changes are PENDING/ERROR to RUNNING/ERROR and RUNNING to COMPLETED/ERROR |
| Lifecycle.RunKeepsInv | libs/jobs/src/scheduler.service.ts:26-42 | every state reachable by a sequence of events satisfies the invariant |
| Lifecycle.CompletedIsFinal | libs/jobs/src/jobs.service.ts:62-63 | no single event changes a COMPLETED job's row or queues it |
| Lifecycle.CompletedIsNeverDispatchedAgain | libs/jobs/src/jobs.service.ts:62-63 | after a job is COMPLETED, no sequence of events changes its row or puts it on the queue again |
| Lifecycle.InitSatisfiesInv | libs/jobs/src/jobs.service.ts:8-13 | the empty table and queue satisfy the invariant |
| Metadata.Apply | src/decorators/abac.decorator.ts:15-16 | a `SetMetadata` decorator writes its value under its key and leaves every other key as it was |
| Metadata.Handler.Decorate | src/decorators/abac.decorator.ts:47 | applying a decorator to a handler replaces its metadata by `Apply` of it |
| AbacDecorator.KeysDistinct | src/decorators/abac.decorator.ts:6-8 | the three metadata keys are different, so no decorator overwrites another's entry |
| AbacDecorator.Resource | src/decorators/abac.decorator.ts:15-16 | `Resource(r)` stores the text r under `abac_resource` |
| AbacDecorator.Action | src/decorators/abac.decorator.ts:23 | `Action(a)` stores the text a under `abac_action` |
| AbacDecorator.Attributes | src/decorators/abac.decorator.ts:30-31 | `Attributes(l)` stores the list l under `abac_attributes` |
| AbacDecorator.WithPolicy | src/decorators/abac.decorator.ts:44-56 | resource and action are written only when they are non-empty strings, the attribute list whenever present (even empty); every other entry is kept; an empty policy changes nothing |
| AbacDecorator.AccessPolicy | src/decorators/abac.decorator.ts:44-56 | decorating a handler with `AccessPolicy(policy)` leaves it with `WithPolicy` of its old metadata |
| AbacGuard.FirstMissing | src/guards/abac.guard.ts:68-72 | finds the first required attribute the token does not hold. None means every attribute is held; Some(k) means all before k are held and k is not |
| AbacGuard.CanActivate | src/guards/abac.guard.ts:19-78 | never returns false, and every denial is Forbidden. It allows exactly when a token is present, lists the handler's resource and action (when named), and holds each required attribute |
| AbacGuard.DenialNamesFirstFailure | src/guards/abac.guard.ts:24-73 | the checks run in the order token, resource, action, attributes, and the exception names the first failing one with the source's message |
| AbacGuard.NoPolicyAllowsAnyToken | src/guards/abac.guard.ts:47-73 | a handler without resource, action or attributes admits exactly the requests with an access token |
| AbacGuard.MoreGrantsStillAllowed | src/guards/abac.guard.ts:47-73 | a token that grants at least the resources, actions and attributes of an allowed one is allowed too |
| AbacGuard.AccessPolicyEnforced | src/decorators/abac.decorator.ts:44-56 | on a handler decorated only with `AccessPolicy(policy)` the guard allows exactly the tokens that list the policy's resource and action and hold each of its attributes |
| PermissionsEnum.ResourceValue | src/auth/enums/permissions.enum.ts:1-3 | every resource value is non-empty and has no colon |
| PermissionsEnum.ActionValue | src/auth/enums/permissions.enum.ts:5-10 | every action value is non-empty and has no colon |
| PermissionsEnum.ParseInvertsValue | src/auth/enums/permissions.enum.ts:1-10 | a string parses to a member exactly when it is that member's value |
| PermissionsEnum.EveryActionAllowedOnce | src/auth/enums/permissions.enum.ts:13-15 | `reports` admits each of the four actions, each listed once |
| PermissionsEnum.ValuesInjective | src/auth/enums/permissions.enum.ts:1-10 | different members have different values |
| PermissionsDecorator.CreatePermission | src/auth/decorators/permissions.decorator.ts:13-18 | the permission string is the action's value, a colon, then the resource's value; only allowed pairs are accepted |
| PermissionsDecorator.ColonAt | src/auth/decorators/permissions.decorator.ts:16 | finds the first colon, or reports that there is none |
| PermissionsDecorator.ParseCreated | src/auth/decorators/permissions.decorator.ts:13-18 | a permission string parses back to the pair it was built from |
| PermissionsDecorator.CreatedParsed | src/auth/decorators/permissions.decorator.ts:13-18 | every string that parses to a pair is that pair's permission string, and the pair is allowed |
| PermissionsDecorator.PermissionStrings | src/auth/decorators/permissions.decorator.ts:22-24 | one permission string per pair, in order, each parsing to its pair |
| PermissionsDecorator.Permissions | src/auth/decorators/permissions.decorator.ts:21-26 | stores under `permissions` one string per pair, in order, each naming its pair |
| PermissionsGuard.CanActivate | libs/auth/src/guards/permissions.guard.ts:8-29 | never returns false. No permissions metadata allows. A user without a client entry is denied "User permissions not found". Otherwise the guard allows exactly when the client roles include every required permission, else "Insufficient permissions" |
| PermissionsGuard.EmptyRequirementAdmitsClientUsers | libs/auth/src/guards/permissions.guard.ts:17-22 | an empty permission list admits exactly the users with an entry for the client |
| PermissionsGuard.FewerRequirementsStillAllowed | libs/auth/src/guards/permissions.guard.ts:21-28 | requiring a subset of permissions never turns an allow into a denial |
| PermissionsGuard.MoreRolesStillAllowed | libs/auth/src/guards/permissions.guard.ts:17-28 | a user with at least the client roles of an allowed user is allowed too |
| PermissionsGuard.PermissionsEnforced | src/auth/decorators/permissions.decorator.ts:21-26 | on a handler decorated with `Permissions(...pairs)` the guard admits exactly the users whose client roles include the permission string of every pair |
| RolesGuard.CanActivate | src/auth/guards/roles.guard.ts:8-29 | never returns false. No roles metadata allows. A user without realm roles is denied "User roles not found". Otherwise the guard allows exactly when one required role is held, else "Insufficient role permissions" |
| RolesGuard.EmptyRoleListAdmitsNobody | src/auth/guards/roles.guard.ts:21-26 | an empty role list on a handler denies every request |
| RolesGuard.MoreUserRolesStillAllowed | src/auth/guards/roles.guard.ts:17-26 | a user with at least the realm roles of an allowed user is allowed too |
| RolesGuard.MoreRolesStillAllowed | src/auth/guards/roles.guard.ts:21-26 | accepting more roles never turns an allow into a denial |
| JsString.LeadingWhitespace | libs/auth/src/guards/auth.guard.ts:22 | counts the longest white-space prefix |
| JsString.LeadingWhitespaceIsLongest | libs/auth/src/guards/auth.guard.ts:22 | no white-space prefix is longer than the one counted |
| JsString.TrailingWhitespace | libs/auth/src/guards/auth.guard.ts:22 | counts the longest white-space suffix |
| JsString.Trim | libs/auth/src/guards/auth.guard.ts:22 | the trimmed string is the part between the leading and trailing white space and neither starts nor ends with white space |
| JsString.TrimIdempotent | libs/auth/src/guards/auth.guard.ts:22 | trimming twice is trimming once |
| JsString.TrimFixesUnpadded | libs/auth/src/guards/auth.guard.ts:22 | a string without white space at its ends is its own trim |
| JsString.LowerAscii | libs/auth/src/auth.service.ts:84 | the `i` flag folds ASCII capitals to lower case and leaves every other character alone |
| AuthService.SchemeShape | libs/auth/src/auth.service.ts:84 | a scheme word is "Bearer" (six letters) or "Token" (five letters) in any case, and its first letter tells which |
| AuthService.SchemeLength | libs/auth/src/auth.service.ts:84 | the length of the scheme word a string starts with, the only length that is one |
| AuthService.MatchBound | libs/auth/src/auth.service.ts:84 | every match of the pattern ends within the scheme word and the white space after it |
| AuthService.MatchLength | libs/auth/src/auth.service.ts:84 | the pattern's match is the longest prefix it can match (greedy `\s+`), and 0 when it matches none |
| AuthService.StripScheme | libs/auth/src/auth.service.ts:84 | removes a suffix-preserving prefix. An unmatched token is unchanged, and a changed token lost the longest matched prefix |
| AuthService.StripSchemeRemovesOnePrefix | libs/auth/src/auth.service.ts:84 | a scheme word plus white space in front of a token is removed, and nothing of the token is |
| AuthService.ValidateToken | libs/auth/src/auth.service.ts:82-116 | decodes the stripped token; succeeds with the decoded claims exactly when they have a non-empty subject; every failure is "Invalid access token" (Unauthorized) |
| AuthService.ValidatedClaimsHaveSubject | libs/auth/src/auth.service.ts:103-107 | validated claims always carry a subject |
| AuthService.ValidateTokenRejectsAsImported | libs/auth/src/auth.service.ts:100 | with `arctic` bound as `auth.service.ts:2` binds it, every token is rejected with "Invalid access token" |
| AuthService.PrefixedTokenValidatesBare | libs/auth/src/auth.service.ts:84-107 | validating `Bearer <token>` gives the result of decoding the bare token |
| AuthGuard.PrefixUsed | libs/auth/src/guards/auth.guard.ts:16-21 | the first of "Bearer " and "Token " that the header starts with, case-sensitively |
| AuthGuard.ExtractToken | libs/auth/src/guards/auth.guard.ts:16-22 | a missing or unprefixed header is refused with "Missing or invalid Authorization header"; otherwise the token is the trimmed text after the prefix |
| AuthGuard.ExtractPrefixed | libs/auth/src/guards/auth.guard.ts:16-22 | extracting from an accepted prefix followed by a token gives the trimmed token |
| AuthGuard.ExtractedTokenIsTrimmed | libs/auth/src/guards/auth.guard.ts:22 | an extracted token neither starts nor ends with white space |
| AuthGuard.Authenticate | libs/auth/src/guards/auth.guard.ts:16-34 | the user is the validated claims with `access_token` set to the extracted token. Header failures keep their message, and validation failures become "Invalid or expired token" |
| AuthGuard.AuthenticatedUserHasSubject | libs/auth/src/guards/auth.guard.ts:24-30 | an authenticated user carries a subject and an access token |
| AuthGuard.AuthenticateRejectsAsImported | libs/auth/src/guards/auth.guard.ts:16-34 | with `arctic` bound as `auth.service.ts:2` binds it, every request fails to authenticate; a request whose header passes the prefix check fails with "Invalid or expired token" |
| AuthGuard.AuthenticatePrefixed | libs/auth/src/guards/auth.guard.ts:16-34 | a prefixed header authenticates with the claims of the trimmed token and stores that token |
| AuthGuard.SchemeTokenIsTrimmed | libs/auth/src/guards/auth.guard.ts:22 | a token starting with a scheme word and ending without white space is unchanged by trimming |
| AuthGuard.SchemeIsStrippedTwice | libs/auth/src/guards/auth.guard.ts:22-29 | `Bearer Token abc` authenticates with the claims of `abc` while the user keeps `Token abc` as access token |
| AuthGuard.CanActivate | libs/auth/src/guards/auth.guard.ts:8-35 | never returns false. It allows exactly when `Authenticate` succeeds and then sets `request.user`. Otherwise it throws `Authenticate`'s Unauthorized error. It changes no other request field |
| AuthenticatedGuard.CanActivate | src/guards/authenticated.guard.ts:10-16 | allows exactly when the request has a Keycloak grant; otherwise throws Unauthorized "User is not authenticated."; never returns false |
| Uri.HexDigit | src/guards/redirect-unauthenticated.guard.ts:25 | a digit below 16 is written as an upper-case hexadecimal character |
| Uri.HexValue | src/guards/redirect-unauthenticated.guard.ts:25 | reads back the digit that `HexDigit` wrote |
| Uri.PercentByte | src/guards/redirect-unauthenticated.guard.ts:25 | a byte is written as `%` and two upper-case hexadecimal digits |
| Uri.ReadEscape | src/guards/redirect-unauthenticated.guard.ts:25 | an escape at a position reads back as its byte |
| Uri.Utf8 | src/guards/redirect-unauthenticated.guard.ts:25 | the UTF-8 encoding of a character takes 1 to 4 bytes, one exactly for ASCII |
| Uri.PercentEncodeAlphabet | src/guards/redirect-unauthenticated.guard.ts:25 | percent-encoded bytes use only `%` and upper-case hexadecimal digits |
| Uri.EncodeChar | src/guards/redirect-unauthenticated.guard.ts:25 | an unreserved character is kept; any other becomes 3 to 12 characters of percent escapes |
| Uri.EncodeUriComponent | src/guards/redirect-unauthenticated.guard.ts:25 | the output uses only unreserved characters, `%` and hexadecimal digits, and is no shorter than the input |
| Uri.PercentEncodeEscapes | src/guards/redirect-unauthenticated.guard.ts:25 | percent-encoded bytes read back as those bytes |
| Uri.ContinueEncoded | src/guards/redirect-unauthenticated.guard.ts:25 | encoded UTF-8 continuation bytes are read back into the code point they spell |
| Uri.DecodeEscapedSequence | src/guards/redirect-unauthenticated.guard.ts:25 | the escapes of a lead byte and its continuation bytes decode to the code point they spell, when it is a shortest-form scalar value |
| Uri.DecodeEncodedChar | src/guards/redirect-unauthenticated.guard.ts:25 | decoding the encoding of one character gives that character and its length |
| Uri.DecodeEncoded | src/guards/redirect-unauthenticated.guard.ts:25 | decoding the output of `encodeURIComponent` gives back the input |
| RedirectGuard.ReturnUrl | src/guards/redirect-unauthenticated.guard.ts:23 | the requested URL, or "/" when it is missing or empty |
| RedirectGuard.LoginRedirect | src/guards/redirect-unauthenticated.guard.ts:24-26 | the redirect is `/auth/login?redirect=` followed by a percent-encoded component: after the prefix it holds only unreserved characters, `%` and upper-case hexadecimal digits (so no raw `&`, `#`, `=` or space), and it decodes back to the requested URL |
| RedirectGuard.MissingUrlRedirectsToRoot | src/guards/redirect-unauthenticated.guard.ts:23-26 | a request without a URL is sent to `/auth/login?redirect=%2F` |
| RedirectGuard.CanActivate | src/guards/redirect-unauthenticated.guard.ts:10-28 | with a grant it allows and redirects nothing; without one it returns false after exactly one redirect to the login URL |

## Left out

- The cron-parser library is not part of this model. `Cron.CronParser` stands for it: which expressions parse, the next occurrence after a given time, and the error message. That the next occurrence is strictly later is the hypothesis `NextIsLater`, assumed only by the lemmas that need it.
- TypeORM and the SQL database are not modelled. The table is a map, and the generated uuid key is a counter that is past every key in use. `createdAt` and `updatedAt` are kept by the database and are not modelled.
- Column lengths (`jobType` 100, `cron` 255) are not checked by the table. They are stated by `JobEntity.FitsColumns`, which `JobEntity.Storable` and `Jobs.CreatedRowIsNotStorable` apply to the row that creation builds.
- Jobs.Created: `createJob` never sets `jobType`, and the column is declared without `nullable` and without a default, so both PostgreSQL and SQLite refuse the insert at `jobs.service.ts:31` (`Jobs.CreatedRowIsNotStorable`). `Created`, `Jobs.CreatedBecomesDue` and `JobsService.CreateJob` model the row that creation evidently intends, with `jobType` left empty, and the table accepts it.
- Every `new Date()` is one time `now` per event: in `updateJobStatus` (read twice, for `lastRun` and for the reparse), in `getDueJobs`, and in the poll's two status updates (`scheduler.service.ts:33` and `:39`), which read the clock again after the listing. `PollJobs`, `PollOne` and `Lifecycle.Step` therefore use the listing's time for the updates too.
- `JobsService.UpdateJobStatus` is public, and a call such as `updateJobStatus(id, PENDING)` from outside the three services can make a COMPLETED job due again. `Lifecycle.Step` has only creation, a poll and a worker run, so the results about COMPLETED hold under those events only.
- BullMQ is not modelled: its Redis connection, its events and its delivery. A rejected `queue.add` is the parameter `rejected`. No retry is configured, so one attempt is made and a processed item leaves the queue. The job logic's failure is the parameter `failure`.
- The `@Cron` timer and concurrency are not modelled. Polls and worker runs are interleaved as whole steps, so overlapping polls and lost updates between the poller and the worker are not covered.
- Logging is left out everywhere, including the debug decode of the token payload in `validateToken`. That decode catches its own errors and does not change the outcome.
- `arctic.decodeIdToken` is the parameter `decode`, with `None` for a token it rejects. `AuthService.ImportedDecode` is that parameter as `auth.service.ts:2` binds it (see Findings).
- The constructor of `AuthService` calls `new arctic.KeyCloak(...)` (`auth.service.ts:26`). `arctic` is the same async function, so `arctic.KeyCloak` is undefined and the `new` throws: the service cannot be built. The constructor is not modelled.
- The Keycloak session middleware (`request.kauth`) and `process.env.KEYCLOAK_CLIENT_ID` are inputs. The client id is a string, so the case of an unset variable is not modelled.
- Metadata of the wrong type (a string where a list is expected) is read as absent.
- The guards read only whether a token attribute is truthy, so an attribute's value is modelled as a boolean.
- A client entry under `resource_access` is assumed to always have a `roles` list.
- JavaScript property lookups that reach the prototype chain (an attribute named `constructor`) are not modelled.
- Strings are sequences of Unicode scalar values. A lone UTF-16 surrogate cannot occur, so the `URIError` that `encodeURIComponent` throws for one is not modelled.
- `Uri.Decode` is not in the source. It is the inverse that states what `encodeURIComponent` preserves.
- `RedirectGuard.CanActivate` takes `request.kauth` and `request.originalUrl` as values, because the guard only reads the request.
- The rest of the repository is not part of this model: login, refresh, logout and user-info endpoints, the Keycloak service, the Keycloak guard, the logging middleware, controllers, modules and bootstrap.

The source and its written description differ in a few places. The model follows the source:

- An error escapes a poll when the ERROR update in the `catch` fails, for example on an expression that no longer parses. That error is not contained, and it stops the remaining due jobs (`Scheduler.PollRunFailsOnlyOnUnparsableCron`).
- An empty error message is not written to the row, because the source tests `if (error)`.
- A job that settles as ERROR is rescheduled to its next occurrence after now. It is due again only when that time comes, not at once (`Jobs.SettledWaitsForNextRun`).
- Under the modelled events (creation, a poll, a worker run), a COMPLETED job is never due again (`Lifecycle.CompletedIsNeverDispatchedAgain`). A direct `updateJobStatus` call can still reset it.

## Findings

| source | as written | input that shows it | evidently intended | confidence | as-written member | corrected member |
|---|---|---|---|---|---|---|
| libs/auth/src/auth.service.ts:2 | `const arctic = async () => await require("arctic")` binds an async function, not the library, so `arctic.decodeIdToken` at line 100 is undefined. Calling it throws a TypeError, which the `catch` turns into "Invalid access token" | any header, for example `Bearer abc` with a valid Keycloak token | decode the token with the library's `decodeIdToken` (`import * as arctic from "arctic"`) | not executed | AuthGuard.AuthenticateRejectsAsImported | AuthService.ValidateToken |

