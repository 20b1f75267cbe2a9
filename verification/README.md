# korauth: sessions, lockout and stores, modelled and proved

korauth issues RS256 access tokens and rotating refresh tokens. Its hard part is a protocol over two stores and a
clock: Redis keys with expiry (`refresh:{jti}`, the reverse index `user_tokens:{uid}`, the counter
`brute:{tenant}:{user}`), Postgres user rows with soft delete and roles, and the time that expires keys and tokens.
This project models that protocol at three levels and proves how they fit together.

| level | modules | what it is |
|---|---|---|
| plain table | `SessionTable` | one atomic step a request on a set of sessions; no index, no stale entry, no key text |
| the code, serialized | `Redis`, `UserStore`, `AuthService`, `UserService` | classes whose methods follow the Go code command by command; every method is proved to be its step of the table |
| the code, interleaved | `Interleaved` | every Redis command and SQL statement is a step of its own; any number of requests in flight, time passing between steps |

`Answers` says outright what the requests of the table answer and leave behind, from the password that decides a login
to the lifetime of what it returns. `Refinement` relates the stores to the table, and `Alone` shows that every interleaved request left undisturbed is the
table's request, with the same reply. `SessionRuns`, `Lockout` and `Access` prove what whole serialized runs
guarantee. `Interleaved` proves what every interleaving keeps; on top of it `Redemption` says how often one refresh
token is redeemed, `LiveTokens` how many a user can have, `Deletion` what a revocation can miss, `Chains` whom the
tokens of a rotation chain speak for, `GuessRate` how fast passwords can be guessed, and `Races` gives runs for what interleaving really allows. Four more parts stand
on their own: `Migrations` (the migration runner under concurrent runners and crashes), `Password` with `Base64` and
`Strings` (the hash string as printer and parser), `Roles` with `Order` (the counting test, and aggregation undone by
splitting), `Jwk` (integer encoding of the published key). `Keyspace` with `Uuid` proves that the flat Redis keyspace
behaves as three independent maps; `Paging` proves that pages partition a snapshot.

Assumptions, all visible in the definitions: drawn refresh tokens and row ids are new; only `Generate` signs; argon2 is
a function of its arguments; `refreshTTL` is positive, and a whole number of seconds wherever a statement asks for
`ValidConfig` or `SetsOutlive` (EXPIRE is sent whole seconds, SET the exact lifetime; `Races.IndexLapses` shows what
goes wrong otherwise); no Redis or SQL command fails for outside reasons and no request stops half way (the migration
runner does crash); the pipeline of `makePair` is one step. Commands mean what their servers document: SET replaces value and expiry, INCR and SADD keep the expiry, EXPIRE
on a missing key does nothing, an emptied set is gone, an expired key is absent, and a token is accepted while
now < exp + 30 s.

Where the code and its documentation differ, the model follows the code:

- A lock ends 15 minutes after its *first* failure (internal/service/auth.go:193); docs/TOKEN.md:162-170 reads as if it
  lasted 15 minutes. `Lockout.LockedUntil` states the exact instant, and `Lockout.GuessBound` the resulting rate: nine
  failures, not five, fit in 15 minutes.
- The password minimum counts octets (internal/password/password.go:69), docs/TOKEN.md:180 says characters.
  `Password.PoliciesDiffer` says exactly which passwords the code admits beyond the documentation, and
  `Password.ShortPasswordAccepted` gives one of six characters; `Password.ThreeAtLeast` is the true minimum.
- One refresh token can be redeemed twice, because GET and DEL are two commands (`Races.RedeemedTwice`).
  `Redemption.TakenIff` says exactly when: it is found as often as refreshes of it are between the two together.
- Creating a duplicate user is an internal error: the store wraps the violation (internal/store/user.go:90) and the type
  assertion does not look through it (internal/service/user.go:149), although internal/docs/openapi.yaml:610 lists a
  conflict. Updating does report the conflict.
- An update that fails on the password keeps its profile change (internal/service/user.go:83-95), and assigning roles to
  a soft-deleted user writes them before answering "not found" (internal/service/user.go:142-145).
- A page number above 2^63 / per_page wraps the 64-bit offset (internal/store/user.go:96); `Paging.ListedIff` says
  exactly when the page listed is still the intended one.

## Model

| member | source | states |
|---|---|---|
| SessionTable.StepInv | internal/service/auth.go:47-136 | every request keeps: sessions are unexpired, of live users, with their tenant; counters run from 1 to 5 in a window of 15 minutes; signed tokens carry their subject's tenant; the unique indexes hold |
| SessionTable.RunInv | internal/service/auth.go:47-136 | every table reachable by any run satisfies that invariant |
| SessionTable.TenantNeverDiffers | internal/service/auth.go:113-115 | in reachable tables the owner of a session is found live and in the session's tenant: the mismatch branch of Refresh is dead |
| SessionTable.LoginInv | internal/service/auth.go:47-78 | a login, whichever branch it takes, keeps the invariant |
| SessionTable.DeleteInv | internal/service/user.go:107-117 | after deletion no session of the user is left, so the invariant (sessions only of live users) is kept |
| AuthService.Service.constructor | internal/service/auth.go:43-45 | a service over empty stores is the empty session table |
| AuthService.Service.Login | internal/service/auth.go:47-78 | command by command, a login is exactly the table's login; five failures answer AccountLocked, an unknown name InvalidCredentials, and a live user whose hash was made from password p gets a pair if and only if argon2 of the given password agrees with argon2 of p under that salt |
| AuthService.Service.Refresh | internal/service/auth.go:80-118 | a refresh is exactly the table's refresh: the old session goes, and the new pair has the roles the database holds now (the refusals after the deletion are in the contract, but serialized runs never reach them: see SessionRuns.NothingSpoilt) |
| AuthService.Service.ParseStored | internal/service/auth.go:99-106 | uuid.Parse of a stored identifier always succeeds and gives back the identifier: its error branches are dead |
| AuthService.Service.Logout | internal/service/auth.go:120-136 | a logout always succeeds and closes exactly the presented session, if there is one; nothing else changes |
| AuthService.Service.Spend | internal/service/auth.go:95-97 | rotation removes the token and its index entry, and nothing else of any family |
| AuthService.Service.Forget | internal/service/auth.go:130-135 | logout, in the opposite order, has the same effect |
| AuthService.Service.RevokeAllForUser | internal/service/auth.go:138-149 | the loop deletes the token key of every index member and then the index set; no other key changes |
| AuthService.Service.MakePair | internal/service/auth.go:151-189 | one fresh session, one signed token and the index entry; the stores stay a valid image of the table |
| AuthService.Service.Pipeline | internal/service/auth.go:175-181 | SET, SADD and EXPIRE add the token, list it, and make the set live as long as the token |
| AuthService.Service.IncBrute | internal/service/auth.go:191-196 | one more failure in the window of the door; the first one opens the window |
| Refinement.PairStored | internal/service/auth.go:162-181 | the pipeline keeps the index complete and is one issue of the table |
| Refinement.TokenDropped | internal/service/auth.go:95-97 | dropping a token and its entry keeps the index complete and closes one session |
| Refinement.DropCommutes | internal/service/auth.go:131-135 | index entry first or token first, the keys end the same |
| Refinement.FailureCounted | internal/service/auth.go:191-196 | the counter key counts in the fixed window of the table |
| Refinement.FailuresCleared | internal/service/auth.go:76 | deleting the counter closes the window and touches no session |
| Refinement.RevokeExact | internal/service/auth.go:139-149 | going through the index, stale entries and all, removes exactly the user's sessions: none is missed, no other user's is touched |
| Refinement.UserRevoked | internal/service/user.go:107-117 | soft delete and revocation together are the deletion of the table |
| Refinement.TimePassed | internal/service/auth.go:176-178 | expiry of the keys is expiry of sessions and windows, and never unlists a live token |
| Refinement.RowsChanged | internal/store/user.go:137-192 | profile, password and role statements leave sessions alone |
| SessionRuns.GoneForEver | internal/service/auth.go:80-97 | a drawn token that is no session never becomes one and is never redeemed |
| SessionRuns.RedeemedOnce | internal/service/auth.go:80-97 | over any serialized run, at most one successful refresh per refresh token |
| SessionRuns.StepConserves | internal/service/auth.go:76-135 | each request changes a user's number of sessions by its logins, logouts, spoilt refreshes, revocations and expiries |
| SessionRuns.Conservation | internal/service/auth.go:76-135 | over any run: sessions now = sessions before + logins - logouts that found one - refreshes that consumed one and failed - revoked - expired |
| SessionRuns.NothingSpoilt | internal/service/auth.go:108-117 | no serialized refresh consumes a session and then fails |
| SessionRuns.ShortConservation | internal/service/auth.go:76-135 | so over any run: sessions gained = logins - logouts - revoked - expired |
| SessionRuns.NoMoreSessionsThanLogins | internal/service/auth.go:76-77 | from the start on, a user never has more live sessions than successful logins |
| SessionRuns.RunFaithful | internal/service/auth.go:99-117 | every live session carries the user and tenant of the login its chain began with |
| SessionRuns.IdentityFixed | internal/service/auth.go:99-117 | along any rotation chain the access tokens keep the login's user and tenant, whatever renaming, deletion or reuse of the name happens in between |
| SessionRuns.SignatureWitness | internal/token/token.go:71-86 | every signed token goes back to a state of the run in which its subject was live and had exactly its tenant and roles |
| SessionRuns.BoundedStaleness | internal/service/auth.go:108-117 | an accepted token naming a role means its subject was live and held the role less than accessTTL + 30 s ago, however long the chain |
| Access.Auth | internal/middleware/auth.go:18-38 | identity and roles come from a decoded bearer token of this issuer less than 30 seconds past its expiry; any other header aborts with 401 and sets nothing |
| Access.RequireRole | internal/middleware/rbac.go:10-31 | lets through exactly when some role of the caller is allowed, else 403; changes no identity |
| Access.Gate | internal/middleware/rbac.go:15-30 | a token Generate signed passes if and only if it names an allowed role and is not 30 seconds past its expiry, with its subject as the caller; no token or a token of another issuer gets 401, a missing role 403 |
| Access.FreshTokenPasses | internal/middleware/auth.go:18-38 | an access token just returned is let through for every allowed role it names, during its whole lifetime |
| Access.GateStaleness | internal/middleware/rbac.go:15-22 | whoever passes the gate was live and held an allowed role in the database less than accessTTL + 30 s before |
| Answers.IssuedLifetime | internal/token/token.go:71-106 | a returned access token is good from that moment for the whole access lifetime and never past 30 seconds more; its dates span at least the announced seconds |
| Answers.InterleavedLifetime | internal/token/token.go:71-106 | the same of a pair returned in the middle of any interleaving |
| Answers.LoginAnswer | internal/service/auth.go:54-77 | which of the replies a login gives, from the failures, the live row and its hash alone |
| Answers.LoginLeaves | internal/service/auth.go:62-77 | a pair clears the door's failures and opens one session for refreshTTL; a failure counts once in its window; any other reply changes nothing |
| Answers.RefreshAnswer | internal/service/auth.go:80-118 | a refresh answers a pair exactly for a session, with the roles the database holds now, and replaces that session by one for refreshTTL |
| Answers.SessionLasts | internal/service/auth.go:175-181 | a session that nobody presents, of a user nobody deletes, lasts until it expires |
| Answers.PairUsable | internal/service/auth.go:80-118 | the refresh token of a pair can be redeemed for the same user any time within refreshTTL, unless presented before or the user was deleted |
| Answers.HashLasts | internal/store/user.go:137-170 | only a change of the password changes a user's hash |
| Answers.PasswordDecides | internal/service/auth.go:67-77 | from the moment a user's hash is that of password p until the next password change, whatever happens between, a login at an unlocked door gets a pair if and only if the given password has p's argon2 digest |
| Lockout.WindowLasts | internal/service/auth.go:191-196 | failures short of five are forgotten exactly 15 minutes after the first, unless a login of the door comes |
| Lockout.LockedStep | internal/service/auth.go:50-56 | on a locked door a login is refused and changes nothing; no request moves the window's end |
| Lockout.LockedUntil | internal/service/auth.go:191-196 | over any run a locked door keeps its counter at five until exactly first failure + 15 min; afterwards only a new window can be there |
| Lockout.NeverAboveFive | internal/service/auth.go:50-56 | no counter of a serialized run exceeds five |
| Lockout.WithinBudget | internal/service/auth.go:48-74 | the failures still to come before a time fit in what the current and later windows leave |
| Lockout.GuessBound | internal/service/auth.go:20-22 | with no success in between, a half-open interval of length T holds at most 5 * ceil(T / 15 min) + 4 failed verifications |
| Lockout.GuessBoundReached | internal/service/auth.go:191-196 | the bound is reached: for every n there is a run with 5 n + 4 failures in n quarter hours |
| Interleaved.NoPairAfterDeletion | internal/service/user.go:107-117 | once the deletion is committed, the pairs still returned for the user come from requests already past their user read, one each: no later read yields a pair |
| Interleaved.StaysDeleted | internal/store/user.go:161-170 | no interleaving brings a deleted user back |
| Interleaved.MonotoneLife | internal/service/auth.go:80-97 | under every interleaving a DEL of a refresh key follows its SET, and after a DEL no GET of it ever succeeds |
| Interleaved.GoneForEver | internal/service/auth.go:80-97 | a drawn and absent token is never found again |
| Interleaved.DrawnWasSet | internal/service/auth.go:175-181 | a token that was drawn was set by an earlier pipeline of the run |
| Interleaved.SoundRun | internal/service/auth.go:80-149 | what requests in flight remember stays true: payloads read, tokens being revoked, index members all drawn and of the set's owner |
| Interleaved.IndexStep | internal/service/auth.go:130-149 | every single command keeps the index complete up to its two exceptions |
| Interleaved.AlwaysIndexed | internal/service/auth.go:175-181 | when the refresh lifetime survives the whole seconds of EXPIRE: in every reachable state each live token is in its owner's set and the set lives at least as long, unless the owner is deleted or a logout of that token is between its SREM and its DEL |
| Interleaved.LoadStep | internal/service/auth.go:50-74 | counter plus checked logins never rises above 4 + k while at most k logins are in flight |
| Interleaved.CounterBound | internal/service/auth.go:50-74 | if never more than k logins of a door are in flight together, its counter never exceeds 4 + k |
| GuessRate.GuessBound | internal/service/auth.go:50-74 | with never more than k logins of a door in flight and no success in between, a half-open interval of length T holds at most (4 + k) * ceil(T / 15 min) + 3 + k counted failures; k = 1 is the serialized bound |
| GuessRate.CounterReached | internal/service/auth.go:50-74 | for every k some run with never more than k logins in flight takes the counter to 4 + k |
| GuessRate.BudgetStep | internal/service/auth.go:191-196 | each counted failure uses up one of what the current and later counters can take, and nothing else adds to it |
| GuessRate.OtherKeeps | internal/service/auth.go:191-196 | any other command leaves the counter alone or sets its expiry to 15 minutes from now |
| Interleaved.CountersStep | internal/service/auth.go:191-196 | every command leaves each counter with an expiry of at most 15 minutes or a request about to set it |
| Interleaved.CountersRun | internal/service/auth.go:191-196 | so does every run |
| Interleaved.UnlocksInTime | internal/service/auth.go:191-196 | no door stays locked for ever: 15 minutes after its last login has returned the counter is gone |
| Interleaved.LockEnds | internal/service/auth.go:50-56 | a lock with no login past its check neither grows nor shrinks, however many logins arrive: the counter stays as it is up to its expiry and the step that reaches the expiry removes it |
| Interleaved.LockExpires | internal/service/auth.go:191-196 | in every reachable state a counter, locked or not, whose EXPIRE is not under way is gone within 15 minutes, however many logins are in flight or arrive |
| Redemption.TakenIff | internal/service/auth.go:82-96 | over any interleaved run the refreshes whose GET finds a token are at most k if and only if never more than k of them are between GET and DEL together; each issues at most one pair |
| Redemption.RedeemedOnce | internal/service/auth.go:82-96 | so a token is redeemed at most once while no two refreshes of it are between GET and DEL together |
| Redemption.TakenIsPeak | internal/service/auth.go:82-96 | the same from any sound state, counting the requests already holding the token |
| Redemption.HoldersStep | internal/service/auth.go:82-96 | only a find makes a holder, and only the holder's own DEL, which removes the token, ends it |
| Redemption.RedeemedByTakers | internal/service/auth.go:96-117 | the pairs issued for a token never outnumber the finds |
| Redemption.OnlyUnderWay | internal/service/auth.go:96-117 | once a drawn token is gone, by whatever logout, revocation, rotation or expiry, the pairs still issued for it come from refreshes that had found it, one each |
| LiveTokens.NoMoreTokensThanLogins | internal/service/auth.go:76-117 | under interleaving too, as long as no two refreshes of one token are between GET and DEL together, a user never has more live tokens than logins that returned a pair |
| LiveTokens.WeightStep | internal/service/auth.go:96-117 | only such a login adds to the tokens stored or held plus the refreshes past their DEL |
| LiveTokens.SpendStep | internal/service/auth.go:96 | the DEL of the only refresh that holds a token takes it from its owner |
| Races.RedeemedTwice | internal/service/auth.go:82-96 | from every good state and for any live token: two refreshes of it that both GET it before either DEL both answer with a pair for its owner |
| Races.LateTokenSurvives | internal/service/auth.go:139-148 | a run from the start that leaves a live, unlisted refresh token of a deleted user: the index exception is real |
| Races.LogoutLingers | internal/service/auth.go:130-135 | a run from the start in which a deletion returns while a logout stands between its SREM and its DEL, and the token is still there |
| Races.IndexLapses | internal/service/auth.go:178 | when EXPIRE drops a fraction of the refresh lifetime, a run from the start leaves a live token of a live user unlisted with no request in flight: the condition of AlwaysIndexed is exact |
| Deletion.DeletionMisses | internal/service/user.go:107-117 | under the condition of AlwaysIndexed: when a deletion has returned, each stored token of the user was drawn after the commit (at most one for each request that had read the row before) or has a logout of it between its SREM and its DEL |
| Deletion.LateSetter | internal/service/auth.go:175-181 | each token drawn after the commit was set by a request that had read the row before it |
| Deletion.CommitCovers | internal/store/user.go:161-170 | at the commit every token of the user is listed, or a logout of it is under way |
| Deletion.CoveredStep | internal/service/auth.go:139-149 | every command keeps the tokens drawn before the commit due for deletion |
| Chains.IdentityFixed | internal/service/auth.go:99-117 | under every interleaving a login's pair is for the tenant asked for and for a user that was live under the asked name in the run, and a refresh's pair carries the user and tenant of the payload, which are those of the login at the root of the chain |
| Chains.TenantNeverDiffers | internal/service/auth.go:113-115 | the mismatch branch of Refresh is dead under interleaving too |
| Chains.RootedStep | internal/service/auth.go:151-189 | every command keeps each token, and each request that read one, tied to the login it descends from |
| Chains.SignatureWitness | internal/token/token.go:71-86 | under every interleaving each signed token goes back to a state in which its subject was live with exactly its tenant and roles |
| Alone.CompletesRuns | internal/service/auth.go:47-149 | a completion is a run in which only that request moves, whoever else stands by |
| Alone.RunsComplete | internal/service/auth.go:47-149 | and every run in which only that request moves, until it returns, is a completion |
| Alone.CanComplete | internal/service/auth.go:47-149 | a request left alone always comes to its end |
| Alone.LoginAlone | internal/service/auth.go:47-78 | every undisturbed completion of a login is the table's login: same reply, same stores |
| Alone.RefreshAlone | internal/service/auth.go:80-118 | every undisturbed completion of a refresh is the table's refresh |
| Alone.LogoutAlone | internal/service/auth.go:120-136 | every undisturbed completion of a logout is the table's logout |
| Alone.RevokeAlone | internal/service/auth.go:145-148 | the revocation loop ends the same in every order of the members |
| Alone.DeleteAlone | internal/service/user.go:107-117 | every undisturbed completion of a deletion, in any revocation order, is the table's deletion |
| Accounts.StatementsEvolve | internal/db/migrations/001_init.up.sql:22-25 | no statement moves a row to another tenant, revives it or breaks the unique indexes on live rows |
| Accounts.UniqueIndexesMean | internal/db/migrations/001_init.up.sql:22-25 | two different live rows share neither a name in one tenant nor a mail address |
| Accounts.ClashExact | internal/db/migrations/001_init.up.sql:22-25 | a live row is refused exactly when writing it would break a unique index |
| Accounts.FindByNameUnique | internal/store/user.go:69-80 | by tenant and name there is at most one live row to find |
| UserStore.Store.ScanUser | internal/store/user.go:35-55 | the joined row, field by field, with the ordered list of its role names |
| UserStore.Store.GetById | internal/store/user.go:57-67 | finds exactly live rows |
| UserStore.Store.GetByUsernameAndTenant | internal/store/user.go:69-80 | finds exactly the live row of that tenant and name |
| UserStore.Store.IsValid | internal/store/role.go:35-45 | true exactly for a duplicate-free list of existing names |
| UserStore.Store.Create | internal/store/user.go:82-93 | inserts exactly the given row when the unique indexes allow it; otherwise changes nothing and reports the violation wrapped |
| UserStore.Store.UpdateUser | internal/store/user.go:137-150 | replaces exactly the given fields of a live row when the unique indexes allow the new row; otherwise changes nothing, with the bare violation for a clash |
| UserStore.Store.UpdatePassword | internal/store/user.go:152-159 | changes the hash of a live row only |
| UserStore.Store.SoftDelete | internal/store/user.go:161-170 | marks a live row deleted, and reports whether there was one |
| UserStore.Store.SetRoles | internal/store/user.go:172-192 | commits exactly when no known name repeats and there is a row to refer to; then the user has exactly the known names, else nothing changes |
| UserStore.Store.TakenIffClashes | internal/db/migrations/002_add_user_fields.up.sql:7-9 | the scan for a row in the way is the clash of the unique indexes |
| UserService.Service.Delete | internal/service/user.go:107-117 | soft delete and revoke are one atomic deletion: the row is marked, exactly the user's sessions go, nothing else changes; NotFound exactly for no live row |
| UserService.Service.AssignRoles | internal/service/user.go:119-146 | which error or success, and what is written in each case; an error leaves a change exactly for a soft-deleted target whose roles differ; on success the returned roles are the ordered permutation of the request |
| UserService.Service.NamesAdmin | internal/service/user.go:130-136 | the loop finds the caller's own admin role exactly when it is listed |
| UserService.Service.WriteRoles | internal/store/user.go:172-192 | on a checked list the primary key is never violated: it fails only for want of a user row |
| UserService.Service.Create | internal/service/user.go:27-58 | which error or success; on success exactly one row appears, with the given fields, the hash of the password and the requested roles, and is returned; a row the unique indexes refuse is an internal error, never a conflict |
| UserService.Service.Update | internal/service/user.go:80-105 | field by field: a given user name, mail address or password replaces the old one, tenant, roles and every other row stay; Conflict exactly when the unique indexes refuse the profile; a refused password leaves the new profile in place |
| UserService.RefusedUpdate | internal/service/user.go:83-95 | a refused update leaves a change exactly when the profile really changed, without a clash, and the password then broke the policy |
| UserService.Service.GetById | internal/service/user.go:60-69 | the live row or NotFound |
| Roles.IsValidIff | internal/store/role.go:35-45 | COUNT equals the length exactly for a duplicate-free list of existing names |
| Roles.ScanJoin | internal/store/user.go:49-53 | splitting gives back the joined list if and only if no name has a comma and the list is not one empty name |
| Roles.RolesRoundTrip | internal/store/user.go:27-53 | aggregate then split gives the ordered role names, the empty set included |
| Roles.RequestedRoles | internal/service/user.go:119-146 | the ordered set of a duplicate-free request is a sorted permutation of it |
| Order.LessEqMeans | internal/db/db.go:63 | the order of names: at the first difference the smaller character, or the end, comes first |
| Order.SortedSound | internal/store/user.go:27 | ordering a set of names lists each once and in order |
| Order.SortedMultiset | internal/store/user.go:27 | and as a multiset it is the set |
| Strings.SplitJoin | internal/store/user.go:50 | splitting undoes joining when no piece has the separator |
| Strings.JoinCount | internal/store/user.go:50 | a piece with the separator makes too many pieces |
| Keyspace.PrintInjective | internal/service/auth.go:23-25 | whatever the tenant, name or token text, key strings never collide within or across the three families |
| Keyspace.DoorTextInjective | internal/service/auth.go:48 | tenant text has fixed length, so a colon in the user name cannot blur the counter key |
| Keyspace.RepresentsUnique | internal/service/auth.go:23-25 | a flat keyspace stands for exactly one triple of maps |
| Keyspace.FlatPut | internal/service/auth.go:176 | a write of one key changes that key of that family and no other |
| Keyspace.FlatDel | internal/service/auth.go:145-148 | so does a deletion |
| Keyspace.WholeSeconds | internal/service/auth.go:178 | EXPIRE gets whole seconds: the fraction of a lifetime of a second or more is dropped, a shorter one becomes one second |
| Keyspace.FlatPurge | internal/service/auth.go:176-178 | expiry in the flat space is expiry in each map |
| Uuid.TextRoundTrip | internal/service/auth.go:99-106 | parsing the canonical text gives back the UUID |
| Uuid.TextDigits | internal/service/auth.go:164-165 | every octet is printed as two lower-case hexadecimal digits at its place in the 8-4-4-4-12 form |
| Uuid.TextInjective | internal/service/auth.go:48 | distinct UUIDs have distinct texts |
| Redis.Server.Advance | internal/service/auth.go:176-194 | when time passes exactly the keys of each family whose expiry is reached disappear, the rest unchanged |
| Redis.Server.Get | internal/service/auth.go:82-88 | GET of the flat key is the lookup in the refresh family |
| Redis.Server.GetInt | internal/service/auth.go:50 | GET of a counter, zero when missing |
| Redis.Server.Set | internal/service/auth.go:176 | SET replaces value and expiry in the refresh family only |
| Redis.Server.Incr | internal/service/auth.go:192 | INCR starts at one without expiry, keeps an existing expiry, and returns the new count |
| Redis.Server.ExpireTally | internal/service/auth.go:194 | EXPIRE on a counter, in whole seconds; nothing for a missing key |
| Redis.Server.ExpireIndex | internal/service/auth.go:178 | EXPIRE on an index set, in whole seconds; nothing for a missing key |
| Redis.Server.SAdd | internal/service/auth.go:177 | SADD keeps an existing expiry |
| Redis.Server.SRem | internal/service/auth.go:97 | SREM; an emptied set is gone |
| Redis.Server.SMembers | internal/service/auth.go:141 | the members, none when missing |
| Redis.Server.Del | internal/service/auth.go:96 | DEL removes one key of one family |
| Migrations.VersionsSound | internal/db/db.go:59-70 | sorting and trimming the up files gives each version once, in the order of the file names |
| Migrations.StepInv | internal/db/db.go:65-97 | every step of every runner keeps the committed versions a prefix, in order and once each |
| Migrations.EndInv | internal/db/db.go:88-96 | a transaction that holds its version row is the one that extends the prefix, whatever the other runners read |
| Migrations.AlwaysPrefix | internal/db/db.go:44-98 | with any number of runners, stale reads and crashes anywhere: what is applied is a prefix of the list by name, once each and recorded; a runner that returned nil leaves the full list |
| Migrations.RerunChangesNothing | internal/db/db.go:65-73 | once the list is applied no further run changes anything |
| Migrations.Database.Migrate | internal/db/db.go:43-98 | alone, it applies what is pending in order up to the first broken file, and reports that one |
| Migrations.EntryStep | internal/db/db.go:65-70 | one more directory entry is one more version exactly if it is an up file |
| Password.PrintVerify | internal/password/password.go:28-65 | split, scans and base64 recover exactly the printed parameters, salt and digest, for all that are in range |
| Password.HashVerify | internal/password/password.go:22-66 | Verify(q, Hash(p)) never errs and is true exactly when argon2 of q and of p agree under the salt |
| Password.HashPrefix | internal/password/password.go:28-30 | a hash starts with the algorithm, version 19 and the parameters m=65536, t=2, p=4 in clear |
| Password.NotAHash | internal/password/password.go:38-41 | a string without exactly five `$`, or naming another algorithm, is refused as no hash |
| Password.PrintedParts | internal/password/password.go:28-39 | a printed hash splits into exactly its six parts |
| Password.ParamsRoundTrip | internal/password/password.go:48-52 | scanning the printed parameters gives them back, up to the limits of 32, 32 and 8 bits |
| Password.VersionRoundTrip | internal/password/password.go:43-46 | scanning the printed version gives it back |
| Password.Validate | internal/password/password.go:68-93 | accepts exactly eight octets or more with all three kinds, else names the first rule broken |
| Password.LengthRules | internal/password/password.go:69-71 | octets are characters plus what the non-ASCII characters add; the two counts agree exactly for ASCII strings |
| Password.PoliciesDiffer | internal/password/password.go:68-93 | the code admits every password the documentation admits, agrees with it on ASCII, and admits more exactly for strings of n < 8 characters with all three kinds whose non-ASCII characters add at least 8 - n octets |
| Password.ThreeAtLeast | internal/password/password.go:72-93 | an accepted password has at least three characters |
| Password.ThreeAccepted | internal/password/password.go:69-93 | and three can be enough |
| Password.ShortPasswordAccepted | internal/password/password.go:69-93 | an accepted password of six characters that the documented policy refuses |
| Password.HashLength | internal/password/password.go:28-33 | the printed hash has 97 characters, so it fits its column |
| Base64.RoundTrip | internal/password/password.go:31-32 | decoding recovers the encoded octets in both unpadded alphabets (RFC 4648, sections 3.2, 4 and 5) |
| Base64.EncodeAlphabet | internal/password/password.go:31-32 | only alphabet characters are produced, so never a `$` |
| Base64.Alphabets | internal/password/password.go:31-32 | the two alphabets of RFC 4648, sections 4 and 5, symbol by symbol |
| Base64.SextetsValue | internal/password/password.go:31-32 | the sextets are the bits of the octets in order, a short last group filled up with zeros |
| Base64.EncodedLength | internal/service/auth.go:198-204 | n octets take ceil(4n / 3) characters: 43 for a refresh token |
| Strings.DecimalValue | internal/password/password.go:28-32 | a printed numeral reads back as its number |
| Jwk.UIntRoundTrip | internal/token/token.go:167-176 | for every positive integer: decoding reads it back, there is no leading zero octet, and no other such octet string has that value (RFC 7518, section 2) |
| Jwk.KeyRoundTrip | internal/token/token.go:167-176 | an RS256 signing key whose published (n, e) read back as the key's and determine it |
| Jwk.BytesUnique | internal/token/token.go:173 | the shortest big-endian octets are unique |
| Jwk.ZeroIsEmpty | internal/token/token.go:174 | zero is outside the promise: an empty member where RFC 7518 wants "AA" |
| Paging.PaginationQuery | internal/handler/response.go:49-59 | page at least 1, page size 1 to 100; numbers in range are taken as given, all else becomes 1 and 50 |
| Paging.List | internal/store/user.go:95-135 | the rows at the 64-bit offset in order and the total, or an error and no total for a negative offset |
| Paging.OffsetExact | internal/store/user.go:96 | the offset is the intended one if and only if page - 1 <= (2^63 - 1) / perPage |
| Paging.ListedPage | internal/store/user.go:95-110 | within that bound List returns the intended page |
| Paging.ListedIff | internal/store/user.go:95-134 | List returns the intended page if and only if page - 1 <= (2^63 - 1) / perPage or the wrapped offset is past the end |
| Paging.PagesPartition | internal/store/user.go:95-134 | pages 1 to ceil(n / perPage) in a row are the whole snapshot, every row once |
| Paging.EarlyPageListed | internal/store/user.go:95-134 | each of those pages is within the bound and listed right |
| Paging.LaterPageEmpty | internal/store/tenant.go:65-87 | every later page within the bound is empty |
| Paging.WrappedPage | internal/store/user.go:96 | beyond it a page can come back as page 1 |

## Left out

- HTTP routing, JSON binding, error rendering, request ids, logging, config, CLI and seeding: plumbing.
- Thin wrappers (role list, tenant service) and the kid derivation: they would only add easy members.
- argon2, RSA, SHA-256 and randomness inside: argon2 is a total function argument (its panics for zero time or threads are not modelled), signatures are ideal, draws are arguments assumed new.
- JSON of the refresh payload: a document of fields, marshalled and read back unchanged; the error branches of json.Unmarshal are not modelled.
- Redis and Postgres failing on their own, and requests that stop half way: every command of a request happens, and its `fmt.Errorf` branches for store errors are absent.
- Interleaved: the pipeline of `makePair` is one step, and the access token is signed at that same instant.
- Interleaved: user creation, profile, password and role changes are single statements any caller may issue at any time; the order of the statements inside one such request is only modelled in `UserService`.
- UserStore.Store.Create: the foreign key to the tenants table, the column widths (VARCHAR(64) for the user name, VARCHAR(255) for the mail address) and the refusal of NUL characters are not modelled, so the insert succeeds here where the database would refuse it; the hash always fits (`Password.HashLength`).
- UserStore.Store.UpdateUser: the same column widths and NUL characters.
- UserService.Service.Create: promises success where the database refuses an unknown tenant or over-long text; in the code those are internal errors.
- UserService.Service.Update: promises success where the database refuses over-long text; in the code that is an internal error.
- First and last name, force_password_change, timestamps and the tenants table: no property here depends on them.
- Role names are fixed and fit for the aggregated column (not empty, no comma), as the three seeded ones are; `Roles.ScanJoin` says exactly which lists survive.
- ORDER BY on names is by code point; the collation of the database is not modelled.
- The other notations uuid.Parse takes (braces, urn:uuid:, no hyphens): only the canonical text is ever stored.
- `fmt.Sscan` of a query number and the Unicode categories of the password policy are function arguments.
- Text in UTF-8: strings are sequences of characters, and octets are counted only where the code counts them.
- CREATE SCHEMA and CREATE TABLE before the migration loop, and what the SQL of a migration does: a file is applied or not.
- Page stability across queries with equal created_at or with writes in between: a page is a slice of one ordered snapshot.
