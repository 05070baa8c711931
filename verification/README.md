# Verification of aisphere-auth's stateful core

This project models, in Dafny, the parts of the authentication service that hold state, do
arithmetic or parse text, and proves what they promise over every input, every run and every
interleaving. Time is an integer number of nanoseconds passed to each step; a mutex section is
one atomic step, and where the code releases a lock and takes it again the model has two steps.
Objects whose methods update fields are classes; each method is proved against a function of the
old state, and the promises are proved of those functions and of runs built from them.

| files | modules | what they model |
|---|---|---|
| `text.dfy`, `wrappers.dfy`, `sizes.dfy`, `paging.dfy` | `Text`, `Wrappers`, `Sizes`, `Paging` | trimming, lower-casing, splitting, replacing; optional values; sizes of sets and maps; pages |
| `rate_limiter.dfy`, `rate_limiter_keys.dfy` | `RateLimiter`, `RateLimiterLaws`, `RateLimiterCleanup`, `RateLimiterKeys` | the per-key token bucket of the internal API |
| `sql_text.dfy`, `sql_statements.dfy`, `sql_walk.dfy`, `sql_files.dfy` | `SqlText`, `SqlRows`, `SqlStatements`, `SqlWalk`, `SqlStatementsLaws` | the SQL literal printer and the two scanners that read SQL back |
| `seed_text.dfy`, `seed_read_back.dfy` | `SeedText`, `SeedReadBack` | the text of the seed and reading it back |
| `seed.dfy`, `seed_laws.dfy`, `seed_results.dfy`, `seed_rows.dfy` | `SeedTables`, `SeedProgram`, `SeedIdempotence`, `SeedResults`, `SeedRows` | the rendered seed as a program over tables |
| `session_store.dfy`, `session_redis.dfy`, `session_redis_accepts.dfy` | `SessionStore`, `SessionRuns`, `RedisSessions`, `RedisRuns`, `RedisAcceptance` | the two session stores and their runs |
| `login_states.dfy`, `authn_service.dfy`, `sign_in.dfy`, `gin_middleware.dfy` | `LoginStates`, `LoginRuns`, `AuthnService`, `SignInRuns`, `GinMiddleware`, `RequireLoginRuns` | login states, the login and session flow, the principal cache in front of it |
| `decision_cache.dfy`, `authz_service.dfy`, `authz_roles.dfy`, `decision_runs.dfy` | `DecisionCache`, `AuthzService`, `AppRoles`, `DecisionRuns` | the decision cache and the layered authorization check |
| `grants.dfy`, `grants_laws.dfy`, `grants_rights.dfy`, `grants_postgres.dfy` | `Grants`, `GrantOrders`, `GrantPatterns`, `GrantSaving`, `GrantRights`, `GrantsPostgres`, `PostgresAgreement` | resource grants in memory and in Postgres |
| `audit_log.dfy` | `AuditLog` | the bounded audit log |

`dafny verify dfyconfig.toml` checks the whole project.

## Where the code falls short of the plain promise

Each of these is stated with the exact condition under which the promise holds, or with the input
that breaks it.

- Deleting idle buckets is invisible to callers, and keeps the rate bound, if and only if an idle
  bucket has refilled by then, which for rates below 1e9 calls a second is `burst <= 600 * qps`
  (`CleanupInvisibleIff`, `LimiterBoundIff`, `IdleRefillsBurstInTokens`). The configuration does
  not check this. The law that holds at any rate counts from the opening of a bucket (`ExactLaw`).
- `iter_sql_statements` treats a quote after a backslash as escaped, although `sql_quote` has
  doubled that backslash. What a literal does to the scanner depends on where it is met
  (`ScanLiteral`): met outside it is left if and only if its value does not end in a backslash
  (`OverFromOutside`); met inside another literal its value is taken for SQL. A file is read back if
  and only if the walk over the values of each statement ends outside (`ReadBackIff`). When the
  values met inside are calm, as the empty text and printed JSON are, that means that in each
  statement an even number of values end in a backslash (`ReadBackIffEven`); otherwise the semicolon
  is taken for part of a literal (`BackslashSwallows`). A display name that ends in a backslash
  loses the seed (`TrailingBackslashLosesSeed`). `split_insert_rows` does not have this fault
  (`SplitInvertsPrint`).
- The Redis set of a subject's sessions lives only as long as the session created last, and starts
  afresh once it has died. `DeleteBySubject` therefore removes an acceptable session if and only if
  each later session of the subject was created within the deadline of the one before, and the
  last deadline has not passed (`DeletedIffCovered`, `ScanIff`; `EarlierDeadlineIff` is the case
  of two sessions). It also reads the set and deletes in two commands: a session created between
  them is missed for good (`CreateBetweenIsMissed`).
- On Redis a Touch sets the lifetime of the key alone, and `Get` also holds a session to the
  deadline that its Create wrote: sliding sessions do not slide there (`AcceptsIff`), as they do in
  memory (`FoundIff`). `Delete` trims the id that `Create` and `Get` take as it is, so that an id
  with blanks around it cannot be deleted (`DeleteWorksIff`).
- Decision cache keys join app and subject with a bar. Caching changes no decision on a set of
  requests if and only if no two of them share a key and ask different questions
  (`TransparentIff`); an app that holds a bar gets answers that the policy denies
  (`BarAllowsWrongly`, `BarServesOtherApp`).
- A role that is an admin's by name, of whatever application, is let through for every object
  named after the application asked for; the other roles stay with their own
  (`SeededRoleAllowsIff`).
- The in-memory grant check takes the first applicable grant in map order. Its answer is the same
  in every order if and only if the applicable grants agree on being deny or not
  (`OrderIndependentIff`).
- `RequireLogin` introspects and stores in two steps. A logout that falls between them is served
  from the cache for up to the cache's TTL plus the time between the two steps
  (`LogoutTakesEffect`), and that bound is reached (`LateRunServes`): service ends one TTL after the
  logout if and only if storing takes no time or caching is off (`ServesLateIff`).
- The Postgres prefilter drops wildcard grants that the in-memory check honours
  (`PrefilterDrops`), and the check looks at 500 rows only: an applicable grant in the 501st row is
  missed (`CheckReaches`, `ServicesDifferIff`).
- The seed file calls itself idempotent: it is, from any starting tables (`SeedTwice`), because no
  shipped role has a legacy name (`CommonRolesAreNotLegacy`).

## Model

| member | source | states |
|---|---|---|
| RateLimiter.Defaults | internal/server/rate_limiter.go:22-39 | the limiter always runs with a positive rate and burst: configured values are kept when positive, otherwise the rate is 100 and the burst twice the rate |
| RateLimiter.NewLimiter | internal/server/rate_limiter.go:22-39 | there is a limiter if and only if limiting is enabled; it starts without buckets |
| RateLimiter.AllowRate | internal/server/service_auth.go:74-76 | a disabled limiter lets every call through; an enabled one decides by the bucket |
| RateLimiter.TokenBucketLimiter.Allow | internal/server/rate_limiter.go:41-81 | one call's answer and new bucket map: refill up to the burst, take a whole token or refuse, a full burst for a new key, opportunistic cleanup above 10000 keys only after a token was taken |
| RateLimiter.TokenBucketLimiter.DeleteIdle | internal/server/rate_limiter.go:71-79 | cleanup removes exactly the buckets last used before the cutoff and changes no other |
| RateLimiterLaws.BucketClosedForm | internal/server/rate_limiter.go:53-80 | in every run of the limiter, with cleanup or without, at any rate and with timestamps in any order, the level of a bucket is the least, over the windows opened by the calls on its key since the bucket was opened, of burst + rate times length minus calls admitted |
| RateLimiterLaws.TokensAtCall | internal/server/rate_limiter.go:53-63 | what a call finds after refilling is the least credit over the windows since its bucket was opened, its own included |
| RateLimiterLaws.ExactLaw | internal/server/rate_limiter.go:41-81 | in every run of the limiter, cleanup included, at any rate and with timestamps in any order, a call is allowed if and only if each window opened on its key since its bucket was opened still has room for one whole token |
| RateLimiterLaws.KeptLaw | internal/server/rate_limiter.go:41-81 | for a key whose bucket has not been deleted the windows are those opened by all earlier calls on the key |
| RateLimiterLaws.AdmittedWindow | internal/server/rate_limiter.go:41-81 | even with timestamps out of order, a window that a call on a key opens and an admitted call on it ends admits at most burst + rate times its length, if one bucket serves both |
| RateLimiterLaws.WindowBound | internal/server/rate_limiter.go:41-81 | with a clock that does not go back, a window served by one bucket of a key, in the limiter with or without cleanup, admits at most burst + rate times its length calls on that key |
| RateLimiterCleanup.IdleRefillsBurstInTokens | internal/server/rate_limiter.go:71-79 | the refill condition in whole tokens: burst at most 600 times the rate |
| RateLimiterCleanup.StepSimulates | internal/server/rate_limiter.go:53-80 | under the refill condition one call gets the same answer from the cleaned map and from the map that keeps everything, and the two stay in step |
| RateLimiterCleanup.RunSimulates | internal/server/rate_limiter.go:53-80 | under the refill condition every multi-key history gets exactly the answers of the limiter that never deletes |
| RateLimiterCleanup.CleanupInvisibleIff | internal/server/rate_limiter.go:53-80 | some history reveals the cleanup if and only if the refill condition fails |
| RateLimiterCleanup.RevealingAnswers | internal/server/rate_limiter.go:71-79 | when the refill condition fails, a concrete history over 10001 keys is answered differently with and without cleanup |
| RateLimiterCleanup.LimiterBoundIff | internal/server/rate_limiter.go:41-81 | the limiter as written keeps the window bound on every history with a clock that does not go back if and only if the refill condition holds |
| RateLimiterKeys.CallersAreApart | internal/server/rate_limiter.go:41-81 | in the limiter that never deletes each caller, a key as given, where the empty key means "anonymous", gets exactly the answers it would get if it were the only one, at any rate and with timestamps in any order |
| RateLimiterKeys.FewCallersUndisturbed | internal/server/rate_limiter.go:71-79 | with at most 10000 keys in a history nothing is ever deleted, whatever rate, burst and timestamps |
| RateLimiterKeys.CallersAreApartIff | internal/server/rate_limiter.go:41-81 | the limiter as written keeps its callers apart on every history with a clock that does not go back if and only if an idle bucket refills before it may be deleted |
| RateLimiterKeys.DeletedIffIdle | internal/server/rate_limiter.go:64-81 | a call deletes another caller's bucket if and only if it found a bucket of its own and was allowed, more than 10000 buckets stood and the other was idle for over ten minutes; every bucket that stays is unchanged |
| SqlText.QuoteEscapes | scripts/casdoor/render-casdoor-seed.py:220-225 | the two replacements of `sql_quote` together escape every character on its own between two quotes |
| SqlRows.SplitInsertRows | scripts/casdoor/prepare-casdoor-sql.py:102-129 | the loop computes the rows found by the depth, quote and escape state machine |
| SqlRows.RunEscape | scripts/casdoor/prepare-casdoor-sql.py:109-117 | an escaped value read inside a literal leaves the machine exactly as it was, whatever the value holds |
| SqlRows.SplitInvertsPrint | scripts/casdoor/prepare-casdoor-sql.py:102-129 | splitting a printed list of rows returns exactly those rows, for all literal values, those with parentheses, quotes and trailing backslashes included |
| SqlStatements.IterSqlStatements | scripts/casdoor/bootstrap-casdoor-mysql.py:269-331 | the loop computes the statements of the scanner's state machine over quotes, line comments and semicolons |
| SqlWalk.ScanLiteral | scripts/casdoor/bootstrap-casdoor-mysql.py:285-325 | a printed literal, whatever its value and wherever the scanner meets it, outside, inside single or inside double quotes, is copied whole and leaves the scanner at the place that walking over the value gives, or loses it at a semicolon or double dash of the value |
| SqlWalk.OverFromOutside | scripts/casdoor/bootstrap-casdoor-mysql.py:299-308 | a literal met outside is left if and only if its value does not end in a backslash |
| SqlWalk.OverFromInside | scripts/casdoor/bootstrap-casdoor-mysql.py:299-325 | the mirror: a calm literal met inside another is left if and only if its value does end in a backslash; the empty text is calm, and so is every text with paired double quotes that outside them holds no semicolon, no double dash and no quote after a backslash |
| SqlStatementsLaws.ReadBackIff | scripts/casdoor/bootstrap-casdoor-mysql.py:269-331 | whatever the values, a file is read back exactly if and only if at the end of each statement the walk over its values ends outside, and an unterminated last statement is not lost |
| SqlStatementsLaws.ReadBackIffEven | scripts/casdoor/bootstrap-casdoor-mysql.py:269-331 | when the values met inside a literal are calm, that is: an even number of the values of each statement end in a backslash |
| SqlStatementsLaws.FileRoundTrip | scripts/casdoor/bootstrap-casdoor-mysql.py:269-331 | a file of statements made of plain chunks and printed literals whose values do not end in a backslash, whatever else they hold, with semicolons, newlines and line comments between, is read back as exactly those statements in order |
| SqlStatementsLaws.BackslashSwallows | scripts/casdoor/bootstrap-casdoor-mysql.py:299-308 | after a statement with an odd number of such values, calm where met inside, the closing semicolon is taken for part of a literal |
| SqlStatementsLaws.OneLiteralIff | scripts/casdoor/bootstrap-casdoor-mysql.py:269-331 | a statement around one literal, whatever its value, is read back if and only if the value does not end in a backslash |
| SqlStatementsLaws.TextsComeBackIff | scripts/casdoor/bootstrap-casdoor-mysql.py:269-331 | whatever the values, the very texts of a file's statements come back, whole, in order and without the blanks around them, if and only if the walk over the values of each ends outside |
| SqlStatementsLaws.CommentGoes | scripts/casdoor/bootstrap-casdoor-mysql.py:285-297 | a line comment within a statement goes, whatever it holds, and its line break stays |
| SqlStatementsLaws.DoubleQuotesProtect | scripts/casdoor/bootstrap-casdoor-mysql.py:309-331 | what stands in double quotes is copied, semicolons, quotes and dashes included |
| SeedText.UpsertPrints | scripts/casdoor/render-casdoor-seed.py:232-238 | the pieces of an upsert statement print the text of `insert_on_duplicate` |
| SeedText.UpsertSays | scripts/casdoor/render-casdoor-seed.py:232-238 | the text of an upsert determines the columns it inserts and those it updates, in order, and each column's value is the row's |
| SeedText.RenamePrints | scripts/casdoor/render-casdoor-seed.py:293-300 | the pieces of a rename print the text that the source writes |
| SeedText.LegacyPrints | scripts/casdoor/render-casdoor-seed.py:301-308 | and so do those of the deletion of legacy rules |
| SeedText.DeleteRowsPrints | scripts/casdoor/render-casdoor-seed.py:309-317 | those of the deletion of rows |
| SeedText.RuleTextsPrint | scripts/casdoor/render-casdoor-seed.py:451-460 | and those of the rules' deletion and insertion |
| SeedText.StmtReadable | scripts/casdoor/render-casdoor-seed.py:283-460 | the text of every kind of seed statement, upsert, rename, delete, rule insert or switch, has the shape the scanner's law speaks of, whatever the values |
| SeedText.SeedReadBackIff | scripts/casdoor/render-casdoor-seed.py:389-478 | a file of any seed statements, comments and blanks is read back as exactly the texts of its statements if and only if the walk over the values of each statement ends outside |
| SeedText.SeedComesBackIff | scripts/casdoor/render-casdoor-seed.py:389-478 | and what is read back are the very texts that were printed, if each upsert names a column to update |
| SeedReadBack.ProgramReadable | scripts/casdoor/render-casdoor-seed.py:389-460 | arguments, roles, permissions and rows without a text that ends in a backslash give a program all of whose statements have none |
| SeedReadBack.ProgramRoundTrip | scripts/casdoor/render-casdoor-seed.py:389-478 | for such arguments the rendered seed is read back as the statements of its program, in order, each exactly as it was printed |
| SeedReadBack.TrailingBackslashLosesSeed | scripts/casdoor/render-casdoor-seed.py:401-405 | a text of the organization row that ends in a backslash, the display name say, with calm values after it makes the seed unreadable |
| SeedReadBack.JsonListIsCalm | scripts/casdoor/render-casdoor-seed.py:228-229 | the empty text and the printed list of any words are calm |
| SeedReadBack.JsonListTells | scripts/casdoor/render-casdoor-seed.py:228-229 | a printed list of words tells what it lists, in order |
| SeedTables.RunByTable | scripts/casdoor/render-casdoor-seed.py:389-460 | running a program on the database is running it on every table on its own |
| SeedProgram.RenderCleanLegacy | scripts/casdoor/render-casdoor-seed.py:283-320 | the loop emits one rename per legacy role and then the three deletes |
| SeedProgram.RenderRules | scripts/casdoor/render-casdoor-seed.py:450-460 | the four nested loops emit the inserts of the specified rule list, in order |
| SeedProgram.Render | scripts/casdoor/render-casdoor-seed.py:389-462 | rendering emits the specified program: head, optional cleanup, model, roles, permissions, rules |
| SeedIdempotence.UpsertsTwice | scripts/casdoor/render-casdoor-seed.py:232-238 | any sequence of upserts that update only columns they set does nothing more when run again, whatever keys it repeats |
| SeedIdempotence.RenamesAt | scripts/casdoor/render-casdoor-seed.py:283-300 | after the renames every key holds its own row, or the old role's row under the new name where only the old role existed |
| SeedIdempotence.CleanedRoles | scripts/casdoor/render-casdoor-seed.py:283-320 | after the cleanup no legacy role is left, each new name has its own row or its predecessor's, and all other rows are unchanged |
| SeedIdempotence.ProgramRules | scripts/casdoor/render-casdoor-seed.py:302-320 | the rules after the seed are the earlier ones that are neither legacy nor under a generated id, plus the inserted ones |
| SeedIdempotence.PermissionsTwice | scripts/casdoor/render-casdoor-seed.py:440-448 | the permission table is the same after two runs as after one |
| SeedIdempotence.RolesTwice | scripts/casdoor/render-casdoor-seed.py:427-438 | the role table, renamed, cleaned and upserted, is the same after two runs as after one |
| SeedResults.SpecRulesAreProduct | scripts/casdoor/render-casdoor-seed.py:450-460 | each rule is inserted as often as it stands in the subject, resource, action product of the specs |
| SeedResults.ProductOnce | scripts/casdoor/render-casdoor-seed.py:450-460 | without repeated list entries or spec names each rule of the product stands in it once and no other rule at all |
| SeedResults.SpecsQualify | scripts/casdoor/render-casdoor-seed.py:323-333 | the specs built from the login permission and common permissions with distinct names and entries meet that condition |
| SeedResults.CommonPermissionsQualify | scripts/casdoor/render-casdoor-seed.py:143-181 | the shipped permissions meet that condition |
| SeedResults.GeneratedRulesAreProduct | scripts/casdoor/render-casdoor-seed.py:449-460 | after the seed, from any tables, the rules under generated permission ids are exactly the product and all others are the earlier non-legacy ones |
| SeedResults.RuleIff | scripts/casdoor/render-casdoor-seed.py:449-460 | after the seed, from any tables, a rule under a permission's id is there if and only if it allows one of the permission's users or roles one of its actions on one of its resources, and once if no list repeats an entry |
| SeedResults.LoginRuleStands | scripts/casdoor/render-casdoor-seed.py:323-333 | the rule that lets everyone in the organization log in is there, once |
| SeedResults.CommonRuleIff | scripts/casdoor/render-casdoor-seed.py:323-333 | a common permission allows the roles it names, as roles of the organization, exactly its actions on its resources |
| SeedResults.RulesTwice | scripts/casdoor/render-casdoor-seed.py:449-460 | the rule multiset is the same after two runs as after one |
| SeedResults.SeedTwice | scripts/casdoor/render-casdoor-seed.py:389-462 | running the whole seed twice gives the tables of running it once, from any starting tables |
| SeedResults.CommonRolesAreNotLegacy | scripts/casdoor/render-casdoor-seed.py:120-141 | no shipped role has a legacy name, so that the results on roles apply to it |
| SeedResults.CommonRolesSeedAihub | scripts/casdoor/render-casdoor-seed.py:120-141 | the shipped roles include the new name of every renamed role, none of them the platform admin |
| SeedResults.CleanupKeepsBindings | scripts/casdoor/render-casdoor-seed.py:270-320 | with cleaning on, each AIHub role ends with its own users if it existed, else those of the SkillHub role it replaces, else none, and the SkillHub role is gone |
| SeedResults.OtherBindings | scripts/casdoor/render-casdoor-seed.py:427-438 | every other seeded role keeps its users apart from a bound platform admin, and rows of no seeded role are unchanged |
| SeedRows.SeededPermission | scripts/casdoor/render-casdoor-seed.py:440-448 | a seeded permission ends enabled and allowing, with its own users, roles, resources and actions, and keeps the columns that the seed does not write |
| SeedRows.OtherPermissions | scripts/casdoor/render-casdoor-seed.py:309-311 | of all other permissions the three SkillHub ones of the organization go with cleaning on, and the rest stay as they were |
| SeedRows.SeededRole | scripts/casdoor/render-casdoor-seed.py:427-438 | a seeded role ends enabled, with its own names and without groups, subroles and domains |
| SeedRows.SeededOwners | scripts/casdoor/render-casdoor-seed.py:401-425 | the organization, application, model and, unless skipped, admin user end with the columns given, and no other row of these tables changes |
| SeedRows.OtherRules | scripts/casdoor/render-casdoor-seed.py:301-308 | under no generated id, exactly the rules of the SkillHub roles and permissions and on the SkillHub's resources go with cleaning on |
| SeedRows.SkillHubBecomesAihub | scripts/casdoor/render-casdoor-seed.py:270-320 | with the shipped roles, each of the three SkillHub roles is gone and its AIHub namesake has its own users, else those of the SkillHub role, else none |
| SeedRows.RolesHavePermissions | scripts/casdoor/render-casdoor-seed.py:120-181 | every shipped permission names roles that the seed writes, and every shipped role has one |
| SessionStore.MemoryStore.Create | internal/session/memory_store.go:30-54 | the error, or the stamped session stored after expired ones made room; a full store keeps what it had |
| SessionStore.MemoryStore.Get | internal/session/memory_store.go:56-72 | an unexpired session is returned, an expired one is deleted, a missing one changes nothing |
| SessionStore.MemoryStore.Delete | internal/session/memory_store.go:78-86 | exactly the named session is removed |
| SessionStore.MemoryStore.Touch | internal/session/memory_store.go:88-102 | an existing session's update and expiry times move, nothing else changes |
| SessionStore.MemoryStore.DeleteBySubject | internal/session/memory_store.go:104-119 | exactly the sessions of the subject are removed; a blank subject removes none |
| SessionStore.MemoryStore.CleanupExpired | internal/session/memory_store.go:132-147 | exactly the expired sessions are removed, and the count returned is their number |
| SessionRuns.SessionsAreJustified | internal/session/memory_store.go:30-147 | in every interleaving each stored session was created, has not been deleted since and carries the deadline of the last Create or Touch of it |
| SessionRuns.HitIsLive | internal/session/memory_store.go:30-147 | a successful Get at t implies an earlier Create, no Delete since, and t at most the last Create's or Touch's time plus its lifetime |
| SessionRuns.FoundIff | internal/session/memory_store.go:30-147 | in every interleaving and with any clock a lookup finds a session if and only if it was created, has not been deleted or swept after its deadline since, and its last deadline has not passed |
| SessionRuns.SizeIsBounded | internal/session/memory_store.go:30-54 | the store never holds more than 10000 sessions |
| SessionRuns.FullIff | internal/session/memory_store.go:30-54 | a session with an id is refused if and only if 10000 stand that are all unexpired |
| SessionRuns.DeletedStaysDeleted | internal/authn/service_impl.go:116-141 | with fresh ids a deleted session is never found again, whatever Get, Touch, sweep or deferred delete was under way |
| RedisSessions.KeysApart | internal/session/redis_store.go:164-170 | session keys and subject keys never coincide, and each determines its id or subject |
| RedisSessions.RedisStore.Create | internal/session/redis_store.go:61-84 | the session key and the subject set with its TTL after one pipeline; an empty id changes nothing |
| RedisSessions.RedisStore.Get | internal/session/redis_store.go:86-106 | a session is returned if and only if its key lives and its payload deadline has not passed; otherwise a stale one is deleted through the script |
| RedisSessions.RedisStore.Delete | internal/session/redis_store.go:20-34 | the script drops the key and its place in its subject's set, and nothing else |
| RedisAcceptance.DeletedStaysOut | internal/session/redis_store.go:112-119 | in every run no Get accepts a deleted session until it is created again |
| RedisAcceptance.DeleteTakesOne | internal/session/redis_store.go:112-119 | a Delete leaves every other session as acceptable as it was, at every time |
| RedisAcceptance.DeletedIsUnindexed | internal/session/redis_store.go:20-34 | a live session that is deleted leaves its subject's set and stays out until it is created again |
| RedisAcceptance.DeleteWorksIff | internal/session/redis_store.go:112-119 | a Delete of the very id that Get accepts works if and only if the id has no blanks around it |
| RedisSessions.RedisStore.Touch | internal/session/redis_store.go:121-133 | only the session key's expiry moves: payload and subject set stay as they are |
| RedisSessions.RedisStore.Drop | internal/session/redis_store.go:144-153 | the pipeline deletes the session keys of the ids it was given and the set of the subject |
| RedisSessions.RedisStore.DeleteBySubject | internal/session/redis_store.go:135-154 | with nothing between reading the set and the pipeline, exactly the members of the live subject set lose their session keys, and the set goes too |
| RedisRuns.SessionsAreTracked | internal/session/redis_store.go:61-154 | in every run each stored session carries the payload of its last Create, and is in its subject's live set if and only if no Create for the subject since came after the deadline the previous one had set, the last of these deadlines has not passed, and no second command of a DeleteBySubject has dropped the set |
| RedisRuns.DeletedIffCovered | internal/session/redis_store.go:135-154 | in every run DeleteBySubject removes an acceptable session of its subject under exactly that condition |
| RedisRuns.ScanIff | internal/session/redis_store.go:135-154 | deleting through the index leaves, now or later, exactly the acceptable sessions that the in-memory scan leaves if and only if the index covers each acceptable session of the subject |
| RedisRuns.AcceptableIsIndexed | internal/session/redis_store.go:121-154 | with deadlines that do not decrease, each session Get would accept is in the live subject set, although Touch extends only the session key |
| RedisRuns.DeleteBySubjectIsScan | internal/session/redis_store.go:135-154 | with deadlines that do not decrease, deleting through the index agrees with the in-memory scan at any later time |
| RedisRuns.EarlierDeadlineIff | internal/session/redis_store.go:61-84 | with two sessions of one subject, the first, still acceptable, is removed if and only if the second one's deadline has not passed |
| RedisRuns.CreateBetweenIsMissed | internal/session/redis_store.go:135-154 | a session created between the two commands of DeleteBySubject stays acceptable, and no later DeleteBySubject removes it |
| RedisAcceptance.AcceptsIff | internal/session/redis_store.go:61-154 | in every run Get accepts a session if and only if no step has taken it away since its last Create and neither the deadline of that Create nor the last lifetime of its key has passed |
| LoginStates.MemoryStateStore.Create | internal/authn/memory_state_store.go:35-52 | length check, room made by dropping expired states, capacity check, and the stored state with its expiry |
| LoginStates.MemoryStateStore.Consume | internal/authn/memory_state_store.go:54-72 | a state is handed out only unexpired and is gone afterwards in any case |
| LoginStates.MemoryStateStore.CleanupExpired | internal/authn/memory_state_store.go:81-96 | exactly the expired states are removed, and the count returned is their number |
| LoginRuns.CallbackMatchesLogin | internal/authn/service_impl.go:58-114 | an accepted callback gets what one earlier login stored, at most ten minutes before, with no callback on that state between |
| LoginRuns.StateAcceptedOnce | internal/authn/memory_state_store.go:54-72 | with fresh states no state is accepted by two callbacks, whatever is interleaved |
| LoginRuns.AcceptedIff | internal/authn/memory_state_store.go:35-96 | in every interleaving and with any clock a callback is accepted if and only if its state was stored at most ten minutes before and neither used nor swept since, and it gets that login's app and redirect |
| LoginRuns.RefusedIff | internal/authn/memory_state_store.go:35-52 | a login is refused if and only if its state is empty or longer than 128, or 10000 states stand that are all unexpired |
| SignInRuns.StoresSeeTheRun | internal/authn/service_impl.go:58-141 | a run over both stores is, seen from each store, a run of that store |
| SignInRuns.FoundComesFromLogin | internal/authn/service_impl.go:58-141 | in every interleaving a session found at t comes from one login and one callback at most ten minutes later; it has the app the login stored, its callback answered with the redirect the login stored, nothing has deleted it, and t is within its last deadline |
| SignInRuns.OpenedLifetime | internal/authn/service_impl.go:78-114 | an opened session lives for the configured time, counted between setting its deadline and storing it |
| SignInRuns.OneSessionPerState | internal/authn/service_impl.go:78-114 | with fresh states no two sessions come from the same login state |
| SignInRuns.LoggedOutStaysOut | internal/authn/service_impl.go:116-141 | after a logout the session is never found again, whatever logins, callbacks and lookups are under way |
| AuthnService.DefaultService.LoginURL | internal/authn/service_impl.go:58-76 | the store takes exactly one login step, with the app defaulting to portal |
| AuthnService.SubjectIdIs | internal/principal/mapper.go:10-33 | a user is known by the id, else by owner and name, marked human unless marked already; the part about a slash in the id does not matter |
| AuthnService.SameSubjectIff | internal/principal/mapper.go:25-31 | two users with ids are one subject if and only if the ids are equal up to the human mark |
| AuthnService.DefaultService.HandleCallback | internal/authn/service_impl.go:78-114 | the state is consumed on every path; for a valid state and user the session store takes exactly one Create of a session with the stored app, all other sessions as Create leaves them, and the answer is the stored redirect or the store's failure; otherwise no session changes |
| AuthnService.DefaultService.Current | internal/authn/service_impl.go:116-134 | a session is returned only if its deadline had passed neither at the lookup nor at the recheck; it is then touched when sessions slide, and a refused one is gone |
| AuthnService.DefaultService.Logout | internal/authn/service_impl.go:136-141 | exactly the named session is removed |
| GinMiddleware.KeyInjective | pkg/aisphereauth/gin/middleware.go:37-66 | for one app, session ids have different cache keys |
| GinMiddleware.PrincipalCache.Get | pkg/aisphereauth/gin/middleware.go:185-200 | an unexpired principal is returned, an expired entry is removed, a cache without TTL answers nothing |
| GinMiddleware.PrincipalCache.Set | pkg/aisphereauth/gin/middleware.go:202-209 | a principal is stored with its expiry; a missing principal or a cache without TTL stores nothing |
| GinMiddleware.RequireLogin | pkg/aisphereauth/gin/middleware.go:37-66 | no session id is refused; a cached principal is let through without asking; otherwise the introspection decides and only its success is stored |
| RequireLoginRuns.EntriesAreRemembered | pkg/aisphereauth/gin/middleware.go:185-209 | in every run each cached principal was stored by an earlier step for what an introspection of that session had found |
| RequireLoginRuns.LogoutTakesEffect | pkg/aisphereauth/gin/middleware.go:37-66 | after a logout introspection never succeeds again, and the cache serves the session for at most its TTL plus the time between introspecting and storing |
| RequireLoginRuns.LateRunServes | pkg/aisphereauth/gin/middleware.go:37-66 | that bound is reached at every latency, by a logout between introspecting and storing |
| RequireLoginRuns.ServesLateIff | pkg/aisphereauth/gin/middleware.go:37-66 | some run serves a session later than the TTL after its logout if and only if caching is on and storing an answer takes time |
| RequireLoginRuns.ServedPrincipal | pkg/aisphereauth/gin/middleware.go:37-66 | what is served from the cache is the principal the session was created with |
| RequireLoginRuns.ServedIff | pkg/aisphereauth/gin/middleware.go:160-209 | in every run the cache serves a session if and only if caching is on and a principal was stored for it at most the TTL, by default five seconds, before |
| DecisionCache.KeyInjective | internal/authz/cache.go:86-88 | keys tell requests apart when subject and object hold no NUL |
| DecisionCache.SetsKeepsSize | internal/authz/cache.go:45-84 | whatever Set may leave is within the bound |
| DecisionCache.LeastGoes | internal/authz/cache.go:45-84 | if Set loses an unexpired entry, the cache was full, it is the only one, and no other that stays expires earlier |
| DecisionCache.Cache.Get | internal/authz/cache.go:26-43 | the unexpired decision under the request's key, if any; an expired entry is deleted |
| DecisionCache.Cache.Set | internal/authz/cache.go:45-59 | the new entry on top of the items that expiry and, if still full, the eviction of one entry of least expiry leave |
| DecisionCache.Cache.CleanupExpired | internal/authz/cache.go:61-70 | exactly the expired entries are removed, and the count returned is their number |
| DecisionCache.Cache.EvictOne | internal/authz/cache.go:72-84 | exactly one entry goes, and none that stays expires earlier |
| DecisionRuns.SizeIsBounded | internal/authz/cache.go:45-84 | in every interleaving the cache holds at most its bound |
| DecisionRuns.StoredIsSet | internal/authz/cache.go:45-59 | each storing step of a run is one that Set may take |
| DecisionRuns.ServedWithinTTL | internal/authz/service_impl.go:85-109 | under a changing policy an answer from the cache carries the Allow that the enforcer returned without an error for a request with the same key, the same subject, object and action if the fields are clean, stored at most the TTL ago |
| DecisionRuns.AnswersIff | internal/authz/cache.go:26-84 | in every interleaving the cache answers if and only if an answer was stored under the request's key at most the TTL ago and has not been dropped, swept or evicted since |
| DecisionRuns.FixedPolicyIsFilled | internal/authz/service_impl.go:85-109 | under a fixed policy every interleaving leaves only answers to the requests asked, so that checks agree with caching off |
| AuthzService.BuiltinRoleAllows | internal/authz/service_impl.go:113-149 | the loop returns the first of the principal's normalized roles that allows the action on the object |
| AuthzService.AllowedIff | internal/authz/service_impl.go:33-111 | without a cached answer a complete request is allowed if and only if some role allows it, or a grant does, or no matched grant denies it and the enforcer allows it |
| AuthzService.FailsIff | internal/authz/service_impl.go:33-98 | whom and what the enforcer is asked about, and that a check fails if and only if one of the three is missing or the enforcer, when reached, fails; a failed check never allows |
| AuthzService.SourceTells | internal/authz/service_impl.go:33-111 | the source of a decision tells which layer gave it, and the rest of it is the request's |
| AppRoles.SeededRoleAllowsIff | internal/authz/service_impl.go:113-190 | the exact rights of a role named as the seed names them, under any organization: its own application's read or write actions, and for an admin role of any application every object named after the one asked for |
| AppRoles.MatchesIff | internal/authz/service_impl.go:169-171 | of the five names that stand for an application's role, which a seeded role's name can be |
| AppRoles.ScopedRole | internal/authz/service_impl.go:151-159 | the organization before the last slash of a role means nothing, whatever it holds |
| AuthzService.CacheKeyInjective | internal/authz/service_impl.go:85-91 | cache keys determine app, subject, object and action when the app holds no bar or NUL and subject and object no NUL |
| AuthzService.TransparentIff | internal/authz/service_impl.go:85-109 | for a set of requests, under every policy and every cache filled by answers to them, each is decided as with caching off if and only if no two of them that reach the cache share a key and differ in subject, object or action |
| AuthzService.ClashAllowsWrongly | internal/authz/service_impl.go:85-109 | two such requests give a policy that denies one of them and a cached answer to the other that allows it |
| AuthzService.CleanIsClashFree | internal/authz/service_impl.go:85-91 | requests whose app holds no bar or NUL and whose subject and object hold no NUL never clash |
| AuthzService.BarAllowsWrongly | internal/authz/service_impl.go:85-91 | for every app a, text b and subject s, what app a was told about subject b, bar, s is served to app a, bar, b for subject s although the policy denies it |
| AuthzService.BarServesOtherApp | internal/authz/service_impl.go:33-111 | the same reached by the service from an empty cache: two checks within the TTL, of which the second is allowed although the enforcer denies it |
| AuthzService.DecideAgrees | internal/authz/service_impl.go:33-111 | a check of one of a set of requests without clashes, in front of a cache of answers to them, returns the Allow, subject, object, action and error of the check without a cache |
| AuthzService.SetKeepsFilled | internal/authz/service_impl.go:100-109 | storing the enforcer's answer to a request, with whatever expiry and eviction that takes, leaves a cache of answers to the requests |
| AuthzService.DefaultService.CheckCached | internal/authz/service_impl.go:85-111 | cache hit, enforcer error or enforcer answer, and exactly when the answer is stored: never for an error, only with a TTL of at most a minute |
| AuthzService.DefaultService.Check | internal/authz/service_impl.go:33-111 | the layers decide in order, and no layer before the cache touches it |
| AuthzService.DefaultService.BatchCheck | internal/authz/service_impl.go:192-204 | caching is transparent: a batch out of a set of requests without clashes gets the answers and the error it would get with caching off, whatever answers to them the cache holds, expires or evicts |
| AuthzService.BatchIs | internal/authz/service_impl.go:192-204 | without a cache a batch is the views of its checks in order, up to the first failing one with FailClosed, and all of them without |
| Text.TrimSpaceKeeps | internal/iam/service.go:363-364 | trimming drops blanks on either side and stops at printed characters |
| Text.LowerIsLower | internal/iam/service.go:363-364 | lower-casing leaves no capital and changes nothing but capitals |
| Grants.PrepareGrantForSave | internal/iam/service.go:134-167 | the stored form of a grant: normalized fields, default app, effect and id, object derived when blank |
| Grants.MemoryService.SaveResourceGrant | internal/iam/service.go:33-40 | the prepared grant is stored under its id and no other changes |
| Grants.MemoryService.DeleteResourceGrant | internal/iam/service.go:42-47 | exactly the grant with the trimmed id is removed |
| Grants.MemoryService.CheckResourceGrant | internal/iam/service.go:81-132 | the loop over the unordered map returns a decision that is possible for those grants |
| GrantOrders.PossibleIffSomeOrder | internal/iam/service.go:81-132 | a decision is possible if and only if scanning the grants in some order gives it |
| GrantOrders.ScanMatches | internal/iam/service.go:81-132 | in every order a grant is matched if and only if some unexpired grant targets resource, subject and action, and Allow is that grant's not being a deny |
| GrantOrders.OrderIndependentIff | internal/iam/service.go:81-132 | the answer is the same in all orders if and only if all applicable grants agree on being deny or not |
| GrantOrders.ScanReasons | internal/iam/service.go:81-132 | the reason tells a missing action, no match, an allow and a deny apart |
| GrantPatterns.ObjectMatchTransitive | internal/iam/service.go:207-217 | what a covered pattern matches, the covering pattern matches |
| GrantPatterns.HierarchyIsPartialOrder | internal/iam/service.go:280-287 | non-empty trimmed group paths are partially ordered by coverage |
| GrantPatterns.RoleCoverage | internal/iam/service.go:289-339 | a role covers exactly the actions it lists, except that admins cover all and whoever may run may use |
| GrantPatterns.RolesAreNested | internal/iam/service.go:289-339 | for every action string, what a viewer may do an editor may do, and what an editor may do an admin may do |
| GrantSaving.ParsePrinted | internal/iam/service.go:355-361 | parsing inverts printing of an object, colons in the id included |
| GrantSaving.SavedApplies | internal/iam/service.go:134-167 | a saved unexpired user allow grant with a blank object applies to each action its role or list covers |
| GrantSaving.SaveThenCheck | internal/iam/service.go:81-167 | after saving it, with no applicable deny, a check on the printed object allows each such action in every order of the stored grants |
| GrantRights.SavedAppliesIff | internal/iam/service.go:81-167 | a saved user grant applies to a check on its object if and only if it is unexpired, the check is in the user's name, and its role's table or its actions cover the action |
| GrantRights.AppliesUntil | internal/iam/service.go:341-343 | a deadline limits a grant to the times up to it and does nothing else; a grant without one never ends |
| GrantRights.TargetsSubjectIff | internal/iam/service.go:219-278 | whom a grant of each kind is for, in terms of the names, organizations, projects and groups of the request |
| GrantRights.SlashesMeanNothing | internal/iam/service.go:280-287 | slashes around a group's path mean nothing |
| GrantRights.RoleTable | internal/iam/service.go:307-339 | which actions each role covers, and that an unknown one may read |
| GrantRights.PatternTable | internal/iam/service.go:307-322 | what each kind of action pattern covers |
| GrantRights.PatternCoversIff | internal/iam/service.go:207-217 | a printed wildcard covers the objects of its own app and type and no others |
| GrantRights.TargetsOneIff | internal/iam/service.go:191-205 | a grant on one resource is for a request if and only if the request names no other app, type, id or object |
| GrantRights.ObjectFillsIn | internal/iam/service.go:81-110 | what a check takes from the object it names, and what the request's own fields override |
| GrantRights.SavedTwice | internal/iam/service.go:134-167 | saving again what was saved changes the update time alone |
| GrantRights.SavedDeniesIff | internal/iam/service.go:134-167 | a saved grant denies if and only if it was said to, whatever the capitals and blanks |
| GrantsPostgres.PgGrantWhere | internal/iam/postgres.go:260-279 | the conditions built clause by clause hold of exactly the grants that match the query |
| GrantsPostgres.PostgresService.SaveResourceGrant | internal/iam/postgres.go:162-174 | insert, or update that keeps the row's place and creation time; other rows unchanged |
| GrantsPostgres.PostgresService.DeleteResourceGrant | internal/iam/postgres.go:176-179 | exactly the row with the trimmed id is removed |
| GrantsPostgres.PostgresService.ListResourceGrants | internal/iam/postgres.go:181-213 | the page of the filtered, ordered rows and their full count |
| GrantsPostgres.PostgresService.CheckResourceGrant | internal/iam/postgres.go:215-258 | the loop over the prefiltered page returns the specified decision |
| PostgresAgreement.OrderRowsOrders | internal/iam/postgres.go:181-213 | the listing is a permutation of the rows, ordered by update time and id, latest first |
| PostgresAgreement.ListedNewestFirst | internal/iam/postgres.go:181-213 | a listing is all matching rows, none older than the next by update time and then by serial number |
| PostgresAgreement.ListingTiles | internal/iam/postgres.go:181-213 | successive pages of an unchanged table tile the listing without gap or overlap |
| PostgresAgreement.ListingBounds | internal/iam/postgres.go:181-213 | a page holds at most what was asked for, at most 500, and by default 100, and tells how many rows match |
| PostgresAgreement.SavedIsFoundIff | internal/iam/postgres.go:260-279 | asking with the fields of one grant finds another that was saved if and only if they agree in each of the eight |
| PostgresAgreement.ReadBackAsSavedIff | internal/iam/postgres.go:162-174 | when a stored grant is read back exactly as it was saved |
| PostgresAgreement.SavedIsConcrete | internal/iam/service.go:134-167 | saving a grant on one resource without an object of its own stores a concrete grant |
| PostgresAgreement.CheckTakesFirst | internal/iam/postgres.go:215-258 | the check matches the first applicable of the first 500 matching rows, or none if none applies |
| PostgresAgreement.CheckIsExact | internal/iam/postgres.go:215-258 | whatever the grants and the request, with at most 500 matching rows the check matches if and only if some applicable grant passes the prefilter, and takes the one with greatest update time and id |
| PostgresAgreement.CheckReaches | internal/iam/postgres.go:215-258 | whatever the number of matching rows, the check matches if and only if some applicable grant that passes the prefilter has fewer than 500 matching rows before it, and takes the latest that passes |
| PostgresAgreement.CheckTakesNewest | internal/iam/postgres.go:181-258 | the row that the check takes was updated no earlier than any other visible one, and among equals has the greatest serial number |
| PostgresAgreement.SaveDecides | internal/iam/postgres.go:162-258 | over the service: a grant saved after all others decides the checks that it applies to, by its own effect, whatever else the table holds |
| PostgresAgreement.LatestIsUnique | internal/iam/postgres.go:181-213 | in a table with unique serial numbers there is only one such row |
| PostgresAgreement.PrefilterDrops | internal/iam/postgres.go:260-279 | the prefilter drops exactly the grants whose app, type or id differs from the one asked for |
| PostgresAgreement.ServicesDifferIff | internal/iam/postgres.go:215-258 | for the same grants one service matches and the other does not if and only if some grant applies and every one that does is dropped by the prefilter or has 500 matching rows before it |
| PostgresAgreement.PostgresAgreesWithScan | internal/iam/postgres.go:215-258 | for coherent requests, concrete grants and at most 500 matching rows, it matches if and only if some grant applies, and takes the applicable one with greatest update time and id |
| PostgresAgreement.PostgresAgreesWithMemory | internal/iam/postgres.go:215-258 | under the same conditions it matches if and only if the in-memory check of the same grants does |
| AuditLog.MemoryService.constructor | internal/audit/memory.go:28-34 | an empty open log with a positive bound |
| AuditLog.MemoryService.Write | internal/audit/memory.go:36-54 | the event is normalized, and the buffer holds the last events of the unbounded log, in order, after every write; a closed log takes none |
| AuditLog.MemoryService.ShiftLeft | internal/audit/memory.go:44-47 | the in-place copy moves every event one place down |
| AuditLog.MemoryService.Close | internal/audit/memory.go:92-97 | the log is closed and keeps every event |
| AuditLog.MemoryService.List | internal/audit/memory.go:56-88 | exactly the offset and limit slice of the matching events, newest first, with the full count of matches |
| AuditLog.NewestIsReversed | internal/audit/memory.go:56-88 | the matching events newest first are the filtered log back to front |
| AuditLog.NewestMatchingExact | internal/audit/memory.go:127-145 | an event is listed if and only if it is in the log and passes every filter |
| AuditLog.WrittenIsFoundIff | internal/audit/memory.go:99-145 | asking with the fields of one event finds another that was written if and only if they agree in each of the nine, blanks meaning nothing |
| AuditLog.WrittenStays | internal/audit/memory.go:99-125 | writing again what was written changes nothing |
| AuditLog.LastIsFirst | internal/audit/memory.go:36-88 | what was written last is the first on the first page of whoever asks for it |
| Paging.PagesTile | internal/audit/memory.go:66-82 | successive pages of an unchanged log tile the result without gap or overlap |

## Conditions the results carry

- Fresh ids and states: `SessionRuns.FreshIds`, `LoginRuns.FreshStates`. Both are random in the
  source.
- Runs of the Redis store have a clock that does not go back; against the in-memory scan an id also
  belongs to one subject. `ValidRun`, deadlines that do not decrease and no second command of a
  DeleteBySubject on its own, is asked for only by `AcceptableIsIndexed` and
  `DeleteBySubjectIsScan`; the other results say what happens without it.
- `NoClash` for sets of requests, which `CleanIsClashFree` gives for clean fields and
  `TransparentIff` shows to be needed.
- `WellFormedFile`: the text between literals is plain, and no two literals touch. Nothing is asked
  of the values.
- `SafeArgs`, `SafeRows`, `SafeRole`, `SafeSpec`: no text ends in a backslash. `FitLayout`: columns are
  plain words, and of the columns of roles and permissions only `is_enabled` may be unquoted.
- `ListsColumns`: each table lists a column that the seed writes and updates. Where none is listed an
  upsert's text ends in a blank, which the importer strips.
- The words in `AppRoles` are of small letters; the application of a seeded role does not hold
  "admin".
- `Coherent` requests have no object or one that parses into app, type and id; `Concrete` grants
  have no wildcard and the object derived from their fields, as `SavedIsConcrete` provides.
  `CheckReaches` and `ServicesDifferIff` hold without them, in tables with unique serial numbers.
- `NoLegacyNames` for role lists; the shipped list has it.

## Left out

- SeedText.SeedReadBackIff: the order of columns and the unquoted columns of each table are a parameter.
- SessionStore.MemoryStore.Get: runs its read section and its delete section one after the other; SessionRuns takes them apart.
- DecisionCache.Cache.Get: the same; DecisionRuns takes the sections apart.
- RedisSessions.RedisStore.Get: runs the read and the deleting script one after the other; in RedisRuns the script is also a step of its own.
- RedisSessions.RedisStore.DeleteBySubject: nothing comes between its two commands; Drop is the second one on its own. Server and client share one clock, and a key lives exactly its lifetime, so a lifetime of zero, which means no expiry to the client library, is not captured.
- SignInRuns.OneSessionPerState: assumes fresh states; the generator is not modelled.
- AuthzService.DefaultService.BatchCheck: a decision's source, reason and scope fields may differ with caching on, as they do in the source, so the agreement is on Allow, subject, object, action and error.
- HTTP handlers, Gin routing, cookies, JSON encoding, server start and stop: plumbing over libraries.
- The identity provider's and the policy enforcer's network clients: their answers are parameters.
- Contexts and their cancellation, real clocks, ticker goroutines: each step is given its time.
- Rounding of float64 in the token bucket: tokens are counted exactly in units of 1e-9.
- Pointers shared between callers and stores: buckets and sessions are values in maps, so that aliasing of a returned session is not captured. The audit buffer is an array of the full size from the start; growth of a Go slice is not captured.
- The redirect, client-IP and trusted-proxy rules: they rest on library parsers that are not in the repository.
- Random ids, hashing and secrets.
- The in-memory listing of grants, whose sort by creation time is not stable, and internal/iam/mysql.go, which repeats the Postgres code.
- The Redis store of login states.
- SQL collation, case-insensitive comparison in the database, and case folding beyond ASCII.
- Column texts of the organization, application, user and model rows: parameters of the seed results, which hold for all of them. The admin-user-only mode of the renderer, which is two upserts.
- A principal has its subject and app only; its other details pass through the source unread.
- Configuration loading, installers, command lines and the execution of MySQL.
- `strip_mysql_dump_boilerplate`, `find_insert_statement` and `build_data_only_sql`: the first drops the lines of a dump that name a database, a lock or a replication setting, the second finds a table's insert by a regular expression, the third copies the rows that hold a keyword.
