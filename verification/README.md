# Fleet360 backend: a Dafny model

Fleet360's Go backend holds several small cores that decide things over whole runs: who is
still signed in, whose rows a statement may see, what a permission claim grants, when a
customer is told about a new arrival time, whether an audit log was edited. Each module here
models one of them and proves what its callers rely on, for every input, run or interleaving.

| module | models |
|---|---|
| `Revocation` | the cache in front of the session revocation table, under any interleaving of calls |
| `TenantTx` | one request's transaction, savepoints and held-back response |
| `ConnectionPool` | many requests over shared connections carrying `app.tenant_id` |
| `Policy`, `PolicyPaths`, `PolicyDocument` | route areas, permissions with aliases and wildcards, the decision; what a path and a verb ask for; reading the policy document |
| `PermissionClaim`, `Base64Url`, `Fnv` | the bitset permission claim, its signer and reader, catalogue growth, and the hash behind catalogue versions |
| `Geofence` | nearest point of a route, fence events over whole runs of pings |
| `EtaNotify` | when the customer is told about a new arrival time |
| `ExceptionDedup` | the five-minute dedup window of geofence exceptions |
| `AuditChain` | the hash-chained audit log and its verifier |
| `DistMatrix` | the chunked distance matrix |
| `SqlComments` | the comment stripper of the migration check |
| `SlaAlerts` | SLA alerts folded from two sources |
| `RouteOpt` | pickup-and-delivery routes: savings merges, 2-opt, vehicle assignment |
| `Accessorials` | automatic extra charges and their tax |
| `StableSort`, `Rounding`, `Strings` | sort.SliceStable, math.Round and the string operations the others use |

The pattern is the same throughout. Code that changes things step by step is a class or a method
with loops, proved equal to a function of its inputs or of the old state; code that computes is a
function; the lemmas then say what that function is worth to a caller.

Times are integers (nanoseconds unless a module says otherwise), distances and money are exact
reals, tables are sequences or maps. Clocks, the database's answers, the matrix service,
great-circle distance, hashes and text formats are parameters. SHA-256 is taken to be injective.
FNV-1a is computed as the code computes it; the results about claims hold for any digest in its
place, and where a collision of versions matters it is a named condition.

## Where the code differs from its documentation

- The audit package says a nightly `VerifyChain` must return 0 (backend/audit/audit.go:200-202).
  `Write` hashes the time with nanoseconds and the metadata as given, while the table keeps
  microseconds and normalised JSON, so the verifier recomputes from something else.
  `AuditChain.VerifierPassesExactly` gives the exact condition, and
  `AuditChain.NanosecondsBreakTheChain` a family of logs that fail it.
- The same package says verifying proves that no historical row was tampered with
  (backend/audit/audit.go:11-14). Rows are checked one at a time, so a removed row does not show
  (`AuditChain.DeletionDoesNotShow`). A row's action, target type, target ID and outcome are run
  together with bars, so they can be rearranged unseen exactly when one of them holds a bar
  (`AuditChain.RearrangeableExactly`, and `AuditChain.AnUnseenEdit` for logs written by `Write`).
  A bar in the metadata does no harm, and metadata that is JSON cannot be changed unseen
  (`AuditChain.JsonEditsLookAlikeExactly`).
- The distance matrix handles "the 25-points-per-call limit" by chunking
  (backend/distmatrix/distmatrix.go:12-13, 35). Every chunked call still names the coordinates of
  all n points (lines 161, 166-167). Under a limit on the points a call names, more than 25 points
  therefore end in an error after the first call (`DistMatrix.PointLimitShows`); under a limit on
  sources and destinations the chunking works for every n (`DistMatrix.SideLimitIsInvisible`).
  `DistMatrix.DirectExactlyWithinTheLimit` covers any other limit.
- A revocation "reaches this backend within that interval" (backend/auth/revocation.go:11-14).
  The upsert stores whatever moment it is given, read from a clock before the statement
  (src/lib/auth/session-revocation.ts:50-57), so two writers can commit in the other order of their
  moments. `Revocation.RevocationReachesExactly` gives the exact condition: Recheck after the last
  commit that concerns the user, a revocation has reached the backend if and only if some row of the
  table that matches still records its moment or a later one. `Revocation.EarlierMomentUndoes` is a
  run in which none does, with every moment read before its commit.
- A query on the bare pool is said to see nothing (backend/auth/tenant_tx.go:16-19). That is so for
  tables whose policy does not share rows without a tenant, the rule since
  prisma/migrations/20260910000000_remove_null_tenant_escape/migration.sql:1-25 took that branch away
  wherever it could. Policies that keep it, such as that of session_revocations
  (prisma/migrations/20260929090000_session_revocations/migration.sql:48-50), show such rows to
  everybody; and every policy shows every row to the setting '*'. The switch is per table:
  `ConnectionPool.SeesForeignRowsExactly` and `ConnectionPool.BarePoolSeesSharedRowsOnly` say
  exactly what is seen either way.
- The comment stripper is called quote-aware (scripts/check-destructive-migrations.js:87-92). It
  takes a backslash to escape a mark, as PostgreSQL's standard strings do not, and does not nest
  comments. `SqlComments.ReadsLikePostgresExactly` says exactly when both read a text alike, and
  `SqlComments.AStatementIsBlanked` shows text that PostgreSQL runs and the guard does not see.
- 2-opt looks at order and length alone (backend/routeopt/routeopt.go:370-397) and can turn a route
  that a vehicle carries into one that it does not (`RouteOpt.TwoOptCanOverload`); its shipments are
  then left unassigned when no larger vehicle is free.
- The SLA list says it keeps "the most severe, then the most overdue" deadline per shipment
  (backend/handlers/logistics_sla.go:28-31). That holds of the grade. The deadline printed is the
  first one read of that grade (`SlaAlerts.FirstReadIsPrinted`, and for a query without an order
  `SlaAlerts.PrintedIsEarliestInAnyOrder`), so a delivery window is printed
  before an earlier exception of its grade (`SlaAlerts.WindowIsPrintedFirst`,
  `SlaAlerts.ALaterDeadlineIsPrinted`).
- Two stops of one kind entered by the same ping share a type code, so they get one exception row
  (`ExceptionDedup.TwoStopsOneRow`); `ExceptionDedup.EveryEventGetsARowExactly` says when every
  event gets its own.

## Model

| member | source | states |
|---|---|---|
| Revocation.CachingRevocationChecker.RevokedSince | backend/auth/revocation.go:75-116 | One call alone: reads the table exactly when its entry is missing or at least Recheck old, refuses exactly tokens issued before the moment's whole second, keeps the last known value on a database error, caches under the time taken before the read, and keeps the cache within its limit |
| Revocation.EffectiveRecheck | backend/auth/revocation.go:80-83 | The interval in force is always positive: the one configured, or 60 seconds |
| Revocation.VerdictMeaning | backend/auth/revocation.go:109-115 | A token is refused exactly when there is a moment and the second the token was issued in was over by it |
| Revocation.LoneCallMeaning | backend/auth/revocation.go:75-116 | What one call goes by, whether it refuses, fails, and what it leaves in the cache: a token issued in the revocation's own second is accepted, one of the second before is refused |
| Revocation.StoredIsBounded | backend/auth/revocation.go:101-106 | A store leaves at most 10000 entries, always holds the new one, keeps all others while there is room and drops all others when there is none |
| Revocation.KeyInjective | backend/auth/revocation.go:84 | No two (user, tenant) pairs share a cache entry |
| Revocation.LatestIsRight | backend/auth/revocation.go:131-141 | The table read is at least every matching revocation committed so far that no later commit took back, and is a committed one or none |
| Revocation.InvHolds | backend/auth/revocation.go:75-116 | The step machine's invariant over every legal run: every cache entry and every call in flight holds an answer the table gave no earlier than its clock reading |
| Revocation.AnswersAreFresh | backend/auth/revocation.go:11-16 | Under any interleaving and whatever moments are recorded, a call whose own read, if any, succeeded works with the answer the table had at some time less than Recheck before the call began, or later |
| Revocation.QuietCallsAreExact | backend/auth/revocation.go:75-116 | Once every commit that concerns a call is Recheck old, a call whose own read did not fail works with exactly what the table holds, however calls interleave |
| Revocation.RevocationReachesExactly | backend/auth/revocation.go:11-14 | Then a moment has reached the call if and only if a matching row records it or a later one, and the token is refused if and only if the second it was issued in was over by a matching row's moment; for a token of whole seconds, if that moment is at least a second later |
| Revocation.BoundedStaleness | backend/auth/revocation.go:11-14 | Under any interleaving, stores out of order included: a call that began at least Recheck after a revocation and whose own read, if any, succeeded works with a moment at least as late and refuses every token issued in an earlier second, provided every version of the table in force since Recheck before the call answers at least that moment |
| Revocation.StandingPrevails | backend/auth/revocation.go:131-141 | That is so when no later commit of the revocation's own scope records an earlier moment |
| Revocation.EarlierMomentUndoes | src/lib/auth/session-revocation.ts:50-57 | A run, every moment read before its commit, in which two commits in the other order of their moments let a revoked token pass on a fresh read, whatever Recheck is |
| Revocation.RefusalIsGrounded | backend/auth/revocation.go:12-16 | No call, failed reads included, refuses a token that no committed matching revocation covers |
| Revocation.CacheStaysBounded | backend/auth/revocation.go:73 | The cache never holds more than 10000 entries in any run |
| Revocation.StalenessBoundIsTight | backend/auth/revocation.go:96 | For every setting there is a run, the moment read before its commit, in which a call one nanosecond inside the interval still accepts a revoked token |
| Revocation.SerialCallIsTheMethod | backend/auth/revocation.go:75-116 | A call that runs alone through the machine comes to the same function of cache, clock and read as the class method |
| TenantTx.Request.TenantDB | backend/auth/tenant_tx.go:101-124 | Opens the transaction once, on first use, and only for a request with a tenant; a failed BEGIN or set_config refuses every statement |
| TenantTx.Request.Try | backend/auth/tenant_tx.go:128-130 | A savepoint, proved equal to the reference account: a failing or panicking function is undone, a succeeding one kept |
| TenantTx.Request.Run | backend/auth/tenant_tx.go:61 | Running any tree of handler operations does what the reference account says and sends nothing |
| TenantTx.Request.Commit | backend/auth/tenant_tx.go:67-71 | Publishes the whole log or nothing, and settles the transaction either way |
| TenantTx.Request.Rollback | backend/auth/tenant_tx.go:90-95 | Settles an open transaction once and leaves the committed data alone |
| TenantTx.Request.Send | backend/auth/tenant_tx.go:162-167 | Sends exactly the held response, and can only be reached with no transaction left to settle |
| TenantTx.Request.Handle | backend/auth/tenant_tx.go:42-77 | The middleware: database, answer and number of settlements are those of the reference account for every handler and every database answer |
| TenantTx.SavepointSemantics | backend/auth/tenant_tx.go:126-130 | At any nesting the transaction holds exactly the writes of the non-failing frames in order, or is aborted exactly when a statement failed outside every failing Try |
| TenantTx.SavepointSemanticsOp | backend/auth/tenant_tx.go:126-130 | The same for one operation |
| TenantTx.FailingTryRestores | backend/auth/tenant_tx.go:126-130 | A failing or panicking Try leaves the transaction exactly as it was, and usable |
| TenantTx.PlayKeepsLog | backend/auth/tenant_tx.go:31-32 | Nothing in a live transaction's log is ever lost to later operations, and an aborted transaction takes nothing more |
| TenantTx.ResponseIsWhatWasSaid | backend/auth/tenant_tx.go:133-153 | The response held back is what the handler wrote in the frames it entered: each header replaces the status, each write adds to the body; and it panics exactly when one of those frames does |
| TenantTx.HandlerIsPlayed | backend/auth/tenant_tx.go:61-75 | For a whole request: panic, status, body and whether a transaction was begun are those read off the handler's operations, 200 and no bytes at first |
| TenantTx.AllOrNothing | backend/auth/tenant_tx.go:23-29 | The surviving writes land together, or the database is as it was; they land exactly when the handler does not panic, its last header is below 400, the database begins, binds and commits, and no statement failed unguarded |
| TenantTx.HonestAnswer | backend/auth/tenant_tx.go:23-29 | The whole answer, said of the handler's own operations: nothing after a panic, the 500 in place of a success exactly when it could not be committed, and otherwise the last header and every byte written; below 400 after a begin exactly when the writes landed; one settlement |
| TenantTx.ErrorStatusLandsNothing | backend/auth/tenant_tx.go:65-66 | A handler whose last header is 400 or more leaves the database as it was, and that answer is sent |
| TenantTx.UnguardedFailureIs500 | backend/auth/tenant_tx.go:31-32 | A statement failing outside every failing Try turns a success into the 500 answer and leaves the database alone |
| ConnectionPool.InvHolds | backend/auth/tenant_tx.go:42-124 | Over every interleaving, cancelled request contexts included: connections are exclusive, each fits the phase of its request, the pool is clean |
| ConnectionPool.EveryStatementRunsAsItsTenant | backend/auth/tenant_tx.go:16-22 | Every statement of every request runs with app.tenant_id equal to that request's tenant, and one on the bare pool runs with none |
| ConnectionPool.TheLogIsWhatWasSent | backend/auth/tenant_tx.go:16-22 | Over every run the database executes exactly the statements sent, in order, each of a request under the tenant that request came with |
| ConnectionPool.StatementsAreInsideTheTransaction | backend/auth/tenant_tx.go:101-124 | A request's statement runs only after its BEGIN and its set_config succeeded, and before its transaction is settled or cancelled |
| ConnectionPool.NoConnectionIsLost | backend/auth/tenant_tx.go:42-124 | At any time the live connections are those in the pool and those held by a request, so when no request holds one the pool has them all |
| ConnectionPool.ConnectionsAreExclusive | backend/auth/tenant_tx.go:114-122 | No connection serves two requests, or a request and the pool, at once |
| ConnectionPool.PooledConnectionsAreClean | backend/auth/tenant_tx.go:16-22 | A connection in the pool carries no setting and no open transaction, whether it came back by commit, failed commit, rollback, panic or a cancelled context |
| ConnectionPool.OverIsSilent | backend/auth/tenant_tx.go:116 | A request whose transaction was settled, or taken away with its context while the request still holds it, never reaches the database again, whatever its old connection serves next |
| ConnectionPool.OnlyLocalSettingsAreSafe | backend/auth/tenant_tx.go:20-22 | A served connection goes back clean if and only if the setting was transaction-local |
| ConnectionPool.SeesForeignRowsExactly | prisma/migrations/20260929090000_session_revocations/migration.sql:48-50 | In any run a request's statement sees a row exactly when it is its tenant's, or its tenant is '*', or the row has no tenant and the table's policy shares such rows |
| ConnectionPool.BarePoolSeesSharedRowsOnly | prisma/migrations/20260929090000_session_revocations/migration.sql:48-50 | A statement on the bare pool sees exactly the shared rows without a tenant, and so nothing under a policy that shares none |
| StableSort.SortPermutes | backend/authz/policy.go:84-85 | Sorting keeps every element, as often as it came |
| StableSort.SortOrdered | backend/authz/policy.go:84-85 | The result is in order for any strict weak order |
| StableSort.SortKeepsTies | backend/authz/policy.go:84-85 | Elements that tie keep their input order |
| StableSort.SortIsTheOnlyStableSort | backend/authz/policy.go:84-85 | Any ordered sequence with the same ties in the same order is this one, so the function stands for the library call |
| Strings.ParseJoin | backend/authz/policy.go:106-107 | Joining a triple with colons and splitting it in three gives it back when the first two names are colon-free |
| Strings.JoinedIffParsed | backend/authz/policy.go:106-107 | Comparing with a joined triple is the same as parsing and comparing names |
| Strings.SplitJoined | backend/authz/policy.go:362-363 | Splitting cuts at every separator and only there |
| Strings.JoinedSplit | backend/authz/policy.go:362-363 | Joining what was split gives the text back, and no part holds a separator |
| Strings.TrimRightMeaning | backend/authz/policy.go:174 | TrimRight takes off the slashes at the end, all of them and nothing else |
| Strings.TrimSpaceMeaning | backend/authz/policy.go:336 | TrimSpace keeps what lies between the first and the last character that is no space |
| Strings.ToUpperMeaning | backend/authz/policy.go:202 | A text in capitals is a given word exactly when they agree letter by letter in either case |
| Strings.ContainsMeaning | backend/authz/policy.go:196 | Contains holds exactly when the part stands somewhere in the text |
| Policy.LongestAreaWins | backend/authz/policy.go:170-181 | The area of a path is a listed prefix covering it by whole segments, and every other covering prefix is a prefix of it |
| Policy.ListingOrderIsIrrelevant | backend/authz/policy.go:84-85 | Listing the same prefixes in another order changes no path's area |
| Policy.SortKeepsFirstWithPrefix | backend/authz/policy.go:183-193 | Of two areas with one prefix the one listed first gives the rule, before and after sorting |
| Policy.UncoveringAreaIsHarmless | backend/authz/policy.go:324-332 | Adding an area that does not cover a path, anywhere in the document, never changes that path's decision |
| Policy.JoinedComparisonIsMatching | backend/authz/policy.go:252-266 | The joined-string comparisons are wildcard matching on triples |
| Policy.HasPermissionMeaning | backend/authz/policy.go:252-266 | HasPermission holds exactly when some held string grants the action and resource under the module or an alias |
| Policy.HoldsAnyResourceMeaning | backend/authz/policy.go:268-278 | The prefix test holds exactly when some held string names the module and action with any resource, or grants everything |
| Policy.ModuleRuleMeaning | backend/authz/policy.go:362-399 | A module rule allows if and only if the role is the platform's, or it is of the right tenant, carries a claim, is not stopped by the trial limit, and holds a string authorizing what the rule requires |
| Policy.EveryModuleAllowIsGrounded | backend/authz/policy.go:324-399 | Every module allow for another role than the platform's has a held permission behind it |
| Policy.AllowsStayInTheTenant | backend/authz/policy.go:324-342 | No allow decided here is for an unmapped path, an empty role, or another tenant than the subject's unless the role is the platform's |
| Policy.OtherRulesAreALadder | backend/authz/policy.go:282-361 | Every rule other than a module's allows exactly from some role rank up, within the tenant or with the platform's role; an unknown kind allows nobody |
| Policy.PlatformRoleDominates | backend/authz/policy.go:307-399 | Whatever any subject is allowed, the platform's role is allowed, of any tenant and with any claim |
| Policy.HasPermissionIsMonotone | backend/authz/policy.go:252-266 | Holding more never loses a permission |
| Policy.DecideIsMonotone | backend/authz/policy.go:324-399 | For every policy, request and kind of rule, more permissions, or a claim instead of none, never turn an allow into a deny |
| PolicyPaths.AreaHoldsTheFirstSegments | backend/authz/policy.go:170-181 | By segments and for any number of slashes at the path's end: the area is a listed prefix whose segments are the path's first, every other such prefix being a prefix of it |
| PolicyPaths.CoversIsLeading | backend/authz/policy.go:176 | The prefix test compares whole segments |
| PolicyPaths.RuleOfFirstListing | backend/authz/policy.go:183-193 | The rule is that of the area's first listing: the write rule for POST, PUT, PATCH and DELETE in any letter case, else the read rule |
| PolicyPaths.ModuleRuleRequires | backend/authz/policy.go:361-378 | What a module rule requires, said of segments and verb: its own action or the one of the table, and the first resource of the module that a segment names |
| PolicyPaths.ActionMeaning | backend/authz/policy.go:195-224 | The table of actions: export for a segment with "export" in it or ".csv" at its end, approve for a write on an approval segment, else create, edit, delete or view by the verb, all in any letter case |
| PolicyPaths.ResourceMeaning | backend/authz/policy.go:226-240 | The resource is what the first segment that names one names, as it stands or with underscores for dashes, and the wildcard when none does |
| PolicyPaths.PathHasSegments | backend/authz/policy.go:170-181 | Every path that has an area is that area followed by segments |
| PolicyPaths.AllowedExactly | backend/authz/policy.go:324-401 | The whole decision as one if-and-only-if, said of the path's segments and the verb: under a module rule the platform's role or a subject admitted and entitled to what they ask for; under any other rule whoever stands high enough |
| PolicyPaths.UnmappedIsDenied | backend/authz/policy.go:324-328 | A path without an area is denied |
| PolicyPaths.ReasonsNameTheGate | backend/authz/policy.go:329-401 | A decision's reason names the first gate that shut, or says granted or delegated |
| PolicyPaths.ViewersChangeNothing | backend/authz/policy.go:361-399 | Under a module rule without an action of its own, a subject other than the platform's whose permissions are all for viewing is denied every POST, PUT, PATCH and DELETE on every path |
| PolicyPaths.TemplateMeaning | backend/authz/policy.go:130-140 | A path fits a template exactly segment by segment, [id] standing for any that is not empty, with at most one slash at the end |
| PolicyPaths.AdminLevelMeaning | backend/authz/policy.go:282-305 | The level is none for OPTIONS, else what the first route the path fits lists for the verb in any letter case, HEAD read as GET, and the platform's without a route or an entry |
| PolicyDocument.BuildResources | backend/authz/policy.go:104-114 | The resource table holds exactly the resources the catalogue names, wildcards left out |
| PolicyDocument.NamesMeaning | backend/authz/policy.go:104-114 | A resource is of a module exactly when some action of the module's on it is listed and it is not the wildcard |
| PolicyDocument.Parse | backend/authz/policy.go:76-117 | Accepts exactly complete documents whose catalogue version is the version of the whole catalogue, and builds the arranged areas and both tables |
| Base64Url.RoundTrip | src/lib/authz/permission-claim.ts:57-61 | Bytes encoded by section 5 of RFC 4648 decode to themselves, also after padding characters are trimmed |
| Fnv.Fnv1a | backend/authz/policy.go:66-73 | The loop computes the FNV-1a hash, and the version is always eight lower-case hexadecimal digits |
| Fnv.HashIs32Bits | backend/authz/policy.go:66-73 | Every hash is below 2 to the 32 |
| PermissionClaim.BuildPrefixTable | backend/authz/policy.go:92-100 | The table maps exactly the versions of catalogue prefixes, each to the longest prefix that has it |
| PermissionClaim.VersionTextGivesBackTheCatalogue | backend/authz/policy.go:92-100 | The text a version is made of gives the catalogue back while no entry holds a bar, so versions coincide only by a collision of the digest |
| PermissionClaim.DecodeClaim | backend/authz/policy.go:413-440 | The reader's loop returns what the specification says, for absent, malformed and unknown claims too |
| PermissionClaim.DecodesExactly | backend/authz/policy.go:413-428 | A claim is taken exactly when it is there, well formed, of the version of some prefix of the catalogue, and its bits can be read |
| PermissionClaim.DecodedMeaning | backend/authz/policy.go:413-440 | A claim grants exactly the set bits below its signed length, the extras, and the wildcard when flagged |
| PermissionClaim.GrowthKeepsSignedLength | backend/authz/policy.go:89-91 | Appending entries keeps the length a known claim covers if and only if no appended prefix collides with its version |
| PermissionClaim.ClaimsSurviveGrowth | backend/authz/policy.go:89-91 | Without such a collision every claim decodes to the same permissions in the same order after growth |
| PermissionClaim.AppendedEntriesAreNotGranted | backend/authz/policy.go:89-91 | An entry new to the catalogue is never granted by a bit of an older claim |
| PermissionClaim.EncodeClaim | src/lib/authz/permission-claim.ts:72-91 | The signer's loop yields a claim that stands for exactly the given permissions |
| PermissionClaim.SignedClaimsDecode | src/lib/authz/permission-claim.ts:72-91 | What the signer puts in the backend reads out, as a set, for every catalogue and list of permissions |
| PermissionClaim.SignedClaimsOutliveGrowth | backend/authz/policy.go:89-91 | The same after the catalogue has grown |
| Geofence.ProjectionIsNearest | backend/geofence/geofence.go:107-111 | The clamped projection is on the segment and no farther than any point of it |
| Geofence.SegmentDistanceIsLeast | backend/geofence/geofence.go:99-112 | Nothing on the segment is nearer than DistanceToSegmentM, coinciding vertices included |
| Geofence.SegmentDistanceIsAttained | backend/geofence/geofence.go:99-112 | Some point of the segment is that far |
| Geofence.PlaceIsGap | backend/geofence/geofence.go:85-96 | What is computed in local coordinates is the distance to a place on the map, as seen from the first vertex |
| Geofence.DistanceToPolyline | backend/geofence/geofence.go:116-130 | The loop computes the polyline distance, with its answers for no vertex and one |
| Geofence.PolylineDistanceIsLeast | backend/geofence/geofence.go:116-130 | The distance to a polyline is attained at some place of some segment, and no place of any segment is nearer |
| Geofence.WithinCorridorMeaning | backend/geofence/geofence.go:134-139 | For two or more vertices, within the corridor means exactly that some place on some segment is within the width |
| Geofence.ShortCorridorMeaning | backend/geofence/geofence.go:116-139 | Without a vertex everything is within the corridor; with one, what the great circle puts within the width |
| Geofence.EvaluateGeofences | backend/geofence/geofence.go:162-198 | The loop returns each circle's event in order and then the corridor's |
| Geofence.AlternatingCounts | backend/geofence/geofence.go:159-161 | In an alternating trail the first kind leads the second by one exactly when the length is odd |
| Geofence.CircleEventsAlternate | backend/geofence/geofence.go:154-161 | Over any run of pings a circle's ENTER and EXIT alternate starting with ENTER, and ENTER leads by one exactly when the last ping is inside |
| Geofence.CorridorEventsAlternate | backend/geofence/geofence.go:154-161 | Over any run DEVIATION and RETURN alternate starting with DEVIATION, one ahead exactly when the last ping is off the corridor |
| Rounding.RoundQuotientIsNear | backend/etapredict/etapredict.go:301 | math.Round of a quotient is at most half a unit away |
| Rounding.RoundQuotientIsMonotone | backend/handlers/logistics_sla.go:113 | Rounding keeps order |
| EtaNotify.ShipmentRow.NotifyTail | backend/handlers/logistics_execution.go:657-699 | Tells the customer exactly when the decision says so and the kill-switch is off, and the row then holds what was told if the save works |
| EtaNotify.RoundsToThreshold | backend/etapredict/etapredict.go:355-364 | A shift counts as 15 rounded minutes exactly from 14.5 minutes on |
| EtaNotify.DecidesExactly | backend/etapredict/etapredict.go:325-364 | For any threshold: told exactly when the prediction is confident and is the first, or has moved by the threshold less half a minute either way; 15 minutes when no threshold is given; and the minutes are how much later it has become, to the nearest |
| EtaNotify.OnlyLiveIngestsCount | backend/handlers/logistics_execution.go:657-699 | Over any run, ingests with the kill-switch on or nothing confident to tell leave no trace: what is told and stored is as if they had not been |
| EtaNotify.DisabledTellsNobody | backend/handlers/logistics_execution.go:657-699 | A run with the kill-switch on tells nobody and stores nothing |
| EtaNotify.RowHoldsLastSaved | backend/handlers/logistics_execution.go:657-660 | Over any run the row holds the told time saved last, to the second |
| EtaNotify.RowHoldsLastTold | backend/handlers/logistics_execution.go:657-660 | When all saves work that is what the customer was last told |
| EtaNotify.ToldTimesAreFarApart | backend/etapredict/etapredict.go:325-331 | Each arrival time told is at least 14.5 minutes from the stored previous one, and more than that less one second from the previous one itself |
| EtaNotify.MovementPaysForNotifications | backend/etapredict/etapredict.go:325-331 | Over any run the saved notifications after the first are paid for by movement of the confident estimates, with the movement since the last one to spare |
| EtaNotify.ToldIsFarFromSaved | backend/etapredict/etapredict.go:325-331 | Whatever is told next is at least 14.5 minutes from the last saved time, whether its own save works or not |
| EtaNotify.NotificationsAreBounded | backend/etapredict/etapredict.go:325-331 | For every run their number is at most one, plus the number whose save failed, plus the total variation of the confident estimates over 14.5 minutes less a second |
| EtaNotify.LastToldIsNear | backend/etapredict/etapredict.go:325-331 | After every confident prediction the stored time is within the rounded threshold of it |
| EtaNotify.FailedSavesSpam | backend/handlers/logistics_execution.go:686-696 | While the save fails, one unmoving estimate is told again on every ingest |
| ExceptionDedup.ExceptionTable.Raise | backend/handlers/logistics_execution.go:793-826 | The loop leaves the specified table and returns the number of rows it added |
| ExceptionDedup.TypeCodesTellEventsApart | backend/geofence/geofence.go:240-252 | Two events share a type code exactly when they are of one kind and, for fences, of one fence kind |
| ExceptionDedup.CountIsZero | backend/handlers/logistics_execution.go:798-806 | The dedup query counts zero exactly when no row is OPEN, recent and of the shipment and type |
| ExceptionDedup.EachEventExactly | backend/handlers/logistics_execution.go:793-825 | Event by event: its row is added, with its type, OPEN and the clock at its insert, exactly when the insert works and no OPEN row of the shipment and type was raised less than five minutes before |
| ExceptionDedup.AddedRowsAreApart | backend/handlers/logistics_execution.go:793-825 | A row an ingest adds is five minutes later than every OPEN row of its shipment and type before it |
| ExceptionDedup.OneRowPerTypeAndIngest | backend/handlers/logistics_execution.go:793-825 | One ingest raises at most one row per type |
| ExceptionDedup.EveryEventGetsARowExactly | backend/handlers/logistics_execution.go:793-825 | All inserts working, every event gets a row of its own if and only if the types are pairwise distinct and none has an OPEN row from the window already |
| ExceptionDedup.TwoStopsOneRow | backend/handlers/logistics_execution.go:793-825 | Two stops of one kind entered by one ping make two events and, whatever the corridor says, fewer rows than events |
| ExceptionDedup.CutoffIsStored | backend/handlers/logistics_execution.go:794 | Cutting the cutoff to the database's microseconds leaves the window at exactly five minutes |
| ExceptionDedup.EveryEventIsCovered | backend/handlers/logistics_execution.go:797-806 | After an ingest every event whose insert works has an OPEN row of its type raised within the window |
| ExceptionDedup.ClockIsTimely | backend/handlers/logistics_execution.go:794 | A clock that does not run backwards while an ingest is handled does not do so in the database's microseconds either |
| ExceptionDedup.IngestCoversItsEvents | backend/handlers/logistics_execution.go:793-825 | Over any run, after an ingest every event whose insert works is in the table, by a row of its own or one that blocks it |
| ExceptionDedup.DedupWindow | backend/handlers/logistics_execution.go:793-825 | Over any run of ingests whose clocks do not run backwards, status changes and reports, a row raised by an ingest comes at least five minutes after every earlier row of its shipment and type that stayed OPEN |
| AuditChain.ComputeHash | backend/audit/audit.go:239-265 | The hasher is fed the nine fields joined by bars, a missing previous hash as an empty one |
| AuditChain.FramingIsInjective | backend/audit/audit.go:239-265 | Field lists of one length with no bar outside the last field and the same joined text are the same |
| AuditChain.RearrangementShowsExactly | backend/audit/audit.go:252-263 | An intact row given other texts for action, target type, target ID and outcome, everything else kept, stays intact if and only if the four texts run together as before |
| AuditChain.RearrangeableExactly | backend/audit/audit.go:252-263 | Such a row exists if and only if one of the four texts holds a bar |
| AuditChain.RearrangementDoesNotCount | backend/audit/audit.go:207-237 | Putting it in the row's place leaves the verifier's count as it was |
| AuditChain.AnUnseenEdit | backend/scim/scim.go:216-222 | A log written by Write with a bar in a target ID, which the SCIM handler fills with a user name, verifies with 0 before and after an edit that moves the text before the bar to the target type |
| AuditChain.ConfusableExactly | backend/audit/audit.go:239-265 | Two texts or more joined by bars have another arrangement if and only if one of them holds a bar |
| AuditChain.JsonEditsLookAlikeExactly | backend/audit/audit.go:262-263 | With JSON metadata before and after, an edit looks the same to the hash if and only if origin and metadata are unchanged and the four texts run together as before |
| AuditChain.PrintedIsJsonLike | backend/audit/audit.go:263 | Every JSON text, at any nesting, closes its strings and holds bars and backslashes only inside them |
| AuditChain.NoJsonEndsInBarAndJson | backend/audit/audit.go:262-263 | No JSON text ends in a bar and another JSON text |
| AuditChain.AuditLog.Write | backend/audit/audit.go:108-151 | Fills the defaults, links to the tenant's newest row, and appends one row; nothing for an empty action, a refused statement or a known ID |
| AuditChain.WriteRecordsTheEvent | backend/audit/audit.go:108-152 | Field by field: the new row holds the event's tenant, actor, action, target and unhashed columns, its ID, outcome, time and metadata or the defaults where none was given, points at its tenant's newest row, and its hash is of what was handed in; a call that does not insert changes nothing |
| AuditChain.IDsStayDistinct | backend/audit/audit.go:148-150 | Over any run no ID is written twice, however often its event is handed in |
| AuditChain.LogKeepsItsRecords | backend/audit/audit.go:108-152 | Over any run the log only grows, and what every insert recorded is still there at its end |
| AuditChain.AuditLog.VerifyChain | backend/audit/audit.go:207-237 | The loop over the sorted rows returns the number of rows whose hash does not match their stored fields |
| AuditChain.BrokenInAnyOrder | backend/audit/audit.go:207-237 | The count does not depend on the order the rows are read in |
| AuditChain.NewRowIsIntact | backend/audit/audit.go:132-143 | A new row verifies if and only if its time and metadata survive their columns, bars or no bars |
| AuditChain.VerifierCountsLossyWrites | backend/audit/audit.go:108-237 | After any run of writes by any mix of tenants the verifier returns what was broken before plus the number of rows written lossily |
| AuditChain.VerifierPassesExactly | backend/audit/audit.go:200-202 | A log built by Write alone verifies with 0 if and only if every event written survives its columns |
| AuditChain.NanosecondsBreakTheChain | backend/audit/audit.go:115-117 | An event stamped by a clock with a fraction of a microsecond makes the verifier return 1 |
| AuditChain.EditShowsExactly | backend/audit/audit.go:207-265 | An intact row edited without a new hash stays intact if and only if it looks the same to the hash: same origin and the same texts run together, bars or no bars, in the previous hash too unless the row's texts can hide an origin |
| AuditChain.BarInPrevHashNeedsHiding | backend/audit/audit.go:239-265 | A bar put into the previous hash unseen needs a row whose texts hold, between bars, a time and twice a UUID or nothing, and five pieces more |
| AuditChain.PrevHashEditExactly | backend/audit/audit.go:239-265 | Such an edit exists if and only if the texts do |
| AuditChain.FramedEditsShow | backend/audit/audit.go:239-265 | Without bars in the first four texts, looking the same is having the same hashed fields |
| AuditChain.VerifierCountsShowingEdits | backend/audit/audit.go:207-237 | After such edits of a healthy log the verifier returns exactly the number of rows that look different |
| AuditChain.VerifierCountsEdits | backend/audit/audit.go:11-14 | So, without bars in the first four texts, editing hashed fields of k rows makes the verifier return exactly k |
| AuditChain.DeletionDoesNotShow | backend/audit/audit.go:217-234 | Removing a row changes the count by that row's own share only |
| AuditChain.WriteKeepsTheChain | backend/audit/audit.go:102-107 | While each tenant's events come in order, every row points at the row hash of its tenant's row before it, however tenants mix |
| DistMatrix.RangeIdx | backend/distmatrix/distmatrix.go:256-262 | Returns the whole numbers from start up to the end |
| DistMatrix.NewMatrix | backend/distmatrix/distmatrix.go:272-283 | A square matrix with the fill in every cell |
| DistMatrix.CopyWindow | backend/distmatrix/distmatrix.go:172-177 | Writes the body's converted cells where the window lies and leaves every other cell alone |
| DistMatrix.Stitch | backend/distmatrix/distmatrix.go:158-180 | The nested loops make the calls up to and including the first without a full body, and build the specified matrices when there is none |
| DistMatrix.BuildMapboxMatrix | backend/distmatrix/distmatrix.go:149-181 | One call up to 25 points, the stitching loops above |
| DistMatrix.CallCount | backend/distmatrix/distmatrix.go:162-163 | There are ceil(n/25) squared calls |
| DistMatrix.CallsAreSmall | backend/distmatrix/distmatrix.go:161-167 | Each call has between 1 and 25 sources and destinations, all of them positions in its coordinate list, and names all n points |
| DistMatrix.EveryPairIsAskedOnce | backend/distmatrix/distmatrix.go:162-177 | Every pair of points is asked for in exactly one call, at exactly one place of it |
| DistMatrix.StitchedIsDirect | backend/distmatrix/distmatrix.go:147-148 | When all its calls are answered, each pair by itself, the stitched matrices are the per-pair converted answers |
| DistMatrix.DirectExactlyWithinTheLimit | backend/distmatrix/distmatrix.go:147-181 | For a service with any limit on its calls the result is the direct one if and only if every call for n points is within the limit |
| DistMatrix.PointLimitShows | backend/distmatrix/distmatrix.go:161-167 | Under a limit on the points a call names the result is direct if and only if n is within it, and otherwise an error after the first call |
| DistMatrix.SideLimitIsInvisible | backend/distmatrix/distmatrix.go:147-181 | Under a limit of 25 sources and 25 destinations the result is direct for every n |
| DistMatrix.InfExactlyWithoutRoute | backend/distmatrix/distmatrix.go:234-246 | A cell keeps the infinite fill exactly when the service has no route for its pair |
| DistMatrix.DirectIsClose | backend/distmatrix/distmatrix.go:285-291 | A converted distance is within five metres of the service's metres, a time within three seconds of its seconds |
| DistMatrix.BuildHaversineMatrix | backend/distmatrix/distmatrix.go:112-135 | The half-square loops fill the whole matrix as specified, with the default factor and speed |
| DistMatrix.OfflineIsSymmetric | backend/distmatrix/distmatrix.go:123-132 | The offline matrix is symmetric with a zero diagonal |
| DistMatrix.OfflineIsClose | backend/distmatrix/distmatrix.go:125-128 | Its cells are within 0.005 km of the great circle's length times the detour factor, 1.3 where none is given, and within 0.05 minutes of that at the given speed, 60 km/h where none is |
| DistMatrix.RoundingIsClose | backend/distmatrix/distmatrix.go:285-291 | Rounding to two places and to one moves a number by at most half a unit of the last place |
| DistMatrix.Compute | backend/distmatrix/distmatrix.go:77-108 | Which provider answers in which case, the degenerate sizes, and the error without a token |
| SqlComments.StripComments | scripts/check-destructive-migrations.js:93-124 | The scanner's output is the input with exactly the comment characters blanked, newlines kept |
| SqlComments.CommentMeaning | scripts/check-destructive-migrations.js:101-121 | A character is in a comment exactly when it opens one outside quotes and comments, or one opened so has not yet met its newline or closing marker |
| SqlComments.QuotedMeaning | scripts/check-destructive-migrations.js:112-118 | A position is in a quoted region exactly when a mark outside quotes and comments has not yet met another of its kind without a backslash |
| SqlComments.LineNumbersAreKept | scripts/check-destructive-migrations.js:152-158 | The length, every newline and so the line number of every position are kept |
| SqlComments.OnlyCommentsAreBlanked | scripts/check-destructive-migrations.js:87-92 | Only comment characters change, to blanks; quoted regions and their marks stay |
| SqlComments.OutputModes | scripts/check-destructive-migrations.js:93-124 | Reading its own output the scanner is in quotes where it was before and in code everywhere else |
| SqlComments.OutputHasNoComments | scripts/check-destructive-migrations.js:87-92 | No character of the output is in a comment, and no comment opener is left outside quotes |
| SqlComments.StrippingIsIdempotent | scripts/check-destructive-migrations.js:93-124 | Stripping twice is stripping once, on every input |
| SqlComments.UnchangedExactlyWithoutComments | scripts/check-destructive-migrations.js:93-124 | The output equals the input exactly when the input has no comment |
| SqlComments.ReadsLikePostgresExactly | scripts/check-destructive-migrations.js:87-92 | The scanner and PostgreSQL take every position for the same kind of place if and only if no quoted region holds a mark behind a backslash and no comment with another opened inside it is ended |
| SqlComments.AStatementIsBlanked | scripts/check-destructive-migrations.js:112-121 | Text that PostgreSQL reads as code and the scanner blanks to the end of the line |
| SlaAlerts.LaterIsWorse | backend/handlers/logistics_sla.go:111-139 | An earlier deadline never has a lesser grade, in rank or in rounded hours |
| SlaAlerts.GradeMeaning | backend/handlers/logistics_sla.go:111-125 | A deadline is alert-worthy exactly from two hours before it on; it is a warning until it has passed, critical from more than four hours after it, breached between; and its lateness is right to half a tenth of an hour |
| SlaAlerts.EarliestIsEarliest | backend/handlers/logistics_sla.go:24-31 | The specification's earliest deadline is the least of a shipment's deadlines and one of them |
| SlaAlerts.FoldIsEarliest | backend/handlers/logistics_sla.go:192-200 | The fold keeps, for each shipment, the grade of its earliest deadline, and nothing exactly when that is not alert-worthy |
| SlaAlerts.OrderIsIrrelevant | backend/handlers/logistics_sla.go:192-259 | No grade depends on the order the sources are read in |
| SlaAlerts.AlertsAreGrounded | backend/handlers/logistics_sla.go:149-163 | Every alert is the one some deadline of its own shipment makes |
| SlaAlerts.FirstReadIsPrinted | backend/handlers/logistics_sla.go:192-200 | For every list of deadlines a shipment's alert is made by the first one read that grades as its earliest does |
| SlaAlerts.PrintedIsEarliestExactly | backend/handlers/logistics_sla.go:168-259 | Over the handler's own sources the printed deadline is the earliest, to the millisecond, if and only if that first one is |
| SlaAlerts.PrintedIsEarliestInAnyOrder | backend/handlers/logistics_sla.go:207-259 | The printed deadline is the earliest for every order of the exceptions if and only if the delivery window prints so or, with no window of the alert's grade, every exception of that grade does |
| SlaAlerts.WindowIsPrintedFirst | backend/handlers/logistics_sla.go:202-259 | An active shipment's delivery window is printed whenever it grades as the alert does, even when an exception was due before it |
| SlaAlerts.ALaterDeadlineIsPrinted | backend/handlers/logistics_sla.go:202-259 | A shipment whose printed deadline is a minute later than its earliest |
| SlaAlerts.NearDeadlinesGradeAlike | backend/handlers/logistics_sla.go:111-125 | Such deadlines exist |
| SlaAlerts.CandidatesAreDue | backend/handlers/logistics_sla.go:176-259 | What the handler folds are exactly the windows of active shipments and the due times of open exceptions of shipments that can be seen |
| SlaAlerts.AlertOfEarliestDeadline | backend/handlers/logistics_sla.go:24-31 | A shipment's alert grades as the earliest of its deadlines from both sources |
| SlaAlerts.NoDeadlineNoAlert | backend/handlers/logistics_sla.go:24-31 | Without a deadline there is no alert |
| SlaAlerts.GetLogisticsSla | backend/handlers/logistics_sla.go:168-289 | Fails exactly when a query it needs fails; otherwise lists every alert of the fold once, most urgent first whatever order the map is read in, with the matching summary |
| SlaAlerts.LoadReferenced | backend/handlers/logistics_sla.go:224-243 | Afterwards the index has exactly the visible shipments open exceptions refer to; the third query is made only when one is missing |
| SlaAlerts.CountsPartition | backend/handlers/logistics_sla.go:276-286 | Each of the summary's counts is that of its tier's alerts, and the three add up to the length of the list |
| Accessorials.ParseRuleAcceptsExactly | backend/accessorial/accessorial.go:192-270 | A document is a rule if and only if its type is one of the five, the number that type needs is there, and a percentage names one of the three bases |
| Accessorials.GarbageIsAbsence | backend/accessorial/accessorial.go:201-262 | A value of the wrong kind under an optional key is as if the key were not there |
| Accessorials.GarbageIsNoCondition | backend/accessorial/accessorial.go:272-304 | The same for every key among the conditions |
| Accessorials.TariffsSayWhatTheirDocumentsSay | backend/accessorial/accessorial.go:215-269 | Nothing is in a parsed tariff that its document does not say, each thing under its own key |
| Accessorials.ConditionsSayWhatTheirDocumentsSay | backend/accessorial/accessorial.go:275-304 | The same for the conditions |
| Accessorials.ConditionsHold | backend/accessorial/accessorial.go:138-183 | Holds exactly when no populated condition fails, and otherwise names the first that does |
| Accessorials.GateMeaning | backend/accessorial/accessorial.go:138-183 | A conditions object lets a shipment through exactly when it meets each key the object holds: ranges, stops, types in any letter case, hazmat, customs, and two different countries |
| Accessorials.CapIsAKilometre | backend/accessorial/accessorial.go:335-343 | Charging per kilometre covers exactly the kilometres after the free ones up to the cap |
| Accessorials.EvaluateRule | backend/accessorial/accessorial.go:311-375 | Applies exactly when the gate is open, the basis known and the amount at least half a cent |
| Accessorials.AmountFromDocument | backend/accessorial/accessorial.go:320-361 | The amount before rounding, read off the document and the shipment for each of the five types; none without a basis |
| Accessorials.EntryChargesExactly | backend/accessorial/accessorial.go:427-467 | An entry charges exactly when it is active, its document's conditions are met and its amount is at least half a cent; the charge is the entry's own, of that amount to half a cent, in the rule's currency, else the entry's, else AED |
| Accessorials.AmountsAreWholeCents | backend/accessorial/accessorial.go:117-118 | An applied amount is a positive whole number of cents within half a cent of the exact one |
| Accessorials.AppliedAmountsAreWholeCents | backend/accessorial/accessorial.go:427-467 | So is every amount of any catalogue |
| Accessorials.ApplyAccessorialCatalog | backend/accessorial/accessorial.go:427-467 | The loop returns the charges of the entries that charge |
| Accessorials.AppliedIsAFilterMap | backend/accessorial/accessorial.go:419-426 | The list is the charging entries' charges, each once, in catalogue order, and no others |
| Accessorials.CataloguesAdd | backend/accessorial/accessorial.go:427-467 | The charges of two catalogues joined are theirs one after the other |
| Accessorials.TaxableComesFromTheDocument | backend/accessorial/accessorial.go:423-426 | The rule overrides the row's tax flag exactly when its document has a tax key |
| Accessorials.ChargeTable.WriteAutoAccessorialCharge | backend/handlers/logistics_accessorial.go:131-187 | Adds the specified charge row, or none when the insert fails |
| Accessorials.ChargeTable.ApplyAutoAccessorials | backend/handlers/logistics_accessorial.go:43-64 | Writes the charges of the catalogue in order, skipping those whose insert fails |
| Accessorials.OrderCurrencyIsNeverUsed | backend/handlers/logistics_accessorial.go:145-151 | The order's own currency is a fallback that an applied charge never reaches |
| Accessorials.TotalIsExact | backend/handlers/logistics_accessorial.go:131-170 | A charge's total is exactly amount plus tax, its tax whole cents within half a cent of 5% when taxable and zero otherwise |
| Accessorials.RowIsNamedAfterTheCharge | backend/handlers/logistics_accessorial.go:131-151 | A row's type is the trimmed code in capitals or ACCESSORIAL, its description the trimmed name or else that type |
| Accessorials.BooksBalance | backend/handlers/logistics_accessorial.go:32-34 | Over all rows written of whole-cent amounts the totals add up exactly, and the tax is 5% of the taxable amounts to within half a cent per taxable charge |
| Accessorials.CatalogueBooksBalance | backend/handlers/logistics_accessorial.go:43-64 | So it is for every catalogue and shipment, whichever inserts fail |
| RouteOpt.PickupBeforeDelivery | backend/routeopt/routeopt.go:414-426 | True exactly when every delivery comes after a pickup of its shipment |
| RouteOpt.RouteFeasibleCapacity | backend/routeopt/routeopt.go:432-451 | True exactly when what is on board after each pickup is within both limits, to the slack |
| RouteOpt.CarriesMeaning | backend/routeopt/routeopt.go:428-431 | Looking at the pickups is enough: with no negative weight, volume or capacity the check passes exactly when both loads are within limits all the way |
| RouteOpt.PeakLoad | backend/routeopt/routeopt.go:503-524 | The loop computes the peak |
| RouteOpt.PeakIsHighest | backend/routeopt/routeopt.go:503-524 | After no stop is there more on board than the peak |
| RouteOpt.RouteDistance | backend/routeopt/routeopt.go:646-653 | The length from the depot through the stops and back |
| RouteOpt.RouteDurationMin | backend/routeopt/routeopt.go:658-669 | Driving plus service time of the same way |
| RouteOpt.SeedLengthAndDuration | backend/routeopt/routeopt.go:209-216 | A shipment by itself is driven to, across and back, and served at both ends |
| RouteOpt.MergeSaves | backend/routeopt/routeopt.go:301-313 | The saving of a merge is exactly the length, or by durations the time, that the two routes lose by it |
| RouteOpt.Savings | backend/routeopt/routeopt.go:303-318 | The list holds exactly the ordered pairs of routes whose merge saves distance |
| RouteOpt.MergeBest | backend/routeopt/routeopt.go:298-364 | One round makes the feasible merge that saves most, or there is no feasible merge that saves |
| RouteOpt.MergeKeepsShipments | backend/routeopt/routeopt.go:345-359 | A merge moves no shipment in or out and leaves one route fewer |
| RouteOpt.ClarkeWrightMerge | backend/routeopt/routeopt.go:283-366 | Ends, keeps every shipment and every pickup before its delivery, lets no merged route exceed the widest limits, makes the feasible merge that saves most in every round, and stops only when none saves |
| RouteOpt.TwoOptSwap | backend/routeopt/routeopt.go:400-408 | Reverses one stretch |
| RouteOpt.LengthIsBounded | backend/routeopt/routeopt.go:370-397 | The orders of given stops have a common lower bound of their lengths, whatever the distances |
| RouteOpt.TwoOptImprove | backend/routeopt/routeopt.go:370-397 | Ends, keeps the stops and the order of pickups and deliveries, never lengthens the route, and leaves no reversal that would shorten it |
| RouteOpt.TwoOptCanOverload | backend/routeopt/routeopt.go:370-397 | A route within capacity that 2-opt shortens into one that is not |
| RouteOpt.AssignVehicles | backend/routeopt/routeopt.go:455-501 | Every route is given out once or left; heaviest first, no vehicle gets two or one it cannot carry at its peak; every smaller vehicle that could carry a route was given out before it; and a route is left only when every vehicle that could carry it carries one at least as heavy |
| RouteOpt.OptimizeRoutes | backend/routeopt/routeopt.go:203-279 | Ends; every shipment is in exactly one route or unassigned; a route has exactly its shipments' stops, each pickup before its delivery; at no stop is more on board than its vehicle can carry, to the slack; no vehicle has two routes. With a shipment and a vehicle, the routes given out and left are, each once, the 2-opt improvements of what merging made of one route per shipment, and the unassigned are the shipments of those left, each rightly left |
| RouteOpt.NothingGivenOnlyForWantOfVehicles | backend/routeopt/routeopt.go:455-501 | When nothing is given out no vehicle can carry any of the routes |
| RouteOpt.EachShipmentOnce | backend/routeopt/routeopt.go:203-279 | With distinct shipments each is served once or unassigned once |

## Left out

- Gin, GORM, PostgreSQL, Mapbox, Redis, mail, SMS and logging: each is a parameter or a table; PostgreSQL's rules for aborted transactions, savepoints and local settings are modelled as the sources' comments and the manual describe them, and a COMMIT that lands although its answer is lost is not modelled.
- TenantTx.Request.Handle: a context cancelled in mid-request, which no savepoint survives, is modelled for connections only, in ConnectionPool.
- PostgreSQL's empty string for a setting that was set locally once before: settings read as absent, and no tenant is the empty string.
- Gin's own Flush, which the buffered writer inherits: no handler of the model calls it.
- JSON parsing and text formats: documents come parsed, RFC 3339 and UUID texts are given functions with distinct bar-free values.
- Unicode: case folding and trimming are ASCII, and template routes are matched by segments instead of through a regular expression.
- Trigonometry, great-circle distance and floating-point error: given functions and exact reals; distances to segments are compared by their squares.
- SqlComments.ReadsLikePostgresExactly: PostgreSQL's escape strings and dollar quotes, and a lone carriage return, which ends its line comments, are not read.
- RouteOpt.OptimizeRoutes: arrival times, time windows, working-time violations, costs and totals of the routes are left out, as are infinite distances.
- The magnitudes distanceM and offCorridorM of geofence events, titles, severities and reason texts: shown to people, decided by one line each.
- PredictEta, ObservedSpeedKmh and the ping sort: the notification results hold for arbitrary predictions, so these would only add easy members.
- Pings out of order and concurrent ingests: runs are serial, as each result says.
- Concurrent audit writers: Write is one step, its row lock being PostgreSQL's.
- Durations past 292 years, where Go's subtraction saturates.
- The claim that a refused token stays refused: a late store of an older read can undo a refusal for a while, so only the staleness bound holds.
- Feature flags, finance reconciliation, CRUD handlers and the Next.js middleware: their decisions rest on libraries or SQL not modelled here.
- AuditChain.VerifierCountsEdits: supposes that the first four texts hold no bar, before and after the edit; VerifierCountsShowingEdits counts without that.
- AuditChain.EditShowsExactly: supposes that the previous hash held no bar before the edit, as a hash does not, and holds one after it only where the texts cannot hide an origin; PrevHashEditExactly settles the rest.
- AuditChain.JsonEditsLookAlikeExactly: of JSON it uses only that strings are closed and that bars and backslashes come inside them.
- DistMatrix.Stitch: a body with too few entries ends in Panic at once, while the code has copied part of it by then; nothing is returned in either case.
- DistMatrix.StitchedIsDirect: supposes that the service answers each pair of points the same in whatever call it is asked.
- ExceptionDedup.DedupWindow: rows are not deleted, and a shipment id stands for its tenant.
- SlaAlerts.GetLogisticsSla: display fields other than reference and status are left out of the alert.
- Accessorials.ChargeTable.WriteAutoAccessorialCharge: the tracking event and metadata written beside the row are left out.
