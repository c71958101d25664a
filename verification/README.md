# Servicer: verified models of its stateful and canonicalising cores

Servicer is a self-service platform for databases, caches, brokers and namespaces on Kubernetes. Most of it moves
Kubernetes objects around. This project models the parts where correctness only shows over whole runs or over all
inputs, and proves it: the login limiter, role expansion and tenancy, the shared audit log, repository mirrors, the
Valkey topology, NATS, MySQL and database-name canonicalisation, the namespace proxy's allowlist, the OIDC runtime cache,
and the NamespaceClaim reconciler against the admission webhook.

`dafny verify dfyconfig.toml` checks the whole project.

## Layout

| module | models |
|---|---|
| LoginLimiter, LoginRuns, LoginAnswers | the in-memory login limiter as a class; runs of it, sweeping, and the sliding bound on failures; what logins are answered |
| Roles, Actors, Grants, Tenancy, Access | role expansion over cyclic definitions, resolution of an identity to an actor and what it grants, list filters and point checks, who passes and sees |
| AuditStore, AuditAges | one replica's merge as a class; any number of replicas as interleaved API calls; how long events stay |
| MirrorNames, Repositories, RepositoryRuns, RepositoryOwners | names of Argo CD mirrors; the create and delete handlers over two secret stores with failing calls; runs of them; whose registrations they store and remove |
| ValkeyTopology, ValkeyRuns, ValkeyInterleavings, ValkeyLags | observation, failover, rollback and resynchronisation of a cache topology; runs of them, one at a time and with reconciliations that store late; which lags count |
| NatsResources, Ordering | normalising, unstable sorting, validation, digest and script of NATS resources |
| DatabaseName, NameWords | normalisation and byte-bounded truncation of database names; the words that database and mirror names keep |
| MySqlRendering, MySqlWriters | clusters, roles, server configuration and artifact paths of a MySQL render; which clusters write |
| ProxyPath, ProxyPathText | the structural allowlist, against section 5.2.4 of RFC 3986; well-formed paths by their text |
| OidcCache | read, build and write of the runtime cache, interleaved with provider edits |
| NamespaceClaims | the reconciler, the webhook's defaulting and validation, and histories of claims and instances |
| Text, Splitting, Words, Sequences, Options | trimming, splitting and joining, words, filtering and options shared by the others |

Code that updates state in place is a class or a method with loops, proved equal to a function of the old state (`Step`,
`Observe`, `Resolved`, `AfterDelete` and so on); the theorems are about those functions and about runs of them. What these
functions decide is also told without them, by requests, stored data and texts alone, in LoginAnswers, Grants, Access,
AuditAges, RepositoryOwners, ValkeyLags, MySqlWriters, NameWords and ProxyPathText.

## What the proofs found

- **Login limiter.** A key that is not reset collects at most `max(limit, 2 * limit - 2)` failures in any closed interval as
  long as the window (8 with the defaults), or `limit` when the window has no length. Some run reaches that number, and the
  bound holds for all runs if and only if the lockout is at least as long as the window.
- **Valkey topology.** Observing a stored observation again is not always without effect: a status that lists only its own
  primary loses that entry and picks up the declared standbys one observation later (`FirstObservationMayNotSettle`). The
  exact condition is proved, statuses that an observation has left settle at once, and two observations always settle when
  the declared standbys have names. A merge patch that lands on the result of a promotion leaves such a status
  (`TornPatchDoesNotSettle`).
- **Valkey failover.** The reconciler stores what it computed from an earlier read over whatever is there by then. A store
  that has been overtaken by a promotion since its read puts the former primary back, takes its mark away and makes the same
  promotion possible again, any number of times (`LateStoresRepeat`). In any interleaving a replaced primary stays out
  exactly while no store is overtaken like that (`FormerPrimariesStayOutIff`); then every promotion retires another cluster
  and at most all standbys get their turn. A store takes no mark away exactly when every mark was there at its read.
- **Valkey rollback.** While stores are timely, a rollback without an explicit target is refused on the status in which its
  target is found, and later too if all entries of the target were spent then. After a store that has been overtaken by a
  resynchronisation request it is let through (`OvertakenMarkLetsRollbackThrough`). Every promotion lists the replaced
  primary at least twice, and a resynchronisation request for a standby that is listed more than once is forgotten by the
  next observation unless the last entry is marked, and exactly then (`ResyncSurvivesObservationIff`).
- **NATS.** Two accepted consumers may be configured from the same file name, exactly when dashes shift between stream and
  consumer names; normalised and sorted parameters with two such consumers are given. Normalising twice is normalising once,
  exactly for resources with a name or a description.
  Validation takes two different consumers for one exactly when slashes shift between those names (`SameKeyIff`).
- **Tenancy.** A user whom a tenant lists as an owner under the name that is shown, not the user name, email or subject, sees
  the tenant but is granted nothing in it (`WhoSeesTenantIff`, `TenantRoleIff`).
- **MySQL.** Cluster names are only trimmed, so a line break in a name begins a line of its own in the server
  configuration. For all parameters, the primary is the one cluster that accepts writes exactly when mode and role, with the
  last read_only setting that line breaks add, let the primary alone write. A primary whose name goes on with such a setting
  does not accept writes (`BrokenPrimaryDoesNotWrite`). Without line breaks active-passive mode has exactly one writer.
- **Namespace claims.** The reconciler's write is accepted exactly when the stored instance, if any, has the claim's project
  and the namespace class and plan. Over all histories no write is rejected exactly when no claim is made next to an
  instance that is not its own and no instance next to a claim it does not belong to. A claim that is made again for another
  project, or made next to an instance of its name that is for something else, has every write rejected until the claim or
  the instance goes.
- **Repository mirrors.** Two deletions that both look whether the mirror is shared before either goes on leave an orphaned
  mirror exactly when they share a mirror that no third registration has; two registrations of one URL reach such a state.
  A mirror holds the credentials of the last registration made for it, also after that registration is removed.

## Model

| member | source | states |
|---|---|---|
| LoginLimiter.MemoryLoginLimiter.constructor | internal/bff/security.go:81-95 | a new limiter has no attempts and has never swept |
| LoginLimiter.MemoryLoginLimiter.CleanupExpired | internal/bff/security.go:174-198 | exactly the expired entries go, only when a sweep is due, in whatever order the map is ranged over |
| LoginLimiter.MemoryLoginLimiter.Allow | internal/bff/security.go:97-108 | sweeps, then admits a key that is not locked or whose lockout has passed |
| LoginLimiter.MemoryLoginLimiter.RecordFailure | internal/bff/security.go:110-124 | sweeps, then counts the failure in the open window or a new one and locks at the limit; other keys keep their attempts |
| LoginLimiter.MemoryLoginLimiter.Reset | internal/bff/security.go:126-131 | forgets the key, then sweeps |
| LoginLimiter.MemoryLoginLimiter.PasswordLogin | internal/bff/server.go:263-304 | a throttled login only asks the limiter; an admitted one then records a failure or resets, never both |
| LoginRuns.SweepingIsInvisible | internal/bff/security.go:97-198 | after any run over all keys on a nondecreasing clock, the sweeping limiter answers a key as a limiter that never deletes and sees that key only |
| LoginRuns.KeysDoNotInterfere | internal/bff/security.go:97-198 | removing all calls on other keys from a run never changes a key's answer |
| LoginRuns.TraceFollowsSimpleRun | internal/bff/server.go:263-304 | a serial run of gated logins leaves, for every key, the attempt and the failures that the never-deleting limiter predicts |
| LoginRuns.SimpleRunKeepsSummary | internal/bff/security.go:97-124 | the invariant of every serial run: failures as many places apart as the peak are more than a window apart, and the attempt sums up the window that is open |
| LoginRuns.SlidingBound | internal/bff/security.go:97-124 | with limit >= 1 and lockout >= window, no closed interval as long as the window holds more than max(limit, 2 * limit - 2) failures of a key since its last reset, or more than limit when the window has no length |
| LoginRuns.PeakIsReached | internal/bff/security.go:97-124 | that bound is tight: for every limit >= 1, window and lockout some serial run meets it |
| LoginRuns.ShortLockoutBreaksBound | internal/bff/security.go:97-124 | with a lockout shorter than the window some serial run exceeds the bound |
| LoginRuns.BoundHoldsIffLockoutCoversWindow | internal/bff/security.go:97-124 | the bound holds over all runs, keys and intervals if and only if window <= lockout |
| LoginAnswers.AnswersTell | internal/bff/server.go:263-304 | over serial runs a login is throttled exactly when its key alone would not be admitted, logged in exactly when admitted and accepted, which clears the record, and rejected exactly when a failure is recorded |
| LoginAnswers.RejectionsAreFailures | internal/bff/server.go:263-304 | the rejections of a key since it last logged in are its recorded failures since the last reset |
| LoginAnswers.RejectionsAreBounded | internal/bff/security.go:97-131 | with a lockout that covers the window, no interval of window length between two logins holds more rejections of a key than the peak |
| LoginAnswers.CallsForget | internal/bff/security.go:174-198 | a call forgets an attempt of another key exactly when a sweep is due and window and lockout ended longer ago than the retention |
| Roles.NewRoleExpander | internal/bff/auth.go:37-43 | the loop builds the index that the next two rows describe |
| Roles.IndexHoldsDefinedNames | internal/bff/auth.go:37-43 | the keys of the index are exactly the names of defined roles |
| Roles.IndexHoldsLastDefinitions | internal/bff/auth.go:37-43 | a name is mapped to the last role defined under it |
| Roles.Expansion.Visit | internal/bff/auth.go:49-65 | terminates on cycles; adds only names reachable from its argument and leaves everything it added closed under permissions of matching scope |
| Roles.Expand | internal/bff/auth.go:45-68 | returns, each once, exactly the nonempty names reachable through permissions of roles of the scope |
| Roles.ClosedHoldsPath | internal/bff/auth.go:45-68 | a set with the start and closed under the edges contains the end of every path |
| Actors.MatchUser | internal/bff/authenticator.go:838-863 | the first user that is the local subject or is linked to a nonblank subject of the identity's provider |
| Actors.CollectGroups | internal/bff/authenticator.go:712-738 | the groups joined by membership or by a claimed external group, and the nonblank claimed groups |
| Actors.CollectRoles | internal/bff/authenticator.go:764-789 | the roles are the union of the expansions of applying platform bindings, and of applying tenant bindings per tenant |
| Actors.AddOwned | internal/bff/authenticator.go:790-799 | every owned tenant gains tenant-admin and no other tenant changes |
| Actors.ResolveActor | internal/bff/authenticator.go:685-800 | resolution computes the declarative union `Resolved`; an external identity without a user is not linked |
| Grants.LinkedIff | internal/bff/authenticator.go:705-711 | an identity is resolved exactly when it is local or some user is linked to it |
| Grants.BaseIs | internal/bff/authenticator.go:712-760 | email, names, provider and groups of the resolved actor, told by the directory and the identity |
| Grants.PlatformRoleIff | internal/bff/authenticator.go:762-836 | a platform role is held exactly when a platform binding names the linked user, the subject, the email or a joined group, and leads to the role |
| Grants.TenantRoleIff | internal/bff/authenticator.go:762-863 | a role in a tenant is held exactly when a binding of that tenant does so, or the role is tenant-admin and a tenant of that name lists the identity among its owners |
| Grants.StrangersHaveNoRoles | internal/bff/authenticator.go:762-863 | an identity that no binding names and that owns no tenant has no roles |
| Tenancy.ListTenants | internal/bff/authorization.go:77-88 | exactly the visible tenants, in order |
| Tenancy.ListProjects | internal/bff/authorization.go:90-105 | exactly the projects of visible tenants, in order |
| Tenancy.ListInstances | internal/bff/authorization.go:107-122 | exactly the instances of visible projects, in order |
| Tenancy.ListActions | internal/bff/authorization.go:124-139 | exactly the actions that target a listed instance, in order |
| Tenancy.ListsAgreeWithPointChecks | internal/bff/authorization.go:33-122 | for every actor and every store with unique names, the lists are what `authorizeInstance` and `authorizeProject` accept, in order |
| Tenancy.PrefilteringIsInvisible | internal/bff/server.go:359-362 | filtering tenants, then projects, then instances against already filtered lists shows the same as filtering against all of them |
| Tenancy.ActionsFollowInstances | internal/bff/server.go:359-362 | the overview shows an action exactly when it targets an instance the point check accepts, and an administrator all of them |
| Tenancy.ResolutionIgnoresOrder | internal/bff/authenticator.go:712-836 | reordering or repeating bindings, groups, tenants or claimed groups resolves to the same actor |
| Tenancy.ResolutionGrows | internal/bff/authenticator.go:712-836 | more bindings, tenants, group members or claimed groups never link less and never grant less |
| Tenancy.ChecksGrow | internal/bff/auth.go:115-184 | `hasAny`, `hasTenantRole` and tenant visibility never turn from true to false for an actor that is granted more |
| Access.RoleCheckIff | internal/bff/auth.go:115-180 | a role check passes exactly for platform-admin on the platform, and for whoever holds the role or a sufficient one on the platform or in some tenant |
| Access.AnyOfRoles | internal/bff/auth.go:115-131 | several roles are checked for one by one |
| Access.AdministratorIff | internal/bff/auth.go:133-135 | an administrator is whoever holds platform-admin, on the platform or in a tenant |
| Access.TenantRoleCheckIff | internal/bff/auth.go:137-153 | a check within a tenant goes by the roles held in that tenant only |
| Access.WhoSeesTenantIff | internal/bff/authorization.go:55-75 | told by the directory: administrators, whoever a binding of the tenant gives a role, its owners, and users it lists under the name they are shown by, see a tenant, and nobody else |
| Access.StrangersSeeNothing | internal/bff/authorization.go:77-139 | an identity that no binding names and no tenant lists is shown no tenant, project, instance or action |
| AuditStore.MergeAuditEvents | internal/bff/audit_store.go:131-143 | keeps the first occurrence of each event |
| AuditStore.RemovedLeaves | internal/bff/audit_store.go:67-80 | of the store exactly the stale items are gone whose deletion did not fail |
| AuditStore.PersistedHolds | internal/bff/audit_store.go:85-113 | what was stored stays; a free name is taken if and only if an unexpired event before the first failing creation has it, and by the first such event |
| AuditStore.Replica.Retained | internal/bff/audit_store.go:61-83 | returns the listed events that have not expired, in order, and deletes exactly the listed expired ones but those whose deletion fails |
| AuditStore.Replica.Persist | internal/bff/audit_store.go:85-113 | stores each unexpired event under its name unless the name is taken, up to the first creation that fails, and says whether one did |
| AuditStore.Replica.Merge | internal/bff/audit_store.go:46-59 | returns the merged log of the listing and the new events and persists the new ones; a failed listing changes nothing, and a failed creation returns no log |
| AuditStore.OccursOnce | internal/bff/audit_store.go:131-143 | a merge holds every event of either side exactly once |
| AuditStore.StepStaysSound | internal/bff/audit_store.go:46-113 | every call of every replica keeps events under their own names and marks only expired ones for deletion |
| AuditStore.StoredUntilExpired | internal/bff/audit_store.go:61-113 | whatever the replicas do and whichever calls fail, a stored event stays stored until it expires, if names tell the submitted events apart |
| AuditStore.RetainedExactlyOnce | internal/bff/audit_store.go:46-113 | once stored, an event occurs exactly once in every merge that lists later while it is unexpired, and afterwards exactly when the caller passes it in, if names tell the submitted events apart |
| AuditStore.CreateStores | internal/bff/audit_store.go:85-113 | a successful creation of an unexpired event stores it, unless undecodable data already has the name |
| AuditStore.NothingIsInvented | internal/bff/audit_store.go:46-113 | no stored or returned event was not passed in by some caller |
| AuditStore.MergeAloneIsARun | internal/bff/audit_store.go:46-59 | the protocol's steps, run without interference, do what the merge method does, whichever calls fail |
| AuditAges.StoredWhileYoung | internal/bff/audit_store.go:61-83 | in any interleaving a stored event stays stored while it is no older than the retention, and for ever without a readable time |
| AuditAges.MergedWhileYoung | internal/bff/audit_store.go:46-83 | a merge that lists a stored event returns it once while it is no older than the retention, and later only if it is passed in |
| AuditAges.MergeDropsOld | internal/bff/audit_store.go:61-113 | an undisturbed merge without faults leaves an older event out of the store unless passed-in data takes its name |
| AuditAges.MergeKeepsYoung | internal/bff/audit_store.go:61-113 | it keeps every event that is no older than the retention |
| AuditAges.KeptInOrder | internal/bff/audit_store.go:61-83 | the retained events are those listed and no older than the retention, in the order of the listing |
| AuditAges.OccurrencesInOrder | internal/bff/audit_store.go:131-143 | merged events are each returned once, in the order in which they first occur |
| MirrorNames.DnsSafeNamePart | internal/bff/repositories.go:987-1003 | the builder loop computes the trimmed collapsed form |
| MirrorNames.SafePartsAreFixed | internal/bff/repositories.go:987-1003 | for every input the result has only letters, digits and single inner dashes, and every such text is left alone |
| MirrorNames.DnsSafeTwice | internal/bff/repositories.go:987-1003 | making a name part safe twice is making it safe once |
| MirrorNames.MirrorNameIsDnsLabel | internal/bff/repositories.go:555-574 | for every URL and scope the name is a label of section 2.3.1 of RFC 1035, relaxed by section 2.1 of RFC 1123, of at most 63 characters |
| MirrorNames.SharedMirrorMeansSameTarget | internal/bff/repositories.go:555-574 | two registrations whose hashed inputs do not collide share a mirror exactly when canonical URL and scope agree |
| NameWords.DnsSafeIsWords | internal/bff/repositories.go:987-1003 | a safe name part is the lowered words of the text, in order, with one dash between them |
| NameWords.MirrorNameKeepsWords | internal/bff/repositories.go:555-574 | a mirror is named after the words of the canonical URL, cut to 38 characters, and twelve digits of the digest of URL and scope |
| Repositories.Handlers.EnsureMirror | internal/bff/repositories.go:485-517 | creates the mirror or overwrites its data and lays the new labels over the old; a failing call changes nothing |
| Repositories.Handlers.Register | internal/bff/repositories.go:184-206 | stores and mirrors a registration, and takes it back when mirroring fails unless that fails too |
| Repositories.Handlers.CleanupMirrorIfUnused | internal/bff/repositories.go:454-481 | removes the mirror exactly when no other stored registration has the same mirror name and no call fails |
| Repositories.Handlers.Unregister | internal/bff/repositories.go:288-324 | removes a registration of the owner that nothing uses, after its mirror, and answers which check or call stopped it |
| Repositories.Handlers.CreateProjectRepository | internal/bff/repositories.go:159-209 | the path, body and validation checks, then the registration; state and answer are `Step` and `Answer` |
| Repositories.Handlers.CreateTenantRepository | internal/bff/repositories.go:221-272 | the same for a tenant |
| Repositories.Handlers.DeleteProjectRepository | internal/bff/repositories.go:281-327 | removes the project's registration; state and answer are `Step` and `Answer` |
| Repositories.Handlers.DeleteTenantRepository | internal/bff/repositories.go:336-382 | the same for a tenant |
| Repositories.DoneCreates | internal/bff/repositories.go:184-209 | a creation that answers done has stored the registration under a free name and written its data to its mirror, and no other mirror |
| Repositories.DoneDeletes | internal/bff/repositories.go:288-327 | a deletion answers done exactly when it removed the registration, and removes nothing else |
| Repositories.RefusalChangesNothing | internal/bff/repositories.go:153-382 | a refused or conflicting request changes nothing, and without failing calls neither does a failed one |
| Repositories.ProjectReadBack | internal/bff/repositories.go:765-778 | a validated project registration, stored and read back, has the mirror name it was mirrored under |
| Repositories.TenantReadBack | internal/bff/repositories.go:765-778 | the same for a tenant registration |
| RepositoryRuns.CreateKeeps | internal/bff/repositories.go:184-206 | creation keeps every mirror owned whatever fails, and mirrors exact when nothing does |
| RepositoryRuns.DeleteKeeps | internal/bff/repositories.go:288-324 | so does deletion |
| RepositoryRuns.MirrorsFollowRepositories | internal/bff/repositories.go:153-517 | over all serial runs with any calls failing, every Servicer mirror has a live registration; without failures the mirrors are exactly those of the live registrations |
| RepositoryRuns.MirrorsHaveLegalNames | internal/bff/repositories.go:555-574 | every Servicer mirror left by any serial run has a legal name |
| RepositoryRuns.MirrorsHoldLatest | internal/bff/repositories.go:485-517 | over all serial runs with any calls failing, a Servicer mirror holds the data of the last successful registration for it |
| RepositoryRuns.MirrorIsStaleIffRemoved | internal/bff/repositories.go:454-517 | without failing calls that registration is still live exactly when no request has removed it since |
| RepositoryRuns.StaleMirror | internal/bff/repositories.go:454-481 | a run of three requests that leaves a mirror with data no live registration has |
| RepositoryRuns.DeleteLooksThenFinishes | internal/bff/repositories.go:312-324 | a deletion alone looks whether the mirror is shared and then finishes |
| RepositoryRuns.InterleavedDeletionsSafeIff | internal/bff/repositories.go:454-481 | two deletions that both look first leave no orphaned mirror if and only if they share no mirror or a third registration shares it |
| RepositoryRuns.InterleavedDeletionsOrphanMirror | internal/bff/repositories.go:454-481 | after two registrations of one URL, two such deletions leave a mirror that nobody owns |
| RepositoryOwners.ProjectCreationStores | internal/bff/repositories.go:153-213 | a done creation has stored the trimmed request under the project's label and name, and written the mirror of its canonical URL and the project |
| RepositoryOwners.TenantCreationStores | internal/bff/repositories.go:215-273 | the same for a tenant |
| RepositoryOwners.StoredReadsBack | internal/bff/repositories.go:765-778 | a stored registration reads back as what was stored, under the name that was asked for |
| RepositoryOwners.ProjectCreationIsDoneIff | internal/bff/repositories.go:576-668 | without failing calls a creation is done exactly when name, texts, URL and credentials are acceptable, no other owner is asked for and the name is free; it is rejected exactly when the request is not acceptable |
| RepositoryOwners.TenantCreationIsDoneIff | internal/bff/repositories.go:576-668 | the same for a tenant |
| RepositoryOwners.ProjectDeletionIsDoneIff | internal/bff/repositories.go:275-328 | without failing calls a deletion is done exactly when the registration is stored with the project's label and not in use; with another label it is rejected and changes nothing |
| RepositoryOwners.TenantDeletionIsDoneIff | internal/bff/repositories.go:330-382 | the same for a tenant |
| RepositoryOwners.OnlyOwnersRemove | internal/bff/repositories.go:275-382 | whatever call fails, a request that removes a stored registration is a deletion from the owner its labels name |
| RepositoryOwners.RemovedByOwner | internal/bff/repositories.go:275-382 | over all serial runs with failing calls, a stored registration goes only by such a deletion |
| ValkeyTopology.CacheInstance.StoreObservation | internal/controllers/serviceinstance_controller.go:553-571 | what was computed from the earlier read replaces whatever is stored by now, unless the reconciliation has no news at all |
| ValkeyTopology.CacheInstance.ObserveSnapshot | internal/adapters/valkey.go:445-518 | the observation of a status is `Observe` |
| ValkeyTopology.CacheInstance.ObserveStandbys | internal/adapters/valkey.go:476-508 | the loop lists every standby other than the primary, in order, and counts the ready ones |
| ValkeyTopology.CacheInstance.ObserveOne | internal/adapters/valkey.go:480-507 | lag is taken from the parameters or else carried over; a mark for resynchronisation overrides readiness and message |
| ValkeyTopology.CacheInstance.IndexStandbys | internal/adapters/valkey.go:470-475 | a repeated name is looked up as its last entry |
| ValkeyTopology.CacheInstance.RequestFailover | internal/controllers/actionrequest_controller.go:1907-1960 | a refused request changes nothing; an accepted one swaps the roles and lists the replaced primary |
| ValkeyTopology.CacheInstance.RequestResync | internal/controllers/actionrequest_controller.go:1962-1996 | marks the first entry of a known standby, unless it is already resynchronising |
| ValkeyRuns.ObserveTwiceIffSettles | internal/adapters/valkey.go:445-518 | for every status, observing the stored observation again changes nothing if and only if it keeps some standby and none unnamed, or keeps none and the parameters offer none |
| ValkeyRuns.FirstObservationMayNotSettle | internal/adapters/valkey.go:665-676 | whenever a status lists only its own primary and the parameters declare another standby, the second observation differs from the first |
| ValkeyRuns.CleanStatusesSettle | internal/adapters/valkey.go:445-518 | a status with a primary and only other, named standbys settles at once |
| ValkeyRuns.TwoObservationsSettle | internal/adapters/valkey.go:445-518 | with named standbys in the parameters, the third observation equals the second from any status |
| ValkeyRuns.ObservationsAreClean | internal/adapters/valkey.go:476-508 | an observation that finds a primary and keeps named standbys lists neither the primary nor an empty name |
| ValkeyRuns.ReadyIffSomeStandbyEligible | internal/adapters/valkey.go:511-517 | readiness is Ready if and only if some standby has an observed lag within the threshold and no mark |
| ValkeyRuns.ObservationsKeepTopology | internal/adapters/valkey.go:445-518 | with every observation stored before anything else changes the status, through any observations with changing parameters and any marks, primary and standby names never change, and no standby loses the mark or the observed lag of its last entry, which is the one the observer looks up |
| ValkeyRuns.ResyncSurvivesObservationIff | internal/controllers/actionrequest_controller.go:1962-1984 | a resynchronisation request outlasts the next observation that reads it if and only if the standby is listed once or its last entry was marked before |
| ValkeyRuns.PromotionsAreBounded | internal/controllers/actionrequest_controller.go:1907-1996 | from any clean status, with every observation stored before anything else changes the status, over any run of observations, marks and requests the set of clusters stays, each promotion adds one entry, and promotions never outnumber the standbys that began unspent |
| ValkeyRuns.FormerPrimaryNeverReturns | internal/controllers/actionrequest_controller.go:1907-1960 | from any clean status, a replaced primary never becomes primary again in any such run |
| ValkeyRuns.PromotionRepeatsFormerPrimary | internal/controllers/actionrequest_controller.go:1929-1960 | from any clean status, a promotion lists the replaced primary at least twice |
| ValkeyRuns.ObservationLeads | internal/adapters/valkey.go:479-508 | after any observation, whenever an entry is marked the first entry of its name is marked and not ready |
| ValkeyRuns.RunLeads | internal/controllers/actionrequest_controller.go:1907-1996 | observations, requests and marks that withdraw readiness keep it so |
| ValkeyRuns.ImplicitRollbackIsRefused | internal/controllers/actionrequest_controller.go:1872-1889 | in such a status a rollback that finds its own target there changes nothing |
| ValkeyRuns.ObservedTargetIsSpent | internal/controllers/actionrequest_controller.go:1872-1889 | the target that an observed status gives is spent in all its entries |
| ValkeyRuns.DelayedRollbackIsRefused | internal/controllers/actionrequest_controller.go:1070-1092 | tried after any such run, a rollback is refused if all entries of its target were spent when the target was found |
| ValkeyRuns.FreshInstancesAreClean | internal/adapters/valkey.go:445-518 | the first observation of an instance without standbys, with a primary and named declared standbys not all of them the primary, leaves a clean status |
| ValkeyRuns.FreshRunsPromote | internal/controllers/actionrequest_controller.go:1907-1996 | from that first observation on, in every such run: clean, bounded promotions, no replaced primary returns, and no rollback finds a target of its own that it may promote while marks withdraw readiness |
| ValkeyInterleavings.StoreKeepsPrimaryIff | internal/controllers/serviceinstance_controller.go:553-571 | a store keeps the primary if and only if no promotion has been accepted since its read; otherwise it puts the former one back |
| ValkeyInterleavings.StoreKeepsMarksIff | internal/controllers/serviceinstance_controller.go:553-571 | a store takes no mark away if and only if every standby marked by then was marked at its read |
| ValkeyInterleavings.StayOutIff | internal/controllers/serviceinstance_controller.go:515-571 | over all interleavings of reads, stores, early stops, requests and rollbacks from any sound state, no replaced primary is primary again if and only if no store is overtaken by a promotion |
| ValkeyInterleavings.FormerPrimariesStayOutIff | internal/controllers/serviceinstance_controller.go:515-571 | the same from every clean status |
| ValkeyInterleavings.InterleavedPromotionsAreBounded | internal/controllers/actionrequest_controller.go:1055-1096 | while no store is overtaken by a promotion, the clusters stay, each accepted promotion retires another one and adds an entry, and there are at most as many as standbys |
| ValkeyInterleavings.TimelyRunsAreRuns | internal/controllers/serviceinstance_controller.go:515-571 | while every store finds the status that was read, an interleaved run is a run in which observations are stored at once |
| ValkeyInterleavings.LateStoresRepeat | internal/controllers/serviceinstance_controller.go:553-571 | with stores that are overtaken every time, any number of promotions is accepted and the status ends as it began |
| ValkeyInterleavings.OvertakenMarkLetsRollbackThrough | internal/controllers/actionrequest_controller.go:1070-1092 | a run in which a rollback finds its target by a mark that a late store then takes away, and promotes it |
| ValkeyInterleavings.TornPatchListsPrimary | internal/controllers/serviceinstance_controller.go:558-570 | on its base a merge patch gives the wanted status; on the result of a promotion since, an observation's patch lists the promoted primary as a standby |
| ValkeyInterleavings.TornPatchDoesNotSettle | internal/controllers/serviceinstance_controller.go:558-570 | with one standby that leaves a status that the next observation does not settle |
| ValkeyLags.ObservationReads | internal/adapters/valkey.go:472-518 | each observed entry takes the reported lag, else the last observed one, else none; it is ready exactly when that is within the threshold and the entry is unmarked; its message says which |
| ValkeyLags.ReadinessIsThatOfEntries | internal/adapters/valkey.go:445-518 | the service is Ready exactly when some entry is, else Blocked |
| ValkeyLags.ObservationLists | internal/adapters/valkey.go:651-683 | primary and listed names, told by status, parameters and placement |
| ValkeyLags.LagIsLastReported | internal/adapters/valkey.go:472-518 | over runs, a standby's lag is the last one reported since it was last marked by a request, demoted or promoted |
| ValkeyLags.ReadyMeansRecentLag | internal/adapters/valkey.go:472-518 | over runs, a standby is ready after an observation only if that lag is within the given threshold, or 30 when none is given |
| ValkeyLags.FailoverAcceptedIff | internal/controllers/actionrequest_controller.go:1907-1960 | a failover is accepted exactly for a ready first entry under a multi-cluster plan; then candidate and primary have changed places, the former primary marked and without a lag, else nothing changes |
| ValkeyLags.ResyncAcceptedIff | internal/controllers/actionrequest_controller.go:1962-1996 | a resynchronisation is accepted exactly for the first entry of a standby that is ready or unmarked, which is then marked, else nothing changes |
| Ordering.SortInPlace | internal/adapters/nats.go:497-510 | an in-place sort yields a sorted permutation; nothing is said about equal keys |
| Ordering.OneOutcome | internal/adapters/nats.go:497-510 | when all keys differ, every sorted permutation is the same sequence |
| Ordering.LessIff | internal/adapters/nats.go:497-510 | a name precedes another exactly when it is a proper prefix or has the smaller character where they first differ |
| NatsResources.NormalizeAndSort | internal/adapters/nats.go:494-510 | the three slices become a sorted permutation of their normalised elements |
| NatsResources.ValidateStreams | internal/adapters/nats.go:652-665 | no issue if and only if every stream is named and has subjects and names differ; collects the declared names |
| NatsResources.ValidateConsumers | internal/adapters/nats.go:666-680 | no issue if and only if every consumer is named, on a declared stream, and keys differ |
| NatsResources.ValidateCredentials | internal/adapters/nats.go:681-699 | no issue if and only if names are present and differ and nonempty usernames differ |
| NatsResources.ValidateManagedResources | internal/adapters/nats.go:647-701 | no issue if and only if the parameters are accepted |
| NatsResources.AcceptedPairsAreUnique | internal/adapters/nats.go:666-680 | acceptance makes (stream, consumer) pairs unique and puts every consumer on a declared stream |
| NatsResources.CanonicalForm | internal/adapters/nats.go:494-511 | if what one order of declarations came to is accepted, every reordering comes to the same parameters, digest and script |
| NatsResources.CanonicalFormIsStable | internal/adapters/nats.go:494-511 | normalising and sorting accepted parameters again gives the same parameters |
| NatsResources.NormalStreamTwice | internal/adapters/nats_resources.go:47-60 | normalising a stream twice is normalising it once, exactly when its name or description is not blank |
| NatsResources.NormalConsumerTwice | internal/adapters/nats_resources.go:62-79 | the same for a consumer |
| NatsResources.NormalCredentialTwice | internal/adapters/nats_resources.go:81-86 | the same for a credential |
| NatsResources.StreamsComeFirst | internal/adapters/nats.go:757-785 | the script of accepted parameters applies a consumer's stream before the consumer |
| NatsResources.SharedConsumerFile | internal/adapters/nats.go:712-715 | two consumers share a file if and only if they are the same pair or dashes shift between their names |
| NatsResources.AcceptedConsumersMayShareFile | internal/adapters/nats.go:703-716 | normalised, sorted and accepted parameters with two consumers that share a file |
| NatsResources.DeclarationsAreFilledIn | internal/adapters/nats_resources.go:47-86 | normalising keeps what a declaration gives and fills in what it leaves out with the stated defaults; nothing is lost or made up |
| NatsResources.DeclarationsAreOrdered | internal/adapters/nats.go:497-510 | streams and credentials come by name, consumers by stream and then by name |
| NatsResources.SameKeyIff | internal/adapters/nats.go:666-680 | validation takes two consumers for one exactly when they are the same pair or slashes in their names shift |
| DatabaseName.TruncateDatabaseName | internal/adapters/database_naming.go:59-68 | the range loop ends at the longest prefix of whole characters that fits |
| DatabaseName.ResolveDatabaseName | internal/adapters/database_naming.go:16-53 | the builder loop and the fix-ups compute `Resolve` |
| DatabaseName.TruncationKeepsLongestPrefix | internal/adapters/database_naming.go:55-68 | a name over 63 bytes is cut to a prefix within 63 bytes that one more character would overflow, less trailing underscores |
| DatabaseName.ResolvedNamesAreGood | internal/adapters/database_naming.go:16-68 | every input resolves to a nonempty name of at most 63 bytes without leading, trailing or doubled underscore and without leading ASCII digit |
| DatabaseName.GoodNamesAreFixed | internal/adapters/database_naming.go:16-68 | good names are exactly the names that resolving leaves alone |
| DatabaseName.ResolveTwice | internal/adapters/database_naming.go:16-68 | resolving a resolved name returns it unchanged |
| NameWords.SqueezedIsWords | internal/adapters/database_naming.go:24-39 | trimmed and squeezed, a text is its lowered words, in order, with one underscore wherever separators lay between them |
| NameWords.ResolvedKeepsWords | internal/adapters/database_naming.go:16-68 | the name is that of the words of the request, or of the instance if it is blank, cut to the longest prefix that fits |
| MySqlRendering.StandbyClusters | internal/adapters/mysql.go:806-822 | the declared standbys, trimmed, other than the primary, each where it first occurs |
| MySqlRendering.RenderClusterRoles | internal/adapters/mysql.go:349-366 | the primary, then in multi-region plans every standby with the role of the mode |
| MySqlRendering.ClustersDifferWithOnePrimary | internal/adapters/mysql.go:349-366 | for all parameters the rendered clusters differ pairwise and only the first is primary |
| MySqlRendering.ActivePassiveReadsBackIff | internal/adapters/mysql.go:710-725 | the text of an active-passive configuration reads back as its lines if and only if neither cluster names nor monitor interval hold a line break |
| MySqlRendering.LinesSetIntended | internal/adapters/mysql.go:685-725 | whatever the names, the last line of a configuration that sets read_only is the one of the mode and role |
| MySqlRendering.TextSets | internal/adapters/mysql.go:685-725 | for all names, the read_only setting of the text is the last one that begins at a line break within a line, or else that of mode and role |
| MySqlRendering.OneWriterIff | internal/adapters/mysql.go:685-725 | for all parameters, the primary is the only writable cluster if and only if mode and role, with what line breaks add, let the primary alone write |
| MySqlRendering.UnbrokenOneWriterIff | internal/adapters/mysql.go:685-725 | where nothing written holds a line break, the primary is writable, and alone so if and only if the mode is active-passive or nothing else is rendered |
| MySqlRendering.AcceptedServicesHaveOneWriterIff | internal/adapters/mysql.go:315-334 | an accepted service in any mode but Galera has the primary as its only writable cluster, in active-passive mode if and only if line breaks do not say otherwise |
| MySqlRendering.BrokenPrimaryDoesNotWrite | internal/adapters/mysql.go:710-717 | a primary whose name goes on after a line break with read_only=true is not writable |
| MySqlRendering.RenderPaths | internal/adapters/mysql.go:574-608 | the artifact paths of all rendered clusters, in order |
| MySqlRendering.NoTwoArtifactsSharePath | internal/adapters/mysql.go:574-608 | no two artifacts of a render share a path, whatever the cluster names |
| MySqlWriters.StandbysAre | internal/adapters/mysql.go:806-822 | the standbys are the nonempty trimmed declared names but the primary |
| MySqlWriters.StandbysInOrder | internal/adapters/mysql.go:806-822 | they come in the order in which they are first declared |
| MySqlWriters.RolesAre | internal/adapters/mysql.go:349-366 | which clusters are rendered and with which roles, told by topology and parameters |
| MySqlWriters.SettingsFollowRequest | internal/adapters/mysql.go:685-725 | without line breaks, the read_only setting of each rendered cluster, told by topology and parameters |
| MySqlWriters.WritersFollowRequest | internal/adapters/mysql.go:788-797 | without line breaks, the primary alone writes where active-passive is asked for, or nothing is and the plan spans regions; else every rendered cluster does |
| MySqlWriters.PathsAre | internal/adapters/mysql.go:574-608 | the artifacts are the manifests of the rendered clusters, each under its cluster's path |
| ProxyPath.CleanPathStays | internal/bff/kubernetes_proxy.go:204-219 | removing dot segments leaves a path without relative segments unchanged |
| ProxyPath.AllowedPathsAreNormal | internal/bff/kubernetes_proxy.go:156-219 | every accepted path is unchanged by section 5.2.4 of RFC 3986, and its nonempty segments are the ones the decision was made on |
| ProxyPath.DecisionIsScope | internal/bff/kubernetes_proxy.go:156-199 | the switch accepts exactly openapi, discovery documents and resources scoped to the namespace |
| ProxyPath.AllowedIff | internal/bff/kubernetes_proxy.go:156-219 | a path is accepted if and only if it is well formed and, normalised, in the token's scope |
| ProxyPath.TargetIff | internal/bff/kubernetes_proxy.go:100-114 | a request is forwarded to a namespace and path if and only if it is the prefix, a name without slashes that trims to the namespace, and the rest, an empty rest meaning /api; all others are refused |
| ProxyPath.TargetRoundTrips | internal/bff/kubernetes_proxy.go:100-114 | a request built from a namespace and a rest is forwarded to them |
| ProxyPathText.SegmentsIff | internal/bff/kubernetes_proxy.go:204-219 | a path splits into segments exactly when it has a name, no query or fragment, no relative piece and no inner double slash |
| ProxyPathText.AllowedTextIff | internal/bff/kubernetes_proxy.go:156-219 | a path is accepted exactly when its text is well formed and, normalised, it names something in the token's scope |
| OidcCache.AuthRuntime.OidcProvider | internal/bff/authenticator.go:920-958 | a hit returns the cached runtime; a miss builds, stores and returns one; failures leave the cache alone |
| OidcCache.StepStaysSound | internal/bff/authenticator.go:920-958 | every step of every call and every provider edit keeps each entry built from the provider its version was issued to |
| OidcCache.CallsGetTheirOwnProvider | internal/bff/authenticator.go:920-958 | under any interleaving a successful call returns a runtime built from the provider it was given |
| OidcCache.WrittenRuntimeIsReused | internal/bff/authenticator.go:920-958 | a written runtime is returned to every call with that revision of the provider, without building, until another is written for its name; a call with another revision builds its own |
| NamespaceClaims.NamespaceClaimReconciler.Reconcile | internal/controllers/namespaceclaim_controller.go:21-77 | creates or overwrites the instance through admission and sets the Accepted condition; a rejected write changes nothing |
| NamespaceClaims.DesiredIsAdmitted | internal/controllers/namespaceclaim_controller.go:92-116 | defaulting leaves the instance of an admitted claim alone and creation accepts it |
| NamespaceClaims.WriteAcceptedIff | api/v1alpha1/webhook_validation.go:1221-1242 | the write for an admitted claim is accepted if and only if there is no instance or it has the claim's project, class and plan |
| NamespaceClaims.StepStaysBacked | api/v1alpha1/webhook_validation.go:1264-1272 | everything but claims for other projects and instances made by hand for something else keeps claim and instance those of the project |
| NamespaceClaims.ReconcilerIsNeverRejected | internal/controllers/namespaceclaim_controller.go:41-62 | over any such history, deletions and new claims included, no write is rejected, and project, class and plan never change |
| NamespaceClaims.AlwaysAcceptedIff | internal/controllers/namespaceclaim_controller.go:41-62 | over all histories, no write is ever rejected if and only if no claim is made next to an instance that is not its own and no instance next to a claim it does not belong to |
| NamespaceClaims.RecreatedClaimIsStuck | api/v1alpha1/webhook_validation.go:1419-1424 | deleting a claim and making it again for another project runs into the old instance |
| NamespaceClaims.HandMadeInstanceIsStuck | api/v1alpha1/webhook_validation.go:1419-1424 | so does making a claim next to an instance of its name that was made for something else |
| NamespaceClaims.StuckStaysStuck | api/v1alpha1/webhook_validation.go:1221-1230 | from then on every write is rejected until the claim or the instance is deleted |
| NamespaceClaims.WrittenInstanceIs | internal/controllers/namespaceclaim_controller.go:92-116 | at any point of any history, a write leaves the instance with the claim's project, quotas and deletion policy and the class, plan, exposure and secret policy of namespaces |

## Left out

- Hashes (SHA-256), JSON and YAML encoding, URL canonicalisation and the per-character Unicode tables are parameters;
  a property that needs them injective, long enough or idempotent requires so.
- Clocks are parameters. The audit cutoff is the clock less a fixed retention instead of a calendar subtraction of days.
- Integer and duration overflow: counts, lags and times are unbounded integers.
- Strings are sequences of Unicode scalar values; bytes that are not valid UTF-8 are not modelled.
- Concurrent logins: the bound is for logins that run one after the other. A failure recorded after the window has ended
  without a new question to the gate opens a fresh window.
- LoginRuns.SlidingBound: counts failures since the last reset of the key, because a reset starts the count anew.
- Concurrent repository handlers: the mirror invariant is for serial ones; of concurrent ones only two interleaved
  deletions are treated.
- Repository dependency search, authorisation of the repository handlers and created-by annotations: `inUse` and the
  owner are parameters.
- Error and status texts are datatypes; HTTP, logging, metrics and cookies are not modelled.
- Read failures that only return an error before anything is changed (reconciler reads, resolver lists).
- The order of validation issues, and their texts: the validators are proved for acceptance.
- NATS parameters other than streams, consumers and credentials, and the contents of their configuration files.
- The moment between a controller's last read and its patch: runs treat the two as one, and only the patch of an observation
  over a promotion is treated apart.
- MySQL manifests other than the server configuration; the pod-network check of Galera plans, which only rejects more.
- NamespaceClaims.NamespaceClaimReconciler.Reconcile: leaves out labels and the copying of status fields; defaulting,
  which updates the object in place, is a function of the value.
- Calls into OIDC discovery and secret reading are one `environment` input that may be absent.
- Reconcilers, materialiser and delivery code that write none of the modelled state are not part of this model.
